/** What the orchestrator's operations come to, id by id and in the numbers of the source: no lemma here states its
    claim by the functions that `Registry` computes with. */
module RegistryMeaning {
  import opened Collections
  import opened Eviction
  import opened Registry
  import opened RegistryFacts

  predicate HasFinished(r: Registry, id: Id) {
    id in r.tasks && id in r.results && (r.results[id].status == Completed || r.results[id].status == Failed)
  }

  predicate HasExpired(r: Registry, now: Time, id: Id) {
    HasFinished(r, id) && now - r.tasks[id].createdAt > 1800.0
  }

  /** An agent without an activity time counts as last active at 0. */
  predicate QuietFor(r: Registry, now: Time, id: Id, limit: Time) {
    id in r.agents && now - (if id in r.lastActivity then r.lastActivity[id] else 0.0) > limit
  }

  lemma FinishedMeans(r: Registry, id: Id)
    ensures HasFinished(r, id) <==> id in FinishedTasks(r)
  {
  }

  lemma ExpiredMeans(r: Registry, now: Time, id: Id)
    ensures HasExpired(r, now, id) <==> id in ExpiredTasks(r, now)
  {
  }

  lemma IdleMeans(r: Registry, now: Time, limit: Time, id: Id)
    ensures QuietFor(r, now, id, limit) <==> id in IdleAgents(r, now, limit)
  {
  }

  // ----- Clean-ups -----

  /** Tasks a clean-up removes: finished ones, each at least as old as any finished one that stays. */
  ghost predicate OldestFinishedGo(r: Registry, removed: set<Id>) {
    && (forall id :: id in removed ==> HasFinished(r, id))
    && (forall gone, kept :: gone in removed && HasFinished(r, kept) && kept !in removed ==>
          r.tasks[gone].createdAt <= r.tasks[kept].createdAt)
  }

  /** It removes what has expired; beyond that it goes down to `floor` tasks and no further, and stops above it only
      for want of finished tasks. */
  ghost predicate DownTo(r: Registry, now: Time, removed: set<Id>, floor: int) {
    && (forall id :: HasExpired(r, now, id) ==> id in removed)
    && ((exists id :: id in removed && !HasExpired(r, now, id)) ==> |r.tasks| - |removed| >= floor)
    && ((exists id :: HasFinished(r, id) && id !in removed) ==> |r.tasks| - |removed| <= floor)
  }

  lemma OldestFinishedMeans(r: Registry, removed: set<Id>)
    requires OldestFirst(removed, FinishedTasks(r), CreationTimes(r))
    ensures OldestFinishedGo(r, removed)
  {
    forall id | id in removed ensures HasFinished(r, id) {
      FinishedMeans(r, id);
    }
    forall gone, kept | gone in removed && HasFinished(r, kept) && kept !in removed
      ensures r.tasks[gone].createdAt <= r.tasks[kept].createdAt
    {
      FinishedMeans(r, kept);
      assert CreationTimes(r)[gone] <= CreationTimes(r)[kept];
    }
  }

  lemma DownToMeans(r: Registry, now: Time, removed: set<Id>, floor: int)
    requires ExpiredTasks(r, now) <= removed <= FinishedTasks(r)
    requires |removed| > |ExpiredTasks(r, now)| ==> |r.tasks| - |removed| >= floor
    requires |removed| < |FinishedTasks(r)| ==> |r.tasks| - |removed| <= floor
    ensures DownTo(r, now, removed, floor)
  {
    forall id | HasExpired(r, now, id) ensures id in removed {
      ExpiredMeans(r, now, id);
    }
    if id :| id in removed && !HasExpired(r, now, id) {
      ExpiredMeans(r, now, id);
      ProperCard(ExpiredTasks(r, now), removed, id);
    }
    if id :| HasFinished(r, id) && id !in removed {
      FinishedMeans(r, id);
      ProperCard(removed, FinishedTasks(r), id);
    }
  }

  lemma ProperCard(a: set<Id>, b: set<Id>, x: Id)
    requires a <= b && x in b && x !in a
    ensures |a| < |b|
  {
    SubsetCard(a + {x}, b);
  }

  /** The periodic clean-up of tasks: nothing within thirty seconds of the last one; then the finished tasks created
      more than half an hour ago, and the oldest other finished ones down to 5000. */
  lemma PeriodicMeans(r: Registry, now: Time, removed: set<Id>)
    requires TasksSwept(r, now, removed)
    ensures now - r.lastCleanup < 30.0 ==> removed == {}
    ensures now - r.lastCleanup >= 30.0 ==> DownTo(r, now, removed, 5000)
    ensures OldestFinishedGo(r, removed)
  {
    SweepIsOldestFirst(r, now, removed);
    OldestFinishedMeans(r, removed);
    if now - r.lastCleanup >= 30.0 {
      SubsetCard(removed, FinishedTasks(r));
      SubsetCard(ExpiredTasks(r, now), removed);
      DownToMeans(r, now, removed, 5000);
    }
  }

  /** The clean-up that a full registry forces goes down to 4900. */
  lemma ForcedMeans(r: Registry, now: Time, removed: set<Id>)
    requires ForcedTaskEviction(r, now, removed)
    ensures OldestFinishedGo(r, removed) && DownTo(r, now, removed, 4900)
  {
    OldestFinishedMeans(r, removed);
    SubsetCard(ExpiredTasks(r, now), FinishedTasks(r));
    DownToMeans(r, now, removed, 4900);
  }

  /** Agents a clean-up removes: each at least as long inactive as any that stays. */
  ghost predicate LongestInactiveGo(r: Registry, removed: set<Id>) {
    && removed <= r.agents.Keys
    && forall gone, kept :: gone in removed && kept in r.agents && kept !in removed ==>
         (if gone in r.lastActivity then r.lastActivity[gone] else 0.0) <=
         (if kept in r.lastActivity then r.lastActivity[kept] else 0.0)
  }

  lemma LongestInactiveMeans(r: Registry, removed: set<Id>)
    requires OldestFirst(removed, r.agents.Keys, ActivityTimes(r))
    ensures LongestInactiveGo(r, removed)
  {
    forall gone, kept | gone in removed && kept in r.agents && kept !in removed
      ensures (if gone in r.lastActivity then r.lastActivity[gone] else 0.0) <=
              (if kept in r.lastActivity then r.lastActivity[kept] else 0.0)
    {
      assert ActivityTimes(r)[gone] <= ActivityTimes(r)[kept];
    }
  }

  /** The periodic clean-up of agents: nothing within thirty seconds of the last one; then whoever has been inactive for
      more than a quarter of an hour, and the longest inactive others down to 500. */
  lemma AgentSweepMeans(r: Registry, now: Time, removed: set<Id>)
    requires AgentsSwept(r, now, removed)
    ensures now - r.lastAgentCleanup < 30.0 ==> removed == {}
    ensures now - r.lastAgentCleanup >= 30.0 ==>
              && |r.agents| - |removed| <= 500
              && (forall id :: QuietFor(r, now, id, 900.0) ==> id in removed)
              && ((exists id :: id in removed && !QuietFor(r, now, id, 900.0)) ==> |r.agents| - |removed| == 500)
    ensures LongestInactiveGo(r, removed)
  {
    if now - r.lastAgentCleanup >= 30.0 {
      LongestInactiveMeans(r, removed);
      forall id | QuietFor(r, now, id, 900.0) ensures id in removed {
        IdleMeans(r, now, 900.0, id);
      }
      if id :| id in removed && !QuietFor(r, now, id, 900.0) {
        IdleMeans(r, now, 900.0, id);
        ProperCard(IdleAgents(r, now, 900.0), removed, id);
      }
    }
  }

  /** The clean-up that a lookup in a full registry forces: only agents inactive for more than a minute go, down to 450
      and no further, and it stops above that only for want of such agents. */
  lemma ForcedAgentsMeans(r: Registry, now: Time, removed: set<Id>)
    requires ForcedAgentEviction(r, now, removed)
    ensures LongestInactiveGo(r, removed)
    ensures forall id :: id in removed ==> QuietFor(r, now, id, 60.0)
    ensures removed != {} ==> |r.agents| - |removed| >= 450
    ensures (exists id :: QuietFor(r, now, id, 60.0) && id !in removed) ==> |r.agents| - |removed| <= 450
  {
    LongestInactiveMeans(r, removed);
    forall id | id in removed ensures QuietFor(r, now, id, 60.0) {
      IdleMeans(r, now, 60.0, id);
    }
    if removed != {} {
      var id :| id in removed;
      ProperCard({}, removed, id);
    }
    if id :| QuietFor(r, now, id, 60.0) && id !in removed {
      IdleMeans(r, now, 60.0, id);
      ProperCard(removed, IdleAgents(r, now, 60.0), id);
    }
  }

  /** The tasks with those ids go, with their results; every other entry of all four dictionaries stays. */
  ghost predicate OnlyTasksGo(r: Registry, r': Registry, removed: set<Id>) {
    && (forall id :: id in r'.tasks <==> id in r.tasks && id !in removed)
    && (forall id :: id in r'.tasks ==> r'.tasks[id] == r.tasks[id])
    && (forall id :: id in r'.results <==> id in r.results && id !in removed)
    && (forall id :: id in r'.results ==> r'.results[id] == r.results[id])
    && r'.agents == r.agents && r'.lastActivity == r.lastActivity
  }

  ghost predicate OnlyAgentsGo(r: Registry, r': Registry, removed: set<Id>) {
    && (forall id :: id in r'.agents <==> id in r.agents && id !in removed)
    && (forall id :: id in r'.agents ==> r'.agents[id] == r.agents[id])
    && (forall id :: id in r'.lastActivity <==> id in r.lastActivity && id !in removed)
    && (forall id :: id in r'.lastActivity ==> r'.lastActivity[id] == r.lastActivity[id])
    && r'.tasks == r.tasks && r'.results == r.results
  }

  /** A clean-up takes away what it selects, and nothing else. */
  lemma CleanUpsTakeOnlyThat(r: Registry, removed: set<Id>)
    ensures OnlyTasksGo(r, WithoutTasks(r, removed), removed)
    ensures OnlyAgentsGo(r, WithoutAgents(r, removed), removed)
  {
  }

  /** A periodic one also notes its time, unless it was not due. */
  lemma TaskSweepTakesOnlyThat(r: Registry, now: Time, removed: set<Id>)
    requires TasksSwept(r, now, removed)
    ensures OnlyTasksGo(r, AfterTaskSweep(r, now, removed), removed)
    ensures AfterTaskSweep(r, now, removed).lastCleanup == if now - r.lastCleanup < 30.0 then r.lastCleanup else now
  {
    if now - r.lastCleanup >= 30.0 {
      CleanUpsTakeOnlyThat(r, removed);
    }
  }

  lemma AgentSweepTakesOnlyThat(r: Registry, now: Time, removed: set<Id>)
    requires AgentsSwept(r, now, removed)
    ensures OnlyAgentsGo(r, AfterAgentSweep(r, now, removed), removed)
    ensures AfterAgentSweep(r, now, removed).lastAgentCleanup ==
            if now - r.lastAgentCleanup < 30.0 then r.lastAgentCleanup else now
  {
    if now - r.lastAgentCleanup >= 30.0 {
      CleanUpsTakeOnlyThat(r, removed);
    }
  }

  /** The sessions to disconnect: those with a name that lost an agent and have none left. */
  lemma AbandonedMeans(r: Registry, removed: set<Id>, session: Id)
    requires removed <= r.agents.Keys
    ensures session in AbandonedSessions(r, removed) <==>
              && session != Id("")
              && (exists a :: a in removed && r.agents[a].sessionId == session)
              && (forall a :: a in r.agents && r.agents[a].sessionId == session ==> a in removed)
  {
    if a :| a in removed && r.agents[a].sessionId == session && session != Id("")
            && forall b :: b in r.agents && r.agents[b].sessionId == session ==> b in removed
    {
      assert r.agents[a].sessionId in AbandonedSessions(r, removed);
    }
  }

  // ----- Submissions, lookups and runs -----

  /** A submission is refused exactly in a registry of 5000 tasks none of which has finished; otherwise its task is
      pending, and of the others only finished ones are gone. */
  lemma SubmissionMeans(r: Registry, r': Registry, taskId: Id, task: Task, now2: Time,
                        refused: bool, evicted: set<Id>, idle: set<Id>)
    requires Submitted(r, r', taskId, task, now2, refused, evicted, idle)
    ensures refused <==> |r.tasks| == 5000 && forall id :: id in r.tasks ==> !HasFinished(r, id)
    ensures refused ==> r'.tasks == r.tasks && r'.results == r.results
    ensures !refused ==>
              && taskId in r'.tasks && r'.tasks[taskId] == task
              && taskId in r'.results && r'.results[taskId] == TaskResult(Pending, None, None)
              && (forall id :: id in r.tasks && id != taskId && id !in r'.tasks ==> HasFinished(r, id))
              && (forall id :: id in r'.tasks && id != taskId ==> id in r.tasks && r'.tasks[id] == r.tasks[id])
              && (forall id :: id in r'.results && id != taskId ==> id in r.results && r'.results[id] == r.results[id])
  {
    forall id | id in r.tasks ensures HasFinished(r, id) <==> id in FinishedTasks(r) {
      FinishedMeans(r, id);
    }
    if refused {
      assert forall id :: id in r.tasks ==> !HasFinished(r, id);
    } else if |r.tasks| == 5000 {
      var id :| id in FinishedTasks(r);
      assert id in r.tasks && HasFinished(r, id);
    }
  }

  /** The agents inactive for more than a minute. */
  function Quiet(r: Registry, now: Time): set<Id> {
    set id | id in r.agents && QuietFor(r, now, id, 60.0)
  }

  /** A lookup gives the agent if it is there, or if it can be built and either fewer than 500 are there or enough have
      been inactive for a minute to make room. */
  lemma LookupMeans(r: Registry, agentId: Id, built: Option<Agent>, now: Time)
    ensures LookupSucceeds(r, agentId, built, now) <==>
              || agentId in r.agents
              || (built.Some?
                  && (|r.agents| < 500 || |Quiet(r, now)| > |r.agents| - 500))
  {
    assert Quiet(r, now) == IdleAgents(r, now, 60.0);
  }

  /** It evicts nobody unless the agent has to be built in a registry of 500 or more. */
  lemma LookupEvictsOnlyWhenFull(r: Registry, agentId: Id, now: Time, evicted: set<Id>)
    requires LookupEvicts(r, agentId, now, evicted) && evicted != {}
    ensures agentId !in r.agents && |r.agents| >= 500 && ForcedAgentEviction(r, now, evicted)
  {
  }

  /** What a lookup leaves: the agent with the time of the lookup as its last activity, the evicted ones gone,
      everything else as it was. */
  lemma LookedUpMeans(r: Registry, agentId: Id, built: Option<Agent>, evicted: set<Id>, now: Time)
    requires agentId in r.agents ==> evicted == {}
    ensures var r' := AfterLookup(r, agentId, built, evicted, now);
            && r'.tasks == r.tasks && r'.results == r.results
            && (agentId in r.agents || built.Some? ==>
                  && agentId in r'.agents && agentId in r'.lastActivity && r'.lastActivity[agentId] == now
                  && r'.agents[agentId] == if agentId in r.agents then r.agents[agentId] else built.value)
            && (agentId !in r.agents && built.None? ==> agentId !in r'.agents)
            && (forall id :: id != agentId ==> (id in r'.agents <==> id in r.agents && id !in evicted))
            && (forall id :: id != agentId && id in r'.agents ==> r'.agents[id] == r.agents[id])
            && (forall id :: id != agentId ==> (id in r'.lastActivity <==> id in r.lastActivity && id !in evicted))
            && (forall id :: id != agentId && id in r'.lastActivity ==> r'.lastActivity[id] == r.lastActivity[id])
  {
  }

  /** A run of a task ends completed with the reply exactly when its context was complete, the agent was there or could
      be built in time, and the model replied; else failed with the error. */
  lemma OutcomeMeans(r: Registry, r': Registry, taskId: Id, configured: bool, built: Option<Agent>,
                     reply: Option<string>, error: string, now1: Time, now2: Time, now3: Time,
                     result: TaskResult, evicted: set<Id>)
    requires taskId in r.tasks
    requires Processed(r, r', taskId, configured, built, reply, error, now1, now2, now3, result, evicted)
    ensures result == TaskResult(Completed, reply, None) || result == TaskResult(Failed, None, Some(error))
    ensures result.status == Completed <==>
            && configured && reply.Some?
            && (|| r.tasks[taskId].agentId in r.agents
                || (built.Some? && (|r.agents| < 500 || |Quiet(r, now1)| > |r.agents| - 500)))
  {
    var running := WithResult(r, taskId, RUNNING);
    LookupMeans(running, r.tasks[taskId].agentId, built, now1);
    assert Quiet(running, now1) == Quiet(r, now1);
  }

  /** It records its result and, whatever came of it, its end as the agent's last activity; no other task's result
      changes, and of the agents only evicted ones are gone: none unless an agent was to be built in a registry of 500
      or more. */
  lemma RunMeans(r: Registry, r': Registry, taskId: Id, configured: bool, built: Option<Agent>, reply: Option<string>,
                 error: string, now1: Time, now2: Time, now3: Time, result: TaskResult, evicted: set<Id>)
    requires taskId in r.tasks
    requires Processed(r, r', taskId, configured, built, reply, error, now1, now2, now3, result, evicted)
    ensures taskId in r'.results && r'.results[taskId] == result
    ensures r.tasks[taskId].agentId in r'.lastActivity && r'.lastActivity[r.tasks[taskId].agentId] == now3
    ensures r'.tasks == r.tasks
    ensures forall id :: id != taskId ==> (id in r'.results <==> id in r.results)
    ensures forall id :: id != taskId && id in r'.results ==> r'.results[id] == r.results[id]
    ensures forall id :: id in r.agents && id !in evicted ==> id in r'.agents && r'.agents[id] == r.agents[id]
    ensures evicted != {} ==> configured && r.tasks[taskId].agentId !in r.agents && |r.agents| >= 500
  {
  }

  // ----- Cancellations and teardowns -----

  predicate IsUnfinished(r: Registry, id: Id) {
    id in r.tasks && !(id in r.results && (r.results[id].status == Completed || r.results[id].status == Failed))
  }

  /** Exactly those tasks' results are now the failure that a cancellation records. */
  ghost predicate OnlyThoseFail(r: Registry, r': Registry, hit: set<Id>) {
    && r' == r.(results := r'.results)
    && (forall id :: id in hit ==>
          id in r'.results && r'.results[id] == TaskResult(Failed, None, Some("Task cancelled by user")))
    && (forall id :: id !in hit ==> (id in r'.results <==> id in r.results))
    && (forall id :: id !in hit && id in r'.results ==> r'.results[id] == r.results[id])
  }

  lemma CancelMeans(r: Registry, taskId: Id)
    ensures OnlyThoseFail(r, WithResult(r, taskId, CANCELLED), {taskId})
    ensures taskId in r.tasks && !Finished(r, taskId) <==> IsUnfinished(r, taskId)
  {
  }

  function OpenTasks(r: Registry, agentId: Id): set<Id> {
    set id | id in r.tasks && IsUnfinished(r, id) && r.tasks[id].agentId == agentId
  }

  lemma CancelAgentMeans(r: Registry, agentId: Id)
    ensures UnfinishedTasksOf(r, agentId) == OpenTasks(r, agentId)
    ensures OnlyThoseFail(r, Cancelled(r, UnfinishedTasksOf(r, agentId)), OpenTasks(r, agentId))
  {
  }

  /** The session's tasks and agents are gone, whatever their status, with their results and activity times; everything
      else is as it was. */
  ghost predicate OnlySessionGoes(r: Registry, r': Registry, sessionId: Id) {
    && (forall id :: id in r'.tasks <==> id in r.tasks && r.tasks[id].sessionId != sessionId)
    && (forall id :: id in r'.tasks ==> r'.tasks[id] == r.tasks[id])
    && (forall id :: id in r'.results <==>
                       id in r.results && !(id in r.tasks && r.tasks[id].sessionId == sessionId))
    && (forall id :: id in r'.results ==> r'.results[id] == r.results[id])
    && (forall id :: id in r'.agents <==> id in r.agents && r.agents[id].sessionId != sessionId)
    && (forall id :: id in r'.agents ==> r'.agents[id] == r.agents[id])
    && (forall id :: id in r'.lastActivity <==>
                       id in r.lastActivity && !(id in r.agents && r.agents[id].sessionId == sessionId))
    && (forall id :: id in r'.lastActivity ==> r'.lastActivity[id] == r.lastActivity[id])
    && r'.lastCleanup == r.lastCleanup && r'.lastAgentCleanup == r.lastAgentCleanup
  }

  lemma EndSessionMeans(r: Registry, sessionId: Id)
    ensures OnlySessionGoes(r, WithoutSession(r, sessionId), sessionId)
  {
  }
}
