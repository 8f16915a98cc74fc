/** `AgentOrchestrator`: the methods that update the dictionaries, with nothing running between their awaits. */
module Orchestrator {
  import opened Collections
  import opened Eviction
  import opened Registry
  import opened RegistryFacts
  import opened RegistryMeaning

  /** Appends the ids of the first `n` stamps to a removal list. */
  method AppendIds(ids: seq<Id>, oldest: seq<Stamp>, n: nat) returns (r: seq<Id>)
    requires NoDup(ids) && DistinctIds(oldest) && ToSet(ids) !! Ids(oldest) && n <= |oldest|
    ensures NoDup(r) && ToSet(r) == ToSet(ids) + Ids(oldest[..n])
  {
    r := ids;
    for k := 0 to n
      invariant NoDup(r) && ToSet(r) == ToSet(ids) + Ids(oldest[..k])
    {
      NextStamp(oldest, k);
      Concatenated(r, [oldest[k].id]);
      r := r + [oldest[k].id];
    }
  }

  class AgentOrchestrator {
    var tasks: map<Id, Task>
    var results: map<Id, TaskResult>
    var agents: map<Id, Agent>
    var lastActivity: map<Id, Time>
    var lastCleanup: Time
    var lastAgentCleanup: Time

    function Contents(): Registry
      reads this
    {
      Registry(tasks, results, agents, lastActivity, lastCleanup, lastAgentCleanup)
    }

    ghost predicate Valid()
      reads this
    {
      Consistent(Contents())
    }

    constructor (now: Time)
      ensures Valid()
      ensures Contents() == Registry(map[], map[], map[], map[], now, now)
    {
      tasks, results, agents, lastActivity := map[], map[], map[], map[];
      lastCleanup, lastAgentCleanup := now, now;
    }

    /** The stamps of the finished tasks outside `skip`, oldest first. */
    method OldestFinished(skip: seq<Id>) returns (oldest: seq<Stamp>)
      ensures Sorted(oldest) && DistinctIds(oldest) && Stamped(oldest, CreationTimes(Contents()))
      ensures Ids(oldest) == FinishedTasks(Contents()) - ToSet(skip)
      ensures skip == [] ==> Ids(oldest) == FinishedTasks(Contents())
    {
      ghost var wanted := FinishedTasks(Contents()) - ToSet(skip);
      ghost var at := CreationTimes(Contents());
      var ids := Enumerate(tasks.Keys);
      AllWanted(ids, wanted);
      var stamps: seq<Stamp> := [];
      for i := 0 to |ids|
        invariant DistinctIds(stamps) && Stamped(stamps, at)
        invariant Ids(stamps) == ToSet(ids[..i]) * wanted
      {
        NextWanted(ids, i, wanted);
        if ids[i] !in skip && Finished(Contents(), ids[i]) {
          assert ids[i] in wanted;
          Extended(stamps, Stamp(ids[i], tasks[ids[i]].createdAt), at);
          stamps := stamps + [Stamp(ids[i], tasks[ids[i]].createdAt)];
        } else {
          assert ids[i] !in wanted;
        }
      }
      SortKeepsIds(stamps, at);
      oldest := SortByTime(stamps);
    }

    method ExpiredNow(now: Time, skip: seq<Id>) returns (expired: seq<Id>)
      ensures NoDup(expired) && ToSet(expired) == ExpiredTasks(Contents(), now) - ToSet(skip)
    {
      ghost var wanted := ExpiredTasks(Contents(), now) - ToSet(skip);
      var ids := Enumerate(tasks.Keys);
      AllWanted(ids, wanted);
      expired := [];
      for i := 0 to |ids|
        invariant NoDup(expired)
        invariant ToSet(expired) == ToSet(ids[..i]) * wanted
      {
        NextWanted(ids, i, wanted);
        var age := now - tasks[ids[i]].createdAt;
        if ids[i] !in skip && Finished(Contents(), ids[i]) && age > TASK_TTL_SECONDS {
          assert ids[i] in wanted;
          Concatenated(expired, [ids[i]]);
          expired := expired + [ids[i]];
        } else {
          assert ids[i] !in wanted;
        }
      }
    }

    method RemoveTasks(ids: seq<Id>)
      requires ToSet(ids) <= tasks.Keys
      modifies this`tasks, this`results
      ensures Contents() == WithoutTasks(old(Contents()), ToSet(ids))
    {
      for i := 0 to |ids|
        invariant tasks == old(tasks) - ToSet(ids[..i])
        invariant results == old(results) - ToSet(ids[..i])
      {
        assert ToSet(ids[..i + 1]) == ToSet(ids[..i]) + {ids[i]};
        tasks := tasks - {ids[i]};
        if ids[i] in results {
          results := results - {ids[i]};
        }
      }
      assert ids[..|ids|] == ids;
    }

    /** The ids the periodic clean-up is about to delete. */
    method PeriodicSelection(now: Time) returns (ids: seq<Id>)
      ensures NoDup(ids) && PeriodicTaskEviction(Contents(), now, ToSet(ids))
    {
      ids := ExpiredNow(now, []);
      NoDupCard(ids);
      if |tasks| - |ids| > MAX_TASKS {
        var oldest := OldestFinished(ids);
        var excess := |tasks| - |ids| - MAX_TASKS;
        var n := Min(excess, |oldest|);
        PeriodicParts(Contents(), now, oldest, n);
        ids := AppendIds(ids, oldest, n);
      } else {
        OnlyExpired(Contents(), now);
      }
    }

    /** The periodic clean-up; the returned ids are the ones the method logs as removed. */
    method CleanupOldTasks(now: Time) returns (removed: seq<Id>)
      modifies this`tasks, this`results, this`lastCleanup
      ensures NoDup(removed) && TasksSwept(old(Contents()), now, ToSet(removed))
      ensures Contents() == AfterTaskSweep(old(Contents()), now, ToSet(removed))
    {
      if now - lastCleanup < CLEANUP_INTERVAL_SECONDS {
        return [];
      }
      lastCleanup := now;
      removed := PeriodicSelection(now);
      RemoveTasks(removed);
    }

    /** The ids a forced clean-up is about to delete: the oldest finished ones, then the expired rest. */
    method ForcedSelection(now: Time) returns (ids: seq<Id>)
      ensures NoDup(ids) && ForcedTaskEviction(Contents(), now, ToSet(ids))
    {
      var oldest := OldestFinished([]);
      var excess := |tasks| - MAX_TASKS + TASK_HEADROOM;
      var n := Min(|oldest|, Max(0, excess));
      var head := AppendIds([], oldest, n);
      var late := ExpiredNow(now, head);
      ForcedUnion(Contents(), now, oldest, n, head, late);
      ids := head + late;
    }

    /** The clean-up that a full registry forces, whatever the time of the last one. */
    method ForceCleanupOldTasks(now: Time) returns (removed: seq<Id>)
      modifies this`tasks, this`results
      ensures NoDup(removed)
      ensures ForcedTaskEviction(old(Contents()), now, ToSet(removed))
      ensures Contents() == WithoutTasks(old(Contents()), ToSet(removed))
    {
      removed := ForcedSelection(now);
      RemoveTasks(removed);
    }

    /** The stamps of the agents outside `skip`, least recently active first. */
    method LeastRecentlyActive(skip: seq<Id>) returns (oldest: seq<Stamp>)
      ensures Sorted(oldest) && DistinctIds(oldest) && Stamped(oldest, ActivityTimes(Contents()))
      ensures Ids(oldest) == agents.Keys - ToSet(skip)
    {
      ghost var wanted := agents.Keys - ToSet(skip);
      ghost var at := ActivityTimes(Contents());
      var ids := Enumerate(agents.Keys);
      AllWanted(ids, wanted);
      var stamps: seq<Stamp> := [];
      for i := 0 to |ids|
        invariant DistinctIds(stamps) && Stamped(stamps, at)
        invariant Ids(stamps) == ToSet(ids[..i]) * wanted
      {
        NextWanted(ids, i, wanted);
        if ids[i] !in skip {
          Extended(stamps, Stamp(ids[i], LastActive(Contents(), ids[i])), at);
          stamps := stamps + [Stamp(ids[i], LastActive(Contents(), ids[i]))];
        }
      }
      SortKeepsIds(stamps, at);
      oldest := SortByTime(stamps);
    }

    method RemoveAgents(ids: seq<Id>)
      requires ToSet(ids) <= agents.Keys
      modifies this`agents, this`lastActivity
      ensures Contents() == WithoutAgents(old(Contents()), ToSet(ids))
    {
      for i := 0 to |ids|
        invariant agents == old(agents) - ToSet(ids[..i])
        invariant lastActivity == old(lastActivity) - ToSet(ids[..i])
      {
        assert ToSet(ids[..i + 1]) == ToSet(ids[..i]) + {ids[i]};
        if ids[i] in agents {
          agents := agents - {ids[i]};
        }
        if ids[i] in lastActivity {
          lastActivity := lastActivity - {ids[i]};
        }
      }
      assert ids[..|ids|] == ids;
    }

    /** The agents idle for longer than `limit`, and the non-empty sessions they belong to. */
    method IdleNow(now: Time, limit: Time) returns (idle: seq<Id>)
      ensures NoDup(idle) && ToSet(idle) == IdleAgents(Contents(), now, limit)
    {
      ghost var wanted := IdleAgents(Contents(), now, limit);
      var ids := Enumerate(agents.Keys);
      AllWanted(ids, wanted);
      idle := [];
      for i := 0 to |ids|
        invariant NoDup(idle) && ToSet(idle) == ToSet(ids[..i]) * wanted
      {
        NextWanted(ids, i, wanted);
        var idleTime := now - LastActive(Contents(), ids[i]);
        if idleTime > limit {
          assert ids[i] in wanted;
          Concatenated(idle, [ids[i]]);
          idle := idle + [ids[i]];
        } else {
          assert ids[i] !in wanted;
        }
      }
    }

    method IdleSelection(now: Time) returns (ids: seq<Id>)
      ensures NoDup(ids) && IdleAgentEviction(Contents(), now, ToSet(ids))
    {
      ids := IdleNow(now, AGENT_IDLE_TTL_SECONDS);
      NoDupCard(ids);
      if |agents| - |ids| > MAX_AGENTS {
        var oldest := LeastRecentlyActive(ids);
        var excess := |agents| - |ids| - MAX_AGENTS;
        IdleParts(Contents(), now, oldest, excess);
        ids := AppendIds(ids, oldest, excess);
      } else {
        OnlyIdle(Contents(), now);
      }
    }

    /** The sessions of the agents about to go. */
    method SessionsOf(ids: seq<Id>) returns (sessions: seq<Id>)
      requires ToSet(ids) <= agents.Keys
      ensures NoDup(sessions)
      ensures ToSet(sessions) == set id | id in ToSet(ids) && agents[id].sessionId != Id("") :: agents[id].sessionId
    {
      sessions := [];
      for i := 0 to |ids|
        invariant NoDup(sessions)
        invariant ToSet(sessions) ==
                  set id | id in ToSet(ids[..i]) && agents[id].sessionId != Id("") :: agents[id].sessionId
      {
        assert ToSet(ids[..i + 1]) == ToSet(ids[..i]) + {ids[i]};
        assert ids[i] in ToSet(ids);
        var session := agents[ids[i]].sessionId;
        if session != Id("") && session !in sessions {
          Concatenated(sessions, [session]);
          sessions := sessions + [session];
        }
      }
      assert ids[..|ids|] == ids;
    }

    /** The periodic agent clean-up. Closing a tool executor and disconnecting a session's MCP servers are
        reported to the caller instead of being performed. */
    method CleanupIdleAgents(now: Time) returns (removed: seq<Id>, disconnected: set<Id>)
      modifies this`agents, this`lastActivity, this`lastAgentCleanup
      ensures NoDup(removed) && AgentsSwept(old(Contents()), now, ToSet(removed))
      ensures Contents() == AfterAgentSweep(old(Contents()), now, ToSet(removed))
      ensures ToSet(removed) <= old(agents).Keys && disconnected == AbandonedSessions(old(Contents()), ToSet(removed))
    {
      if now - lastAgentCleanup < CLEANUP_INTERVAL_SECONDS {
        return [], {};
      }
      lastAgentCleanup := now;
      removed := IdleSelection(now);
      var sessions := SessionsOf(removed);
      RemoveAgents(removed);
      disconnected := WithoutAgentsLeft(sessions);
      AbandonedAreThose(old(Contents()), ToSet(removed), ToSet(sessions), agents, disconnected);
    }

    /** The listed sessions that no agent belongs to any more. */
    method WithoutAgentsLeft(sessions: seq<Id>) returns (gone: set<Id>)
      ensures gone == set s | s in ToSet(sessions) && forall a :: a in agents ==> agents[a].sessionId != s
    {
      gone := {};
      for i := 0 to |sessions|
        invariant gone == set s | s in ToSet(sessions[..i]) && forall a :: a in agents ==> agents[a].sessionId != s
      {
        assert ToSet(sessions[..i + 1]) == ToSet(sessions[..i]) + {sessions[i]};
        var hasAgents := exists a :: a in agents && agents[a].sessionId == sessions[i];
        if !hasAgents {
          gone := gone + {sessions[i]};
        }
      }
      assert sessions[..|sessions|] == sessions;
    }

    /** Makes room for one more agent without waiting, sparing anyone active in the last minute. */
    method ForceCleanupIdleAgentsSync(now: Time) returns (removed: seq<Id>)
      modifies this`agents, this`lastActivity
      ensures NoDup(removed)
      ensures ForcedAgentEviction(old(Contents()), now, ToSet(removed))
      ensures Contents() == WithoutAgents(old(Contents()), ToSet(removed))
    {
      removed := ForcedIdleSelection(now);
      RemoveAgents(removed);
    }

    method ForcedIdleSelection(now: Time) returns (ids: seq<Id>)
      ensures NoDup(ids) && ForcedAgentEviction(Contents(), now, ToSet(ids))
    {
      ghost var due := IdleAgents(Contents(), now, FORCED_IDLE_SECONDS);
      var oldest := LeastRecentlyActive([]);
      var excess := |agents| - MAX_AGENTS + AGENT_HEADROOM;
      var n := Min(|oldest|, Max(0, excess));
      ids := [];
      for k := 0 to n
        invariant NoDup(ids) && ToSet(ids) == Ids(oldest[..k]) * due
      {
        NextStamp(oldest, k);
        assert oldest[k] in oldest;
        var idleTime := now - oldest[k].at;
        if idleTime > FORCED_IDLE_SECONDS {
          assert oldest[k].id in due;
          Concatenated(ids, [oldest[k].id]);
          ids := ids + [oldest[k].id];
        } else {
          assert oldest[k].id !in due;
        }
      }
      ForcedIdleParts(Contents(), now, oldest, n);
    }

    // ----- The public operations -----

    /** The two periodic clean-ups that start a submission. */
    method Sweep(now1: Time, now2: Time) returns (evicted: set<Id>, idle: set<Id>)
      modifies this
      ensures evicted <= FinishedTasks(old(Contents()))
      ensures OldestFirst(evicted, FinishedTasks(old(Contents())), CreationTimes(old(Contents())))
      ensures tasks == old(tasks) - evicted && results == old(results) - evicted
      ensures agents == old(agents) - idle && lastActivity == old(lastActivity) - idle
      ensures AgentsSwept(old(Contents()), now2, idle)
    {
      var swept := CleanupOldTasks(now1);
      evicted := ToSet(swept);
      SweepIsOldestFirst(old(Contents()), now1, evicted);
      ghost var middle := Contents();
      var lost, _ := CleanupIdleAgents(now2);
      idle := ToSet(lost);
      AgentSweepDependsOnAgents(middle, old(Contents()), now2, idle);
    }

    /** Enforces the hard limit; `full` is the condition under which the source raises. */
    method EnforceTaskLimit(now: Time) returns (full: bool, evicted: set<Id>)
      requires |tasks| <= MAX_TASKS
      modifies this`tasks, this`results
      ensures full <==> |old(tasks)| == MAX_TASKS && FinishedTasks(old(Contents())) == {}
      ensures OldestFirst(evicted, FinishedTasks(old(Contents())), CreationTimes(old(Contents())))
      ensures Contents() == WithoutTasks(old(Contents()), evicted)
      ensures if full then evicted == {} else |tasks| < MAX_TASKS
    {
      evicted := {};
      if |tasks| >= MAX_TASKS {
        var removed := ForceCleanupOldTasks(now);
        evicted := ToSet(removed);
        NoDupCard(removed);
        ForcedEvictionFreesRoom(old(Contents()), now, evicted);
        full := |removed| == 0 || |tasks| >= MAX_TASKS;
      } else {
        full := false;
      }
    }

    method Admit(taskId: Id, task: Task)
      requires Valid() && |tasks| < MAX_TASKS
      modifies this`tasks, this`results
      ensures Valid() && Contents() == WithTask(old(Contents()), taskId, task)
    {
      AdmittedIsConsistent(Contents(), taskId, task);
      tasks := tasks[taskId := task];
      results := results[taskId := PENDING];
    }

    /** Everything a submission does before it admits the task. */
    method MakeRoomForTask(now1: Time, now2: Time, now3: Time)
      returns (refused: bool, evicted: set<Id>, idle: set<Id>)
      requires Valid()
      modifies this
      ensures Valid() && (!refused ==> |tasks| < MAX_TASKS)
      ensures refused <==> |old(tasks)| == MAX_TASKS && FinishedTasks(old(Contents())) == {}
      ensures refused ==> evicted == {}
      ensures OldestFirst(evicted, FinishedTasks(old(Contents())), CreationTimes(old(Contents())))
      ensures tasks == old(tasks) - evicted && results == old(results) - evicted
      ensures agents == old(agents) - idle && lastActivity == old(lastActivity) - idle
      ensures AgentsSwept(old(Contents()), now2, idle)
    {
      ghost var before := Contents();
      var swept, lost := Sweep(now1, now2);
      idle := lost;
      ghost var middle := Contents();
      FullnessSurvives(before, swept);
      var forced: set<Id>;
      refused, forced := EnforceTaskLimit(now3);
      evicted := swept + forced;
      SubmissionEvictions(before, swept, middle, refused, forced);
      EvictedIsConsistent(before, Contents(), evicted, idle);
    }

    /** Admits a task, or refuses it. The three times are the readings of the clock along the way. */
    method SubmitTask(taskId: Id, task: Task, now1: Time, now2: Time, now3: Time)
      returns (refused: bool, evicted: set<Id>, idle: set<Id>)
      requires Valid()
      modifies this
      ensures Valid()
      ensures Submitted(old(Contents()), Contents(), taskId, task, now2, refused, evicted, idle)
    {
      refused, evicted, idle := MakeRoomForTask(now1, now2, now3);
      RemovedNone(old(tasks));
      RemovedNone(old(results));
      if !refused {
        Admit(taskId, task);
      }
    }

    /** Enforces the agent cap before an agent is built; `ok` is false where the source raises. */
    method EnforceAgentLimit(now: Time) returns (ok: bool, evicted: set<Id>)
      modifies this`agents, this`lastActivity
      ensures ok <==> CanAdmitAgent(old(Contents()), now)
      ensures if |old(agents)| < MAX_AGENTS then evicted == {} else ForcedAgentEviction(old(Contents()), now, evicted)
      ensures Contents() == WithoutAgents(old(Contents()), evicted)
      ensures ok ==> |agents| < MAX_AGENTS
    {
      evicted := {};
      ok := true;
      if |agents| >= MAX_AGENTS {
        var removed := ForceCleanupIdleAgentsSync(now);
        evicted := ToSet(removed);
        NoDupCard(removed);
        ForcedAgentEvictionFreesRoom(old(Contents()), now, evicted);
        ok := !(|removed| == 0 || |agents| >= MAX_AGENTS);
      }
    }

    /** Finds the agent, or makes room for it and builds it; `built` is what construction yields. */
    method GetOrCreateAgent(agentId: Id, built: Option<Agent>, now1: Time, now2: Time)
      returns (ok: bool, evicted: set<Id>)
      requires Valid()
      modifies this`agents, this`lastActivity
      ensures Valid()
      ensures ok <==> LookupSucceeds(old(Contents()), agentId, built, now1)
      ensures LookupEvicts(old(Contents()), agentId, now1, evicted)
      ensures Contents() == AfterLookup(old(Contents()), agentId, if ok then built else None, evicted, now2)
      ensures ok && agentId !in old(agents) ==> |agents| <= MAX_AGENTS
      ensures ok ==> agentId in agents && agentId in lastActivity && lastActivity[agentId] == now2
    {
      evicted := {};
      if agentId !in agents {
        ok, evicted := EnforceAgentLimit(now1);
        if !ok || built.None? {
          return false, evicted;
        }
        agents := agents[agentId := built.value];
      }
      lastActivity := lastActivity[agentId := now2];
      ok := true;
    }

    /** Looks the agent up if the task's context is complete. */
    method FindAgent(agentId: Id, configured: bool, built: Option<Agent>, now1: Time, now2: Time)
      returns (ok: bool, evicted: set<Id>)
      requires Valid()
      modifies this`agents, this`lastActivity
      ensures Valid()
      ensures ok <==> configured && LookupSucceeds(old(Contents()), agentId, built, now1)
      ensures if configured then LookupEvicts(old(Contents()), agentId, now1, evicted) else evicted == {}
      ensures Contents() == if configured
                            then AfterLookup(old(Contents()), agentId, if ok then built else None, evicted, now2)
                            else old(Contents())
    {
      if configured {
        ok, evicted := GetOrCreateAgent(agentId, built, now1, now2);
      } else {
        ok, evicted := false, {};
      }
    }

    method Record(taskId: Id, result: TaskResult)
      requires Valid()
      modifies this`results
      ensures Valid() && Contents() == WithResult(old(Contents()), taskId, result)
    {
      results := results[taskId := result];
    }

    method Touch(agentId: Id, now: Time)
      requires Valid()
      modifies this`lastActivity
      ensures Valid() && Contents() == Touched(old(Contents()), agentId, now)
    {
      lastActivity := lastActivity[agentId := now];
    }

    /** Runs a submitted task. What the configuration, the builder and the model do is given: `configured`,
        `built` and `reply` (the response, or nothing when execution raises). */
    method ProcessTask(taskId: Id, configured: bool, built: Option<Agent>, reply: Option<string>, error: string,
                       now1: Time, now2: Time, now3: Time) returns (result: TaskResult, evicted: set<Id>)
      requires Valid()
      modifies this`results, this`agents, this`lastActivity
      ensures Valid()
      ensures taskId !in tasks ==>
        Contents() == old(Contents()) && result == TaskResult(Failed, None, Some("Task not found"))
      ensures taskId in tasks ==>
        Processed(old(Contents()), Contents(), taskId, configured, built, reply, error,
                  now1, now2, now3, result, evicted)
    {
      if taskId !in tasks {
        return TaskResult(Failed, None, Some("Task not found")), {};
      }
      var agentId := tasks[taskId].agentId;
      Record(taskId, RUNNING);
      var ok;
      ok, evicted := FindAgent(agentId, configured, built, now1, now2);
      Touch(agentId, now3);
      result := if ok && reply.Some? then TaskResult(Completed, reply, None) else TaskResult(Failed, None, Some(error));
      Record(taskId, result);
    }

    method CancelTask(taskId: Id) returns (success: bool)
      modifies this`results
      ensures success <==> taskId in tasks && !Finished(old(Contents()), taskId)
      ensures Contents() == if success then WithResult(old(Contents()), taskId, CANCELLED) else old(Contents())
      ensures success <==> IsUnfinished(old(Contents()), taskId)
      ensures OnlyThoseFail(old(Contents()), Contents(), if success then {taskId} else {})
    {
      CancelMeans(Contents(), taskId);
      if taskId !in tasks || Finished(Contents(), taskId) {
        return false;
      }
      results := results[taskId := CANCELLED];
      success := true;
    }

    /** The body of the loop below: marks one task unless it is someone else's or has finished. */
    method CancelIfUnfinished(taskId: Id, agentId: Id) returns (hit: bool)
      requires taskId in tasks
      modifies this`results
      ensures hit <==> tasks[taskId].agentId == agentId && !FinishedIn(tasks, old(results), taskId)
      ensures results == if hit then old(results)[taskId := CANCELLED] else old(results)
    {
      if tasks[taskId].agentId != agentId || FinishedIn(tasks, results, taskId) {
        return false;
      }
      results := results[taskId := CANCELLED];
      hit := true;
    }

    /** The loop over all tasks. */
    method CancelEachUnfinished(agentId: Id) returns (cancelled: nat)
      modifies this`results
      ensures results == CancelledIn(old(results), UnfinishedTasksOf(old(Contents()), agentId))
      ensures cancelled == |UnfinishedTasksOf(old(Contents()), agentId)|
    {
      ghost var due := UnfinishedTasksOf(Contents(), agentId);
      var ids := Enumerate(tasks.Keys);
      ghost var done: set<Id> := {};
      cancelled := 0;
      NoneCancelled(results);
      AllWanted(ids, due);
      for i := 0 to |ids|
        invariant done == ToSet(ids[..i]) * due && cancelled == |done|
        invariant results == CancelledIn(old(results), done)
      {
        NextWanted(ids, i, due);
        NotYetCancelled(old(Contents()), done, agentId, ids[i]);
        OneMoreCancelled(old(results), done, ids[i]);
        var hit := CancelIfUnfinished(ids[i], agentId);
        if hit {
          done := done + {ids[i]};
          cancelled := cancelled + 1;
        }
      }
      assert done == due;
    }

    /** Fails the agent's unfinished tasks and counts them. */
    method CancelAgentTasks(agentId: Id) returns (cancelled: nat)
      modifies this`results
      ensures results == CancelledIn(old(results), UnfinishedTasksOf(old(Contents()), agentId))
      ensures cancelled == |OpenTasks(old(Contents()), agentId)|
      ensures OnlyThoseFail(old(Contents()), Contents(), OpenTasks(old(Contents()), agentId))
    {
      CancelAgentMeans(Contents(), agentId);
      cancelled := CancelEachUnfinished(agentId);
    }

    /** Forgets a session's agents and tasks. */
    method CleanupSession(sessionId: Id)
      modifies this`tasks, this`results, this`agents, this`lastActivity
      ensures Contents() == WithoutSession(old(Contents()), sessionId)
      ensures OnlySessionGoes(old(Contents()), Contents(), sessionId)
    {
      EndSessionMeans(Contents(), sessionId);
      var goneAgents := set id | id in agents && agents[id].sessionId == sessionId;
      var agentIds := Enumerate(goneAgents);
      RemoveAgents(agentIds);
      var goneTasks := set id | id in tasks && tasks[id].sessionId == sessionId;
      var taskIds := Enumerate(goneTasks);
      RemoveTasks(taskIds);
    }
  }
}
