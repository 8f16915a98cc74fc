/** The steps of one undisturbed operation, put together, are what the class's method for it promises. */
module OrchestratorCalls {
  import opened Collections
  import opened Eviction
  import opened Registry
  import opened RegistryFacts
  import opened OrchestratorRuns

  // ----- A submission -----

  /** The sweep, carried on until it is over. */
  function SweepAll(s: State): State
    decreases if s.submission.Sweeping? then 2 * |s.submission.pending| + (if s.submission.closing then 1 else 2) else 0
  {
    if s.submission.Sweeping? && (s.submission.pending != [] || !s.submission.closing) then
      SweepAll(AfterSweepStep(s))
    else s
  }

  lemma {:induction false} SweepRemovesAll(s: State)
    requires s.submission.Sweeping? && !s.submission.closing
    requires NoDup(s.submission.pending) && ToSet(s.submission.pending) <= s.reg.agents.Keys
    ensures SweepAll(s) == State(WithoutAgents(s.reg, ToSet(s.submission.pending)), s.procs,
                                 Admitting(s.submission.taskId, s.submission.task))
    decreases |s.submission.pending|
  {
    var pending := s.submission.pending;
    if pending == [] {
      RemovedNone(s.reg.agents);
      RemovedNone(s.reg.lastActivity);
    } else {
      var deleted := AfterSweepStep(AfterSweepStep(s));
      HeadAndRest(pending);
      SweepRemovesAll(deleted);
      RemovedTwice(s.reg.agents, {pending[0]}, ToSet(pending[1..]));
      RemovedTwice(s.reg.lastActivity, {pending[0]}, ToSet(pending[1..]));
    }
  }

  lemma HeadAndRest<T>(xs: seq<T>)
    requires NoDup(xs) && xs != []
    ensures NoDup(xs[1..]) && ToSet(xs) == {xs[0]} + ToSet(xs[1..]) && xs[0] !in ToSet(xs[1..])
  {
    assert xs == [xs[0]] + xs[1..];
  }

  /** The state between the sweeps and the rest of a submission that nothing disturbs. */
  lemma SweepsDone(K: nat, s: State, e: Event, s': State)
    requires e.SubmitStart? && Step(K, s, e, s')
    ensures var swept := AfterTaskSweep(s.reg, e.now1, e.swept);
            && SweepAll(s').reg == AfterAgentSweep(swept, e.now2, ToSet(e.idle))
            && SweepAll(s').submission == Admitting(e.taskId, e.task)
  {
    if s'.submission.Sweeping? {
      SweepRemovesAll(s');
    }
  }

  // ----- What such a sweep means for the agents -----

  /** No executor of this repository makes a sweep wait, so that nothing comes between its listing and its deletions. It
      deletes exactly what it lists: nothing before it is due, then every agent idle for over fifteen minutes, and
      others only where more than the cap are not idle. */
  lemma SweptExactly(K: nat, s: State, e: Event, s': State, id: Id)
    requires e.SubmitStart? && Step(K, s, e, s') && id in s.reg.agents
    ensures id !in SweepAll(s').reg.agents <==> id in e.idle
    ensures id in e.idle ==> AgentSweepDue(s.reg, e.now2) && (IsIdle(s.reg, e.now2, id) || HasExcess(s.reg, e.now2))
    ensures AgentSweepDue(s.reg, e.now2) && IsIdle(s.reg, e.now2, id) ==> id in e.idle
  {
    var swept := AfterTaskSweep(s.reg, e.now1, e.swept);
    SweepsDone(K, s, e, s');
    SweepIsOldestFirst(s.reg, e.now1, e.swept);
    AgentSweepDependsOnAgents(swept, s.reg, e.now2, ToSet(e.idle));
    SweepTakes(s.reg, e.now2, ToSet(e.idle), id);
  }

  /** A call that executes when a submission comes in goes on executing. Unless more agents than the cap are not idle,
      its agent is deleted if and only if the sweep is due and the agent's last activity, which executing does not
      refresh, is over fifteen minutes old. */
  lemma AgentInUseSweptExactly(K: nat, s: State, e: Event, s': State, pid: nat)
    requires e.SubmitStart? && Step(K, s, e, s') && !HasExcess(s.reg, e.now2)
    requires pid in s.procs && s.procs[pid].phase == Executing && s.procs[pid].agentId in s.reg.agents
    ensures pid in SweepAll(s').procs && SweepAll(s').procs[pid] == s.procs[pid]
    ensures s.procs[pid].agentId !in SweepAll(s').reg.agents <==>
            AgentSweepDue(s.reg, e.now2) && IsIdle(s.reg, e.now2, s.procs[pid].agentId)
  {
    SweptExactly(K, s, e, s', s.procs[pid].agentId);
    if s'.submission.Sweeping? {
      SweepRemovesAll(s');
    }
  }

  /** A submission that nothing disturbs: its first step, its sweep to the end, its last step. */
  lemma SubmissionIsItsSteps(K: nat, s: State, start: Event, s': State, end: Event, s'': State)
    requires |s.reg.tasks| <= MAX_TASKS
    requires start.SubmitStart? && Step(K, s, start, s')
    requires end.SubmitEnd? && Step(K, SweepAll(s'), end, s'')
    ensures Submitted(s.reg, s''.reg, start.taskId, start.task, start.now2, end.refused,
                       start.swept + end.forced, ToSet(start.idle))
  {
    var swept := AfterTaskSweep(s.reg, start.now1, start.swept);
    SweepsDone(K, s, start, s');
    SweepIsOldestFirst(s.reg, start.now1, start.swept);
    AgentSweepDependsOnAgents(swept, s.reg, start.now2, ToSet(start.idle));
    var middle := SweepAll(s').reg;
    SameTasksSameFinished(swept, middle);
    EndEvicts(SweepAll(s'), end, s'');
    SubmissionEvictions(s.reg, start.swept, middle, end.refused, end.forced);
    RemovedNone(s.reg.tasks);
    RemovedNone(s.reg.results);
  }

  lemma SameTasksSameFinished(r: Registry, r': Registry)
    requires r.tasks == r'.tasks && r.results == r'.results
    ensures FinishedTasks(r) == FinishedTasks(r') && CreationTimes(r) == CreationTimes(r')
  {
  }

  lemma EndEvicts(s: State, e: Event, s': State)
    requires |s.reg.tasks| <= MAX_TASKS && e.SubmitEnd? && SubmitEnds(s, e, s')
    ensures e.refused <==> |s.reg.tasks| == MAX_TASKS && FinishedTasks(s.reg) == {}
    ensures OldestFirst(e.forced, FinishedTasks(s.reg), CreationTimes(s.reg))
    ensures e.refused ==> e.forced == {}
  {
    if |s.reg.tasks| == MAX_TASKS {
      ForcedEvictionFreesRoom(s.reg, e.now, e.forced);
      RemovedNone(s.reg.tasks);
    }
  }

  // ----- A call of process_task -----

  /** A call whose context is incomplete. */
  lemma UnconfiguredCall(K: nat, s: State, pid: nat, taskId: Id, s1: State, error: string, now: Time, s2: State)
    requires Step(K, s, ProcessStart(pid, taskId), s1)
    requires Step(K, s1, ProcessEnd(pid, TaskResult(Failed, None, Some(error)), now), s2)
    ensures Processed(s.reg, s2.reg, taskId, false, None, None, error, now, now, now,
                      TaskResult(Failed, None, Some(error)), {})
  {
  }

  /** A call that finds its agent. */
  lemma FoundCall(K: nat, s: State, pid: nat, taskId: Id, s1: State, lookup: Event, s2: State,
                  reply: Option<string>, error: string, now: Time, s3: State)
    requires Step(K, s, ProcessStart(pid, taskId), s1) && s.reg.tasks[taskId].agentId in s.reg.agents
    requires lookup.AgentLookup? && lookup.pid == pid && Step(K, s1, lookup, s2)
    requires Step(K, s2, ProcessEnd(pid, Outcome(reply, error), now), s3)
    ensures Processed(s.reg, s3.reg, taskId, true, None, reply, error, lookup.now, lookup.now, now,
                      Outcome(reply, error), lookup.evicted)
  {
  }

  function Outcome(reply: Option<string>, error: string): TaskResult {
    if reply.Some? then TaskResult(Completed, reply, None) else TaskResult(Failed, None, Some(error))
  }

  /** A call for whose agent no room can be made. */
  lemma RefusedCall(K: nat, s: State, pid: nat, taskId: Id, s1: State, lookup: Event, s2: State)
    requires Step(K, s, ProcessStart(pid, taskId), s1)
    requires lookup.AgentLookup? && lookup.pid == pid && LooksUp(s1, lookup, s2) && LookupFails(s1, lookup)
    ensures Processed(s.reg, s2.reg, taskId, true, None, None, lookup.error, lookup.now, lookup.now, lookup.now,
                      TaskResult(Failed, None, Some(lookup.error)), lookup.evicted)
  {
    var agentId := s.reg.tasks[taskId].agentId;
    var left := s1.(reg := WithoutAgents(s1.reg, lookup.evicted));
    NotAdmitted(s1, lookup, s2);
    assert left.reg == AfterLookup(s1.reg, agentId, None, lookup.evicted, lookup.now);
    EndsWith(left, pid, TaskResult(Failed, None, Some(lookup.error)), lookup.now, s2);
  }

  lemma NotAdmitted(s: State, e: Event, s': State)
    requires e.AgentLookup? && LooksUp(s, e, s') && LookupFails(s, e)
    ensures LookupEvicts(s.reg, s.procs[e.pid].agentId, e.now, e.evicted)
    ensures s' == Finish(s.(reg := WithoutAgents(s.reg, e.evicted)), e.pid,
                         TaskResult(Failed, None, Some(e.error)), e.now)
  {
  }

  /** A call that builds its agent. */
  lemma BuiltCall(K: nat, s: State, pid: nat, taskId: Id, s1: State, lookup: Event, s2: State, agent: Agent, now: Time,
                  s3: State, reply: Option<string>, error: string, later: Time, s4: State)
    requires Step(K, s, ProcessStart(pid, taskId), s1) && s.reg.tasks[taskId].agentId !in s.reg.agents
    requires lookup.AgentLookup? && lookup.pid == pid && Step(K, s1, lookup, s2)
    requires Step(K, s2, AgentBuilt(pid, agent, now), s3)
    requires Step(K, s3, ProcessEnd(pid, Outcome(reply, error), later), s4)
    ensures Processed(s.reg, s4.reg, taskId, true, Some(agent), reply, error, lookup.now, now, later,
                      Outcome(reply, error), lookup.evicted)
  {
    var agentId := s.reg.tasks[taskId].agentId;
    Admitted(s1, lookup, s2);
    assert s3.reg == AfterLookup(s1.reg, agentId, Some(agent), lookup.evicted, now);
    EndsWith(s3, pid, Outcome(reply, error), later, s4);
  }

  lemma EndsWith(s: State, pid: nat, result: TaskResult, now: Time, s': State)
    requires pid in s.procs && s' == Finish(s, pid, result, now)
    ensures s'.reg == WithResult(Touched(s.reg, s.procs[pid].agentId, now), s.procs[pid].taskId, result)
  {
  }

  /** A call whose agent cannot be built. */
  lemma UnbuiltCall(K: nat, s: State, pid: nat, taskId: Id, s1: State, lookup: Event, s2: State,
                    error: string, now: Time, s3: State)
    requires Step(K, s, ProcessStart(pid, taskId), s1) && s.reg.tasks[taskId].agentId !in s.reg.agents
    requires lookup.AgentLookup? && lookup.pid == pid && Step(K, s1, lookup, s2) && pid in s2.procs
    requires Step(K, s2, ProcessEnd(pid, TaskResult(Failed, None, Some(error)), now), s3)
    ensures Processed(s.reg, s3.reg, taskId, true, None, None, error, lookup.now, lookup.now, now,
                      TaskResult(Failed, None, Some(error)), lookup.evicted)
  {
    RemovedNone(s.reg.agents);
    RemovedNone(s.reg.lastActivity);
  }

  /** A lookup that lets its call build the agent had room or could make it. */
  lemma Admitted(s: State, e: Event, s': State)
    requires e.AgentLookup? && LooksUp(s, e, s') && e.pid in s'.procs && s'.procs[e.pid].phase == Building
    ensures CanAdmitAgent(s.reg, e.now) && LookupEvicts(s.reg, s.procs[e.pid].agentId, e.now, e.evicted)
    ensures s' == Advance(s.(reg := WithoutAgents(s.reg, e.evicted)), e.pid, Building)
  {
    if |s.reg.agents| >= MAX_AGENTS {
      ForcedAgentEvictionFreesRoom(s.reg, e.now, e.evicted);
    }
  }
}
