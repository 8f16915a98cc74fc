/** Building concrete runs of `OrchestratorRuns`, one undisturbed step after the other. */
module OrchestratorTraces {
  import opened Collections
  import opened Eviction
  import opened Registry
  import opened OrchestratorRuns

  ghost predicate Reachable(K: nat, s: State) {
    exists run :: IsRun(K, run) && Last(run) == s
  }

  lemma OneStepOn(K: nat, s: State, e: Event, s': State)
    requires Reachable(K, s) && Step(K, s, e, s')
    ensures Reachable(K, s')
  {
    var run :| IsRun(K, run) && Last(run) == s;
    assert IsRun(K, Then(run, e, s'));
    assert Last(Then(run, e, s')) == s';
  }

  lemma EmptyStart(K: nat) returns (s: State)
    ensures Reachable(K, s) && s == State(Registry(map[], map[], map[], map[], 0.0, 0.0), map[], NoSubmission)
  {
    s := State(Registry(map[], map[], map[], map[], 0.0, 0.0), map[], NoSubmission);
    assert IsRun(K, Start(s)) && Last(Start(s)) == s;
  }

  /** No submission is under way and no sweep is due. */
  predicate AtRest(s: State) {
    s.submission == NoSubmission && s.reg.lastCleanup == 0.0 && s.reg.lastAgentCleanup == 0.0
  }

  function AfterSubmission(s: State, id: Id, task: Task): State {
    State(WithTask(s.reg, id, task), s.procs, NoSubmission)
  }

  /** A whole submission without a sweep. */
  lemma Submits(K: nat, s: State, id: Id, task: Task)
    requires Reachable(K, s) && AtRest(s) && |s.reg.tasks| < MAX_TASKS
    ensures Reachable(K, AfterSubmission(s, id, task)) && AtRest(AfterSubmission(s, id, task))
  {
    var admitting := s.(submission := Admitting(id, task));
    assert ToSet<Id>([]) == {};
    OneStepOn(K, s, SubmitStart(id, task, 0.0, 0.0, {}, []), admitting);
    RemovedNone(s.reg.tasks);
    RemovedNone(s.reg.results);
    OneStepOn(K, admitting, SubmitEnd(0.0, {}, false), AfterSubmission(s, id, task));
  }

  function AfterStart(s: State, pid: nat, id: Id): State
    requires id in s.reg.tasks
  {
    State(WithResult(s.reg, id, RUNNING), s.procs[pid := Proc(id, s.reg.tasks[id].agentId, Connecting)], s.submission)
  }

  lemma Starts(K: nat, s: State, pid: nat, id: Id)
    requires Reachable(K, s) && pid !in s.procs && |s.procs| < K && id in s.reg.tasks
    ensures Reachable(K, AfterStart(s, pid, id))
  {
    OneStepOn(K, s, ProcessStart(pid, id), AfterStart(s, pid, id));
  }

  lemma PassesCheck(K: nat, s: State, pid: nat)
    requires Reachable(K, s)
    requires pid in s.procs && s.procs[pid].phase == Connecting
    requires s.procs[pid].agentId !in s.reg.agents && |s.reg.agents| < MAX_AGENTS
    ensures Reachable(K, Advance(s, pid, Building))
  {
    RemovedNone(s.reg.agents);
    RemovedNone(s.reg.lastActivity);
    OneStepOn(K, s, AgentLookup(pid, 0.0, {}, ""), Advance(s, pid, Building));
  }

  function AfterBuilt(s: State, pid: nat, agent: Agent): State
    requires pid in s.procs
  {
    Advance(s, pid, Executing).(reg := WithAgent(s.reg, s.procs[pid].agentId, agent, 0.0))
  }

  lemma Builds(K: nat, s: State, pid: nat, agent: Agent)
    requires Reachable(K, s) && pid in s.procs && s.procs[pid].phase == Building
    ensures Reachable(K, AfterBuilt(s, pid, agent))
  {
    OneStepOn(K, s, AgentBuilt(pid, agent, 0.0), AfterBuilt(s, pid, agent));
  }

  /** A call on the task, up to the execution of an agent that it built. */
  lemma Executes(K: nat, s: State, pid: nat, id: Id, agent: Agent) returns (s': State)
    requires Reachable(K, s) && pid !in s.procs && |s.procs| < K && id in s.reg.tasks
    requires s.reg.tasks[id].agentId !in s.reg.agents && |s.reg.agents| < MAX_AGENTS
    ensures Reachable(K, s')
    ensures s' == State(WithAgent(WithResult(s.reg, id, RUNNING), s.reg.tasks[id].agentId, agent, 0.0),
                        s.procs[pid := Proc(id, s.reg.tasks[id].agentId, Executing)], s.submission)
  {
    Starts(K, s, pid, id);
    var started := AfterStart(s, pid, id);
    PassesCheck(K, started, pid);
    Builds(K, Advance(started, pid, Building), pid, agent);
    s' := AfterBuilt(Advance(started, pid, Building), pid, agent);
  }

  lemma Drops(K: nat, s: State, pid: nat)
    requires Reachable(K, s) && pid in s.procs
    ensures Reachable(K, s.(procs := s.procs - {pid}))
  {
    OneStepOn(K, s, ProcessDropped(pid), s.(procs := s.procs - {pid}));
  }

  lemma EndsSession(K: nat, s: State, sessionId: Id)
    requires Reachable(K, s)
    ensures Reachable(K, s.(reg := WithoutSession(s.reg, sessionId)))
  {
    OneStepOn(K, s, EndSession(sessionId), s.(reg := WithoutSession(s.reg, sessionId)));
  }
}
