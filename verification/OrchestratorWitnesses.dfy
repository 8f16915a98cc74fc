/** Runs in which the orchestrator loses what its steps can lose: a cancellation, and agents in use. */
module OrchestratorWitnesses {
  import opened Collections
  import opened Eviction
  import opened Registry
  import opened RegistryFacts
  import opened OrchestratorRuns
  import opened OrchestratorTraces
  import opened OrchestratorCalls
  import opened AgentCapOvershoot

  const AGENT := Id("agent")
  const SESSION := Id("session")
  const TASK := Task(SESSION, AGENT, 0.0)
  const FIRST := Id("1")
  const SECOND := Id("2")
  const THIRD := Id("3")

  /** One task whose agent executes. */
  lemma OneExecutes(K: nat) returns (s: State)
    requires K >= 1
    ensures Reachable(K, s) && AtRest(s) && s.procs == map[0 := Proc(FIRST, AGENT, Executing)]
    ensures s.reg.tasks == map[FIRST := TASK] && s.reg.results == map[FIRST := RUNNING]
    ensures s.reg.agents == map[AGENT := Agent(SESSION)] && s.reg.lastActivity == map[AGENT := 0.0]
  {
    var empty := EmptyStart(K);
    Submits(K, empty, FIRST, TASK);
    s := Executes(K, AfterSubmission(empty, FIRST, TASK), 0, FIRST, Agent(SESSION));
    OneEntry(FIRST, TASK);
    OneEntry(FIRST, PENDING);
    SameEntry(FIRST, PENDING, RUNNING);
    OneEntry(AGENT, Agent(SESSION));
    OneEntry(AGENT, 0.0);
    OneEntry(0, Proc(FIRST, AGENT, Executing));
  }

  lemma OneEntry<A, B>(a: A, b: B)
    ensures map[][a := b] == map[a := b]
  {
  }

  lemma SameEntry<A, B>(a: A, b: B, c: B)
    ensures map[a := b][a := c] == map[a := c]
  {
  }

  const ANSWERED := TaskResult(Completed, Some("done"), None)

  /** From the start of the service: a cancelled task ends up completed. */
  lemma CancellationIsOverwritten(K: nat) returns (s: State, cancelled: State, after: State)
    requires K >= 1
    ensures Reachable(K, s)
    ensures Step(K, s, Cancel(FIRST), cancelled) && cancelled.reg.results == map[FIRST := CANCELLED]
    ensures Step(K, cancelled, ProcessEnd(0, ANSWERED, 1.0), after) && after.reg.results == map[FIRST := ANSWERED]
  {
    s := OneExecutes(K);
    cancelled, after := CancellationCanBeOverwritten(K, s, 0, ANSWERED, 1.0);
    SameEntry(FIRST, RUNNING, CANCELLED);
    SameEntry(FIRST, CANCELLED, ANSWERED);
  }

  // ----- An agent in use, deleted by a sweep -----

  function Listed(s: State): State {
    State(s.reg.(lastCleanup := 1000.0, lastAgentCleanup := 1000.0), s.procs, Sweeping(THIRD, TASK, [AGENT], false))
  }

  function LateSubmission(): Event {
    SubmitStart(THIRD, TASK, 1000.0, 1000.0, {}, [AGENT])
  }

  /** A submission over a quarter of an hour later lists the agent for removal. */
  lemma SweepListsAgent(K: nat, s: State)
    requires Reachable(K, s) && AtRest(s)
    requires |s.reg.tasks| <= MAX_TASKS && forall id :: id in s.reg.tasks ==> s.reg.tasks[id] == TASK
    requires s.reg.agents == map[AGENT := Agent(SESSION)] && s.reg.lastActivity == map[AGENT := 0.0]
    ensures Step(K, s, LateSubmission(), Listed(s)) && Reachable(K, Listed(s))
  {
    var swept := s.reg.(lastCleanup := 1000.0);
    NothingExpired(s.reg);
    assert AfterTaskSweep(s.reg, 1000.0, {}) == swept by {
      RemovedNone(s.reg.tasks);
      RemovedNone(s.reg.results);
    }
    assert ToSet([AGENT]) == {AGENT};
    AgentIsIdle(swept);
    OneStepOn(K, s, LateSubmission(), Listed(s));
  }

  lemma NothingExpired(r: Registry)
    requires |r.tasks| <= MAX_TASKS && forall id :: id in r.tasks ==> r.tasks[id] == TASK
    ensures PeriodicTaskEviction(r, 1000.0, {})
  {
    assert ExpiredTasks(r, 1000.0) == {};
  }

  lemma AgentIsIdle(r: Registry)
    requires r.agents == map[AGENT := Agent(SESSION)] && r.lastActivity == map[AGENT := 0.0]
    ensures IdleAgentEviction(r, 1000.0, {AGENT})
  {
    assert r.agents.Keys == {AGENT};
    assert IdleAgents(r, 1000.0, AGENT_IDLE_TTL_SECONDS) == {AGENT};
  }

  lemma {:induction false} SweepsOn(K: nat, s: State)
    requires Reachable(K, s)
    ensures Reachable(K, SweepAll(s))
    decreases if s.submission.Sweeping? then 2 * |s.submission.pending| + (if s.submission.closing then 1 else 2) else 0
  {
    if s.submission.Sweeping? && (s.submission.pending != [] || !s.submission.closing) {
      OneStepOn(K, s, SweepStep, AfterSweepStep(s));
      SweepsOn(K, AfterSweepStep(s));
    }
  }

  /** From the start of the service: a call has been executing for over a quarter of an hour when a submission comes in;
      the sweep deletes the agent that it executes. */
  lemma SweepDeletesAgentInUse(K: nat) returns (s: State, listed: State, swept: State)
    requires K >= 1
    ensures Reachable(K, s) && s.procs == map[0 := Proc(FIRST, AGENT, Executing)] && AGENT in s.reg.agents
    ensures Step(K, s, LateSubmission(), listed) && swept == SweepAll(listed) && Reachable(K, swept)
    ensures swept.procs == s.procs && swept.reg.agents == map[]
  {
    s := OneExecutes(K);
    SweepListsAgent(K, s);
    listed := Listed(s);
    swept := SweepAll(listed);
    SweepsOn(K, listed);
    assert ToSet([AGENT]) == {AGENT};
    SweepRemovesAll(listed);
  }

  // ----- The same by a sweep that waits -----

  /** The agent has run its first task and is idle; a second task for it waits. */
  lemma OneIsIdle(K: nat) returns (s: State)
    requires K >= 1
    ensures Reachable(K, s) && AtRest(s) && s.procs == map[]
    ensures s.reg.tasks == map[FIRST := TASK, SECOND := TASK] && SECOND in s.reg.results
    ensures s.reg.agents == map[AGENT := Agent(SESSION)] && s.reg.lastActivity == map[AGENT := 0.0]
  {
    var executing := OneExecutes(K);
    var ended := Finish(executing, 0, ANSWERED, 0.0);
    OneStepOn(K, executing, ProcessEnd(0, ANSWERED, 0.0), ended);
    SameEntry(AGENT, 0.0, 0.0);
    assert ended.procs == map[];
    assert |ended.reg.tasks| <= 1;
    Submits(K, ended, SECOND, TASK);
    s := AfterSubmission(ended, SECOND, TASK);
  }

  function Closing(idle: State): State {
    Listed(idle).(submission := Sweeping(THIRD, TASK, [AGENT], true))
  }

  /** The sweep has begun to close the agent's executor. */
  lemma SweepCloses(K: nat, idle: State)
    requires Reachable(K, Listed(idle)) && AGENT in idle.reg.agents
    ensures Reachable(K, Closing(idle))
  {
    OneStepOn(K, Listed(idle), SweepStep, Closing(idle));
  }

  /** Meanwhile a call on the second task is about to look the agent up. */
  lemma SecondConnects(K: nat) returns (s: State)
    requires K >= 1
    ensures Reachable(K, s) && s.procs == map[0 := Proc(SECOND, AGENT, Connecting)]
    ensures s.submission == Sweeping(THIRD, TASK, [AGENT], true) && s.reg.agents == map[AGENT := Agent(SESSION)]
  {
    var idle := OneIsIdle(K);
    assert |idle.reg.tasks| <= 2;
    SweepListsAgent(K, idle);
    SweepCloses(K, idle);
    Starts(K, Closing(idle), 0, SECOND);
    s := AfterStart(Closing(idle), 0, SECOND);
  }

  /** With an executor that has to be closed, which this repository does not have: while the sweep waits, a call on the
      second task takes the agent; the sweep deletes it all the same, and the call executes an agent that is gone. */
  lemma WaitingSweepDeletesAgentInUse(K: nat) returns (s: State, used: State, swept: State)
    requires K >= 1
    ensures Reachable(K, s) && Step(K, s, AgentLookup(0, 1001.0, {}, ""), used) && Step(K, used, SweepStep, swept)
    ensures swept.procs == map[0 := Proc(SECOND, AGENT, Executing)]
    ensures AGENT in used.reg.agents && swept.reg.agents == map[]
  {
    s := SecondConnects(K);
    used, swept := SweepCanDeleteAgentInUse(K, s, 0, 1001.0);
  }

  // ----- An agent in use, evicted by another call's lookup -----

  lemma NamesHoldFirst(n: nat)
    requires n > 0
    ensures Name(0) in Names(n)
  {
  }

  function InUse(full: State): State
    requires Name(0) in full.reg.tasks
  {
    var started := AfterStart(full, 0, Name(0));
    Advance(started, 0, Executing).(reg := Touched(started.reg, Name(0), 0.0))
  }

  lemma TakesUp(K: nat, full: State)
    requires Reachable(K, full) && full.procs == map[] && K >= 1
    requires Name(0) in full.reg.tasks && full.reg.tasks[Name(0)].agentId == Name(0) && Name(0) in full.reg.agents
    ensures Reachable(K, InUse(full))
  {
    Starts(K, full, 0, Name(0));
    OneStepOn(K, AfterStart(full, 0, Name(0)), AgentLookup(0, 0.0, {}, ""), InUse(full));
  }

  lemma InUseShape(full: State)
    requires Shape(full, MAX_AGENTS, MAX_AGENTS, map[]) && Name(0) in full.reg.tasks
    ensures Shape(InUse(full), MAX_AGENTS, MAX_AGENTS, map[0 := Proc(Name(0), Name(0), Executing)])
  {
  }

  /** The registry is full; a call executes the first agent. */
  lemma FullAndInUse(K: nat) returns (s: State)
    requires K >= 1
    ensures Reachable(K, s) && Shape(s, MAX_AGENTS, MAX_AGENTS, map[0 := Proc(Name(0), Name(0), Executing)])
  {
    var full := FilledTo(K, MAX_AGENTS);
    NamesHoldFirst(MAX_AGENTS);
    TakesUp(K, full);
    InUseShape(full);
    s := InUse(full);
  }

  lemma FirstNamesAreIdle(r: Registry)
    requires r.agents.Keys == Names(MAX_AGENTS) && OwnSessions(r)
    ensures ForcedAgentEviction(r, 61.0, Names(AGENT_HEADROOM))
  {
    var idle := IdleAgents(r, 61.0, FORCED_IDLE_SECONDS);
    assert idle == r.agents.Keys;
    NamesAreDistinct(MAX_AGENTS);
    NamesAreDistinct(AGENT_HEADROOM);
    assert Names(AGENT_HEADROOM) <= Names(MAX_AGENTS);
  }

  /** The next call looks its agent up, a minute and a second after the last activity of all others. */
  lemma NextLookupEvicts(K: nat, s: State) returns (waiting: State, after: State)
    requires K >= 2 && Reachable(K, s)
    requires Shape(s, MAX_AGENTS, MAX_AGENTS, map[0 := Proc(Name(0), Name(0), Executing)])
    ensures Reachable(K, waiting) && 0 in waiting.procs && waiting.procs[0] == Proc(Name(0), Name(0), Executing)
    ensures waiting.reg.agents == s.reg.agents && waiting.reg.lastActivity == s.reg.lastActivity
    ensures Step(K, waiting, AgentLookup(1, 61.0, Names(AGENT_HEADROOM), ""), after)
  {
    var k := MAX_AGENTS;
    Sizes(s, k, k);
    NotYetNamed(k, k);
    Submits(K, s, Name(k), TaskOf(k));
    var submitted := AfterSubmission(s, Name(k), TaskOf(k));
    Starts(K, submitted, 1, Name(k));
    waiting := AfterStart(submitted, 1, Name(k));
    FirstNamesAreIdle(waiting.reg);
    AgentsLeft(waiting.reg, Names(AGENT_HEADROOM));
    NamesAreDistinct(AGENT_HEADROOM);
    var left := waiting.(reg := WithoutAgents(waiting.reg, Names(AGENT_HEADROOM)));
    after := Advance(left, 1, Building);
  }

  /** From the start of the service: a lookup in a full registry evicts an agent that executes. */
  lemma LookupEvictsAgentInUse(K: nat) returns (s: State, after: State)
    requires K >= 2
    ensures Reachable(K, s) && Name(0) in s.reg.agents
    ensures 0 in s.procs && s.procs[0] == Proc(Name(0), Name(0), Executing)
    ensures Step(K, s, AgentLookup(1, 61.0, Names(AGENT_HEADROOM), ""), after)
    ensures Name(0) !in after.reg.agents
  {
    var full := FullAndInUse(K);
    NamesHoldFirst(MAX_AGENTS);
    NamesHoldFirst(AGENT_HEADROOM);
    s, after := NextLookupEvicts(K, full);
    AgentInUseStaysExactly(K, s, AgentLookup(1, 61.0, Names(AGENT_HEADROOM), ""), after, 0);
  }
}
