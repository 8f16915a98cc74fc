/** The orchestrator as a step system: between two awaits an operation runs undisturbed, at an await any other
    operation may run. `submit_task` holds the task lock, so at most one submission is under way; any number of
    `process_task` calls up to a limit K run beside it, as do cancellations and session teardowns. */
module OrchestratorRuns {
  import opened Collections
  import opened Eviction
  import opened Registry
  import opened RegistryFacts
  import opened RegistryMeaning

  /** Where a `process_task` call waits: for MCP before the agent lookup, for the agent it was allowed to build, or
      for the model. */
  datatype Phase = Connecting | Building | Executing
  datatype Proc = Proc(taskId: Id, agentId: Id, phase: Phase)

  /** The submission that holds the task lock, if any: deleting swept agents one by one (`closing` while the head's
      tool executor is being closed), or past both sweeps. */
  datatype Submission =
    | NoSubmission
    | Sweeping(taskId: Id, task: Task, pending: seq<Id>, closing: bool)
    | Admitting(taskId: Id, task: Task)

  datatype State = State(reg: Registry, procs: map<nat, Proc>, submission: Submission)

  datatype Event =
    | SubmitStart(taskId: Id, task: Task, now1: Time, now2: Time, swept: set<Id>, idle: seq<Id>)
    | SweepStep
    | SubmitEnd(now: Time, forced: set<Id>, refused: bool)
    | SubmitDropped
    | ProcessStart(pid: nat, taskId: Id)
    | AgentLookup(pid: nat, now: Time, evicted: set<Id>, error: string)
    | AgentBuilt(pid: nat, agent: Agent, now: Time)
    | ProcessEnd(pid: nat, result: TaskResult, now: Time)
    | ProcessDropped(pid: nat)
    | Cancel(taskId: Id)
    | CancelAgent(agentId: Id)
    | EndSession(sessionId: Id)

  ghost predicate Init(s: State) {
    && s.reg.tasks == map[] && s.reg.results == map[] && s.reg.agents == map[] && s.reg.lastActivity == map[]
    && s.procs == map[] && s.submission == NoSubmission
  }

  function Advance(s: State, pid: nat, phase: Phase): State
    requires pid in s.procs
  {
    s.(procs := s.procs[pid := s.procs[pid].(phase := phase)])
  }

  /** The last segment of `process_task`: the agent's activity time, then the result, whatever happened meanwhile. */
  function Finish(s: State, pid: nat, result: TaskResult, now: Time): State
    requires pid in s.procs
  {
    var p := s.procs[pid];
    State(WithResult(Touched(s.reg, p.agentId, now), p.taskId, result), s.procs - {pid}, s.submission)
  }

  /** One segment of the sweep over idle agents. A head that vanished while its executor was being closed raises,
      which abandons the submission. */
  function AfterSweepStep(s: State): State
    requires s.submission.Sweeping?
  {
    var sub := s.submission;
    if sub.pending == [] then
      s.(submission := Admitting(sub.taskId, sub.task))
    else
      var head := sub.pending[0];
      if !sub.closing && head in s.reg.agents then
        s.(submission := sub.(closing := true))
      else if !sub.closing then
        s.(reg := s.reg.(lastActivity := s.reg.lastActivity - {head}), submission := sub.(pending := sub.pending[1..]))
      else if head in s.reg.agents then
        s.(reg := WithoutAgents(s.reg, {head}), submission := sub.(pending := sub.pending[1..], closing := false))
      else
        s.(submission := NoSubmission)
  }

  ghost predicate SubmitStarts(s: State, e: Event, s': State)
    requires e.SubmitStart?
  {
    var swept := AfterTaskSweep(s.reg, e.now1, e.swept);
    && s.submission.NoSubmission?
    && TasksSwept(s.reg, e.now1, e.swept)
    && NoDup(e.idle)
    && AgentsSwept(swept, e.now2, ToSet(e.idle))
    && s'.procs == s.procs
    && if e.now2 - swept.lastAgentCleanup < CLEANUP_INTERVAL_SECONDS
       then s'.reg == swept && s'.submission == Admitting(e.taskId, e.task)
       else s'.reg == swept.(lastAgentCleanup := e.now2)
            && s'.submission == Sweeping(e.taskId, e.task, e.idle, false)
  }

  ghost predicate SubmitEnds(s: State, e: Event, s': State)
    requires e.SubmitEnd?
  {
    && s.submission.Admitting?
    && (if |s.reg.tasks| >= MAX_TASKS then ForcedTaskEviction(s.reg, e.now, e.forced) else e.forced == {})
    && (e.refused <==> |s.reg.tasks| >= MAX_TASKS
                       && (e.forced == {} || |WithoutTasks(s.reg, e.forced).tasks| >= MAX_TASKS))
    && s'.procs == s.procs && s'.submission == NoSubmission
    && s'.reg == (if e.refused then WithoutTasks(s.reg, e.forced)
                  else WithTask(WithoutTasks(s.reg, e.forced), s.submission.taskId, s.submission.task))
  }

  ghost predicate LooksUp(s: State, e: Event, s': State)
    requires e.AgentLookup?
  {
    && e.pid in s.procs && s.procs[e.pid].phase == Connecting
    && var agentId := s.procs[e.pid].agentId;
       if agentId in s.reg.agents then
         e.evicted == {} && s' == Advance(s, e.pid, Executing).(reg := Touched(s.reg, agentId, e.now))
       else
         && (if |s.reg.agents| >= MAX_AGENTS then ForcedAgentEviction(s.reg, e.now, e.evicted) else e.evicted == {})
         && var left := s.(reg := WithoutAgents(s.reg, e.evicted));
            if |s.reg.agents| >= MAX_AGENTS && (e.evicted == {} || |left.reg.agents| >= MAX_AGENTS) then
              s' == Finish(left, e.pid, TaskResult(Failed, None, Some(e.error)), e.now)
            else
              s' == Advance(left, e.pid, Building)
  }

  ghost predicate Step(K: nat, s: State, e: Event, s': State) {
    match e
    case SubmitStart(_, _, _, _, _, _) => SubmitStarts(s, e, s')
    case SweepStep => s.submission.Sweeping? && s' == AfterSweepStep(s)
    case SubmitEnd(_, _, _) => SubmitEnds(s, e, s')
    case SubmitDropped => s' == s.(submission := NoSubmission)
    case ProcessStart(pid, taskId) =>
      && pid !in s.procs && |s.procs| < K && taskId in s.reg.tasks
      && s' == State(WithResult(s.reg, taskId, RUNNING),
                     s.procs[pid := Proc(taskId, s.reg.tasks[taskId].agentId, Connecting)], s.submission)
    case AgentLookup(_, _, _, _) => LooksUp(s, e, s')
    case AgentBuilt(pid, agent, now) =>
      && pid in s.procs && s.procs[pid].phase == Building
      && s' == Advance(s, pid, Executing).(reg := WithAgent(s.reg, s.procs[pid].agentId, agent, now))
    case ProcessEnd(pid, result, now) =>
      && pid in s.procs && IsFinal(result.status) && (result.status == Completed ==> s.procs[pid].phase == Executing)
      && s' == Finish(s, pid, result, now)
    case ProcessDropped(pid) => pid in s.procs && s' == s.(procs := s.procs - {pid})
    case Cancel(taskId) =>
      s' == if taskId in s.reg.tasks && !Finished(s.reg, taskId)
            then s.(reg := WithResult(s.reg, taskId, CANCELLED)) else s
    case CancelAgent(agentId) => s' == s.(reg := Cancelled(s.reg, UnfinishedTasksOf(s.reg, agentId)))
    case EndSession(sessionId) => s' == s.(reg := WithoutSession(s.reg, sessionId))
  }

  /** A run from its first state to its last; every prefix of a run is a run. */
  datatype Run = Start(first: State) | Then(before: Run, event: Event, after: State)

  function Last(run: Run): State {
    match run
    case Start(s) => s
    case Then(_, _, s) => s
  }

  ghost predicate IsRun(K: nat, run: Run) {
    match run
    case Start(s) => Init(s)
    case Then(before, e, s) => IsRun(K, before) && Step(K, Last(before), e, s)
  }

  // ----- Registry sizes and shapes -----

  function Builders(s: State): set<nat> {
    set pid | pid in s.procs && s.procs[pid].phase == Building
  }

  ghost predicate Inv(K: nat, s: State) {
    && Consistent(s.reg)
    && |s.procs| <= K
    && |s.reg.agents| + |Builders(s)| <= MAX_AGENTS - 1 + K
  }

  lemma TasksGone(r: Registry, removed: set<Id>)
    requires Consistent(r)
    ensures Consistent(WithoutTasks(r, removed))
    ensures WithoutTasks(r, removed).tasks.Keys == r.tasks.Keys - removed
  {
    SubsetCard(r.tasks.Keys - removed, r.tasks.Keys);
  }

  lemma AgentsGone(r: Registry, removed: set<Id>)
    requires Consistent(r)
    ensures Consistent(WithoutAgents(r, removed)) && |WithoutAgents(r, removed).agents| <= |r.agents|
    ensures removed !! r.agents.Keys ==> WithoutAgents(r, removed).agents == r.agents
  {
    assert WithoutAgents(r, removed).agents.Keys == r.agents.Keys - removed;
    SubsetCard(r.agents.Keys - removed, r.agents.Keys);
  }

  lemma SweptIsConsistent(r: Registry, now: Time, removed: set<Id>)
    requires Consistent(r)
    ensures Consistent(AfterTaskSweep(r, now, removed)) && AfterTaskSweep(r, now, removed).agents == r.agents
  {
    TasksGone(r, removed);
  }

  lemma AgentStored(r: Registry, agentId: Id, agent: Agent, now: Time)
    requires Consistent(r)
    ensures Consistent(WithAgent(r, agentId, agent, now))
    ensures |WithAgent(r, agentId, agent, now).agents| <= |r.agents| + 1
  {
    assert r.agents[agentId := agent].Keys == r.agents.Keys + {agentId};
  }

  lemma BuildersAreProcs(s: State)
    ensures |Builders(s)| <= |s.procs|
  {
    SubsetCard(Builders(s), s.procs.Keys);
  }

  lemma AdvancedBuilders(s: State, pid: nat, phase: Phase)
    requires pid in s.procs
    ensures Builders(Advance(s, pid, phase)) == if phase == Building then Builders(s) + {pid} else Builders(s) - {pid}
  {
  }

  lemma Advanced(s: State, pid: nat, phase: Phase)
    requires pid in s.procs
    ensures |Advance(s, pid, phase).procs| == |s.procs|
    ensures Builders(Advance(s, pid, phase)) == if phase == Building then Builders(s) + {pid} else Builders(s) - {pid}
    ensures s.procs[pid].phase == Building && phase != Building ==>
              |Builders(Advance(s, pid, phase))| == |Builders(s)| - 1
    ensures phase != Building ==> |Builders(Advance(s, pid, phase))| <= |Builders(s)|
  {
    assert Advance(s, pid, phase).procs.Keys == s.procs.Keys;
    AdvancedBuilders(s, pid, phase);
    SubsetCard(Builders(s) - {pid}, Builders(s));
  }

  lemma Removed(s: State, pid: nat)
    requires pid in s.procs
    ensures |s.procs - {pid}| <= |s.procs|
    ensures |Builders(s.(procs := s.procs - {pid}))| <= |Builders(s)|
  {
    assert (s.procs - {pid}).Keys == s.procs.Keys - {pid};
    SubsetCard(s.procs.Keys - {pid}, s.procs.Keys);
    SubsetCard(Builders(s.(procs := s.procs - {pid})), Builders(s));
  }

  lemma Added(s: State, pid: nat, p: Proc)
    requires pid !in s.procs && p.phase != Building
    ensures |s.procs[pid := p]| == |s.procs| + 1 && Builders(s.(procs := s.procs[pid := p])) == Builders(s)
  {
    assert s.procs[pid := p].Keys == s.procs.Keys + {pid};
  }

  lemma FinishKeepsInv(K: nat, s: State, pid: nat, result: TaskResult, now: Time)
    requires Inv(K, s) && pid in s.procs
    ensures Inv(K, Finish(s, pid, result, now))
  {
    Removed(s, pid);
    assert Builders(Finish(s, pid, result, now)) == Builders(s.(procs := s.procs - {pid}));
  }

  lemma SubmitStartKeepsInv(K: nat, s: State, e: Event, s': State)
    requires Inv(K, s) && e.SubmitStart? && SubmitStarts(s, e, s')
    ensures Inv(K, s')
  {
    SweptIsConsistent(s.reg, e.now1, e.swept);
    assert Builders(s') == Builders(s);
  }

  lemma SweepStepKeepsInv(K: nat, s: State)
    requires Inv(K, s) && s.submission.Sweeping?
    ensures Inv(K, AfterSweepStep(s))
  {
    assert Builders(AfterSweepStep(s)) == Builders(s);
    if s.submission.pending != [] {
      AgentsGone(s.reg, {s.submission.pending[0]});
    }
  }

  lemma SubmitEndKeepsInv(K: nat, s: State, e: Event, s': State)
    requires Inv(K, s) && e.SubmitEnd? && SubmitEnds(s, e, s')
    ensures Inv(K, s')
  {
    TasksGone(s.reg, e.forced);
    var left := WithoutTasks(s.reg, e.forced);
    assert Builders(s') == Builders(s);
    if !e.refused {
      assert |left.tasks| < MAX_TASKS by {
        RemovedNone(s.reg.tasks);
      }
      AdmittedIsConsistent(left, s.submission.taskId, s.submission.task);
    }
  }

  lemma LookupKeepsInv(K: nat, s: State, e: Event, s': State)
    requires Inv(K, s) && e.AgentLookup? && LooksUp(s, e, s')
    ensures Inv(K, s')
  {
    var left := s.(reg := WithoutAgents(s.reg, e.evicted));
    AgentsGone(s.reg, e.evicted);
    assert Builders(left) == Builders(s);
    if s.procs[e.pid].agentId in s.reg.agents {
      Advanced(s, e.pid, Executing);
      assert Builders(s') == Builders(Advance(s, e.pid, Executing));
    } else if s' == Advance(left, e.pid, Building) {
      Advanced(left, e.pid, Building);
      BuildersAreProcs(s');
    } else {
      FinishKeepsInv(K, left, e.pid, TaskResult(Failed, None, Some(e.error)), e.now);
    }
  }

  lemma StepKeepsInv(K: nat, s: State, e: Event, s': State)
    requires Inv(K, s) && Step(K, s, e, s')
    ensures Inv(K, s')
  {
    match e
    case SubmitStart(_, _, _, _, _, _) => SubmitStartKeepsInv(K, s, e, s');
    case SweepStep => SweepStepKeepsInv(K, s);
    case SubmitEnd(_, _, _) => SubmitEndKeepsInv(K, s, e, s');
    case SubmitDropped => assert Builders(s') == Builders(s);
    case ProcessStart(pid, taskId) =>
      Added(s, pid, Proc(taskId, s.reg.tasks[taskId].agentId, Connecting));
      assert Builders(s') == Builders(s);
    case AgentLookup(_, _, _, _) => LookupKeepsInv(K, s, e, s');
    case AgentBuilt(pid, agent, now) =>
      Advanced(s, pid, Executing);
      AgentStored(s.reg, s.procs[pid].agentId, agent, now);
      assert Builders(s') == Builders(Advance(s, pid, Executing));
    case ProcessEnd(pid, result, now) => FinishKeepsInv(K, s, pid, result, now);
    case ProcessDropped(pid) => Removed(s, pid);
    case Cancel(taskId) => assert Builders(s') == Builders(s);
    case CancelAgent(agentId) => assert Builders(s') == Builders(s);
    case EndSession(sessionId) =>
      AgentsGone(s.reg, SessionAgents(s.reg, sessionId));
      TasksGone(WithoutAgents(s.reg, SessionAgents(s.reg, sessionId)), SessionTasks(s.reg, sessionId));
      assert Builders(s') == Builders(s);
  }

  lemma InitHasInv(K: nat, s: State)
    requires Init(s)
    ensures Inv(K, s)
  {
    assert Builders(s) == {};
  }

  /** In every reachable state each task has a result, each agent an activity time, the task cap holds, and the
      agents together with those allowed but not yet built exceed the agent cap by less than the number of
      `process_task` calls that may run at once. */
  lemma {:induction false} EveryStateKeepsInv(K: nat, run: Run)
    requires IsRun(K, run)
    ensures Inv(K, Last(run))
  {
    match run
    case Start(s) => InitHasInv(K, s);
    case Then(before, e, s) =>
      EveryStateKeepsInv(K, before);
      StepKeepsInv(K, Last(before), e, s);
  }

  // ----- Results that outlive their tasks -----

  ghost predicate InFlight(s: State, taskId: Id) {
    exists pid :: pid in s.procs && s.procs[pid].taskId == taskId
  }

  /** Some step of the run removed the task while a `process_task` call on it was in flight. */
  ghost predicate RemovedInFlight(run: Run, taskId: Id) {
    run.Then? && (RemovedInFlight(run.before, taskId) ||
                  (taskId in Last(run.before).reg.tasks && taskId !in run.after.reg.tasks
                   && InFlight(Last(run.before), taskId)))
  }

  ghost predicate Accounted(run: Run) {
    var s := Last(run);
    && (forall pid :: pid in s.procs ==>
          s.procs[pid].taskId in s.reg.tasks || RemovedInFlight(run, s.procs[pid].taskId))
    && (forall id :: id in s.reg.results && id !in s.reg.tasks ==> RemovedInFlight(run, id))
  }

  /** What one step does to the tasks that are in flight and to the results. */
  lemma StepTraces(K: nat, s: State, e: Event, s': State)
    requires Step(K, s, e, s')
    ensures forall pid :: pid in s'.procs ==>
              if pid in s.procs then s'.procs[pid].taskId == s.procs[pid].taskId
              else s'.procs[pid].taskId in s.reg.tasks && s'.procs[pid].taskId in s'.reg.tasks
    ensures forall id :: id in s'.reg.results && id !in s'.reg.tasks ==>
              (id in s.reg.results && id !in s.reg.tasks) || InFlight(s, id)
  {
    match e
    case ProcessEnd(pid, result, now) =>
    case _ =>
  }

  /** A result whose task is gone exists only if a `process_task` call on it was in flight when the task was removed. */
  lemma {:induction false} LateResultsAreAccounted(K: nat, run: Run)
    requires IsRun(K, run)
    ensures Accounted(run)
  {
    if run.Then? {
      LateResultsAreAccounted(K, run.before);
      StepTraces(K, Last(run.before), run.event, run.after);
    }
  }

  // ----- Refusals, evictions and finished results -----

  /** At the step where a submission ends it is refused exactly when the registry is full of unfinished tasks. */
  lemma RefusedExactlyWhenFull(K: nat, s: State, e: Event, s': State)
    requires Inv(K, s) && e.SubmitEnd? && Step(K, s, e, s')
    ensures e.refused <==> |s.reg.tasks| == MAX_TASKS && FinishedTasks(s.reg) == {}
    ensures e.refused ==> s'.reg == s.reg
    ensures !e.refused ==> s.submission.taskId in s'.reg.tasks && s'.reg.results[s.submission.taskId] == PENDING
  {
    if |s.reg.tasks| == MAX_TASKS {
      ForcedEvictionFreesRoom(s.reg, e.now, e.forced);
      RemovedNone(s.reg.tasks);
      RemovedNone(s.reg.results);
    } else {
      RemovedNone(s.reg.tasks);
    }
  }

  /** Only a session teardown removes a task that has not finished. */
  lemma OnlyTeardownRemovesUnfinished(K: nat, s: State, e: Event, s': State, id: Id)
    requires Step(K, s, e, s') && id in s.reg.tasks && id !in s'.reg.tasks
    ensures Finished(s.reg, id) || (e.EndSession? && s.reg.tasks[id].sessionId == e.sessionId)
  {
    match e
    case SubmitStart(_, _, _, _, _, _) =>
      SweepIsOldestFirst(s.reg, e.now1, e.swept);
      assert id in e.swept;
    case SubmitEnd(_, _, _) => assert id in e.forced;
    case _ =>
  }

  /** The lookup is refused because no room could be made for the agent: the call fails. */
  ghost predicate LookupFails(s: State, e: Event)
    requires e.AgentLookup? && e.pid in s.procs
  {
    && s.procs[e.pid].agentId !in s.reg.agents && |s.reg.agents| >= MAX_AGENTS
    && (e.evicted == {} || |WithoutAgents(s.reg, e.evicted).agents| >= MAX_AGENTS)
  }

  /** The step writes another result under the id: a `process_task` call on it starts, ends or is refused its agent
      with a different result, or a submission under the same id is admitted. */
  ghost predicate Overwrites(s: State, e: Event, id: Id)
    requires id in s.reg.results
  {
    match e
    case ProcessStart(_, taskId) => taskId == id
    case SubmitEnd(_, _, refused) => !refused && s.submission.Admitting? && s.submission.taskId == id
    case ProcessEnd(pid, result, _) => pid in s.procs && s.procs[pid].taskId == id && result != s.reg.results[id]
    case AgentLookup(pid, _, _, error) =>
      && pid in s.procs && s.procs[pid].taskId == id
      && LookupFails(s, e) && TaskResult(Failed, None, Some(error)) != s.reg.results[id]
    case _ => false
  }

  /** While its task stays, a finished result changes in exactly those steps. */
  lemma FinishedResultsChangeExactly(K: nat, s: State, e: Event, s': State, id: Id)
    requires Step(K, s, e, s') && Finished(s.reg, id) && id in s'.reg.tasks
    ensures id in s'.reg.results && s'.reg.results[id] == s.reg.results[id] <==> !Overwrites(s, e, id)
  {
    match e
    case SubmitStart(_, _, _, _, _, _) => SweepIsOldestFirst(s.reg, e.now1, e.swept);
    case SubmitEnd(_, _, _) => AdmissionWrites(s, e, s', id);
    case CancelAgent(agentId) => assert id !in UnfinishedTasksOf(s.reg, agentId);
    case EndSession(sessionId) => assert id !in SessionTasks(s.reg, sessionId);
    case _ =>
  }

  lemma AdmissionWrites(s: State, e: Event, s': State, id: Id)
    requires e.SubmitEnd? && SubmitEnds(s, e, s') && Finished(s.reg, id) && id in s'.reg.tasks
    ensures id in s'.reg.results
    ensures s'.reg.results[id] == if !e.refused && s.submission.taskId == id then PENDING else s.reg.results[id]
  {
  }

  // ----- How long a finished result lasts -----

  /** A new call on the task starts, or a submission under its id is admitted. */
  predicate StartsOver(s: State, e: Event, id: Id) {
    (e.ProcessStart? && e.taskId == id) ||
    (e.SubmitEnd? && !e.refused && s.submission.Admitting? && s.submission.taskId == id)
  }

  /** `later` continues `first`; all the while the task stays and nobody starts over with it. */
  ghost predicate LeftAlone(first: Run, later: Run, id: Id) {
    later == first ||
    (later.Then? && LeftAlone(first, later.before, id)
     && id in later.after.reg.tasks && !StartsOver(Last(later.before), later.event, id))
  }

  ghost predicate Keeps(later: Run, id: Id, result: TaskResult) {
    id in Last(later).reg.results && Last(later).reg.results[id] == result
  }

  ghost predicate AlwaysKept(K: nat, first: Run, id: Id) {
    forall later :: IsRun(K, later) && LeftAlone(first, later, id) ==>
                      id in Last(first).reg.results && Keeps(later, id, Last(first).reg.results[id])
  }

  lemma FlightsDoNotAppear(K: nat, s: State, e: Event, s': State, id: Id)
    requires Step(K, s, e, s') && !InFlight(s, id) && !StartsOver(s, e, id)
    ensures !InFlight(s', id)
  {
  }

  lemma {:induction false} KeptWithoutFlights(K: nat, first: Run, later: Run, id: Id)
    requires IsRun(K, later) && LeftAlone(first, later, id)
    requires Finished(Last(first).reg, id) && !InFlight(Last(first), id)
    ensures Finished(Last(later).reg, id) && Keeps(later, id, Last(first).reg.results[id])
    ensures !InFlight(Last(later), id)
  {
    if later != first {
      var s, e := Last(later.before), later.event;
      KeptWithoutFlights(K, first, later.before, id);
      FlightsDoNotAppear(K, s, e, later.after, id);
      NoFlightNoOverwrite(s, e, id);
      FinishedResultsChangeExactly(K, s, e, later.after, id);
    }
  }

  lemma NoFlightNoOverwrite(s: State, e: Event, id: Id)
    requires id in s.reg.results && !InFlight(s, id) && !StartsOver(s, e, id)
    ensures !Overwrites(s, e, id)
  {
  }

  lemma FlightCanOverwrite(K: nat, run: Run, pid: nat) returns (later: Run)
    requires IsRun(K, run) && pid in Last(run).procs
    requires Finished(Last(run).reg, Last(run).procs[pid].taskId)
    ensures IsRun(K, later) && LeftAlone(run, later, Last(run).procs[pid].taskId)
    ensures !Keeps(later, Last(run).procs[pid].taskId, Last(run).reg.results[Last(run).procs[pid].taskId])
  {
    var s := Last(run);
    var was := s.reg.results[s.procs[pid].taskId];
    var result := TaskResult(Failed, None, Some(if was.error == Some("late") then "later" else "late"));
    assert result != was by {
      assert |"late"| != |"later"|;
    }
    later := Then(run, ProcessEnd(pid, result, 0.0), Finish(s, pid, result, 0.0));
    assert LeftAlone(run, run, s.procs[pid].taskId);
  }

  /** In any reachable state, a finished result (a cancellation, say) is safe for as long as its task stays and nobody
      starts over with it, if and only if no call on the task is in flight in that state, in whatever phase. */
  lemma KeptExactlyWithoutFlights(K: nat, first: Run, id: Id)
    requires IsRun(K, first) && Finished(Last(first).reg, id)
    ensures AlwaysKept(K, first, id) <==> !InFlight(Last(first), id)
  {
    if InFlight(Last(first), id) {
      var pid :| pid in Last(first).procs && Last(first).procs[pid].taskId == id;
      var later := FlightCanOverwrite(K, first, pid);
    } else {
      forall later | IsRun(K, later) && LeftAlone(first, later, id)
        ensures Keeps(later, id, Last(first).reg.results[id])
      {
        KeptWithoutFlights(K, first, later, id);
      }
    }
  }

  // ----- Which steps remove an agent -----

  /** The step takes the agent away: the sweep that has closed it, a lookup in a full registry, or the end of its
      session. */
  predicate TakesAway(s: State, e: Event, id: Id)
    requires id in s.reg.agents
  {
    match e
    case SweepStep => SweepDeletes(s, id)
    case AgentLookup(_, _, evicted, _) => id in evicted
    case EndSession(sessionId) => s.reg.agents[id].sessionId == sessionId
    case _ => false
  }

  predicate SweepDeletes(s: State, id: Id) {
    s.submission.Sweeping? && s.submission.closing && s.submission.pending != [] && s.submission.pending[0] == id
  }

  lemma AgentsGoExactly(K: nat, s: State, e: Event, s': State, id: Id)
    requires Step(K, s, e, s') && id in s.reg.agents
    ensures id !in s'.reg.agents <==> TakesAway(s, e, id)
  {
    match e
    case SubmitStart(_, _, _, _, _, _) => SweepIsOldestFirst(s.reg, e.now1, e.swept);
    case AgentLookup(_, _, _, _) => LookupTakes(s, e, s', id);
    case _ =>
  }

  lemma LookupTakes(s: State, e: Event, s': State, id: Id)
    requires e.AgentLookup? && LooksUp(s, e, s') && id in s.reg.agents
    ensures id !in s'.reg.agents <==> id in e.evicted
  {
  }

  /** A lookup evicts in a full registry only, and only agents whose last activity is more than a minute old: an agent
      that has been executing for longer is not spared. */
  lemma EvictedWereQuiet(s: State, e: Event, s': State, id: Id)
    requires e.AgentLookup? && LooksUp(s, e, s') && id in e.evicted
    ensures |s.reg.agents| >= MAX_AGENTS && LastActive(s.reg, id) < e.now - FORCED_IDLE_SECONDS
    ensures s.procs[e.pid].agentId !in s.reg.agents
  {
    assert id in IdleAgents(s.reg, e.now, FORCED_IDLE_SECONDS);
  }

  /** A call that executes keeps its agent over a step exactly when the step is none of three: the sweep's deletion of
      the agent, another call's lookup that evicts it from a full registry more than a minute after its last activity,
      and the end of the agent's session. */
  lemma AgentInUseStaysExactly(K: nat, s: State, e: Event, s': State, pid: nat)
    requires Step(K, s, e, s') && pid in s.procs && s.procs[pid].phase == Executing
    requires s.procs[pid].agentId in s.reg.agents
    ensures var id := s.procs[pid].agentId;
            id in s'.reg.agents <==>
              && !(e.SweepStep? && SweepDeletes(s, id))
              && !(e.AgentLookup? && id in e.evicted)
              && !(e.EndSession? && s.reg.agents[id].sessionId == e.sessionId)
    ensures e.AgentLookup? && s.procs[pid].agentId in e.evicted ==>
              && e.pid != pid && |s.reg.agents| >= MAX_AGENTS
              && LastActive(s.reg, s.procs[pid].agentId) < e.now - FORCED_IDLE_SECONDS
  {
    AgentsGoExactly(K, s, e, s', s.procs[pid].agentId);
    if e.AgentLookup? && s.procs[pid].agentId in e.evicted {
      EvictedWereQuiet(s, e, s', s.procs[pid].agentId);
    }
  }

  lemma LookupRefreshes(s: State, e: Event, s': State, id: Id)
    requires e.AgentLookup? && LooksUp(s, e, s') && id in s.reg.agents && id in s'.reg.agents
    requires LastActive(s'.reg, id) != LastActive(s.reg, id)
    ensures s.procs[e.pid].agentId == id
  {
  }

  lemma SweepRefreshesNobody(s: State, id: Id)
    requires s.submission.Sweeping? && id in s.reg.agents && id in AfterSweepStep(s).reg.agents
    ensures LastActive(AfterSweepStep(s).reg, id) == LastActive(s.reg, id)
  {
  }

  /** Only a call on the agent writes its activity time: when it finds or has built the agent, and when it ends.
      Executing writes none. */
  lemma OnlyItsCallsRefresh(K: nat, s: State, e: Event, s': State, id: Id)
    requires Step(K, s, e, s') && id in s.reg.agents && id in s'.reg.agents
    requires LastActive(s'.reg, id) != LastActive(s.reg, id)
    ensures e.AgentLookup? || e.AgentBuilt? || e.ProcessEnd?
    ensures e.pid in s.procs && s.procs[e.pid].agentId == id
    ensures e.pid in s'.procs ==> s.procs[e.pid].phase != Executing
  {
    match e
    case SubmitStart(_, _, _, _, _, _) => SweepIsOldestFirst(s.reg, e.now1, e.swept);
    case SweepStep => SweepRefreshesNobody(s, id);
    case AgentLookup(_, _, _, _) => LookupRefreshes(s, e, s', id);
    case _ =>
  }

  // ----- Which agents a sweep deletes, whatever happens while it is under way -----

  /** At the start of the latest submission the sweep listed the agent: it was idle then, or others exceeded the cap. */
  ghost predicate WasListed(run: Run, id: Id) {
    run.Then? &&
    if run.event.SubmitStart? then
      var r := Last(run.before).reg;
      id in run.event.idle && AgentSweepDue(r, run.event.now2)
      && (IsIdle(r, run.event.now2, id) || HasExcess(r, run.event.now2))
    else WasListed(run.before, id)
  }

  lemma StartLists(s: State, e: Event, s': State, id: Id)
    requires e.SubmitStart? && SubmitStarts(s, e, s') && s'.submission.Sweeping? && id in s'.submission.pending
    ensures id in e.idle && AgentSweepDue(s.reg, e.now2) && (IsIdle(s.reg, e.now2, id) || HasExcess(s.reg, e.now2))
  {
    var swept := AfterTaskSweep(s.reg, e.now1, e.swept);
    SweepIsOldestFirst(s.reg, e.now1, e.swept);
    assert id in ToSet(e.idle) && id in s.reg.agents;
    AgentSweepDependsOnAgents(swept, s.reg, e.now2, ToSet(e.idle));
    SweepTakes(s.reg, e.now2, ToSet(e.idle), id);
  }

  lemma PendingBefore(K: nat, s: State, e: Event, s': State, id: Id)
    requires Step(K, s, e, s') && !e.SubmitStart? && s'.submission.Sweeping? && id in s'.submission.pending
    ensures s.submission.Sweeping? && id in s.submission.pending
  {
    if e.SweepStep? && s.submission.pending != [] && s'.submission.pending == s.submission.pending[1..] {
      assert s.submission.pending == [s.submission.pending[0]] + s.submission.pending[1..];
    }
  }

  lemma {:induction false} PendingWasListed(K: nat, run: Run, id: Id)
    requires IsRun(K, run) && Last(run).submission.Sweeping? && id in Last(run).submission.pending
    ensures WasListed(run, id)
  {
    var s, e, s' := Last(run.before), run.event, run.after;
    if e.SubmitStart? {
      StartLists(s, e, s', id);
    } else {
      PendingBefore(K, s, e, s', id);
      PendingWasListed(K, run.before, id);
    }
  }

  /** In every interleaving, a sweep deletes only agents that were idle, or in excess, when its submission began. */
  lemma SweepDeletesOnlyListed(K: nat, run: Run, id: Id)
    requires IsRun(K, run) && run.Then? && run.event.SweepStep?
    requires id in Last(run.before).reg.agents && id !in run.after.reg.agents
    ensures WasListed(run.before, id)
  {
    AgentsGoExactly(K, Last(run.before), run.event, run.after, id);
    PendingWasListed(K, run.before, id);
  }

  // ----- What can happen in one such state -----

  /** A cancellation does not survive a run in progress, in whatever phase: the result that `process_task` writes at the
      end replaces it. */
  lemma CancellationCanBeOverwritten(K: nat, s: State, pid: nat, result: TaskResult, now: Time)
    returns (cancelled: State, after: State)
    requires pid in s.procs && IsFinal(result.status)
    requires result.status == Completed ==> s.procs[pid].phase == Executing
    requires s.procs[pid].taskId in s.reg.tasks && !Finished(s.reg, s.procs[pid].taskId)
    ensures Step(K, s, Cancel(s.procs[pid].taskId), cancelled)
    ensures cancelled.reg.results == s.reg.results[s.procs[pid].taskId := CANCELLED]
    ensures Step(K, cancelled, ProcessEnd(pid, result, now), after)
    ensures after.reg.results == cancelled.reg.results[s.procs[pid].taskId := result]
  {
    var id := s.procs[pid].taskId;
    cancelled := s.(reg := WithResult(s.reg, id, CANCELLED));
    after := Finish(cancelled, pid, result, now);
  }

  /** A sweep that waits for an agent's executor to close deletes the agent even if it was put to use in the meantime.
      The code waits for an executor that has a `cleanup` or a `close`; the `ToolExecutor` of this repository has
      neither. */
  lemma SweepCanDeleteAgentInUse(K: nat, s: State, pid: nat, now: Time) returns (used: State, swept: State)
    requires s.submission.Sweeping? && s.submission.closing && s.submission.pending != []
    requires s.submission.pending[0] in s.reg.agents
    requires pid in s.procs && s.procs[pid] == Proc(s.procs[pid].taskId, s.submission.pending[0], Connecting)
    ensures Step(K, s, AgentLookup(pid, now, {}, ""), used) && used.reg.lastActivity[s.submission.pending[0]] == now
    ensures used.reg.agents == s.reg.agents && used.procs == s.procs[pid := s.procs[pid].(phase := Executing)]
    ensures Step(K, used, SweepStep, swept)
    ensures swept.procs == used.procs && swept.reg.agents == s.reg.agents - {s.submission.pending[0]}
  {
    used := Advance(s, pid, Executing).(reg := Touched(s.reg, s.submission.pending[0], now));
    swept := AfterSweepStep(used);
  }

  // ----- What the short operations come to -----

  /** Cancelling a task fails it if it has not finished, and does nothing else. */
  lemma CancelStepMeans(K: nat, s: State, s': State, taskId: Id)
    requires Step(K, s, Cancel(taskId), s')
    ensures OnlyThoseFail(s.reg, s'.reg, if IsUnfinished(s.reg, taskId) then {taskId} else {})
    ensures s'.procs == s.procs && s'.submission == s.submission
  {
    CancelMeans(s.reg, taskId);
  }

  /** Cancelling an agent's tasks fails exactly its unfinished ones. */
  lemma CancelAgentStepMeans(K: nat, s: State, s': State, agentId: Id)
    requires Step(K, s, CancelAgent(agentId), s')
    ensures OnlyThoseFail(s.reg, s'.reg, OpenTasks(s.reg, agentId))
    ensures s'.procs == s.procs && s'.submission == s.submission
  {
    CancelAgentMeans(s.reg, agentId);
  }

  /** Ending a session takes away its tasks and agents, whatever their status, and nothing else. */
  lemma EndSessionStepMeans(K: nat, s: State, s': State, sessionId: Id)
    requires Step(K, s, EndSession(sessionId), s')
    ensures OnlySessionGoes(s.reg, s'.reg, sessionId)
    ensures s'.procs == s.procs && s'.submission == s.submission
  {
    EndSessionMeans(s.reg, sessionId);
  }

  /** At most 5000 tasks and, with up to K calls at once, at most 499 + K agents, in every state of every run. */
  lemma SizesInEveryState(K: nat, run: Run)
    requires IsRun(K, run)
    ensures |Last(run).reg.tasks| <= 5000 && |Last(run).reg.agents| <= 499 + K
    ensures forall id :: id in Last(run).reg.tasks ==> id in Last(run).reg.results
    ensures forall id :: id in Last(run).reg.agents ==> id in Last(run).reg.lastActivity
  {
    EveryStateKeepsInv(K, run);
  }
}
