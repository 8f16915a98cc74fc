/** The bound on the agent cap's overshoot is attained: a run in which K builders all insert after all were let in. */
module AgentCapOvershoot {
  import opened Collections
  import opened Eviction
  import opened Registry
  import opened OrchestratorRuns
  import opened OrchestratorTraces

  function Name(n: nat): Id {
    Id(seq(n, _ => 'a'))
  }

  function Names(n: nat): set<Id> {
    set k: nat | k < n :: Name(k)
  }

  lemma NotYetNamed(m: nat, n: nat)
    requires m <= n
    ensures Name(n) !in Names(m)
  {
    forall k: nat | k < m ensures Name(k) != Name(n) {
      assert |Name(k).text| != |Name(n).text|;
    }
  }

  lemma NamesGrow(n: nat)
    ensures Names(n + 1) == Names(n) + {Name(n)}
  {
  }

  lemma {:induction false} NamesAreDistinct(n: nat)
    ensures |Names(n)| == n && Name(n) !in Names(n) && Names(n + 1) == Names(n) + {Name(n)}
  {
    NotYetNamed(n, n);
    NamesGrow(n);
    if n > 0 {
      NamesAreDistinct(n - 1);
    } else {
      assert Names(0) == {};
    }
  }

  /** Task, agent and session of the n-th call share a name. */
  function TaskOf(n: nat): Task {
    Task(Name(n), Name(n), 0.0)
  }

  function AgentOf(n: nat): Agent {
    Agent(Name(n))
  }

  function Builder(k: nat): Proc {
    Proc(Name(k), Name(k), Building)
  }

  /** Every task is for the agent of its own name, both are alone in the session of that name, and no agent has been
      active since the start. */
  ghost predicate OwnSessions(r: Registry) {
    && (forall id :: id in r.tasks ==> r.tasks[id].sessionId == id && r.tasks[id].agentId == id)
    && (forall id :: id in r.agents ==> r.agents[id].sessionId == id)
    && forall id :: id in r.lastActivity ==> r.lastActivity[id] == 0.0
  }

  /** Exactly the first `n` tasks are known and exactly the first `m` agents exist, and these calls run. */
  ghost predicate Shape(s: State, n: nat, m: nat, procs: map<nat, Proc>) {
    && s.reg.tasks.Keys == Names(n) && s.reg.agents.Keys == Names(m)
    && OwnSessions(s.reg) && AtRest(s) && s.procs == procs
  }

  lemma Sizes(s: State, n: nat, m: nat)
    requires Shape(s, n, m, s.procs)
    ensures |s.reg.tasks| == n && |s.reg.agents| == m
  {
    NamesAreDistinct(n);
    NamesAreDistinct(m);
    assert |s.reg.tasks.Keys| == n && |s.reg.agents.Keys| == m;
  }

  /** Submits the k-th task and lets a call on it past the cap check. */
  lemma LetIn(K: nat, s: State, n: nat, m: nat, k: nat, pid: nat) returns (s': State)
    requires Reachable(K, s) && Shape(s, n, m, s.procs)
    requires n < MAX_TASKS && n <= k && m <= k && m < MAX_AGENTS && pid !in s.procs && |s.procs| < K
    ensures Reachable(K, s')
    ensures s' == State(WithResult(WithTask(s.reg, Name(k), TaskOf(k)), Name(k), RUNNING),
                        s.procs[pid := Builder(k)], NoSubmission)
  {
    Sizes(s, n, m);
    NotYetNamed(m, k);
    Submits(K, s, Name(k), TaskOf(k));
    var submitted := AfterSubmission(s, Name(k), TaskOf(k));
    Starts(K, submitted, pid, Name(k));
    var started := AfterStart(submitted, pid, Name(k));
    PassesCheck(K, started, pid);
    s' := Advance(started, pid, Building);
  }

  /** Lets the call insert the agent it built. */
  lemma PutIn(K: nat, s: State, n: nat, m: nat, pid: nat) returns (s': State)
    requires Reachable(K, s) && Shape(s, n, m, s.procs)
    requires pid in s.procs && s.procs[pid] == Builder(m)
    ensures Reachable(K, s') && Shape(s', n, m + 1, s.procs[pid := Proc(Name(m), Name(m), Executing)])
  {
    NamesAreDistinct(m);
    Builds(K, s, pid, AgentOf(m));
    s' := AfterBuilt(s, pid, AgentOf(m));
  }

  lemma OneTaskMore(s: State, n: nat, m: nat, s': State)
    requires Shape(s, n, m, s.procs)
    requires s'.reg.tasks == s.reg.tasks[Name(n) := TaskOf(n)] && s'.submission == NoSubmission
    requires s'.reg.agents == s.reg.agents && s'.reg.lastActivity == s.reg.lastActivity
    requires s'.reg.lastCleanup == 0.0 && s'.reg.lastAgentCleanup == 0.0
    ensures Shape(s', n + 1, m, s'.procs)
  {
    NamesGrow(n);
    assert s'.reg.tasks.Keys == s.reg.tasks.Keys + {Name(n)};
  }

  /** A call running alone adds its agent and ends. */
  lemma FilledOneMore(K: nat, less: State, m: nat) returns (s: State)
    requires K >= 1 && m < MAX_AGENTS && Reachable(K, less) && Shape(less, m, m, map[])
    ensures Reachable(K, s) && Shape(s, m + 1, m + 1, map[])
  {
    var admitted := LetIn(K, less, m, m, m, 0);
    OneTaskMore(less, m, m, admitted);
    var built := PutIn(K, admitted, m + 1, m, 0);
    Drops(K, built, 0);
    s := built.(procs := built.procs - {0});
    assert s.procs == map[];
  }

  lemma NothingAtFirst(K: nat) returns (s: State)
    ensures Reachable(K, s) && Shape(s, 0, 0, map[])
  {
    s := EmptyStart(K);
    assert Names(0) == {};
  }

  /** Such calls, one after the other, fill the registry up to any size within the cap. */
  lemma {:induction false} FilledTo(K: nat, m: nat) returns (s: State)
    requires K >= 1 && m <= MAX_AGENTS
    ensures Reachable(K, s) && Shape(s, m, m, map[])
  {
    if m == 0 {
      s := NothingAtFirst(K);
    } else {
      var less := FilledTo(K, m - 1);
      s := FilledOneMore(K, less, m - 1);
    }
  }

  function BuilderAt(from: nat, pid: nat): Proc {
    Builder(from + pid)
  }

  function Waiting(p: nat, from: nat): map<nat, Proc> {
    map pid: nat | pid < p :: BuilderAt(from, pid)
  }

  lemma WaitingStep(p: nat, from: nat)
    requires p > 0
    ensures Waiting(p, from) == Waiting(p - 1, from)[p - 1 := Builder(from + (p - 1))]
  {
    assert BuilderAt(from, p - 1) == Builder(from + (p - 1));
  }

  lemma {:induction false} WaitingSize(p: nat, from: nat)
    ensures |Waiting(p, from)| == p && p !in Waiting(p, from)
  {
    if p == 0 {
      assert Waiting(p, from) == map[];
    } else {
      WaitingSize(p - 1, from);
      WaitingStep(p, from);
    }
  }

  /** The session of a call that was let in ends: its task is gone, the call goes on. */
  lemma LetInAndForgotten(K: nat, s: State, n: nat, m: nat, k: nat, pid: nat) returns (s': State)
    requires Reachable(K, s) && Shape(s, n, m, s.procs)
    requires n < MAX_TASKS && n <= k && m <= k && m < MAX_AGENTS && pid !in s.procs && |s.procs| < K
    ensures Reachable(K, s') && Shape(s', n, m, s.procs[pid := Builder(k)])
  {
    var admitted := LetIn(K, s, n, m, k, pid);
    EndsSession(K, admitted, Name(k));
    s' := admitted.(reg := WithoutSession(admitted.reg, Name(k)));
    NotYetNamed(n, k);
    NotYetNamed(m, k);
    OnlyThatTaskGoes(s.reg, admitted.reg, k);
  }

  lemma OnlyThatTaskGoes(r: Registry, r': Registry, k: nat)
    requires OwnSessions(r) && Name(k) !in r.tasks && Name(k) !in r.agents
    requires r' == WithResult(WithTask(r, Name(k), TaskOf(k)), Name(k), RUNNING)
    ensures WithoutSession(r', Name(k)).tasks == r.tasks && WithoutSession(r', Name(k)).agents == r.agents
    ensures WithoutSession(r', Name(k)).lastActivity == r.lastActivity
  {
    assert SessionAgents(r', Name(k)) == {};
    RemovedNone(r.agents);
    RemovedNone(r.lastActivity);
    assert SessionTasks(r', Name(k)) == {Name(k)};
    assert r.tasks[Name(k) := TaskOf(k)] - {Name(k)} == r.tasks;
  }

  lemma OneMoreLetIn(K: nat, less: State, p: nat) returns (s: State)
    requires p < K && Reachable(K, less)
    requires Shape(less, MAX_AGENTS - 1, MAX_AGENTS - 1, Waiting(p, MAX_AGENTS - 1))
    ensures Reachable(K, s) && Shape(s, MAX_AGENTS - 1, MAX_AGENTS - 1, Waiting(p + 1, MAX_AGENTS - 1))
  {
    WaitingSize(p, MAX_AGENTS - 1);
    WaitingStep(p + 1, MAX_AGENTS - 1);
    s := LetInAndForgotten(K, less, MAX_AGENTS - 1, MAX_AGENTS - 1, MAX_AGENTS - 1 + p, p);
  }

  /** `p` calls in a row pass the cap check before any of them inserts. */
  lemma {:induction false} AllLetIn(K: nat, p: nat) returns (s: State)
    requires 1 <= K && p <= K
    ensures Reachable(K, s) && Shape(s, MAX_AGENTS - 1, MAX_AGENTS - 1, Waiting(p, MAX_AGENTS - 1))
  {
    if p == 0 {
      s := FilledTo(K, MAX_AGENTS - 1);
      NobodyWaits(MAX_AGENTS - 1);
    } else {
      var less := AllLetIn(K, p - 1);
      s := OneMoreLetIn(K, less, p - 1);
    }
  }

  lemma NobodyWaits(from: nat)
    ensures Waiting(0, from) == map[]
  {
  }

  ghost predicate StillWaiting(procs: map<nat, Proc>, from: nat, K: nat, p: nat) {
    forall pid: nat :: p <= pid < K ==> pid in procs && procs[pid] == BuilderAt(from, pid)
  }

  lemma AllWaiting(procs: map<nat, Proc>, from: nat, K: nat)
    requires procs == Waiting(K, from)
    ensures StillWaiting(procs, from, K, 0)
  {
  }

  lemma OneLessWaiting(procs: map<nat, Proc>, from: nat, K: nat, p: nat, pid: nat, done: Proc)
    requires StillWaiting(procs, from, K, p) && pid == p
    ensures StillWaiting(procs[pid := done], from, K, p + 1)
  {
  }

  /** Then the first `p` of them insert. */
  lemma {:induction false} AllPutIn(K: nat, p: nat) returns (s: State)
    requires 1 <= K && p <= K
    ensures Reachable(K, s) && Shape(s, MAX_AGENTS - 1, MAX_AGENTS - 1 + p, s.procs)
    ensures StillWaiting(s.procs, MAX_AGENTS - 1, K, p)
  {
    var from := MAX_AGENTS - 1;
    if p == 0 {
      s := AllLetIn(K, K);
      AllWaiting(s.procs, from, K);
    } else {
      var less := AllPutIn(K, p - 1);
      assert less.procs[p - 1] == BuilderAt(from, p - 1);
      OneLessWaiting(less.procs, from, K, p - 1, p - 1, Proc(Name(from + p - 1), Name(from + p - 1), Executing));
      s := PutIn(K, less, from, from + p - 1, p - 1);
    }
  }

  /** With K calls at once, whatever K is, the agents can reach MAX_AGENTS - 1 + K, the bound that
      `EveryStateKeepsInv` gives. */
  lemma AgentCapBoundIsAttained(K: nat) returns (s: State)
    requires K >= 1
    ensures Reachable(K, s) && |s.reg.agents| == MAX_AGENTS - 1 + K
  {
    s := AllPutIn(K, K);
    Sizes(s, MAX_AGENTS - 1, MAX_AGENTS - 1 + K);
  }
}
