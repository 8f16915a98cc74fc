/** The distributed startup lock: any number of workers share a lock key and a completion key, both of which expire.
    Every Redis command, every run of the task and every sleep is one step; steps of the workers interleave freely. */
module StartupLock {
  import opened Collections

  type Time = real

  const LOCK_TTL: Time := 300.0
  const COMPLETE_TTL: Time := 60.0
  const MAX_WAIT: Time := 120.0
  const POLL_INTERVAL: Time := 0.5

  /** Each key is absent or holds the moment at which it expires. */
  datatype Keys = Keys(lock: Option<Time>, complete: Option<Time>)

  predicate Live(expiry: Option<Time>, now: Time) {
    expiry.Some? && now < expiry.value
  }

  datatype Phase =
    | CheckComplete
    | TryAcquire
    | InTask
    | MarkComplete
    | Release(ok: bool)
    | PollComplete(waited: Time)
    | PollLock(waited: Time)
    | Sleeping(waited: Time)
    | Fallback
    | Returned(timedOut: bool)
    | Raised
    | Crashed

  /** `depth` counts the calls that wait for a retry to return; `acquiredAt` is meaningful in the locked section. */
  datatype Worker = Worker(phase: Phase, depth: nat, acquiredAt: Time)
  datatype State = State(now: Time, keys: Keys, workers: map<nat, Worker>)

  /** `ReplyLost`: the command raises although Redis has carried it out. */
  datatype Action = Proceed | RedisFails | ReplyLost | TaskSucceeds | TaskFails | Crash
  datatype Event = Tick(elapsed: Time) | Act(worker: nat, action: Action)

  predicate IsDone(p: Phase) {
    p.Returned? || p.Raised? || p.Crashed?
  }

  /** From the successful SET NX to the DELETE. */
  predicate InSection(p: Phase) {
    p.InTask? || p.MarkComplete? || p.Release?
  }

  predicate UsesRedis(p: Phase) {
    p.CheckComplete? || p.TryAcquire? || p.MarkComplete? || p.Release? || p.PollComplete? || p.PollLock?
  }

  predicate IssuesCommand(p: Phase) {
    UsesRedis(p) && !(p.PollComplete? && p.waited >= MAX_WAIT)
  }

  predicate RunsTask(p: Phase) {
    p.InTask? || p.Fallback?
  }

  predicate Enabled(p: Phase, a: Action) {
    match a
    case Proceed => UsesRedis(p) || p.Sleeping?
    case RedisFails => IssuesCommand(p)
    case ReplyLost => IssuesCommand(p)
    case TaskSucceeds => RunsTask(p)
    case TaskFails => RunsTask(p)
    case Crash => !IsDone(p)
  }

  /** A Redis command that succeeds, or the end of a sleep. */
  function Proceeded(now: Time, keys: Keys, w: Worker): (Keys, Worker)
    requires Enabled(w.phase, Proceed)
  {
    match w.phase
    case CheckComplete =>
      (keys, w.(phase := if Live(keys.complete, now) then Returned(false) else TryAcquire))
    case TryAcquire =>
      if Live(keys.lock, now) then (keys, w.(phase := PollComplete(0.0)))
      else (keys.(lock := Some(now + LOCK_TTL)), w.(phase := InTask, acquiredAt := now))
    case MarkComplete => (keys.(complete := Some(now + COMPLETE_TTL)), w.(phase := Release(true)))
    case Release(ok) => (keys.(lock := None), w.(phase := if ok then Returned(false) else Fallback))
    case PollComplete(waited) =>
      (keys, w.(phase := if waited >= MAX_WAIT then Returned(true)
                         else if Live(keys.complete, now) then Returned(false) else PollLock(waited)))
    case PollLock(waited) =>
      (keys, if Live(keys.lock, now) then w.(phase := Sleeping(waited))
             else w.(phase := CheckComplete, depth := w.depth + 1))
    case Sleeping(waited) => (keys, w.(phase := PollComplete(waited + POLL_INTERVAL)))
  }

  function AfterException(w: Worker): Worker {
    w.(phase := if w.phase.MarkComplete? then Release(false) else Fallback)
  }

  /** The other outcomes leave the keys alone, except for a command whose reply is lost. An exception inside the
      locked section still passes its release; one anywhere else reaches the handler that runs the task without the
      lock, and one raised there reaches the handler of the call that is waiting for this retry. */
  function Acted(now: Time, keys: Keys, w: Worker, a: Action): (Keys, Worker)
    requires Enabled(w.phase, a)
  {
    match a
    case Proceed => Proceeded(now, keys, w)
    case RedisFails => (keys, AfterException(w))
    case ReplyLost => (Proceeded(now, keys, w).0, AfterException(w))
    case TaskSucceeds => (keys, w.(phase := if w.phase.InTask? then MarkComplete else Returned(false)))
    case TaskFails =>
      (keys, if w.phase.InTask? then w.(phase := Release(false))
             else if w.depth > 0 then w.(depth := w.depth - 1) else w.(phase := Raised))
    case Crash => (keys, w.(phase := Crashed))
  }

  /** Every worker is about to start; the keys may hold anything an earlier deployment left. */
  ghost predicate Init(s: State) {
    forall w :: w in s.workers ==> s.workers[w].phase == CheckComplete && s.workers[w].depth == 0
  }

  function Next(s: State, w: nat, a: Action): State
    requires w in s.workers && Enabled(s.workers[w].phase, a)
  {
    var (keys, worker) := Acted(s.now, s.keys, s.workers[w], a);
    State(s.now, keys, s.workers[w := worker])
  }

  ghost predicate Step(s: State, e: Event, s': State) {
    match e
    case Tick(elapsed) => elapsed > 0.0 && s' == s.(now := s.now + elapsed)
    case Act(w, a) => w in s.workers && Enabled(s.workers[w].phase, a) && s' == Next(s, w, a)
  }

  datatype Run = Start(first: State) | Then(before: Run, event: Event, after: State)

  function Last(run: Run): State {
    match run
    case Start(s) => s
    case Then(_, _, s) => s
  }

  function First(run: Run): State {
    match run
    case Start(s) => s
    case Then(before, _, _) => First(before)
  }

  ghost predicate IsRun(run: Run) {
    match run
    case Start(s) => Init(s)
    case Then(before, e, s) => IsRun(before) && Step(Last(before), e, s)
  }

  /** Nobody who is done ever blocks the others, and nobody else is ever stuck. */
  lemma NobodyIsStuck(p: Phase)
    ensures IsDone(p) <==> forall a :: !Enabled(p, a)
  {
    assert Enabled(p, Crash) <==> !IsDone(p);
  }

  // ----- Mutual exclusion -----

  /** No live holder has been in the locked section for as long as `limit`. */
  ghost predicate Within(s: State, limit: Time) {
    forall w :: w in s.workers && InSection(s.workers[w].phase) ==> s.now < s.workers[w].acquiredAt + limit
  }

  ghost predicate OnTime(s: State) {
    Within(s, LOCK_TTL)
  }

  /** That holds in every state of the run. */
  ghost predicate HoldersWithin(run: Run, limit: Time) {
    Within(Last(run), limit) && (run.Then? ==> HoldersWithin(run.before, limit))
  }

  /** In no state of the run has a live holder kept the lock for its whole time to live. */
  ghost predicate HoldersOnTime(run: Run) {
    HoldersWithin(run, LOCK_TTL)
  }

  ghost predicate AtMostOneInside(s: State) {
    forall v, w :: v in s.workers && w in s.workers ==>
                     InSection(s.workers[v].phase) && InSection(s.workers[w].phase) ==> v == w
  }

  ghost predicate HolderOwnsKey(s: State) {
    forall w :: w in s.workers && InSection(s.workers[w].phase) ==>
                  s.keys.lock == Some(s.workers[w].acquiredAt + LOCK_TTL)
  }

  lemma StepKeepsExclusion(s: State, e: Event, s': State)
    requires Step(s, e, s') && OnTime(s) && AtMostOneInside(s) && HolderOwnsKey(s)
    ensures AtMostOneInside(s') && HolderOwnsKey(s')
  {
  }

  /** If every holder that is still alive deletes the lock within its time to live, then no two workers are ever in
      the locked section at once, whatever crashes, failed runs and Redis errors happen. */
  lemma {:induction false} MutualExclusion(run: Run)
    requires IsRun(run) && HoldersOnTime(run)
    ensures AtMostOneInside(Last(run)) && HolderOwnsKey(Last(run))
  {
    if run.Then? {
      MutualExclusion(run.before);
      StepKeepsExclusion(Last(run.before), run.event, run.after);
    }
  }

  // ----- Somebody completed it -----

  /** Some worker's run of the task, under the lock or outside it, has finished successfully. */
  ghost predicate Succeeded(run: Run) {
    run.Then? && (Succeeded(run.before) || (run.event.Act? && run.event.action.TaskSucceeds?))
  }

  predicate Claims(p: Phase) {
    p.MarkComplete? || p == Release(true) || p == Returned(false)
  }

  ghost predicate ClaimsAreTrue(run: Run) {
    (Last(run).keys.complete.Some? || exists w :: w in Last(run).workers && Claims(Last(run).workers[w].phase))
      ==> Succeeded(run)
  }

  /** From a store without a completion key, a worker that returns other than by the timeout returns after some run
      of the task has succeeded. */
  lemma {:induction false} ReturnMeansSomebodySucceeded(run: Run)
    requires IsRun(run) && First(run).keys.complete == None
    ensures ClaimsAreTrue(run)
  {
    if run.Then? {
      ReturnMeansSomebodySucceeded(run.before);
      var s, s' := Last(run.before), run.after;
      if run.event.Act? && !Succeeded(run) {
        forall w | w in s'.workers ensures !Claims(s'.workers[w].phase) {
          assert w in s.workers && !Claims(s.workers[w].phase);
        }
      }
    }
  }

  ghost predicate Failed(run: Run, w: nat) {
    run.Then? && (Failed(run.before, w) || (run.event.Act? && run.event.worker == w && IsFailure(run.event.action)))
  }

  predicate IsFailure(a: Action) {
    a.RedisFails? || a.ReplyLost? || a.TaskFails?
  }

  /** Nobody runs the task outside the lock, or raises, unless one of its own commands or runs has raised. */
  lemma {:induction false} OnlyFailuresLeadOutside(run: Run, w: nat)
    requires IsRun(run) && w in Last(run).workers
    requires var p := Last(run).workers[w].phase; p == Fallback || p == Raised || p == Release(false)
    ensures Failed(run, w)
  {
    var s, e := Last(run.before), run.event;
    if e.Tick? || e.worker != w || s.workers[w].phase == Release(false) || s.workers[w].phase == Fallback {
      OnlyFailuresLeadOutside(run.before, w);
    }
  }

  function Two(a: Worker, b: Worker): map<nat, Worker> {
    map[0 := a, 1 := b]
  }

  lemma TwoUpdated(a: Worker, b: Worker, c: Worker)
    ensures Two(a, b)[0 := c] == Two(c, b) && Two(a, b)[1 := c] == Two(a, c)
  {
  }

  lemma FirstActs(run: Run, a: Action, v: Worker, w: Worker) returns (longer: Run)
    requires IsRun(run) && Last(run).workers == Two(v, w) && Enabled(v.phase, a)
    ensures IsRun(longer) && longer.Then? && longer.before == run && longer.event == Act(0, a)
    ensures var (keys, v') := Acted(Last(run).now, Last(run).keys, v, a);
            Last(longer) == State(Last(run).now, keys, Two(v', w))
  {
    TwoUpdated(v, w, Acted(Last(run).now, Last(run).keys, v, a).1);
    longer := Then(run, Act(0, a), Next(Last(run), 0, a));
  }

  lemma SecondActs(run: Run, a: Action, v: Worker, w: Worker) returns (longer: Run)
    requires IsRun(run) && Last(run).workers == Two(v, w) && Enabled(w.phase, a)
    ensures IsRun(longer) && longer.Then? && longer.before == run && longer.event == Act(1, a)
    ensures var (keys, w') := Acted(Last(run).now, Last(run).keys, w, a);
            Last(longer) == State(Last(run).now, keys, Two(v, w'))
  {
    TwoUpdated(v, w, Acted(Last(run).now, Last(run).keys, w, a).1);
    longer := Then(run, Act(1, a), Next(Last(run), 1, a));
  }

  /** No live holder has been in the locked section for longer than the lock's time to live. */
  ghost predicate NotPast(s: State) {
    forall w :: w in s.workers && InSection(s.workers[w].phase) ==> s.now <= s.workers[w].acquiredAt + LOCK_TTL
  }

  ghost predicate NeverPast(run: Run) {
    NotPast(Last(run)) && (run.Then? ==> NeverPast(run.before))
  }

  lemma TwoNotPast(s: State, v: Worker, w: Worker)
    requires s.workers == Two(v, w)
    requires InSection(v.phase) ==> s.now <= v.acquiredAt + LOCK_TTL
    requires InSection(w.phase) ==> s.now <= w.acquiredAt + LOCK_TTL
    ensures NotPast(s)
  {
  }

  const STARTING := Worker(CheckComplete, 0, 0.0)
  const HOLDER := Worker(InTask, 0, 0.0)
  const SECOND := Worker(InTask, 0, LOCK_TTL)

  /** One worker acquires the lock and stays in its task for exactly the time to live. */
  lemma OneStaysInside() returns (run: Run)
    ensures IsRun(run) && NeverPast(run)
    ensures Last(run) == State(LOCK_TTL, Keys(Some(LOCK_TTL), None), Two(HOLDER, STARTING))
  {
    var r0 := Start(State(0.0, Keys(None, None), Two(STARTING, STARTING)));
    var r1 := FirstActs(r0, Proceed, STARTING, STARTING);
    var r2 := FirstActs(r1, Proceed, STARTING.(phase := TryAcquire), STARTING);
    run := Then(r2, Tick(LOCK_TTL), State(LOCK_TTL, Keys(Some(LOCK_TTL), None), Two(HOLDER, STARTING)));
    TwoNotPast(Last(r0), STARTING, STARTING);
    TwoNotPast(Last(r1), STARTING.(phase := TryAcquire), STARTING);
    TwoNotPast(Last(r2), HOLDER, STARTING);
    TwoNotPast(Last(run), HOLDER, STARTING);
    assert NeverPast(r0) && NeverPast(r1) && NeverPast(r2);
  }

  /** Then another one gets in. */
  lemma TwoMeetInside() returns (run: Run)
    ensures IsRun(run) && NeverPast(run) && !OnTime(Last(run)) && !AtMostOneInside(Last(run))
    ensures Last(run) == State(LOCK_TTL, Keys(Some(LOCK_TTL + LOCK_TTL), None), Two(HOLDER, SECOND))
  {
    var r3 := OneStaysInside();
    var r4 := SecondActs(r3, Proceed, HOLDER, STARTING);
    run := SecondActs(r4, Proceed, HOLDER, STARTING.(phase := TryAcquire));
    TwoNotPast(Last(r4), HOLDER, STARTING.(phase := TryAcquire));
    TwoNotPast(Last(run), HOLDER, SECOND);
    assert NeverPast(r4);
    assert InSection(Last(run).workers[0].phase) && InSection(Last(run).workers[1].phase);
  }

  lemma {:induction false} NeverPastIsWithin(run: Run, limit: Time)
    requires NeverPast(run) && limit > LOCK_TTL
    ensures HoldersWithin(run, limit)
  {
    if run.Then? {
      NeverPastIsWithin(run.before, limit);
    }
  }

  /** The hypothesis is needed: a holder that outlives its key, by however little, lets a second worker in, and the
      first one's DELETE then removes a key that is the second one's. */
  lemma LateHolderBreaksExclusion() returns (run: Run, released: Run)
    ensures IsRun(run) && NeverPast(run) && !OnTime(Last(run)) && !AtMostOneInside(Last(run))
    ensures IsRun(released) && released.Then? && released.before.Then? && released.before.before == run
    ensures released.event == Act(0, Proceed) && Last(released).keys.lock == None
    ensures 1 in Last(released).workers && InSection(Last(released).workers[1].phase)
  {
    run := TwoMeetInside();
    var r5 := FirstActs(run, TaskFails, HOLDER, SECOND);
    released := FirstActs(r5, Proceed, HOLDER.(phase := Release(false)), SECOND);
  }

  ghost predicate ExclusionHoldsWithin(limit: Time) {
    forall run :: IsRun(run) && HoldersWithin(run, limit) ==> AtMostOneInside(Last(run))
  }

  lemma {:induction false} TighterIsOnTime(run: Run, limit: Time)
    requires HoldersWithin(run, limit) && limit <= LOCK_TTL
    ensures HoldersOnTime(run)
  {
    if run.Then? {
      TighterIsOnTime(run.before, limit);
    }
  }

  /** Exclusion in all runs whose live holders take less than some time is exactly that time not exceeding the lock's
      time to live. */
  lemma ExclusionExactlyWithinLockTtl(limit: Time)
    ensures ExclusionHoldsWithin(limit) <==> limit <= LOCK_TTL
  {
    if limit <= LOCK_TTL {
      forall run | IsRun(run) && HoldersWithin(run, limit) ensures AtMostOneInside(Last(run)) {
        TighterIsOnTime(run, limit);
        MutualExclusion(run);
      }
    } else {
      var run := TwoMeetInside();
      NeverPastIsWithin(run, limit);
    }
  }

  // ----- What the completion key is for -----

  ghost predicate Extends(first: Run, later: Run) {
    later == first || (later.Then? && Extends(first, later.before))
  }

  /** The last step of the run carried out a worker's SET of the completion key, whether or not it learnt of it. */
  predicate JustMarked(run: Run) {
    && run.Then? && run.event.Act? && run.event.worker in Last(run.before).workers
    && Last(run.before).workers[run.event.worker].phase == MarkComplete
    && (run.event.action.Proceed? || run.event.action.ReplyLost?)
  }

  lemma {:induction false} TimePasses(first: Run, later: Run)
    requires IsRun(later) && Extends(first, later)
    ensures Last(first).now <= Last(later).now
  {
    if later != first {
      TimePasses(first, later.before);
    }
  }

  /** A mark lasts for a minute, whatever happens. */
  lemma {:induction false} MarkLasts(first: Run, later: Run)
    requires IsRun(later) && Extends(first, later) && JustMarked(first)
    ensures Last(later).keys.complete.Some? && Last(later).keys.complete.value >= Last(first).now + 60.0
  {
    TimePasses(first, later);
    if later != first {
      MarkLasts(first, later.before);
    } else {
      assert IsRun(first);
    }
  }

  predicate LooksForMark(p: Phase) {
    p == CheckComplete || (p.PollComplete? && p.waited < 120.0)
  }

  /** Whoever looks for the mark in that minute, at the start or while waiting, returns at once, without the task. */
  lemma MarkedMeansReturn(first: Run, later: Run, w: nat)
    requires IsRun(later) && later.Then? && Extends(first, later.before) && JustMarked(first)
    requires later.event == Act(w, Proceed) && w in Last(later.before).workers
    requires LooksForMark(Last(later.before).workers[w].phase) && Last(later.before).now < Last(first).now + 60.0
    ensures w in Last(later).workers && Last(later).workers[w].phase == Returned(false)
  {
    MarkLasts(first, later.before);
  }

  /** So the only ones to take the lock in that minute are those that had looked before the mark was there. */
  lemma {:induction false} OnlyEarlierChecksGoOn(first: Run, later: Run, w: nat)
    requires IsRun(later) && Extends(first, later) && JustMarked(first)
    requires Last(later).now < Last(first).now + 60.0
    requires w in Last(later).workers && Last(later).workers[w].phase == TryAcquire
    ensures w in Last(first).workers && Last(first).workers[w].phase == TryAcquire
  {
    if later != first {
      TimePasses(later.before, later);
      MarkLasts(first, later.before);
      OnlyEarlierChecksGoOn(first, later.before, w);
    }
  }

  /** A worker alone: it runs the task once, leaves the mark for a minute and no lock, and returns. */
  lemma LoneWorkerRunsOnce() returns (run: Run)
    ensures IsRun(run) && HoldersOnTime(run) && Succeeded(run)
    ensures First(run) == State(0.0, Keys(None, None), map[0 := STARTING])
    ensures Last(run) == State(0.0, Keys(None, Some(60.0)), map[0 := Worker(Returned(false), 0, 0.0)])
  {
    var r0 := Start(State(0.0, Keys(None, None), map[0 := STARTING]));
    var r1 := AloneActs(r0, Proceed, STARTING);
    var r2 := AloneActs(r1, Proceed, STARTING.(phase := TryAcquire));
    var r3 := AloneActs(r2, TaskSucceeds, STARTING.(phase := InTask));
    var r4 := AloneActs(r3, Proceed, STARTING.(phase := MarkComplete));
    run := AloneActs(r4, Proceed, STARTING.(phase := Release(true)));
    assert HoldersOnTime(r0) && HoldersOnTime(r1) && HoldersOnTime(r2);
    assert HoldersOnTime(r3) && HoldersOnTime(r4);
    assert Succeeded(r3) && Succeeded(r4);
    assert First(r0) == First(r1) == First(r2) == First(r3) == First(r4);
  }

  lemma AloneActs(run: Run, a: Action, v: Worker) returns (longer: Run)
    requires IsRun(run) && Last(run).workers == map[0 := v] && Enabled(v.phase, a)
    ensures IsRun(longer) && longer.Then? && longer.before == run && longer.event == Act(0, a)
    ensures var (keys, v') := Acted(Last(run).now, Last(run).keys, v, a);
            Last(longer) == State(Last(run).now, keys, map[0 := v'])
  {
    longer := Then(run, Act(0, a), Next(Last(run), 0, a));
    assert map[0 := v][0 := Acted(Last(run).now, Last(run).keys, v, a).1] ==
           map[0 := Acted(Last(run).now, Last(run).keys, v, a).1];
  }

  const LOOKED := Worker(TryAcquire, 0, 0.0)

  /** One worker is in its task; the other has looked for the mark in vain and not yet tried the lock. */
  lemma OneRunsOtherLooked() returns (run: Run)
    ensures IsRun(run) && HoldersOnTime(run) && First(run) == State(0.0, Keys(None, None), Two(STARTING, STARTING))
    ensures Last(run) == State(0.0, Keys(Some(LOCK_TTL), None), Two(HOLDER, LOOKED))
  {
    var r0 := Start(State(0.0, Keys(None, None), Two(STARTING, STARTING)));
    var r1 := FirstActs(r0, Proceed, STARTING, STARTING);
    var r2 := SecondActs(r1, Proceed, LOOKED, STARTING);
    run := FirstActs(r2, Proceed, LOOKED, LOOKED);
    assert HoldersOnTime(r0) && HoldersOnTime(r1) && HoldersOnTime(r2);
  }

  const DONE := Worker(Returned(false), 0, 0.0)

  /** Continues a run by the first worker's next three steps: its task succeeds, it marks that, it frees the lock. */
  lemma FirstFinishes(r3: Run) returns (run: Run)
    requires IsRun(r3) && HoldersOnTime(r3)
    requires Last(r3) == State(0.0, Keys(Some(LOCK_TTL), None), Two(HOLDER, LOOKED))
    ensures IsRun(run) && HoldersOnTime(run) && Succeeded(run) && First(run) == First(r3)
    ensures Last(run) == State(0.0, Keys(None, Some(60.0)), Two(DONE, LOOKED))
  {
    var r4 := FirstActs(r3, TaskSucceeds, HOLDER, LOOKED);
    var r5 := FirstActs(r4, Proceed, HOLDER.(phase := MarkComplete), LOOKED);
    run := FirstActs(r5, Proceed, HOLDER.(phase := Release(true)), LOOKED);
    assert HoldersOnTime(r4) && HoldersOnTime(r5);
    assert Succeeded(r4) && Succeeded(r5);
    assert First(r4) == First(r3) && First(r5) == First(r3);
  }

  /** The check and the SET NX are two commands: a worker that looks just before the mark runs the task a second time,
      with every holder on time and nothing failing. */
  lemma TaskCanRunTwice() returns (once: Run, run: Run)
    ensures IsRun(run) && HoldersOnTime(run) && Extends(once, run) && Succeeded(once)
    ensures First(run) == State(0.0, Keys(None, None), Two(STARTING, STARTING))
    ensures Last(once) == State(0.0, Keys(None, Some(60.0)), Two(DONE, LOOKED))
    ensures run.Then? && run.event == Act(1, TaskSucceeds)
  {
    var r3 := OneRunsOtherLooked();
    once := FirstFinishes(r3);
    var r7 := SecondActs(once, Proceed, DONE, LOOKED);
    run := SecondActs(r7, TaskSucceeds, DONE, HOLDER);
    assert HoldersOnTime(r7);
    assert First(r7) == First(once);
    assert Extends(once, once) && Extends(once, r7);
  }
}
