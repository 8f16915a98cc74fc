/** The wait for the startup lock ends: what a waiting worker does is paid for by acquisitions of other workers. */
module StartupWait {
  import opened StartupLock

  /** Of one worker: the polls it has slept through, its retries and all its steps; and the acquisitions by others,
      to which a lock that is already held when the run starts counts as one. */
  datatype Tally = Tally(polls: nat, retries: nat, steps: nat, foreign: nat)

  /** A SET that takes the key, whether or not its worker learns of it. */
  predicate Acquires(s: State, e: Event, s': State) {
    && e.Act? && e.worker in s.workers && s.workers[e.worker].phase.TryAcquire?
    && !Live(s.keys.lock, s.now) && Live(s'.keys.lock, s'.now)
  }

  function Counted(t: Tally, w: Worker, w': Worker, a: Action): Tally {
    Tally(t.polls + if w.phase.Sleeping? && a.Proceed? then 1 else 0,
          t.retries + if w.phase.PollLock? && w'.phase.CheckComplete? then 1 else 0,
          t.steps + 1, t.foreign)
  }

  function TallyOf(run: Run, w: nat): Tally {
    match run
    case Start(s) => Tally(0, 0, 0, if Live(s.keys.lock, s.now) then 1 else 0)
    case Then(before, e, s') =>
      var t, s := TallyOf(before, w), Last(before);
      if e.Act? && e.worker == w && w in s.workers && w in s'.workers then
        Counted(t, s.workers[w], s'.workers[w], e.action)
      else if Acquires(s, e, s') then t.(foreign := t.foreign + 1)
      else t
  }

  predicate Waits(p: Phase) {
    p.PollComplete? || p.PollLock? || p.Sleeping?
  }

  function WaitedSoFar(p: Phase): Time
    requires Waits(p)
  {
    match p
    case PollComplete(waited) => waited
    case PollLock(waited) => waited
    case Sleeping(waited) => waited
  }

  /** `waited` only ever grows by half a second. */
  ghost predicate InHalfSeconds(t: Time) {
    2.0 * t == (2.0 * t).Floor as real
  }

  /** Each retry is charged to an acquisition by somebody else: a wait begins while somebody else holds the key, and
      after a retry the key has to be taken again before another wait can begin. */
  ghost predicate Charged(w: Worker, lockLive: bool, t: Tally) {
    var p := w.phase;
    && t.retries <= t.foreign
    && (p.CheckComplete? || p.TryAcquire? ==>
          t.polls <= 240 * t.retries && (lockLive ==> t.retries + 1 <= t.foreign))
    && (Waits(p) ==>
          && t.retries + 1 <= t.foreign
          && InHalfSeconds(WaitedSoFar(p)) && 0.0 <= WaitedSoFar(p) <= MAX_WAIT
          && (!p.PollComplete? ==> WaitedSoFar(p) < MAX_WAIT)
          && t.polls as real <= 240.0 * t.retries as real + 2.0 * WaitedSoFar(p))
    && t.polls <= 240 * t.foreign
  }

  /** An upper bound on the steps taken so far, by phase. A round of waiting takes at most 723 steps; each call that
      waits for a retry adds at most one run outside the lock. */
  ghost predicate StepsBounded(w: Worker, t: Tally) {
    var base, steps := 723.0 * t.retries as real, t.steps as real;
    && w.depth <= t.retries
    && (!w.phase.Fallback? && !IsDone(w.phase) ==> w.depth == t.retries)
    && match w.phase
       case CheckComplete => steps <= base
       case TryAcquire => steps <= base + 1.0
       case PollComplete(waited) => steps <= base + 2.0 + 6.0 * waited
       case PollLock(waited) => steps <= base + 3.0 + 6.0 * waited
       case Sleeping(waited) => steps <= base + 4.0 + 6.0 * waited
       case InTask => steps <= base + 2.0
       case MarkComplete => steps <= base + 3.0
       case Release(_) => steps <= base + 4.0
       case Fallback => steps <= base + 723.0 + (t.retries - w.depth) as real
       case _ => steps <= base + 724.0 + t.retries as real
  }

  lemma HalfSecondOn(t: Time)
    requires InHalfSeconds(t) && 0.0 <= t < MAX_WAIT
    ensures InHalfSeconds(t + POLL_INTERVAL) && t + POLL_INTERVAL <= MAX_WAIT
  {
    assert 2.0 * (t + POLL_INTERVAL) == ((2.0 * t).Floor + 1) as real;
  }

  lemma OwnStepCharged(now: Time, keys: Keys, w: Worker, a: Action, t: Tally)
    requires Enabled(w.phase, a) && Charged(w, Live(keys.lock, now), t)
    ensures var (keys', w') := Acted(now, keys, w, a); Charged(w', Live(keys'.lock, now), Counted(t, w, w', a))
  {
    if w.phase.Sleeping? {
      HalfSecondOn(w.phase.waited);
    }
  }

  lemma OwnStepBounded(now: Time, keys: Keys, w: Worker, a: Action, t: Tally)
    requires Enabled(w.phase, a) && StepsBounded(w, t) && Charged(w, Live(keys.lock, now), t)
    ensures var (_, w') := Acted(now, keys, w, a); StepsBounded(w', Counted(t, w, w', a))
  {
    if w.phase.PollLock? {
      HalfSecondOn(w.phase.waited);
    }
  }

  lemma OthersStepCharged(s: State, e: Event, s': State, w: nat, t: Tally)
    requires Step(s, e, s') && w in s.workers && !(e.Act? && e.worker == w)
    requires Charged(s.workers[w], Live(s.keys.lock, s.now), t)
    ensures w in s'.workers && s'.workers[w] == s.workers[w]
    ensures Charged(s.workers[w], Live(s'.keys.lock, s'.now),
                    if Acquires(s, e, s') then t.(foreign := t.foreign + 1) else t)
  {
    if Live(s'.keys.lock, s'.now) && !Live(s.keys.lock, s.now) {
      assert Acquires(s, e, s');
    }
  }

  lemma {:induction false} EveryWorkerIsCharged(run: Run, w: nat)
    requires IsRun(run) && w in Last(run).workers
    ensures var s := Last(run);
            && Charged(s.workers[w], Live(s.keys.lock, s.now), TallyOf(run, w))
            && StepsBounded(s.workers[w], TallyOf(run, w))
  {
    if run.Then? {
      var s, e, s' := Last(run.before), run.event, run.after;
      EveryWorkerIsCharged(run.before, w);
      var t := TallyOf(run.before, w);
      if e.Act? && e.worker == w {
        OwnStepCharged(s.now, s.keys, s.workers[w], e.action, t);
        OwnStepBounded(s.now, s.keys, s.workers[w], e.action, t);
      } else {
        OthersStepCharged(s, e, s', w, t);
      }
    }
  }

  /** However the steps interleave, a worker polls at most 240 times per acquisition by somebody else, retries at
      most once per such acquisition, and takes a bounded number of steps in all. It is never stuck before it is
      done, so a wait that has only finitely many acquisitions to wait for ends. */
  lemma WaitIsBounded(run: Run, w: nat)
    requires IsRun(run) && w in Last(run).workers
    ensures var t := TallyOf(run, w);
            && t.polls <= 240 * t.foreign
            && t.retries <= t.foreign
            && t.steps <= 724 * (t.foreign + 1)
    ensures !IsDone(Last(run).workers[w].phase) ==> exists a :: Enabled(Last(run).workers[w].phase, a)
  {
    EveryWorkerIsCharged(run, w);
    NobodyIsStuck(Last(run).workers[w].phase);
  }

  /** The last wait so far, in polls. */
  ghost predicate PolledThrough(w: Worker, t: Tally) {
    && (Waits(w.phase) ==> t.polls as real >= 2.0 * WaitedSoFar(w.phase))
    && (w.phase == Returned(true) ==> t.polls >= 240)
  }

  /** Nobody gives up waiting before its two minutes of half-second polls are over. */
  lemma {:induction false} TimeoutTakesAllPolls(run: Run, w: nat)
    requires IsRun(run) && w in Last(run).workers
    ensures Last(run).workers[w].phase == Returned(true) ==> TallyOf(run, w).polls >= 240
    ensures PolledThrough(Last(run).workers[w], TallyOf(run, w))
  {
    if run.Then? {
      TimeoutTakesAllPolls(run.before, w);
    }
  }
}
