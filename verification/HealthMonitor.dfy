/** The failure count behind the container health check: a Redis counter that expires, and the mark it leads to. */
module HealthMonitor {
  import opened Collections

  type Time = real

  const FAILURE_COUNT_TTL: Time := 3600.0

  /** The value of the Redis counter and the moment at which it expires. */
  datatype Counter = Counter(value: nat, expires: Time)

  /** `CheckRaised` is a check that ended in an exception before any counting. */
  datatype Check = Healthy | Unhealthy | CheckRaised

  /** One workspace: its counter, the clock, and whether it is marked `error`. */
  datatype Monitor = Monitor(counter: Option<Counter>, now: Time, isError: bool)

  /** `emitRaises` says whether telling the session about a mark would raise. */
  datatype Event = Wait(elapsed: Time) | Restarted | Checked(check: Check, emitRaises: bool)

  function Stored(m: Monitor): nat {
    if m.counter.Some? && m.now < m.counter.value.expires then m.counter.value.value else 0
  }

  /** INCR, which starts from nothing when the key has expired, then EXPIRE. */
  function Incremented(m: Monitor): Monitor {
    m.(counter := Some(Counter(Stored(m) + 1, m.now + FAILURE_COUNT_TTL)))
  }

  function Cleared(m: Monitor): Monitor {
    m.(counter := None)
  }

  /** The check moves the workspace to the error state. */
  predicate Marks(m: Monitor, threshold: int, check: Check) {
    check.Unhealthy? && Stored(m) + 1 >= threshold
  }

  function AfterCheck(m: Monitor, threshold: int, check: Check, emitRaises: bool): Monitor {
    match check
    case Healthy => Cleared(m)
    case CheckRaised => Incremented(m)
    case Unhealthy =>
      var counted := Incremented(m);
      if !Marks(m, threshold, check) then counted
      else
        var marked := counted.(isError := true);
        // An exception on the way to clearing the counter is counted as one more failure.
        if emitRaises then Incremented(marked) else Cleared(marked)
  }

  function After(m: Monitor, threshold: int, e: Event): Monitor {
    match e
    case Wait(elapsed) => m.(now := m.now + elapsed)
    case Restarted => m.(isError := false)
    case Checked(check, emitRaises) => AfterCheck(m, threshold, check, emitRaises)
  }

  function AfterAll(threshold: int, events: seq<Event>): Monitor {
    if events == [] then Monitor(None, 0.0, false)
    else After(AfterAll(threshold, events[..|events| - 1]), threshold, events[|events| - 1])
  }

  /** The outcomes of the checks alone, in order. */
  function Checks(events: seq<Event>): seq<Check> {
    if events == [] then []
    else
      var last := events[|events| - 1];
      Checks(events[..|events| - 1]) + if last.Checked? then [last.check] else []
  }

  /** How many of the latest checks failed in a row. */
  function Trailing(checks: seq<Check>): nat {
    if checks == [] || checks[|checks| - 1].Healthy? then 0 else Trailing(checks[..|checks| - 1]) + 1
  }

  lemma {:induction false} TrailingAllFailed(checks: seq<Check>)
    ensures Trailing(checks) <= |checks|
    ensures forall i :: |checks| - Trailing(checks) <= i < |checks| ==> !checks[i].Healthy?
  {
    if checks != [] && !checks[|checks| - 1].Healthy? {
      TrailingAllFailed(checks[..|checks| - 1]);
    }
  }

  ghost predicate TimePasses(events: seq<Event>) {
    forall e :: e in events && e.Wait? ==> e.elapsed >= 0.0
  }

  lemma Split(threshold: int, before: seq<Event>, e: Event)
    ensures AfterAll(threshold, before + [e]) == After(AfterAll(threshold, before), threshold, e)
    ensures Checks(before + [e]) == if e.Checked? then Checks(before) + [e.check] else Checks(before)
    ensures e.Checked? ==>
              Trailing(Checks(before + [e])) == if e.check.Healthy? then 0 else Trailing(Checks(before)) + 1
  {
    assert (before + [e])[..|before + [e]| - 1] == before;
    if e.Checked? {
      assert (Checks(before) + [e.check])[..|Checks(before)|] == Checks(before);
    }
  }

  /** The counter exceeds the current row of failures at most after that row has reached the threshold. */
  lemma {:induction false} CountIsBacked(threshold: int, events: seq<Event>)
    requires TimePasses(events)
    ensures var stored, trailing := Stored(AfterAll(threshold, events)), Trailing(Checks(events));
            stored <= trailing || trailing >= threshold
  {
    if events != [] {
      var before, e := events[..|events| - 1], events[|events| - 1];
      assert events == before + [e] && e in events && forall x :: x in before ==> x in events;
      CountIsBacked(threshold, before);
      Split(threshold, before, e);
    }
  }

  /** A workspace is moved to the error state only when at least `threshold` checks in a row, the current one among
      them, have failed. */
  lemma MarkedOnlyAfterFailures(threshold: int, events: seq<Event>, emitRaises: bool)
    requires TimePasses(events) && Marks(AfterAll(threshold, events), threshold, Unhealthy)
    ensures var checks := Checks(events + [Checked(Unhealthy, emitRaises)]);
            && threshold <= |checks|
            && forall i :: |checks| - threshold <= i < |checks| && 0 <= i ==> !checks[i].Healthy?
  {
    var all := events + [Checked(Unhealthy, emitRaises)];
    CountIsBacked(threshold, events);
    Split(threshold, events, Checked(Unhealthy, emitRaises));
    TrailingAllFailed(Checks(all));
  }

  /** The check marks the workspace, telling the session raises, and nothing had reset the counter since the current row
      of failures began: the one way for the counter to get ahead of the row. */
  predicate Overtakes(threshold: int, before: seq<Event>, e: Event) {
    && e.Checked? && e.emitRaises && Marks(AfterAll(threshold, before), threshold, e.check)
    && Stored(AfterAll(threshold, before)) == Trailing(Checks(before))
  }

  lemma OvertakenExactly(threshold: int, before: seq<Event>, e: Event)
    requires e.Wait? ==> e.elapsed >= 0.0
    requires Stored(AfterAll(threshold, before)) <= Trailing(Checks(before))
    ensures Stored(AfterAll(threshold, before + [e])) > Trailing(Checks(before + [e])) <==>
            Overtakes(threshold, before, e)
  {
    Split(threshold, before, e);
  }

  /** After no part of the history has the counter been ahead of the row of failures. */
  ghost predicate NeverAhead(threshold: int, events: seq<Event>) {
    && Stored(AfterAll(threshold, events)) <= Trailing(Checks(events))
    && (events != [] ==> NeverAhead(threshold, events[..|events| - 1]))
  }

  ghost predicate NeverOvertakes(threshold: int, events: seq<Event>) {
    events != [] ==>
      && NeverOvertakes(threshold, events[..|events| - 1])
      && !Overtakes(threshold, events[..|events| - 1], events[|events| - 1])
  }

  /** The counter never exceeds the row of failures if and only if no check overtakes. */
  lemma {:induction false} NeverAheadExactly(threshold: int, events: seq<Event>)
    requires TimePasses(events)
    ensures NeverAhead(threshold, events) <==> NeverOvertakes(threshold, events)
  {
    if events != [] {
      var before, e := events[..|events| - 1], events[|events| - 1];
      assert events == before + [e] && e in events && forall x :: x in before ==> x in events;
      NeverAheadExactly(threshold, before);
      if NeverAhead(threshold, before) {
        OvertakenExactly(threshold, before, e);
      }
    }
  }

  /** Telling the session never raises where a check marks. */
  ghost predicate MarksAreTold(threshold: int, events: seq<Event>) {
    events != [] ==>
      var before, e := events[..|events| - 1], events[|events| - 1];
      && MarksAreTold(threshold, before)
      && (e.Checked? && Marks(AfterAll(threshold, before), threshold, e.check) ==> !e.emitRaises)
  }

  /** Without an exception between a mark and the clearing of the counter, the counter never exceeds the row. */
  lemma {:induction false} CountNeverExceedsRow(threshold: int, events: seq<Event>)
    requires TimePasses(events) && MarksAreTold(threshold, events)
    ensures NeverAhead(threshold, events)
  {
    if events != [] {
      var before, e := events[..|events| - 1], events[|events| - 1];
      assert events == before + [e] && e in events && forall x :: x in before ==> x in events;
      CountNeverExceedsRow(threshold, before);
      OvertakenExactly(threshold, before, e);
    }
  }

  /** `n` failed checks in a row, with every attempt to tell the session raising. */
  function Failures(n: nat): seq<Event> {
    seq(n, _ => Checked(Unhealthy, true))
  }

  lemma OneFailureMore(n: nat)
    ensures Failures(n + 1) == Failures(n) + [Checked(Unhealthy, true)]
  {
  }

  lemma {:induction false} RowOfFailures(threshold: nat, n: nat)
    requires n < threshold
    ensures AfterAll(threshold, Failures(n)).now == 0.0
    ensures Stored(AfterAll(threshold, Failures(n))) == n == Trailing(Checks(Failures(n)))
  {
    if n > 0 {
      RowOfFailures(threshold, n - 1);
      OneFailureMore(n - 1);
      Split(threshold, Failures(n - 1), Checked(Unhealthy, true));
    }
  }

  /** With such an exception it does: the failure that marks is counted twice. */
  lemma ExceptionCountsTwice(threshold: nat)
    requires threshold > 0
    ensures Trailing(Checks(Failures(threshold))) == threshold
    ensures Stored(AfterAll(threshold, Failures(threshold))) == threshold + 1
  {
    RowOfFailures(threshold, threshold - 1);
    OneFailureMore(threshold - 1);
    Split(threshold, Failures(threshold - 1), Checked(Unhealthy, true));
    CountedTwice(AfterAll(threshold, Failures(threshold - 1)), threshold);
  }

  lemma CountedTwice(m: Monitor, threshold: nat)
    requires Stored(m) + 1 == threshold
    ensures Stored(AfterCheck(m, threshold, Unhealthy, true)) == threshold + 1
  {
  }

  // ----- When failures do lead to a mark -----

  /** The failed checks since the counter was last cleared, by a healthy check or by a mark. */
  function Streak(threshold: int, events: seq<Event>): nat {
    if events == [] then 0
    else
      var before, e := events[..|events| - 1], events[|events| - 1];
      var streak := Streak(threshold, before);
      if !e.Checked? then streak
      else if e.check.Healthy? || (e.check.Unhealthy? && streak + 1 >= threshold) then 0
      else streak + 1
  }

  /** No wait outlasts the counter. */
  ghost predicate NothingExpires(threshold: int, events: seq<Event>) {
    events != [] ==>
      var before, e := events[..|events| - 1], events[|events| - 1];
      && NothingExpires(threshold, before)
      && (e.Wait? ==> var m := AfterAll(threshold, before);
                      m.counter.Some? ==> m.now + e.elapsed < m.counter.value.expires)
  }

  lemma StreakSplit(threshold: int, before: seq<Event>, e: Event)
    ensures Streak(threshold, before + [e]) ==
            if !e.Checked? then Streak(threshold, before)
            else if e.check.Healthy? || (e.check.Unhealthy? && Streak(threshold, before) + 1 >= threshold) then 0
            else Streak(threshold, before) + 1
  {
    assert (before + [e])[..|before|] == before;
  }

  /** One event, while the counter is there, does to it what it does to the streak. */
  lemma StoredAfter(m: Monitor, threshold: int, e: Event)
    requires m.counter.Some? ==> m.now < m.counter.value.expires
    requires e.Wait? ==> e.elapsed >= 0.0 && (m.counter.Some? ==> m.now + e.elapsed < m.counter.value.expires)
    requires e.Checked? && Marks(m, threshold, e.check) ==> !e.emitRaises
    ensures Stored(After(m, threshold, e)) ==
            if !e.Checked? then Stored(m)
            else if e.check.Healthy? || (e.check.Unhealthy? && Stored(m) + 1 >= threshold) then 0
            else Stored(m) + 1
  {
  }

  /** As long as the counter does not expire it is exactly the streak, so the unhealthy check that completes
      `threshold` failures is the one that marks. */
  lemma {:induction false} MarkedExactlyAtThreshold(threshold: int, events: seq<Event>)
    requires TimePasses(events) && NothingExpires(threshold, events) && MarksAreTold(threshold, events)
    ensures Stored(AfterAll(threshold, events)) == Streak(threshold, events)
    ensures Marks(AfterAll(threshold, events), threshold, Unhealthy) <==> Streak(threshold, events) + 1 >= threshold
  {
    if events != [] {
      var before, e := events[..|events| - 1], events[|events| - 1];
      assert events == before + [e] && e in events && forall x :: x in before ==> x in events;
      MarkedExactlyAtThreshold(threshold, before);
      Split(threshold, before, e);
      KeyNotExpired(threshold, before);
      StreakSplit(threshold, before, e);
      StoredAfter(AfterAll(threshold, before), threshold, e);
    }
  }

  /** A counter that is present has not expired. */
  lemma {:induction false} KeyNotExpired(threshold: int, events: seq<Event>)
    requires TimePasses(events) && NothingExpires(threshold, events)
    ensures var m := AfterAll(threshold, events); m.counter.Some? ==> m.now < m.counter.value.expires
  {
    if events != [] {
      KeyNotExpired(threshold, events[..|events| - 1]);
    }
  }

  class HealthMonitor {
    const threshold: int
    var counter: Option<Counter>
    var now: Time
    var isError: bool

    function State(): Monitor
      reads this
    {
      Monitor(counter, now, isError)
    }

    constructor (threshold: int)
      ensures this.threshold == threshold && State() == AfterAll(threshold, [])
    {
      this.threshold, counter, now, isError := threshold, None, 0.0, false;
    }

    method IncrementFailureCount() returns (count: nat)
      modifies this`counter
      ensures State() == Incremented(old(State())) && count == Stored(State())
      ensures counter == Some(Counter(count, now + 3600.0))
      ensures var live := old(counter).Some? && now < old(counter).value.expires;
              count == 1 + if live then old(counter).value.value else 0
    {
      var value := if counter.Some? && now < counter.value.expires then counter.value.value else 0;
      counter := Some(Counter(value + 1, now + FAILURE_COUNT_TTL));
      count := value + 1;
    }

    method ClearFailureCount()
      modifies this`counter
      ensures State() == Cleared(old(State()))
    {
      counter := None;
    }

    /** One pass of the loop body over the workspace. */
    method CheckWorkspace(check: Check, emitRaises: bool)
      modifies this`counter, this`isError
      ensures State() == AfterCheck(old(State()), threshold, check, emitRaises)
      ensures isError <==> old(isError) || Marks(old(State()), threshold, check)
    {
      var raised := check.CheckRaised?;
      if check.Healthy? {
        ClearFailureCount();
      } else if check.Unhealthy? {
        var failures := IncrementFailureCount();
        if failures >= threshold {
          isError := true;
          if emitRaises {
            raised := true;
          } else {
            ClearFailureCount();
          }
        }
      }
      if raised {
        var _ := IncrementFailureCount();
      }
    }
  }
}
