/** When a cache entry found under a version number can be older than the latest invalidation. The version key is
    incremented by INCR and given seven days by EXPIRE; once it has expired the numbers start again at 1. */
module CacheVersions {
  import opened Collections

  type Time = real

  const VERSION_TTL: Time := 604800.0

  /** A command on the version key, and when Redis executed it. */
  datatype Op = Incr(at: Time) | Expire(at: Time)

  datatype Key = Key(value: nat, expires: Option<Time>)

  predicate Live(key: Option<Key>, now: Time) {
    key.Some? && (key.value.expires.None? || now < key.value.expires.value)
  }

  function Current(key: Option<Key>, now: Time): nat {
    if Live(key, now) then key.value.value else 0
  }

  /** INCR leaves the expiry of a live key alone and creates a missing one without any; EXPIRE needs a live key. A key
      that has expired is kept here, no longer alive, until the next INCR replaces it. */
  function Applied(key: Option<Key>, op: Op): Option<Key> {
    match op
    case Incr(at) =>
      Some(if Live(key, at) then Key(key.value.value + 1, key.value.expires) else Key(1, None))
    case Expire(at) =>
      if Live(key, at) then Some(Key(key.value.value, Some(at + VERSION_TTL))) else key
  }

  /** The key after the first `n` commands. */
  function KeyAt(log: seq<Op>, n: nat): Option<Key>
    requires n <= |log|
  {
    if n == 0 then None else Applied(KeyAt(log, n - 1), log[n - 1])
  }

  function KeyAfter(log: seq<Op>): Option<Key> {
    KeyAt(log, |log|)
  }

  /** INCR returns one more than what was in force, and the key is there afterwards. */
  lemma IncrAddsOne(key: Option<Key>, at: Time)
    ensures Live(Applied(key, Incr(at)), at)
    ensures Current(Applied(key, Incr(at)), at) == Current(key, at) + 1
  {
  }

  /** EXPIRE keeps the number of a live key for seven more days, and does nothing without one. */
  lemma ExpireKeepsSevenDays(key: Option<Key>, at: Time, later: Time)
    requires at <= later
    ensures Current(Applied(key, Expire(at)), later) ==
            if Current(key, at) > 0 && later < at + 7.0 * 24.0 * 60.0 * 60.0 then Current(key, at)
            else if Live(key, at) then 0
            else Current(key, later)
  {
  }

  /** Redis executes one command at a time. */
  ghost predicate Ordered(log: seq<Op>) {
    forall i, j :: 0 <= i < j < |log| ==> log[i].at < log[j].at
  }

  /** The number of commands executed up to and including time `t`. */
  function Upto(log: seq<Op>, t: Time): (n: nat)
    ensures n <= |log|
  {
    if log == [] || log[|log| - 1].at <= t then |log| else Upto(log[..|log| - 1], t)
  }

  /** The version a reader gets at time `t`; 0 when there is no key. */
  function VersionAt(log: seq<Op>, t: Time): nat {
    Current(KeyAt(log, Upto(log, t)), t)
  }

  lemma {:induction false} UptoSplits(log: seq<Op>, t: Time)
    requires Ordered(log)
    ensures forall i :: 0 <= i < |log| ==> (i < Upto(log, t) <==> log[i].at <= t)
  {
    if log != [] && log[|log| - 1].at > t {
      UptoSplits(log[..|log| - 1], t);
    }
  }

  lemma UptoIs(log: seq<Op>, t: Time, n: nat)
    requires Ordered(log) && n <= |log|
    requires n > 0 ==> log[n - 1].at <= t
    requires n < |log| ==> log[n].at > t
    ensures Upto(log, t) == n
  {
    UptoSplits(log, t);
  }

  // ----- Readers -----

  /** A reader that missed: it read the version, then the source, and stored the answer under that version. */
  datatype Fetch = Fetch(readAt: Time, sourceAt: Time, storeAt: Time)

  predicate Possible(f: Fetch, delay: Time) {
    f.readAt <= f.sourceAt <= f.storeAt <= f.readAt + delay
  }

  /** A reader that got its version at `readAt` finds the entry of `f` at `lookupAt`, before it has expired. */
  ghost predicate Hits(log: seq<Op>, f: Fetch, readAt: Time, lookupAt: Time, ttl: Time) {
    && readAt <= lookupAt
    && f.storeAt <= lookupAt < f.storeAt + ttl
    && VersionAt(log, f.readAt) == VersionAt(log, readAt)
  }

  /** An invalidation happened after the snapshot was taken and before the reader began. */
  ghost predicate Stale(log: seq<Op>, snapshotAt: Time, readAt: Time) {
    exists i :: 0 <= i < |log| && log[i].Incr? && snapshotAt < log[i].at <= readAt
  }

  ghost predicate AlwaysFresh(log: seq<Op>, delay: Time, ttl: Time) {
    forall f, readAt, lookupAt ::
      Possible(f, delay) && Hits(log, f, readAt, lookupAt, ttl) ==> !Stale(log, f.sourceAt, readAt)
  }

  /** No INCR returns a number that was in force within the time `span` before it. */
  ghost predicate NoRecycledVersion(log: seq<Op>, span: Time) {
    forall j, a: Time :: 0 <= j < |log| && log[j].Incr? && a < log[j].at < a + span
      ==> VersionAt(log, a) != VersionAt(log, log[j].at)
  }

  // ----- Between two moments -----

  /** Without an INCR in between, the version stays or is lost. */
  lemma {:induction false} NoIncrKeepsValue(log: seq<Op>, m: nat, n: nat, t: Time, t': Time)
    requires Ordered(log) && m <= n <= |log| && t <= t'
    requires forall i :: 0 <= i < m ==> log[i].at <= t
    requires forall i :: m <= i < n ==> t < log[i].at <= t' && log[i].Expire?
    ensures Current(KeyAt(log, n), t') == Current(KeyAt(log, m), t) || Current(KeyAt(log, n), t') == 0
    decreases n - m
  {
    if m < n {
      NoIncrKeepsValue(log, m, n - 1, t, log[n - 1].at);
    }
  }

  /** A key that was missing at `t` and has been incremented since is alive for seven days from `t`. */
  lemma {:induction false} NewKeyLives(log: seq<Op>, t: Time, m: nat, n: nat)
    requires Ordered(log) && m <= n <= |log|
    requires Current(KeyAt(log, m), t) == 0 && !Live(KeyAt(log, m), t)
    requires forall i :: m <= i < n ==> t < log[i].at < t + VERSION_TTL
    ensures var key := KeyAt(log, n);
            if exists i :: m <= i < n && log[i].Incr?
            then key.Some? && key.value.value > 0
                 && (key.value.expires.Some? ==> key.value.expires.value > t + VERSION_TTL)
            else !Live(key, t)
    decreases n - m
  {
    if m < n {
      NewKeyLives(log, t, m, n - 1);
    }
  }

  lemma {:induction false} VersionsArePositive(log: seq<Op>, n: nat)
    requires n <= |log|
    ensures KeyAt(log, n).Some? ==> KeyAt(log, n).value.value > 0
  {
    if n > 0 {
      VersionsArePositive(log, n - 1);
    }
  }

  lemma {:induction false} LastIncr(log: seq<Op>, i: nat, n: nat) returns (j: nat)
    requires i < n <= |log| && log[i].Incr?
    ensures i <= j < n && log[j].Incr? && forall k :: j < k < n ==> log[k].Expire?
    decreases n
  {
    if log[n - 1].Incr? {
      j := n - 1;
    } else {
      j := LastIncr(log, i, n - 1);
    }
  }

  // ----- The exact condition -----

  /** A hit with version 0 on both sides cannot straddle an invalidation: the key it creates outlives the entry. */
  lemma UnversionedHitIsFresh(log: seq<Op>, storedAt: Time, readAt: Time, i: nat)
    requires Ordered(log) && i < |log| && log[i].Incr?
    requires VersionAt(log, storedAt) == 0 && storedAt < log[i].at <= readAt < storedAt + VERSION_TTL
    ensures VersionAt(log, readAt) > 0
  {
    var m, n := Upto(log, storedAt), Upto(log, readAt);
    UptoSplits(log, storedAt);
    UptoSplits(log, readAt);
    VersionsArePositive(log, m);
    NewKeyLives(log, storedAt, m, n);
  }

  /** A version that is in force after an INCR was returned by an INCR no earlier than that one. */
  lemma IncrThatReturned(log: seq<Op>, i: nat, readAt: Time) returns (j: nat)
    requires Ordered(log) && i < |log| && log[i].Incr? && log[i].at <= readAt && VersionAt(log, readAt) > 0
    ensures i <= j < |log| && log[j].Incr? && log[i].at <= log[j].at <= readAt
    ensures VersionAt(log, log[j].at) == VersionAt(log, readAt)
  {
    var n := Upto(log, readAt);
    UptoSplits(log, readAt);
    j := LastIncr(log, i, n);
    NoIncrKeepsValue(log, j + 1, n, log[j].at, readAt);
    UptoIs(log, log[j].at, j + 1);
  }

  lemma HitIsFresh(log: seq<Op>, delay: Time, ttl: Time, f: Fetch, readAt: Time, lookupAt: Time)
    requires Ordered(log) && delay + ttl <= VERSION_TTL && NoRecycledVersion(log, delay + ttl)
    requires Possible(f, delay) && Hits(log, f, readAt, lookupAt, ttl)
    ensures !Stale(log, f.sourceAt, readAt)
  {
    if Stale(log, f.sourceAt, readAt) {
      var i :| 0 <= i < |log| && log[i].Incr? && f.sourceAt < log[i].at <= readAt;
      if VersionAt(log, readAt) == 0 {
        UnversionedHitIsFresh(log, f.readAt, readAt, i);
      } else {
        var j := IncrThatReturned(log, i, readAt);
      }
    }
  }

  /** A number that comes back too early is enough for a stale hit: a reader that got it the first time is slow
      enough, and another gets it the second time. */
  lemma RecycledVersionHits(log: seq<Op>, delay: Time, ttl: Time, j: nat, a: Time) returns (f: Fetch)
    requires delay >= 0.0 && ttl > 0.0
    requires j < |log| && log[j].Incr? && a < log[j].at < a + (delay + ttl)
    requires VersionAt(log, a) == VersionAt(log, log[j].at)
    ensures Possible(f, delay) && Hits(log, f, log[j].at, log[j].at, ttl) && Stale(log, f.sourceAt, log[j].at)
  {
    f := Fetch(a, a, if a + delay < log[j].at then a + delay else log[j].at);
  }

  /** Versioned hits are never older than the latest invalidation before the read, whatever the readers' timing,
      exactly when no INCR brings back a number that was in force within the longest reader delay plus the entry's
      time to live. */
  lemma FreshExactlyWithoutRecycling(log: seq<Op>, delay: Time, ttl: Time)
    requires Ordered(log) && delay >= 0.0 && ttl > 0.0 && delay + ttl <= VERSION_TTL
    ensures AlwaysFresh(log, delay, ttl) <==> NoRecycledVersion(log, delay + ttl)
  {
    if NoRecycledVersion(log, delay + ttl) {
      forall f, readAt, lookupAt | Possible(f, delay) && Hits(log, f, readAt, lookupAt, ttl)
        ensures !Stale(log, f.sourceAt, readAt)
      {
        HitIsFresh(log, delay, ttl, f, readAt, lookupAt);
      }
    } else {
      var j, a :| 0 <= j < |log| && log[j].Incr? && a < log[j].at < a + (delay + ttl)
                  && VersionAt(log, a) == VersionAt(log, log[j].at);
      var f := RecycledVersionHits(log, delay, ttl, j, a);
    }
  }

  // ----- A schedule that avoids it -----

  /** No INCR comes within `span` after the key has expired. */
  ghost predicate QuietAfterExpiry(log: seq<Op>, span: Time) {
    forall j :: 0 <= j < |log| && log[j].Incr? ==>
      var key := KeyAt(log, j);
      key.Some? && !Live(key, log[j].at) && key.value.expires.Some? ==> log[j].at >= key.value.expires.value + span
  }

  lemma QuietIncrFindsKeyAlive(log: seq<Op>, span: Time, t: Time, j: nat)
    requires QuietAfterExpiry(log, span) && j < |log| && log[j].Incr? && log[j].at < t + span
    requires var key := KeyAt(log, j); key.Some? && (key.value.expires.Some? ==> key.value.expires.value > t)
    ensures Live(KeyAt(log, j), log[j].at)
  {
  }

  /** `key` has come from `before`, is there beyond `t`, and is larger if `more`. */
  predicate GrownFrom(before: Key, key: Option<Key>, t: Time, more: bool) {
    && key.Some? && key.value.value >= before.value && (more ==> key.value.value > before.value)
    && (key.value.expires.Some? ==> key.value.expires.value > t)
  }

  lemma GrowsFurther(before: Key, key: Option<Key>, op: Op, t: Time, more: bool)
    requires GrownFrom(before, key, t, more) && t < op.at && (op.Incr? ==> Live(key, op.at))
    ensures GrownFrom(before, Applied(key, op), t, op.Incr?)
  {
    GrowsByOne(key, op, t);
  }

  /** As long as nothing finds the key expired, its number only grows, by one with every INCR. */
  lemma {:induction false} LiveKeyGrows(log: seq<Op>, span: Time, t: Time, m: nat, n: nat)
    requires QuietAfterExpiry(log, span) && 0.0 < span <= VERSION_TTL && m <= n <= |log|
    requires Live(KeyAt(log, m), t)
    requires forall i :: m <= i < n ==> t < log[i].at < t + span
    ensures GrownFrom(KeyAt(log, m).value, KeyAt(log, n), t, n > m && log[n - 1].Incr?)
    decreases n - m
  {
    if m < n {
      LiveKeyGrows(log, span, t, m, n - 1);
      if log[n - 1].Incr? {
        QuietIncrFindsKeyAlive(log, span, t, n - 1);
      }
      GrowsFurther(KeyAt(log, m).value, KeyAt(log, n - 1), log[n - 1], t, n - 1 > m && log[n - 2].Incr?);
    }
  }

  lemma GrowsByOne(key: Option<Key>, op: Op, t: Time)
    requires t < op.at && key.Some? && (key.value.expires.Some? ==> key.value.expires.value > t)
    requires op.Incr? ==> Live(key, op.at)
    ensures var after := Applied(key, op);
            && after.Some? && (after.value.expires.Some? ==> after.value.expires.value > t)
            && after.value.value == key.value.value + if op.Incr? then 1 else 0
  {
  }

  /** What an INCR returns is in force right after it. */
  lemma IncrReturns(log: seq<Op>, j: nat)
    requires Ordered(log) && j < |log| && log[j].Incr?
    ensures KeyAt(log, j + 1).Some? && VersionAt(log, log[j].at) == KeyAt(log, j + 1).value.value > 0
  {
    UptoIs(log, log[j].at, j + 1);
    VersionsArePositive(log, j + 1);
    IncrAddsOne(KeyAt(log, j), log[j].at);
  }

  lemma BetweenThem(log: seq<Op>, j: nat, a: Time, span: Time)
    requires Ordered(log) && j < |log| && a < log[j].at < a + span
    ensures Upto(log, a) <= j
    ensures forall i :: Upto(log, a) <= i < j + 1 ==> a < log[i].at < a + span
  {
    UptoSplits(log, a);
  }

  lemma QuietIncrReturnsNewNumber(log: seq<Op>, span: Time, j: nat, a: Time)
    requires Ordered(log) && 0.0 < span <= VERSION_TTL && QuietAfterExpiry(log, span)
    requires j < |log| && log[j].Incr? && a < log[j].at < a + span
    ensures VersionAt(log, a) != VersionAt(log, log[j].at)
  {
    IncrReturns(log, j);
    BetweenThem(log, j, a, span);
    if Live(KeyAt(log, Upto(log, a)), a) {
      LiveKeyGrows(log, span, a, Upto(log, a), j + 1);
    }
  }

  /** Keeping quiet for `span` after an expiry keeps every number from coming back within `span`. */
  lemma QuietMeansNoRecycling(log: seq<Op>, span: Time)
    requires Ordered(log) && 0.0 < span <= VERSION_TTL && QuietAfterExpiry(log, span)
    ensures NoRecycledVersion(log, span)
  {
    forall j, a: Time | 0 <= j < |log| && log[j].Incr? && a < log[j].at < a + span
      ensures VersionAt(log, a) != VersionAt(log, log[j].at)
    {
      QuietIncrReturnsNewNumber(log, span, j, a);
    }
  }

  /** For entries and readers that together take at most seven days, no hit is older than the
      latest invalidation before the read, as long as nobody invalidates right after the version key has expired. */
  lemma QuietMeansFresh(log: seq<Op>, delay: Time, ttl: Time)
    requires Ordered(log) && delay >= 0.0 && ttl > 0.0 && delay + ttl <= VERSION_TTL
    requires QuietAfterExpiry(log, delay + ttl)
    ensures AlwaysFresh(log, delay, ttl)
  {
    QuietMeansNoRecycling(log, delay + ttl);
    FreshExactlyWithoutRecycling(log, delay, ttl);
  }

  /** The condition is needed, however long entries live: one invalidation just after the seven days brings version 1
      back. */
  lemma ExpiryBringsVersionBack(delay: Time, ttl: Time) returns (log: seq<Op>)
    requires delay >= 0.0 && ttl > 0.0 && delay + ttl <= VERSION_TTL
    ensures Ordered(log) && !AlwaysFresh(log, delay, ttl)
  {
    var expiry, moment := 1.0 + VERSION_TTL, ttl / 4.0;
    log := [Incr(0.0), Expire(1.0), Incr(expiry + moment)];
    assert KeyAt(log, 1) == Some(Key(1, None));
    assert KeyAt(log, 2) == Applied(KeyAt(log, 1), Expire(1.0)) == Some(Key(1, Some(expiry)));
    assert KeyAt(log, 3) == Applied(KeyAt(log, 2), log[2]) == Some(Key(1, None));
    UptoIs(log, expiry - moment, 2);
    UptoIs(log, log[2].at, 3);
    var f := RecycledVersionHits(log, delay, ttl, 2, expiry - moment);
  }

  // ----- A log that grows -----

  lemma {:induction false} EarlierKeysStay(log: seq<Op>, op: Op, n: nat)
    requires n <= |log|
    ensures KeyAt(log + [op], n) == KeyAt(log, n)
  {
    if n > 0 {
      EarlierKeysStay(log, op, n - 1);
    }
  }

  lemma LaterOpsDoNotMatter(log: seq<Op>, op: Op, t: Time)
    requires Ordered(log + [op]) && t < op.at
    ensures VersionAt(log + [op], t) == VersionAt(log, t)
  {
    assert (log + [op])[..|log|] == log;
    assert Upto(log + [op], t) == Upto(log, t);
    EarlierKeysStay(log, op, Upto(log, t));
  }

  lemma {:induction false} SameVersionLater(log: seq<Op>, longer: seq<Op>, t: Time)
    requires Ordered(longer) && |log| <= |longer| && longer[..|log|] == log
    requires forall i :: |log| <= i < |longer| ==> longer[i].at > t
    ensures VersionAt(longer, t) == VersionAt(log, t)
    decreases |longer|
  {
    if |log| < |longer| {
      var shorter := longer[..|longer| - 1];
      assert shorter + [longer[|longer| - 1]] == longer;
      assert shorter[..|log|] == log;
      SameVersionLater(log, shorter, t);
      LaterOpsDoNotMatter(shorter, longer[|longer| - 1], t);
    } else {
      assert longer == log;
    }
  }

  lemma VersionNow(log: seq<Op>, now: Time)
    requires forall i :: 0 <= i < |log| ==> log[i].at <= now
    ensures VersionAt(log, now) == Current(KeyAfter(log), now)
  {
  }

  lemma AppendedApplies(log: seq<Op>, op: Op)
    ensures KeyAfter(log + [op]) == Applied(KeyAfter(log), op)
  {
    EarlierKeysStay(log, op, |log|);
  }
}
