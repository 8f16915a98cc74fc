/** The versioned session cache of one user, command by command, with other readers and invalidations in between. */
module SessionCache {
  import opened Collections
  import opened CacheVersions

  datatype Slot = Slot(version: nat, page: int)

  /** What the source gave for a page, known by the page and by the fetch that took it. The cache gives an empty answer
      back as if it were not there. */
  datatype Entry = Entry(page: int, isEmpty: bool, fetch: Fetch)

  /** Another reader between its version read and its store. */
  datatype Ticket = Ticket(version: nat, readAt: Time)

  ghost predicate ReadersSound(readers: seq<Ticket>, log: seq<Op>, now: Time) {
    forall r :: r in readers ==> r.readAt <= now && VersionAt(log, r.readAt) == r.version
  }

  /** Every entry holds its own slot's page, taken by a reader that had got its slot's version. */
  ghost predicate EntriesSound(entries: map<Slot, Entry>, log: seq<Op>, now: Time) {
    forall slot :: slot in entries ==>
      var f := entries[slot].fetch;
      && entries[slot].page == slot.page
      && f.readAt <= f.sourceAt <= f.storeAt <= now && VersionAt(log, f.readAt) == slot.version
  }

  ghost predicate OpsUpto(log: seq<Op>, now: Time) {
    forall i :: 0 <= i < |log| ==> log[i].at <= now
  }

  /** `longer` continues `log` with commands executed after `t`. */
  ghost predicate Continues(log: seq<Op>, longer: seq<Op>, t: Time) {
    && |log| <= |longer| && longer[..|log|] == log
    && forall i :: |log| <= i < |longer| ==> longer[i].at > t
  }

  lemma ContinuesOn(log: seq<Op>, middle: seq<Op>, longer: seq<Op>, t: Time, t': Time)
    requires Continues(log, middle, t) && Continues(middle, longer, t') && t <= t'
    ensures Continues(log, longer, t)
  {
    assert longer[..|log|] == longer[..|middle|][..|log|];
    assert forall i :: |log| <= i < |middle| ==> longer[..|middle|][i] == middle[i];
  }

  /** Everything a version key, its readers and its entries owe to the commands executed up to `now`. */
  ghost predicate Sound(log: seq<Op>, key: Option<Key>, now: Time, readers: seq<Ticket>, entries: map<Slot, Entry>) {
    && Ordered(log) && OpsUpto(log, now) && key == KeyAfter(log)
    && ReadersSound(readers, log, now) && EntriesSound(entries, log, now)
  }

  lemma OneOpMore(log: seq<Op>, key: Option<Key>, op: Op, earlier: Time,
                  readers: seq<Ticket>, entries: map<Slot, Entry>)
    requires Sound(log, key, earlier, readers, entries) && earlier < op.at
    ensures Sound(log + [op], Applied(key, op), op.at, readers, entries)
    ensures Continues(log, log + [op], earlier)
  {
    LogGrows(log, op, earlier);
    AppendedApplies(log, op);
    ReadersStaySound(log, op, earlier, readers);
    EntriesStaySound(log, op, earlier, entries);
  }

  lemma LogGrows(log: seq<Op>, op: Op, earlier: Time)
    requires Ordered(log) && OpsUpto(log, earlier) && earlier < op.at
    ensures Ordered(log + [op]) && OpsUpto(log + [op], op.at) && Continues(log, log + [op], earlier)
  {
  }

  lemma ReadersStaySound(log: seq<Op>, op: Op, earlier: Time, readers: seq<Ticket>)
    requires Ordered(log + [op]) && earlier < op.at && ReadersSound(readers, log, earlier)
    ensures ReadersSound(readers, log + [op], op.at)
  {
    forall r | r in readers ensures VersionAt(log + [op], r.readAt) == r.version {
      LaterOpsDoNotMatter(log, op, r.readAt);
    }
  }

  lemma EntriesStaySound(log: seq<Op>, op: Op, earlier: Time, entries: map<Slot, Entry>)
    requires Ordered(log + [op]) && earlier < op.at && EntriesSound(entries, log, earlier)
    ensures EntriesSound(entries, log + [op], op.at)
  {
    forall slot | slot in entries ensures VersionAt(log + [op], entries[slot].fetch.readAt) == slot.version {
      LaterOpsDoNotMatter(log, op, entries[slot].fetch.readAt);
    }
  }

  /** For every bound on the readers' delays that the answer's own fetch met. */
  ghost predicate FreshUnlessRecycled(log: seq<Op>, ttl: Time, answer: Fetch, readAt: Time) {
    forall delay: Time :: Possible(answer, delay) && delay + ttl <= VERSION_TTL && NoRecycledVersion(log, delay + ttl)
      ==> !Stale(log, answer.sourceAt, readAt)
  }

  lemma HitUnlessRecycled(log: seq<Op>, ttl: Time, answer: Fetch, readAt: Time, lookupAt: Time)
    requires Ordered(log) && Hits(log, answer, readAt, lookupAt, ttl)
    ensures FreshUnlessRecycled(log, ttl, answer, readAt)
  {
    forall delay: Time | Possible(answer, delay) && delay + ttl <= VERSION_TTL && NoRecycledVersion(log, delay + ttl)
      ensures !Stale(log, answer.sourceAt, readAt)
    {
      HitIsFresh(log, delay, ttl, answer, readAt, lookupAt);
    }
  }

  method IncrCommand(key: Option<Key>, now: Time) returns (after: Option<Key>)
    ensures after == Applied(key, Incr(now))
  {
    if key.Some? && (key.value.expires.None? || now < key.value.expires.value) {
      after := Some(Key(key.value.value + 1, key.value.expires));
    } else {
      after := Some(Key(1, None));
    }
  }

  method ExpireCommand(key: Option<Key>, now: Time) returns (after: Option<Key>)
    ensures after == Applied(key, Expire(now))
  {
    after := key;
    if key.Some? && (key.value.expires.None? || now < key.value.expires.value) {
      after := Some(Key(key.value.value, Some(now + VERSION_TTL)));
    }
  }

  class SessionCache {
    /** Seconds for which an entry is stored. */
    const ttl: Time
    var now: Time
    var key: Option<Key>
    var entries: map<Slot, Entry>
    /** The other readers under way. */
    var readers: seq<Ticket>
    /** The commands the version key has seen. */
    ghost var log: seq<Op>

    ghost predicate Valid()
      reads this
    {
      Sound(log, key, now, readers, entries)
    }

    constructor (ttl: Time, now: Time)
      ensures Valid() && log == [] && entries == map[] && this.ttl == ttl && this.now == now
    {
      this.ttl, this.now, key, entries, readers, log := ttl, now, None, map[], [], [];
    }

    /** A later moment. */
    method Later() returns (t: Time)
      ensures t > now
    {
      var elapsed: Time := *;
      t := now + if elapsed > 0.0 then elapsed else 1.0;
    }

    method Tick()
      requires Valid()
      modifies this`now
      ensures Valid() && now > old(now)
    {
      now := Later();
    }

    /** INCR on the version key. Redis executes commands one after the other, so time passes before each. */
    method Increment()
      requires Valid()
      modifies this`now, this`key, this`log
      ensures Valid() && now > old(now) && log == old(log) + [Incr(now)] && Continues(old(log), log, old(now))
    {
      var t := Later();
      OneOpMore(log, key, Incr(t), now, readers, entries);
      var next := IncrCommand(key, t);
      now, key, log := t, next, log + [Incr(t)];
    }

    /** EXPIRE on the version key. */
    method Renew()
      requires Valid()
      modifies this`now, this`key, this`log
      ensures Valid() && now > old(now) && log == old(log) + [Expire(now)] && Continues(old(log), log, old(now))
    {
      var t := Later();
      OneOpMore(log, key, Expire(t), now, readers, entries);
      var next := ExpireCommand(key, t);
      now, key, log := t, next, log + [Expire(t)];
    }

    method Store(slot: Slot, e: Entry)
      requires Valid() && e.page == slot.page && e.fetch.readAt <= e.fetch.sourceAt <= e.fetch.storeAt == now
      requires VersionAt(log, e.fetch.readAt) == slot.version
      modifies this`entries
      ensures Valid() && entries == old(entries)[slot := e]
    {
      entries := entries[slot := e];
    }

    /** What anybody else may do meanwhile: any number of commands of invalidations, crashed ones included, and of
        other readers' stores. */
    method Others()
      requires Valid()
      modifies this`now, this`key, this`log, this`entries, this`readers
      ensures Valid() && now >= old(now)
      ensures Continues(old(log), log, old(now))
    {
      var n: nat := *;
      while n > 0
        invariant Valid() && now >= old(now) && Continues(old(log), log, old(now))
        decreases n
      {
        ghost var before, since := log, now;
        if {
          case true => Increment();
          case true => Renew();
          case true => Tick();
          case true =>
            var version := GetUserSessionsVersion();
            readers := readers + [Ticket(version, now)];
          case readers != [] =>
            var page: int, isEmpty: bool, k: nat, sourceAt: Time := *, *, *, *;
            if k < |readers| && readers[k].readAt <= sourceAt <= now {
              var fetch := Fetch(readers[k].readAt, sourceAt, now);
              Store(Slot(readers[k].version, page), Entry(page, isEmpty, fetch));
            }
        }
        ContinuesOn(old(log), before, log, old(now), since);
        n := n - 1;
      }
    }

    method GetUserSessionsVersion() returns (version: nat)
      requires Valid()
      ensures version == VersionAt(log, now)
    {
      VersionNow(log, now);
      version := Current(key, now);
    }

    /** INCR, then EXPIRE, with others in between. */
    method InvalidateUserSessions()
      requires Valid()
      modifies this`now, this`key, this`log, this`entries, this`readers
      ensures Valid() && now > old(now)
      ensures Continues(old(log), log, old(now))
      ensures |log| > |old(log)| + 1 && log[|old(log)|].Incr? && old(now) < log[|old(log)|].at <= now
      ensures log[|log| - 1] == Expire(now)
    {
      Increment();
      ghost var counted, since := log, now;
      Others();
      ContinuesOn(old(log), counted, log, old(now), since);
      assert log[|old(log)|] == log[..|counted|][|old(log)|];
      ghost var waited, until := log, now;
      Renew();
      ContinuesOn(old(log), waited, log, old(now), until);
    }

    /** One reader: the version, the versioned entry, and on a miss the source and a store. `seen` are the entries at
        the lookup, `before` those at the store. The answer is for the page asked for. It is the entry of that page
        and of the version in force at the read, if there is a live one that is not empty; otherwise it comes from the
        source and is what that slot, and no other, is changed to. A miss answers with a snapshot taken after the read
        began; a hit is no older than the latest invalidation before the read, unless the version number has come back
        too early. */
    method ReadSessions(page: int)
      returns (hit: bool, answer: Entry, readAt: Time, lookupAt: Time,
               ghost seen: map<Slot, Entry>, ghost before: map<Slot, Entry>)
      requires Valid()
      modifies this`now, this`key, this`log, this`entries, this`readers
      ensures Valid() && old(now) < readAt <= lookupAt <= now && answer.page == page
      ensures var slot := Slot(VersionAt(log, readAt), page);
              && (hit <==> slot in seen && lookupAt < seen[slot].fetch.storeAt + ttl && !seen[slot].isEmpty)
              && (hit ==> answer == seen[slot] && entries == seen)
              && (!hit ==> entries == before[slot := answer] && answer.fetch.storeAt == now)
      ensures !hit ==> readAt <= answer.fetch.sourceAt && !Stale(log, answer.fetch.sourceAt, readAt)
      ensures hit ==> FreshUnlessRecycled(log, ttl, answer.fetch, readAt)
    {
      Others();
      Tick();
      readAt := now;
      var version := GetUserSessionsVersion();
      ghost var atRead := log;
      Others();
      SameVersionLater(atRead, log, readAt);
      lookupAt, seen, before := now, entries, entries;
      var slot := Slot(version, page);
      if slot in entries && now < entries[slot].fetch.storeAt + ttl && !entries[slot].isEmpty {
        hit, answer := true, entries[slot];
        HitUnlessRecycled(log, ttl, answer.fetch, readAt, now);
      } else {
        hit := false;
        ghost var atMiss, missed := log, now;
        Others();
        ContinuesOn(atRead, atMiss, log, readAt, missed);
        var sourceAt, isEmpty := now, *;
        ghost var atSource := log;
        Others();
        ContinuesOn(atRead, atSource, log, readAt, sourceAt);
        SameVersionLater(atRead, log, readAt);
        answer := Entry(page, isEmpty, Fetch(readAt, sourceAt, now));
        before := entries;
        Store(slot, answer);
      }
    }
  }
}
