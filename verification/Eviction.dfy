/** Oldest-first selection: what sorting timestamped ids and cutting a prefix removes. */
module Eviction {

  /** Task, agent and session ids; wrapped so that the proofs never look inside the text. */
  datatype Id = Id(text: string)
  type Time = real

  datatype Stamp = Stamp(id: Id, at: Time)

  function Ids(xs: seq<Stamp>): set<Id> {
    set x | x in xs :: x.id
  }

  ghost predicate DistinctIds(xs: seq<Stamp>) {
    forall i, j :: 0 <= i < j < |xs| ==> xs[i].id != xs[j].id
  }

  ghost predicate Sorted(xs: seq<Stamp>) {
    forall i, j :: 0 <= i < j < |xs| ==> xs[i].at <= xs[j].at
  }

  /** Every stamp carries the time its id has in `at`. */
  ghost predicate Stamped(xs: seq<Stamp>, at: map<Id, Time>) {
    forall x :: x in xs ==> x.id in at && x.at == at[x.id]
  }

  /** Nothing removed from the pool is younger than anything that stays in it. */
  ghost predicate OldestFirst(removed: set<Id>, pool: set<Id>, at: map<Id, Time>)
    requires pool <= at.Keys
  {
    removed <= pool && forall a, b :: a in removed && b in pool - removed ==> at[a] <= at[b]
  }

  function Insert(x: Stamp, ys: seq<Stamp>): (r: seq<Stamp>)
    requires Sorted(ys)
    ensures Sorted(r) && multiset(r) == multiset{x} + multiset(ys)
    ensures |r| == |ys| + 1 && (r[0] == x || (ys != [] && r[0] == ys[0]))
  {
    if ys == [] || x.at <= ys[0].at then
      [x] + ys
    else
      assert ys == [ys[0]] + ys[1..];
      [ys[0]] + Insert(x, ys[1..])
  }

  /** A stable sort by time: an element never overtakes an earlier one with the same time. */
  function SortByTime(xs: seq<Stamp>): (r: seq<Stamp>)
    ensures Sorted(r) && multiset(r) == multiset(xs) && |r| == |xs|
  {
    if xs == [] then []
    else
      assert xs == [xs[0]] + xs[1..];
      var r := Insert(xs[0], SortByTime(xs[1..]));
      assert |multiset(r)| == |multiset(xs)|;
      r
  }

  lemma {:induction false} DistinctMeansOnce(xs: seq<Stamp>)
    requires DistinctIds(xs)
    ensures |Ids(xs)| == |xs|
  {
    if xs != [] {
      var front, last := xs[..|xs| - 1], xs[|xs| - 1];
      DistinctMeansOnce(front);
      assert xs == front + [last];
      assert Ids(xs) == Ids(front) + {last.id};
    }
  }

  lemma SortKeepsIds(xs: seq<Stamp>, at: map<Id, Time>)
    requires DistinctIds(xs) && Stamped(xs, at)
    ensures Ids(SortByTime(xs)) == Ids(xs)
    ensures DistinctIds(SortByTime(xs)) && Stamped(SortByTime(xs), at)
  {
    var r := SortByTime(xs);
    assert forall x :: x in r <==> x in multiset(r);
    assert forall x :: x in xs <==> x in multiset(xs);
    assert Ids(r) == Ids(xs);
    DistinctMeansOnce(xs);
    SmallImageMeansDistinct(r);
  }

  lemma {:induction false} SmallImageMeansDistinct(xs: seq<Stamp>)
    requires |Ids(xs)| == |xs|
    ensures DistinctIds(xs)
  {
    if xs != [] {
      var front, last := xs[..|xs| - 1], xs[|xs| - 1];
      assert xs == front + [last];
      assert Ids(xs) == Ids(front) + {last.id};
      IdsBound(front);
      assert last.id !in Ids(front);
      SmallImageMeansDistinct(front);
      forall i | 0 <= i < |front| ensures xs[i].id != last.id {
        assert front[i] in front && front[i].id in Ids(front);
      }
    }
  }

  lemma {:induction false} IdsBound(xs: seq<Stamp>)
    ensures |Ids(xs)| <= |xs|
  {
    if xs != [] {
      var front, last := xs[..|xs| - 1], xs[|xs| - 1];
      IdsBound(front);
      assert xs == front + [last];
      assert Ids(xs) == Ids(front) + {last.id};
    }
  }

  lemma Extended(xs: seq<Stamp>, x: Stamp, at: map<Id, Time>)
    requires DistinctIds(xs) && Stamped(xs, at)
    requires x.id !in Ids(xs) && x.id in at && x.at == at[x.id]
    ensures DistinctIds(xs + [x]) && Stamped(xs + [x], at)
    ensures Ids(xs + [x]) == Ids(xs) + {x.id}
  {
    assert forall k :: 0 <= k < |xs| ==> xs[k] in xs && xs[k].id in Ids(xs);
  }

  /** A prefix of a sorted list of distinct ids is an oldest-first selection of that size. */
  lemma SortedPrefix(xs: seq<Stamp>, n: nat, at: map<Id, Time>)
    requires n <= |xs| && DistinctIds(xs) && Stamped(xs, at) && Sorted(xs)
    ensures Ids(xs) <= at.Keys
    ensures |Ids(xs[..n])| == n
    ensures OldestFirst(Ids(xs[..n]), Ids(xs), at)
  {
    var removed := Ids(xs[..n]);
    DistinctMeansOnce(xs[..n]);
    assert forall k :: 0 <= k < n ==> xs[..n][k] in xs[..n] && xs[k].id in removed;
    forall a, b | a in removed && b in Ids(xs) - removed ensures at[a] <= at[b] {
      var i :| 0 <= i < n && xs[i].id == a;
      var j :| 0 <= j < |xs| && xs[j].id == b;
      assert xs[i] in xs && xs[j] in xs;
    }
  }
}
