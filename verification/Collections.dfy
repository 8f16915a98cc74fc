/** Facts about sets, duplicate-free sequences and the option type that the other modules share. */
module Collections {

  datatype Option<+T> = None | Some(value: T)

  function Min(a: int, b: int): int {
    if a < b then a else b
  }

  function Max(a: int, b: int): int {
    if a < b then b else a
  }

  function ToSet<T(==)>(xs: seq<T>): set<T> {
    set x | x in xs
  }

  ghost predicate NoDup<T>(xs: seq<T>) {
    forall i, j :: 0 <= i < j < |xs| ==> xs[i] != xs[j]
  }

  lemma SubsetCard<T>(a: set<T>, b: set<T>)
    requires a <= b
    ensures |a| <= |b|
    ensures |b - a| == |b| - |a|
  {
    assert b == a + (b - a);
  }

  lemma Regroup<T>(a: seq<T>, b: seq<T>, c: seq<T>)
    ensures (a + b) + c == a + (b + c)
  {
  }

  lemma UnionOfRest<T>(a: set<T>, b: set<T>)
    ensures a + (b - a) == a + b
  {
  }

  lemma RemovedTwice<K, V>(m: map<K, V>, a: set<K>, b: set<K>)
    ensures m - a - b == m - (a + b)
  {
  }

  lemma RemovedNone<K, V>(m: map<K, V>)
    ensures m - {} == m
  {
  }

  /** One more element of a duplicate-free list, seen through the part of it that is wanted. */
  lemma NextWanted<T>(xs: seq<T>, i: nat, wanted: set<T>)
    requires NoDup(xs) && i < |xs|
    ensures xs[i] in ToSet(xs) && xs[i] !in ToSet(xs[..i]) * wanted
    ensures xs[i] in wanted ==> ToSet(xs[..i + 1]) * wanted == ToSet(xs[..i]) * wanted + {xs[i]}
    ensures xs[i] !in wanted ==> ToSet(xs[..i + 1]) * wanted == ToSet(xs[..i]) * wanted
  {
    assert xs[..i + 1] == xs[..i] + [xs[i]];
    assert ToSet(xs[..i + 1]) == ToSet(xs[..i]) + {xs[i]};
  }

  lemma AllWanted<T>(xs: seq<T>, wanted: set<T>)
    requires wanted <= ToSet(xs)
    ensures ToSet(xs[..|xs|]) * wanted == wanted
    ensures ToSet(xs[..0]) * wanted == {}
  {
    assert xs[..|xs|] == xs;
  }

  lemma {:induction false} NoDupCard<T>(xs: seq<T>)
    requires NoDup(xs)
    ensures |ToSet(xs)| == |xs|
  {
    if xs != [] {
      var front, last := xs[..|xs| - 1], xs[|xs| - 1];
      NoDupCard(front);
      assert xs == front + [last];
      assert ToSet(xs) == ToSet(front) + {last};
    }
  }

  /** Lists the elements of a set in an order the caller may not rely on. */
  method Enumerate<T(==)>(s: set<T>) returns (xs: seq<T>)
    ensures NoDup(xs) && ToSet(xs) == s && |xs| == |s|
  {
    xs := [];
    var rest := s;
    while rest != {}
      invariant NoDup(xs)
      invariant rest !! ToSet(xs) && rest + ToSet(xs) == s
      decreases rest
    {
      var x :| x in rest;
      assert ToSet(xs + [x]) == ToSet(xs) + {x};
      xs, rest := xs + [x], rest - {x};
    }
    NoDupCard(xs);
  }
}
