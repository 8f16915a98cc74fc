/** The laws that `Crypto` assumes can all hold at once: a library that keeps every one of them, for every JSON
    value. It is no real library, only a witness. */
module LawfulLibrary {
  import opened Base64Url
  import opened Collections
  import opened Crypto

  // ----- Three bytes for a character -----

  function CharBytes(c: char): seq<Byte> {
    BytesOf(c as int)
  }

  function BytesOf(n: nat): seq<Byte>
    requires n < 0x11_0000
  {
    [(n / 256 / 256) as Byte, (n / 256 % 256) as Byte, (n % 256) as Byte]
  }

  function Bytes(s: string): (b: seq<Byte>)
    ensures |b| == 3 * |s|
  {
    if s == "" then [] else CharBytes(s[0]) + Bytes(s[1..])
  }

  predicate IsCodePoint(n: int) {
    0 <= n < 0xD800 || 0xE000 <= n < 0x11_0000
  }

  function CodePoint(a: Byte, b: Byte, c: Byte): int {
    a as int * 0x1_0000 + b as int * 256 + c as int
  }

  function Chars(b: seq<Byte>): (s: Option<string>)
    ensures s.Some? ==> |s.value| <= |b|
  {
    if b == [] then Some("")
    else if |b| < 3 || !IsCodePoint(CodePoint(b[0], b[1], b[2])) then None
    else
      match Chars(b[3..])
      case None => None
      case Some(rest) => Some([CodePoint(b[0], b[1], b[2]) as char] + rest)
  }

  lemma BytesReadBack(n: nat)
    requires n < 0x11_0000
    ensures CodePoint(BytesOf(n)[0], BytesOf(n)[1], BytesOf(n)[2]) == n
  {
    var m := n / 256;
    assert m == m / 256 * 256 + m % 256 && n == m * 256 + n % 256;
  }

  lemma CharReadsBack(c: char)
    ensures var b := CharBytes(c); CodePoint(b[0], b[1], b[2]) == c as int
    ensures IsCodePoint(c as int)
  {
    BytesReadBack(c as int);
  }

  lemma {:induction false} CharsReadBack(s: string)
    ensures Chars(Bytes(s)) == Some(s)
  {
    if s != "" {
      CharReadsBack(s[0]);
      CharsReadBack(s[1..]);
      var b := Bytes(s);
      assert b[3..] == Bytes(s[1..]);
      assert b[0] == CharBytes(s[0])[0] && b[1] == CharBytes(s[0])[1] && b[2] == CharBytes(s[0])[2];
      assert s == [s[0]] + s[1..];
    }
  }

  // ----- Padding without encrypting -----

  function Padded(iv: seq<Byte>, plain: seq<Byte>): (c: seq<Byte>)
    ensures |c| == (|plain| / 16 + 1) * 16
  {
    var k := 16 - |plain| % 16;
    plain + seq(k, _ => k as Byte)
  }

  function Unpadded(iv: seq<Byte>, c: seq<Byte>): (plain: Option<seq<Byte>>)
    ensures plain.Some? ==> |plain.value| < |c|
  {
    if c == [] then None
    else
      var k := c[|c| - 1] as int;
      if 1 <= k <= |c| then Some(c[..|c| - k]) else None
  }

  function NoMac(b: seq<Byte>): seq<Byte> {
    seq(32, _ => 0)
  }

  lemma PaddingReadsBack(iv: seq<Byte>, plain: seq<Byte>)
    ensures Unpadded(iv, Padded(iv, plain)) == Some(plain)
  {
  }

  // ----- Texts that begin differently or go on the same -----

  function Unary(n: nat): string {
    if n == 0 then "e" else "x" + Unary(n - 1)
  }

  lemma {:induction false} UnaryUnambiguous(m: nat, n: nat, p: string, q: string)
    requires Unary(m) + p == Unary(n) + q
    ensures m == n && p == q
  {
    var s, t := Unary(m) + p, Unary(n) + q;
    assert s[0] == Unary(m)[0] && t[0] == Unary(n)[0];
    if m > 0 && n > 0 {
      assert s[1..] == Unary(m - 1) + p && t[1..] == Unary(n - 1) + q;
      UnaryUnambiguous(m - 1, n - 1, p, q);
    } else {
      assert s[1..] == p && t[1..] == q;
    }
  }

  function Spelled(s: string): string {
    Unary(|s|) + s
  }

  lemma SpelledUnambiguous(s: string, t: string, p: string, q: string)
    requires Spelled(s) + p == Spelled(t) + q
    ensures s == t && p == q
  {
    Regroup(Unary(|s|), s, p);
    Regroup(Unary(|t|), t, q);
    UnaryUnambiguous(|s|, |t|, s + p, t + q);
    assert s == (s + p)[..|s|] && t == (t + q)[..|t|];
    assert p == (s + p)[|s|..] && q == (t + q)[|t|..];
  }

  lemma Regroup4(a: string, b: string, c: string, d: string)
    ensures (a + b + c) + d == a + (b + (c + d))
  {
  }

  // ----- JSON -----

  function Folded(n: int): nat {
    if n >= 0 then 2 * n else -2 * n - 1
  }

  ghost function Pick(keys: set<string>): string
    requires keys != {}
    ensures Pick(keys) in keys
  {
    var key :| key in keys;
    key
  }

  /** The letter a value begins with. */
  function Tag(v: Json): char {
    match v
    case Null => 'n'
    case Bool(b) => if b then 't' else 'f'
    case Int(_) => 'i'
    case Float(_) => 'd'
    case Text(_) => 's'
    case List(_) => 'l'
    case Dict(_) => 'm'
  }

  ghost function Body(v: Json): string
    decreases v, 1, 0
  {
    match v
    case Null => ""
    case Bool(_) => ""
    case Int(n) => Unary(Folded(n))
    case Float(bits) => Unary(bits)
    case Text(text) => Spelled(text)
    case List(items) => Unary(|items|) + ItemsFrom(v, 0)
    case Dict(fields) => Unary(|fields|) + FieldsOf(v, fields.Keys)
  }

  ghost function Dumped(v: Json): string
    decreases v, 2, 0
  {
    [Tag(v)] + Body(v)
  }

  ghost function ItemsFrom(v: Json, i: nat): string
    requires v.List? && i <= |v.items|
    decreases v, 0, |v.items| - i
  {
    if i == |v.items| then "" else Dumped(v.items[i]) + ItemsFrom(v, i + 1)
  }

  ghost function FieldsOf(v: Json, keys: set<string>): string
    requires v.Dict? && keys <= v.fields.Keys
    decreases v, 0, |keys|
  {
    if keys == {} then ""
    else
      var key := Pick(keys);
      Spelled(key) + Dumped(v.fields[key]) + FieldsOf(v, keys - {key})
  }

  lemma {:induction false} Unambiguous(v: Json, w: Json, p: string, q: string)
    requires Dumped(v) + p == Dumped(w) + q
    ensures v == w && p == q
    decreases v, 1, 0
  {
    var s, t := Dumped(v) + p, Dumped(w) + q;
    assert s[0] == Tag(v) && t[0] == Tag(w);
    assert s[1..] == Body(v) + p && t[1..] == Body(w) + q;
    BodiesUnambiguous(v, w, p, q);
  }

  lemma {:induction false} BodiesUnambiguous(v: Json, w: Json, p: string, q: string)
    requires Tag(v) == Tag(w) && Body(v) + p == Body(w) + q
    ensures v == w && p == q
    decreases v, 0, 1
  {
    match v
    case Null => assert "" + p == p && "" + q == q;
    case Bool(_) => assert "" + p == p && "" + q == q;
    case Int(n) => UnaryUnambiguous(Folded(n), Folded(w.value), p, q);
    case Float(bits) => UnaryUnambiguous(bits, w.double, p, q);
    case Text(text) => SpelledUnambiguous(text, w.text, p, q);
    case List(items) =>
      Regroup(Unary(|items|), ItemsFrom(v, 0), p);
      Regroup(Unary(|w.items|), ItemsFrom(w, 0), q);
      UnaryUnambiguous(|items|, |w.items|, ItemsFrom(v, 0) + p, ItemsFrom(w, 0) + q);
      ItemsUnambiguous(v, w, 0, p, q);
      assert items[0..] == items && w.items[0..] == w.items;
    case Dict(fields) =>
      Regroup(Unary(|fields|), FieldsOf(v, fields.Keys), p);
      Regroup(Unary(|w.fields|), FieldsOf(w, w.fields.Keys), q);
      UnaryUnambiguous(|fields|, |w.fields|, FieldsOf(v, fields.Keys) + p, FieldsOf(w, w.fields.Keys) + q);
      FieldsUnambiguous(v, w, fields.Keys, w.fields.Keys, p, q);
      assert fields == w.fields;
  }

  lemma {:induction false} ItemsUnambiguous(v: Json, w: Json, i: nat, p: string, q: string)
    requires v.List? && w.List? && |v.items| == |w.items| && i <= |v.items|
    requires ItemsFrom(v, i) + p == ItemsFrom(w, i) + q
    ensures v.items[i..] == w.items[i..] && p == q
    decreases v, 0, 0, |v.items| - i
  {
    if i == |v.items| {
      assert "" + p == p && "" + q == q;
    } else {
      Regroup(Dumped(v.items[i]), ItemsFrom(v, i + 1), p);
      Regroup(Dumped(w.items[i]), ItemsFrom(w, i + 1), q);
      Unambiguous(v.items[i], w.items[i], ItemsFrom(v, i + 1) + p, ItemsFrom(w, i + 1) + q);
      ItemsUnambiguous(v, w, i + 1, p, q);
      assert v.items[i..] == [v.items[i]] + v.items[i + 1..];
      assert w.items[i..] == [w.items[i]] + w.items[i + 1..];
    }
  }

  lemma {:induction false} FieldsUnambiguous(v: Json, w: Json, keys: set<string>, keys': set<string>,
                                             p: string, q: string)
    requires v.Dict? && w.Dict? && keys <= v.fields.Keys && keys' <= w.fields.Keys && |keys| == |keys'|
    requires FieldsOf(v, keys) + p == FieldsOf(w, keys') + q
    ensures keys == keys' && p == q
    ensures forall key :: key in keys ==> v.fields[key] == w.fields[key]
    decreases v, 0, 0, |keys|
  {
    if keys == {} {
      assert "" + p == p && "" + q == q;
    } else {
      var key, key' := Pick(keys), Pick(keys');
      var rest, rest' := FieldsOf(v, keys - {key}), FieldsOf(w, keys' - {key'});
      Regroup4(Spelled(key), Dumped(v.fields[key]), rest, p);
      Regroup4(Spelled(key'), Dumped(w.fields[key']), rest', q);
      SpelledUnambiguous(key, key', Dumped(v.fields[key]) + (rest + p), Dumped(w.fields[key']) + (rest' + q));
      Unambiguous(v.fields[key], w.fields[key'], rest + p, rest' + q);
      FieldsUnambiguous(v, w, keys - {key}, keys' - {key'}, p, q);
      assert keys == (keys - {key}) + {key} && keys' == (keys' - {key'}) + {key'};
    }
  }

  ghost function Loaded(s: string): Option<Json> {
    if exists v :: Dumped(v) == s then
      var v :| Dumped(v) == s;
      Some(v)
    else None
  }

  lemma DumpedReadsBack(v: Json)
    ensures Loaded(Dumped(v)) == Some(v) && Dumped(v) != ""
  {
    var w := Loaded(Dumped(v)).value;
    Unambiguous(v, w, "", "");
  }

  lemma NothingStartsWithG(s: string)
    requires s != "" && s[0] == 'g'
    ensures Loaded(s) == None
  {
    forall v ensures Dumped(v) != s {
      assert Dumped(v)[0] == Tag(v) != 'g';
    }
  }

  /** One library keeps every law that the theorems about encryption require, and reloads every JSON value. */
  lemma LawsCanHold() returns (lib: Library)
    ensures StringLaws(lib) && JsonLaw(lib) && lib.hasSecret && forall v :: Reloads(lib, v)
  {
    lib := Library(true, Bytes, Chars, Padded, Unpadded, NoMac, Dumped, Loaded);
    forall s ensures lib.ofUtf8(lib.utf8(s)) == Some(s) && |lib.utf8(s)| >= |s| {
      CharsReadBack(s);
    }
    forall iv, plain ensures lib.unseal(iv, lib.seal(iv, plain)) == Some(plain) {
      PaddingReadsBack(iv, plain);
    }
    forall s | s != "" && s[0] == 'g' ensures lib.loads(s) == None {
      NothingStartsWithG(s);
    }
    forall v ensures Reloads(lib, v) {
      DumpedReadsBack(v);
    }
  }
}
