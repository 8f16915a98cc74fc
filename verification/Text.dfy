/** The string operations of Python that the parsers use, and decimal numerals. */
module Text {
  import opened Collections

  /** The characters `str.strip` and `str.split` treat as whitespace. */
  predicate IsSpace(c: char) {
    c in " \t\n\r\U{000B}\U{000C}\U{001C}\U{001D}\U{001E}\U{001F}\U{0085}\U{00A0}"
    || c in "\U{1680}\U{2028}\U{2029}\U{202F}\U{205F}\U{3000}"
    || '\U{2000}' <= c <= '\U{200A}'
  }

  function StripLeft(s: string): string {
    if s != "" && IsSpace(s[0]) then StripLeft(s[1..]) else s
  }

  function StripRight(s: string): string {
    if s != "" && IsSpace(s[|s| - 1]) then StripRight(s[..|s| - 1]) else s
  }

  function Strip(s: string): string {
    StripRight(StripLeft(s))
  }

  /** The first index at which `sep` occurs in `s`. */
  function Find(s: string, sep: string): (i: Option<nat>)
    ensures i.Some? ==> i.value + |sep| <= |s|
  {
    if sep <= s then Some(0)
    else if s == "" then None
    else
      match Find(s[1..], sep)
      case None => None
      case Some(i) => Some(i + 1)
  }

  predicate Contains(s: string, sep: string) {
    Find(s, sep).Some?
  }

  /** `s.split(sep)`. */
  function Split(s: string, sep: string): (parts: seq<string>)
    requires sep != ""
    ensures |parts| >= 1
    ensures |parts| >= 2 <==> Contains(s, sep)
  {
    match Find(s, sep)
    case None => [s]
    case Some(i) => [s[..i]] + Split(s[i + |sep|..], sep)
  }

  /** `sep.join(parts)`. */
  function Join(parts: seq<string>, sep: string): string {
    if parts == [] then ""
    else if |parts| == 1 then parts[0]
    else parts[0] + sep + Join(parts[1..], sep)
  }

  /** Text without one of the separator's characters does not contain the separator. */
  lemma {:induction false} MissingCharMeansNone(s: string, sep: string, c: char)
    requires c in sep && c !in s
    ensures Find(s, sep) == None
  {
    if s != "" {
      MissingCharMeansNone(s[1..], sep, c);
    }
  }

  lemma SplitOnce(before: string, after: string, sep: string)
    requires sep != "" && Find(before + sep + after, sep) == Some(|before|)
    ensures Split(before + sep + after, sep) == [before] + Split(after, sep)
  {
    var s := before + sep + after;
    assert s[..|before|] == before && s[|before| + |sep|..] == after;
  }

  lemma {:induction false} SingleCharFind(before: string, c: char, after: string)
    requires c !in before
    ensures Find(before + [c] + after, [c]) == Some(|before|)
  {
    var s := before + [c] + after;
    if before != "" {
      SingleCharFind(before[1..], c, after);
      assert s[0] == before[0] && s[1..] == before[1..] + [c] + after;
    }
  }

  predicate EndsWith(s: string, word: string) {
    |word| <= |s| && s[|s| - |word|..] == word
  }

  /** A word followed by a blank, looked for in text cut at its first blank: it ends the first
      piece, or it is somewhere in the rest. */
  lemma {:induction false} FindWord(head: string, tail: string, word: string)
    requires ' ' !in head && ' ' !in word
    ensures EndsWith(head, word) ==> Find(head + " " + tail, word + " ") == Some(|head| - |word|)
    ensures !EndsWith(head, word) ==>
      Find(head + " " + tail, word + " ") ==
        match Find(tail, word + " ") case None => None case Some(i) => Some(|head| + 1 + i)
  {
    var s, sep := head + " " + tail, word + " ";
    FirstBlank(head, tail, word);
    if head == word {
    } else if head == "" {
      assert s[1..] == tail;
    } else {
      FindWord(head[1..], tail, word);
      assert s[1..] == head[1..] + " " + tail;
      SuffixOfRest(head, word);
    }
  }

  lemma FirstBlank(head: string, tail: string, word: string)
    requires ' ' !in head && ' ' !in word
    ensures word + " " <= head + " " + tail <==> head == word
  {
    var s, sep := head + " " + tail, word + " ";
    assert s[|head|] == ' ' && sep[|word|] == ' ';
    if sep <= s {
      assert s[|word|] == ' ';
      assert forall k :: 0 <= k < |head| ==> s[k] == head[k];
      assert forall k :: 0 <= k < |word| ==> sep[k] == word[k];
      assert head == s[..|head|] == sep[..|head|] == word;
    }
    if head == word {
      assert s[..|sep|] == sep;
    }
  }

  lemma SuffixOfRest(s: string, word: string)
    requires s != "" && s != word
    ensures EndsWith(s[1..], word) == EndsWith(s, word)
  {
    if |word| < |s| {
      assert s[1..][|s| - 1 - |word|..] == s[|s| - |word|..];
    }
  }

  lemma {:induction false} SplitJoined(parts: seq<string>, c: char)
    requires parts != [] && forall p :: p in parts ==> c !in p
    ensures Split(Join(parts, [c]), [c]) == parts
  {
    if |parts| == 1 {
      MissingCharMeansNone(parts[0], [c], c);
    } else {
      var rest := Join(parts[1..], [c]);
      SingleCharFind(parts[0], c, rest);
      SplitOnce(parts[0], rest, [c]);
      SplitJoined(parts[1..], c);
    }
  }

  lemma {:induction false} StripRightStops(s: string, blanks: string)
    requires s != "" && !IsSpace(s[|s| - 1])
    requires forall c :: c in blanks ==> IsSpace(c)
    ensures StripRight(s + blanks) == s
  {
    if blanks == "" {
      assert s + blanks == s;
    } else {
      var all := s + blanks;
      assert all[|all| - 1] in blanks;
      assert all[..|all| - 1] == s + blanks[..|blanks| - 1];
      StripRightStops(s, blanks[..|blanks| - 1]);
    }
  }

  // ----- Decimal numerals -----

  predicate IsDigit(c: char) {
    '0' <= c <= '9'
  }

  predicate AllDigits(s: string) {
    forall c :: c in s ==> IsDigit(c)
  }

  function Digit(d: nat): (c: char)
    requires d < 10
    ensures IsDigit(c) && DigitValue(c) == d
  {
    '0' + d as char
  }

  function DigitValue(c: char): nat
    requires IsDigit(c)
  {
    c as int - '0' as int
  }

  function Show(n: nat): (s: string)
    ensures s != "" && AllDigits(s)
  {
    if n < 10 then [Digit(n)] else Show(n / 10) + [Digit(n % 10)]
  }

  function Value(s: string): nat
    requires AllDigits(s)
  {
    if s == "" then 0 else 10 * Value(s[..|s| - 1]) + DigitValue(s[|s| - 1])
  }

  lemma {:induction false} ShowReadsBack(n: nat)
    ensures Value(Show(n)) == n
  {
    if n >= 10 {
      ShowReadsBack(n / 10);
      assert Show(n)[..|Show(n)| - 1] == Show(n / 10);
    }
  }

  lemma ShowIsInjective(m: nat, n: nat)
    requires Show(m) == Show(n)
    ensures m == n
  {
    ShowReadsBack(m);
    ShowReadsBack(n);
  }

  /** Underscores may stand between two digits. */
  predicate IsNumeral(s: string) {
    && s != "" && IsDigit(s[0]) && IsDigit(s[|s| - 1])
    && (forall i :: 0 <= i < |s| ==> IsDigit(s[i]) || s[i] == '_')
    && forall i :: 0 < i < |s| && s[i] == '_' ==> s[i - 1] != '_'
  }

  function WithoutUnderscores(s: string): (r: string)
    ensures (forall c :: c in s ==> IsDigit(c) || c == '_') ==> AllDigits(r)
  {
    if s == "" then "" else WithoutUnderscores(s[..|s| - 1]) + if s[|s| - 1] == '_' then "" else [s[|s| - 1]]
  }

  /** `int(s)`; nothing where it raises ValueError. */
  function PyInt(s: string): Option<int> {
    var t := Strip(s);
    var signed := t != "" && (t[0] == '-' || t[0] == '+');
    var body := if signed then t[1..] else t;
    if IsNumeral(body) then
      NumeralHasDigitsOnly(body);
      var value: int := Value(WithoutUnderscores(body));
      Some(if signed && t[0] == '-' then -value else value)
    else None
  }

  lemma NumeralHasDigitsOnly(s: string)
    requires IsNumeral(s)
    ensures AllDigits(WithoutUnderscores(s))
  {
    forall i | 0 <= i < |s| ensures IsDigit(s[i]) || s[i] == '_' {
    }
    assert forall c :: c in s ==> IsDigit(c) || c == '_';
  }

  lemma {:induction false} DigitsKeepThemselves(s: string)
    requires AllDigits(s)
    ensures WithoutUnderscores(s) == s
  {
    if s != "" {
      DigitsKeepThemselves(s[..|s| - 1]);
      assert s[|s| - 1] in s;
      assert s == s[..|s| - 1] + [s[|s| - 1]];
    }
  }

  lemma DigitsAreNumeral(s: string)
    requires s != "" && AllDigits(s)
    ensures IsNumeral(s) && !IsSpace(s[0]) && !IsSpace(s[|s| - 1]) && s[0] != '-' && s[0] != '+'
  {
    forall i | 0 <= i < |s| ensures IsDigit(s[i]) { assert s[i] in s; }
  }

  lemma PyIntOfShow(n: nat)
    ensures PyInt(Show(n)) == Some(n)
  {
    var s := Show(n);
    DigitsAreNumeral(s);
    DigitsKeepThemselves(s);
    ShowReadsBack(n);
  }

  /** Numerals are decimal: the digits follow each other from 0 to 9, and the last one counts the units. */
  lemma ShowIsDecimal(n: nat)
    ensures Show(0) == "0" && (n < 9 ==> Show(n + 1)[0] as int == Show(n)[0] as int + 1)
    ensures n < 10 ==> |Show(n)| == 1
    ensures n >= 10 ==> Show(n) == Show(n / 10) + Show(n % 10)
  {
    assert Digit(0) == '0';
  }

  lemma {:induction false} StripRightKeepsHead(s: string)
    requires s != "" && !IsSpace(s[0])
    ensures StripRight(s) != "" && StripRight(s)[0] == s[0]
  {
    if IsSpace(s[|s| - 1]) {
      StripRightKeepsHead(s[..|s| - 1]);
    }
  }

  /** Text that begins with a bracket is no number. */
  lemma NoIntAfterBracket(s: string)
    requires s != "" && s[0] == '['
    ensures PyInt(s) == None
  {
    StripRightKeepsHead(s);
  }
}
