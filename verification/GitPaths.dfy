/** How git's short format writes a path: as it is, or in double quotes with C-style escapes. */
module GitPaths {
  import opened Collections

  /** A path by its bytes, one character each. */
  predicate IsPath(s: string) {
    s != "" && forall i :: 0 <= i < |s| ==> 0 < s[i] as int < 256
  }

  predicate IsEscaped(c: char) {
    c < ' ' || c as int >= 127 || c == '"' || c == '\\'
  }

  /** The one-letter escapes. */
  function EscapeLetter(c: char): Option<char> {
    match c as int
    case 7 => Some('a')
    case 8 => Some('b')
    case 9 => Some('t')
    case 10 => Some('n')
    case 11 => Some('v')
    case 12 => Some('f')
    case 13 => Some('r')
    case 34 => Some('"')
    case 92 => Some('\\')
    case _ => None
  }

  function OctalDigit(d: int): char
    requires 0 <= d < 8
  {
    '0' + d as char
  }

  function Escape(c: char): (s: string)
    requires c as int < 256
    ensures s != ""
  {
    if !IsEscaped(c) then [c]
    else
      match EscapeLetter(c)
      case Some(letter) => ['\\', letter]
      case None => ['\\', OctalDigit(c as int / 64), OctalDigit(c as int / 8 % 8), OctalDigit(c as int % 8)]
  }

  function EscapeAll(s: string): (r: string)
    requires forall i :: 0 <= i < |s| ==> s[i] as int < 256
    ensures |r| >= |s|
  {
    if s == "" then "" else Escape(s[0]) + EscapeAll(s[1..])
  }

  /** A blank alone asks for quotes as well, though it is not escaped. */
  predicate NeedsQuotes(s: string) {
    exists i :: 0 <= i < |s| && (s[i] == ' ' || IsEscaped(s[i]))
  }

  function Quoted(path: string): (r: string)
    requires IsPath(path)
    ensures |r| >= |path|
  {
    if NeedsQuotes(path) then "\"" + EscapeAll(path) + "\"" else path
  }

  /** A path is shown as it is exactly when it needs no quotes. */
  lemma ShownAsItIs(path: string)
    requires IsPath(path)
    ensures Quoted(path) == path <==> !NeedsQuotes(path)
  {
    if NeedsQuotes(path) {
      assert |Quoted(path)| == |EscapeAll(path)| + 2;
    }
  }

  lemma EscapeIsPrintable(c: char)
    requires c as int < 256
    ensures forall i :: 0 <= i < |Escape(c)| ==> 32 <= Escape(c)[i] as int < 127
  {
  }

  lemma {:induction false} EscapesArePrintable(s: string)
    requires forall i :: 0 <= i < |s| ==> s[i] as int < 256
    ensures forall i :: 0 <= i < |EscapeAll(s)| ==> 32 <= EscapeAll(s)[i] as int < 127
  {
    if s != "" {
      EscapeIsPrintable(s[0]);
      EscapesArePrintable(s[1..]);
    }
  }

  /** Whatever the path holds, what is shown of it is one line of printable ASCII and does not end in a blank. */
  lemma QuotedIsPrintable(path: string)
    requires IsPath(path)
    ensures Quoted(path) != "" && Quoted(path)[|Quoted(path)| - 1] != ' '
    ensures forall i :: 0 <= i < |Quoted(path)| ==> 32 <= Quoted(path)[i] as int < 127
  {
    if NeedsQuotes(path) {
      EscapesArePrintable(path);
    } else {
      forall i | 0 <= i < |path| ensures 32 < path[i] as int < 127 {
        assert path[i] != ' ' && !IsEscaped(path[i]);
      }
    }
  }

  // ----- Undoing it -----

  function LetterMeans(letter: char): Option<char> {
    match letter
    case 'a' => Some(7 as char)
    case 'b' => Some(8 as char)
    case 't' => Some('\t')
    case 'n' => Some('\n')
    case 'v' => Some(11 as char)
    case 'f' => Some(12 as char)
    case 'r' => Some('\r')
    case '"' => Some('"')
    case '\\' => Some('\\')
    case _ => None
  }

  predicate IsOctal(c: char) {
    '0' <= c <= '7'
  }

  function OctalValue(a: char, b: char, c: char): int
    requires IsOctal(a) && IsOctal(b) && IsOctal(c)
  {
    (a as int - 48) * 64 + (b as int - 48) * 8 + (c as int - 48)
  }

  /** The text up to the closing quote, which must be its end. */
  function Unescaped(s: string): Option<string> {
    if s == "" then None
    else if s[0] == '"' then if |s| == 1 then Some("") else None
    else if s[0] != '\\' then Prefixed(s[0], Unescaped(s[1..]))
    else if |s| >= 2 && LetterMeans(s[1]).Some? then Prefixed(LetterMeans(s[1]).value, Unescaped(s[2..]))
    else if |s| >= 4 && IsOctal(s[1]) && IsOctal(s[2]) && IsOctal(s[3]) then
      Prefixed(OctalValue(s[1], s[2], s[3]) as char, Unescaped(s[4..]))
    else None
  }

  function Prefixed(c: char, rest: Option<string>): Option<string> {
    match rest case None => None case Some(s) => Some([c] + s)
  }

  function Unquoted(s: string): Option<string> {
    if s != "" && s[0] == '"' then Unescaped(s[1..]) else Some(s)
  }

  lemma EscapeReadsBack(c: char, rest: string)
    requires c as int < 256
    ensures Unescaped(Escape(c) + rest) == Prefixed(c, Unescaped(rest))
  {
    var s := Escape(c) + rest;
    if !IsEscaped(c) {
      assert s[1..] == rest;
    } else if EscapeLetter(c).Some? {
      LettersReadBack(c);
      assert s[2..] == rest;
    } else {
      OctalReadsBack(c as int);
      assert s[1] == Escape(c)[1] && s[2] == Escape(c)[2] && s[3] == Escape(c)[3];
      assert s[4..] == rest;
    }
  }

  lemma LettersReadBack(c: char)
    requires EscapeLetter(c).Some?
    ensures LetterMeans(EscapeLetter(c).value) == Some(c)
  {
  }

  lemma OctalReadsBack(n: int)
    requires 0 <= n < 256
    ensures var a, b, c := OctalDigit(n / 64), OctalDigit(n / 8 % 8), OctalDigit(n % 8);
            && IsOctal(a) && IsOctal(b) && IsOctal(c) && OctalValue(a, b, c) == n
            && LetterMeans(a) == None
  {
    assert n == n / 64 * 64 + n / 8 % 8 * 8 + n % 8;
  }

  lemma {:induction false} EscapesReadBack(s: string)
    requires forall i :: 0 <= i < |s| ==> s[i] as int < 256
    ensures Unescaped(EscapeAll(s) + "\"") == Some(s)
  {
    if s == "" {
      assert EscapeAll(s) + "\"" == "\"";
    } else {
      EscapesReadBack(s[1..]);
      EscapeReadsBack(s[0], EscapeAll(s[1..]) + "\"");
      Regroup(Escape(s[0]), EscapeAll(s[1..]), "\"");
      assert s == [s[0]] + s[1..];
    }
  }

  /** Nothing is lost by quoting: a reader that undoes it gets the path. */
  lemma QuotedReadsBack(path: string)
    requires IsPath(path)
    ensures Unquoted(Quoted(path)) == Some(path)
  {
    if NeedsQuotes(path) {
      EscapesReadBack(path);
      assert Quoted(path)[1..] == EscapeAll(path) + "\"";
    } else {
      assert !IsEscaped(path[0]);
    }
  }
}
