/** The URL-safe base64 of RFC 4648, sections 4 and 5: three bytes become four characters. */
module Base64Url {
  import opened Collections

  newtype Byte = x: int | 0 <= x < 256

  type Sextet = x: int | 0 <= x < 64

  function Letter(d: Sextet): char {
    if d < 26 then 'A' + d as char
    else if d < 52 then 'a' + (d - 26) as char
    else if d < 62 then '0' + (d - 52) as char
    else if d == 62 then '-'
    else '_'
  }

  function LetterValue(c: char): Option<Sextet> {
    if 'A' <= c <= 'Z' then Some(c as int - 'A' as int)
    else if 'a' <= c <= 'z' then Some(c as int - 'a' as int + 26)
    else if '0' <= c <= '9' then Some(c as int - '0' as int + 52)
    else if c == '-' then Some(62)
    else if c == '_' then Some(63)
    else None
  }

  lemma LetterReadsBack(d: Sextet)
    ensures LetterValue(Letter(d)) == Some(d) && Letter(d) != '='
  {
  }

  function First(a: Byte): Sextet {
    a as int / 4
  }

  function Second(a: Byte, b: Byte): Sextet {
    a as int % 4 * 16 + b as int / 16
  }

  function Third(b: Byte, c: Byte): Sextet {
    b as int % 16 * 4 + c as int / 64
  }

  function Fourth(c: Byte): Sextet {
    c as int % 64
  }

  lemma OneGroupMore(n: nat)
    requires n >= 3
    ensures (n + 2) / 3 * 4 == 4 + (n - 1) / 3 * 4
  {
    assert (n + 2) / 3 == (n - 1) / 3 + 1;
  }

  function Encode(bytes: seq<Byte>): (text: string)
    ensures |text| == (|bytes| + 2) / 3 * 4
  {
    if bytes == [] then ""
    else if |bytes| == 1 then [Letter(First(bytes[0])), Letter(Second(bytes[0], 0)), '=', '=']
    else if |bytes| == 2 then
      [Letter(First(bytes[0])), Letter(Second(bytes[0], bytes[1])), Letter(Third(bytes[1], 0)), '=']
    else
      OneGroupMore(|bytes|);
      [Letter(First(bytes[0])), Letter(Second(bytes[0], bytes[1])),
       Letter(Third(bytes[1], bytes[2])), Letter(Fourth(bytes[2]))] + Encode(bytes[3..])
  }

  function HighByte(p: Sextet, q: Sextet): Byte {
    (p * 4 + q / 16) as Byte
  }

  function MiddleByte(q: Sextet, r: Sextet): Byte {
    (q % 16 * 16 + r / 4) as Byte
  }

  function LowByte(r: Sextet, s: Sextet): Byte {
    (r % 4 * 64 + s) as Byte
  }

  /** One group of four characters; padding only where `last` allows it. */
  function Group(p: char, q: char, r: char, s: char, last: bool): Option<seq<Byte>> {
    if LetterValue(p).None? || LetterValue(q).None? then None
    else
      var a := HighByte(LetterValue(p).value, LetterValue(q).value);
      if last && r == '=' && s == '=' then Some([a])
      else if LetterValue(r).None? then None
      else
        var b := MiddleByte(LetterValue(q).value, LetterValue(r).value);
        if last && s == '=' then Some([a, b])
        else if LetterValue(s).None? then None
        else Some([a, b, LowByte(LetterValue(r).value, LetterValue(s).value)])
  }

  function Decode(text: string): (bytes: Option<seq<Byte>>)
    ensures bytes.Some? ==> |bytes.value| <= |text|
  {
    if text == "" then Some([])
    else if |text| < 4 then None
    else
      match Group(text[0], text[1], text[2], text[3], |text| == 4)
      case None => None
      case Some(head) =>
        match Decode(text[4..])
        case None => None
        case Some(rest) => Some(head + rest)
  }

  lemma GroupReadsBack(a: Byte, b: Byte, c: Byte)
    ensures HighByte(First(a), Second(a, b)) == a
    ensures MiddleByte(Second(a, b), Third(b, c)) == b
    ensures LowByte(Third(b, c), Fourth(c)) == c
  {
  }

  lemma WholeGroup(a: Byte, b: Byte, c: Byte, last: bool)
    ensures Group(Letter(First(a)), Letter(Second(a, b)), Letter(Third(b, c)), Letter(Fourth(c)), last) ==
            Some([a, b, c])
  {
    LetterReadsBack(First(a));
    LetterReadsBack(Second(a, b));
    LetterReadsBack(Third(b, c));
    LetterReadsBack(Fourth(c));
    GroupReadsBack(a, b, c);
  }

  lemma OneByteGroup(a: Byte, b: Byte)
    ensures Group(Letter(First(a)), Letter(Second(a, b)), '=', '=', true) == Some([a])
  {
    LetterReadsBack(First(a));
    LetterReadsBack(Second(a, b));
    GroupReadsBack(a, b, b);
  }

  lemma TwoByteGroup(a: Byte, b: Byte, c: Byte)
    ensures Group(Letter(First(a)), Letter(Second(a, b)), Letter(Third(b, c)), '=', true) == Some([a, b])
  {
    LetterReadsBack(First(a));
    LetterReadsBack(Second(a, b));
    LetterReadsBack(Third(b, c));
    GroupReadsBack(a, b, c);
  }

  lemma DecodeGroup(text: string, head: seq<Byte>, rest: seq<Byte>)
    requires |text| >= 4 && Group(text[0], text[1], text[2], text[3], |text| == 4) == Some(head)
    requires Decode(text[4..]) == Some(rest)
    ensures Decode(text) == Some(head + rest)
  {
  }

  lemma ShortReadsBack(bytes: seq<Byte>)
    requires 1 <= |bytes| <= 2
    ensures Decode(Encode(bytes)) == Some(bytes)
  {
    var text := Encode(bytes);
    assert text[4..] == "" && bytes + [] == bytes;
    if |bytes| == 1 {
      OneByteGroup(bytes[0], 0);
      assert bytes == [bytes[0]];
      DecodeGroup(text, bytes, []);
    } else {
      TwoByteGroup(bytes[0], bytes[1], 0);
      assert bytes == [bytes[0], bytes[1]];
      DecodeGroup(text, bytes, []);
    }
  }

  lemma {:induction false} EncodedReadsBack(bytes: seq<Byte>)
    ensures Decode(Encode(bytes)) == Some(bytes)
  {
    var text := Encode(bytes);
    if bytes == [] {
    } else if |bytes| < 3 {
      ShortReadsBack(bytes);
    } else {
      EncodedReadsBack(bytes[3..]);
      WholeGroup(bytes[0], bytes[1], bytes[2], |text| == 4);
      assert text[4..] == Encode(bytes[3..]);
      DecodeGroup(text, [bytes[0], bytes[1], bytes[2]], bytes[3..]);
      assert bytes == [bytes[0], bytes[1], bytes[2]] + bytes[3..];
    }
  }

  // ----- The alphabet, the order of the bits and the padding, as the RFC gives them -----

  /** The letters, the small letters, the digits, then hyphen and underscore. */
  lemma AlphabetIsUrlSafe(d: Sextet)
    ensures Letter(0) == 'A' && Letter(26) == 'a' && Letter(52) == '0' && Letter(62) == '-' && Letter(63) == '_'
    ensures d < 61 && d != 25 && d != 51 ==> Letter(d + 1) as int == Letter(d) as int + 1
  {
  }

  /** Four characters hold the 24 bits of three bytes in the same order. */
  lemma GroupHoldsTheBits(a: Byte, b: Byte, c: Byte)
    ensures First(a) * 0x4_0000 + Second(a, b) * 0x1000 + Third(b, c) * 0x40 + Fourth(c) ==
            a as int * 0x1_0000 + b as int * 0x100 + c as int
  {
  }

  /** A single byte is padded with two equals signs, two bytes with one, three bytes not at all. */
  lemma PaddingIsExact(a: Byte, b: Byte, c: Byte)
    ensures |Encode([a])| == 4 && Encode([a])[2..] == "=="
    ensures |Encode([a, b])| == 4 && Encode([a, b])[3..] == "=" && Encode([a, b])[2] != '='
    ensures |Encode([a, b, c])| == 4 && Encode([a, b, c])[3] != '='
  {
    LetterReadsBack(Third(b, 0));
    LetterReadsBack(Fourth(c));
    assert [a, b, c][3..] == [];
  }
}
