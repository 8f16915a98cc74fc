/** Encrypted strings and dictionaries. The Fernet token is laid out concretely; the cipher, the MAC, UTF-8
    and the JSON library are parameters of which only their round trips and sizes are known. */
module Crypto {
  import opened Base64Url
  import opened Collections

  const MAX_DEPTH := 10

  /** The bits of a finite double-precision number: sign, 11 bits of exponent that are not all ones, 52 bits. */
  type Double = bits: nat | bits < 0x1_0000_0000_0000_0000 && bits / 0x10_0000_0000_0000 % 0x800 != 0x7FF

  datatype Json =
    | Null
    | Bool(truth: bool)
    | Int(value: int)
    | Float(double: Double)
    | Text(text: string)
    | List(items: seq<Json>)
    | Dict(fields: map<string, Json>)

  datatype Library = Library(
    hasSecret: bool,
    utf8: string -> seq<Byte>,
    ofUtf8: seq<Byte> -> Option<string>,
    seal: (seq<Byte>, seq<Byte>) -> seq<Byte>,
    unseal: (seq<Byte>, seq<Byte>) -> Option<seq<Byte>>,
    mac: seq<Byte> -> seq<Byte>,
    dumps: Json -> string,
    loads: string -> Option<Json>)

  /** UTF-8 loses nothing and needs at least one byte for a character. */
  ghost predicate Utf8Laws(lib: Library) {
    && (forall s :: lib.ofUtf8(lib.utf8(s)) == Some(s) && |lib.utf8(s)| >= |s|)
    && forall b :: lib.ofUtf8(b).Some? ==> |lib.ofUtf8(b).value| <= |b|
  }

  /** AES in CBC mode with PKCS #7 padding always adds something; HMAC-SHA256 gives 32 bytes. */
  ghost predicate CipherLaws(lib: Library) {
    && (forall iv, plain :: |iv| == 16 ==>
          lib.unseal(iv, lib.seal(iv, plain)) == Some(plain) && |lib.seal(iv, plain)| == (|plain| / 16 + 1) * 16)
    && (forall iv, c :: lib.unseal(iv, c).Some? ==> |lib.unseal(iv, c).value| < |c|)
    && forall b :: |lib.mac(b)| == 32
  }

  /** No JSON text begins with a "g". */
  ghost predicate JsonLaw(lib: Library) {
    forall s :: s != "" && s[0] == 'g' ==> lib.loads(s) == None
  }

  /** The JSON library loads what it dumped. */
  ghost predicate Reloads(lib: Library, v: Json) {
    lib.loads(lib.dumps(v)) == Some(v) && lib.dumps(v) != ""
  }

  ghost predicate StringLaws(lib: Library) {
    Utf8Laws(lib) && CipherLaws(lib)
  }

  // ----- The token -----

  const VERSION: Byte := 0x80

  function BytesOf32(n: nat): (b: seq<Byte>)
    requires n < 0x1_0000_0000
    ensures |b| == 4
  {
    [(n / 0x100_0000) as Byte, (n / 0x1_0000 % 256) as Byte, (n / 256 % 256) as Byte, (n % 256) as Byte]
  }

  type Timestamp = t: nat | t < 0x1_0000_0000_0000_0000

  /** The timestamp in 64 bits, most significant byte first. */
  function TimestampBytes(t: Timestamp): (b: seq<Byte>)
    ensures |b| == 8
  {
    BytesOf32(t / 0x1_0000_0000) + BytesOf32(t % 0x1_0000_0000)
  }

  type Vector = iv: seq<Byte> | |iv| == 16 witness seq(16, _ => 0)

  function Signed(lib: Library, t: Timestamp, iv: Vector, plain: seq<Byte>): seq<Byte> {
    [VERSION] + TimestampBytes(t) + iv + lib.seal(iv, plain)
  }

  function TokenBytes(lib: Library, t: Timestamp, iv: Vector, plain: seq<Byte>): seq<Byte> {
    Signed(lib, t, iv, plain) + lib.mac(Signed(lib, t, iv, plain))
  }

  function Token(lib: Library, t: Timestamp, iv: Vector, plain: seq<Byte>): string {
    Encode(TokenBytes(lib, t, iv, plain))
  }

  /** `Fernet.decrypt`; nothing where it raises InvalidToken. */
  function Opened(lib: Library, token: string): Option<seq<Byte>> {
    match Decode(token)
    case None => None
    case Some(data) =>
      if data == [] || data[0] != VERSION || |data| < 9 + 16 + 32 then None
      else
        var signed := data[..|data| - 32];
        if data[|data| - 32..] != lib.mac(signed) then None
        else lib.unseal(signed[9..25], signed[25..])
  }

  // ----- Strings -----

  /** Nothing where EncryptionKeyError is raised. */
  function EncryptString(lib: Library, t: Timestamp, iv: Vector, plaintext: string): Option<string> {
    if plaintext == "" then Some(plaintext)
    else if !lib.hasSecret then None
    else Some(Token(lib, t, iv, lib.utf8(plaintext)))
  }

  /** Nothing where DecryptionError is raised. */
  function DecryptString(lib: Library, ciphertext: string): Option<string> {
    if ciphertext == "" then Some(ciphertext)
    else if !lib.hasSecret then None
    else
      match Opened(lib, ciphertext)
      case None => None
      case Some(bytes) => lib.ofUtf8(bytes)
  }

  predicate IsEncrypted(value: string) {
    value != "" && "gAAAAA" <= value && |value| > 50
  }

  function EncryptIfNeeded(lib: Library, t: Timestamp, iv: Vector, value: string): Option<string> {
    if value == "" || IsEncrypted(value) then Some(value) else EncryptString(lib, t, iv, value)
  }

  function DecryptIfNeeded(lib: Library, value: string): string {
    if value == "" || !IsEncrypted(value) then value
    else
      match DecryptString(lib, value)
      case None => value
      case Some(plaintext) => plaintext
  }

  // ----- Dictionaries -----

  predicate IsValid(v: Json, depth: nat)
    decreases v
  {
    if depth > MAX_DEPTH then false
    else
      match v
      case List(items) => forall item :: item in items ==> IsValid(item, depth + 1)
      case Dict(fields) => forall key :: key in fields ==> IsValid(fields[key], depth + 1)
      case _ => true
  }

  /** The outer option is nothing where EncryptionKeyError is raised, the inner one is Python's None. */
  function EncryptDict(lib: Library, t: Timestamp, iv: Vector, fields: map<string, Json>): Option<Option<string>> {
    if fields == map[] then Some(None)
    else
      match EncryptString(lib, t, iv, lib.dumps(Dict(fields)))
      case None => None
      case Some(text) => Some(Some(text))
  }

  function Parsed(lib: Library, text: string): map<string, Json> {
    match lib.loads(text)
    case None => map[]
    case Some(v) => if v.Dict? && IsValid(v, 0) then v.fields else map[]
  }

  function DecryptDict(lib: Library, encrypted: Option<string>): map<string, Json> {
    if encrypted.None? || encrypted.value == "" then map[]
    else if !IsEncrypted(encrypted.value) then Parsed(lib, encrypted.value)
    else
      match DecryptString(lib, encrypted.value)
      case None => map[]
      case Some(text) => Parsed(lib, text)
  }

  // ----- Recognising a token -----

  lemma HighPart(t: Timestamp)
    ensures var b := TimestampBytes(t);
            b[0] == 0 && b[1] == 0 && b[2] == 0 && b[3] < 16 <==> t < 0x10_0000_0000
  {
    var high := t / 0x1_0000_0000;
    assert high < 16 <==> t < 0x10_0000_0000;
    var b := BytesOf32(high);
    assert b[0] == 0 && b[1] == 0 && b[2] == 0 && b[3] < 16 <==> high < 16;
  }

  lemma EncodedStart(bytes: seq<Byte>)
    requires |bytes| >= 6
    ensures |Encode(bytes)| >= 8
    ensures Encode(bytes)[..6] ==
            [Letter(First(bytes[0])), Letter(Second(bytes[0], bytes[1])), Letter(Third(bytes[1], bytes[2])),
             Letter(Fourth(bytes[2])), Letter(First(bytes[3])), Letter(Second(bytes[3], bytes[4]))]
  {
    assert Encode(bytes)[4..] == Encode(bytes[3..]);
  }

  lemma ZeroIsA(d: Sextet)
    ensures Letter(d) == 'A' <==> d == 0
    ensures Letter(d) == 'g' <==> d == 32
  {
  }

  lemma LowAndHigh(a: Byte, b: Byte)
    ensures Third(a, b) == 0 <==> a as int % 16 == 0 && b < 64
    ensures Fourth(a) == 0 <==> a as int % 64 == 0
    ensures First(a) == 0 <==> a < 4
  {
  }

  lemma SmallMultiples(a: Byte, b: Byte, c: Byte)
    ensures a < 16 && a as int % 16 == 0 <==> a == 0
    ensures b < 64 && b as int % 64 == 0 <==> b == 0
    ensures c < 4 && c as int % 4 == 0 <==> c == 0
  {
  }

  lemma SecondNeedsZero(a: Byte, b: Byte)
    ensures Second(a, b) == 0 <==> a as int % 4 == 0 && b < 16
  {
  }

  lemma StartsWith(text: string, start: string)
    requires |text| >= 6 && |start| == 6
    ensures start <= text <==> text[..6] == start
  {
    if start <= text {
      assert forall i :: 0 <= i < 6 ==> text[i] == start[i];
    }
  }

  /** Six characters say that the first byte is the version and the next 28 bits are zero. */
  lemma StartIsZeros(bytes: seq<Byte>)
    requires |bytes| >= 6 && First(bytes[0]) == 32 && bytes[0] as int % 4 == 0
    ensures "gAAAAA" <= Encode(bytes) <==> bytes[1] == 0 && bytes[2] == 0 && bytes[3] == 0 && bytes[4] < 16
    ensures Encode(bytes) != "" && Encode(bytes)[0] == 'g'
  {
    EncodedStart(bytes);
    StartsWith(Encode(bytes), "gAAAAA");
    assert Encode(bytes)[0] == Encode(bytes)[..6][0];
    SixLetters(First(bytes[0]), Second(bytes[0], bytes[1]), Third(bytes[1], bytes[2]),
               Fourth(bytes[2]), First(bytes[3]), Second(bytes[3], bytes[4]));
    SecondNeedsZero(bytes[0], bytes[1]);
    LowAndHigh(bytes[1], bytes[2]);
    LowAndHigh(bytes[2], bytes[2]);
    LowAndHigh(bytes[3], bytes[3]);
    SecondNeedsZero(bytes[3], bytes[4]);
    SmallMultiples(bytes[1], bytes[2], bytes[3]);
  }

  lemma SixLetters(p: Sextet, q: Sextet, r: Sextet, s: Sextet, t: Sextet, u: Sextet)
    requires p == 32
    ensures [Letter(p), Letter(q), Letter(r), Letter(s), Letter(t), Letter(u)] == "gAAAAA" <==>
            q == 0 && r == 0 && s == 0 && t == 0 && u == 0
    ensures Letter(p) == 'g'
  {
    ZeroIsA(p);
    ZeroIsA(q);
    ZeroIsA(r);
    ZeroIsA(s);
    ZeroIsA(t);
    ZeroIsA(u);
    var six := [Letter(p), Letter(q), Letter(r), Letter(s), Letter(t), Letter(u)];
    assert six == "gAAAAA" ==> six[1] == 'A' && six[2] == 'A' && six[3] == 'A' && six[4] == 'A' && six[5] == 'A';
  }

  lemma TokenLayout(lib: Library, t: Timestamp, iv: Vector, plain: seq<Byte>)
    requires CipherLaws(lib)
    ensures var data, signed, b := TokenBytes(lib, t, iv, plain), Signed(lib, t, iv, plain), TimestampBytes(t);
            && |data| == 57 + |lib.seal(iv, plain)| && data[..|data| - 32] == signed
            && data[|data| - 32..] == lib.mac(signed)
            && data[0] == VERSION && data[1] == b[0] && data[2] == b[1] && data[3] == b[2] && data[4] == b[3]
            && signed[9..25] == iv && signed[25..] == lib.seal(iv, plain)
  {
  }

  /** A token is recognised exactly when it was made before the 36th bit of the clock was needed. */
  lemma TokenIsRecognised(lib: Library, t: Timestamp, iv: Vector, plain: seq<Byte>)
    requires CipherLaws(lib)
    ensures IsEncrypted(Token(lib, t, iv, plain)) <==> t < 0x10_0000_0000
    ensures Token(lib, t, iv, plain) != "" && Token(lib, t, iv, plain)[0] == 'g'
    ensures |Token(lib, t, iv, plain)| > |plain|
  {
    var data := TokenBytes(lib, t, iv, plain);
    TokenLayout(lib, t, iv, plain);
    assert |lib.seal(iv, plain)| == (|plain| / 16 + 1) * 16;
    StartIsZeros(data);
    HighPart(t);
  }

  lemma TokenOpens(lib: Library, t: Timestamp, iv: Vector, plain: seq<Byte>)
    requires CipherLaws(lib)
    ensures Opened(lib, Token(lib, t, iv, plain)) == Some(plain)
  {
    TokenLayout(lib, t, iv, plain);
    EncodedReadsBack(TokenBytes(lib, t, iv, plain));
    assert lib.unseal(iv, lib.seal(iv, plain)) == Some(plain);
  }

  lemma OpenedIsShorter(lib: Library, token: string)
    requires CipherLaws(lib) && Opened(lib, token).Some?
    ensures |Opened(lib, token).value| < |token|
  {
    var data := Decode(token).value;
    var signed := data[..|data| - 32];
    assert lib.unseal(signed[9..25], signed[25..]).Some?;
  }

  // ----- Strings: what reads back -----

  lemma StringReadsBack(lib: Library, t: Timestamp, iv: Vector, plaintext: string)
    requires StringLaws(lib) && lib.hasSecret
    ensures EncryptString(lib, t, iv, plaintext).Some?
    ensures DecryptString(lib, EncryptString(lib, t, iv, plaintext).value) == Some(plaintext)
  {
    if plaintext != "" {
      TokenOpens(lib, t, iv, lib.utf8(plaintext));
      TokenIsRecognised(lib, t, iv, lib.utf8(plaintext));
    }
  }

  lemma DecryptedIsShorter(lib: Library, value: string)
    requires StringLaws(lib) && value != "" && DecryptString(lib, value).Some?
    ensures |DecryptString(lib, value).value| < |value|
  {
    OpenedIsShorter(lib, value);
    assert lib.ofUtf8(Opened(lib, value).value).Some?;
  }

  /** A value survives the migration helpers exactly when it is empty, or plain-looking and encrypted
      early enough, or token-looking without being a token. */
  lemma MigrationReadsBack(lib: Library, t: Timestamp, iv: Vector, value: string)
    requires StringLaws(lib) && lib.hasSecret
    ensures EncryptIfNeeded(lib, t, iv, value).Some?
    ensures DecryptIfNeeded(lib, EncryptIfNeeded(lib, t, iv, value).value) == value <==>
            value == "" || (if IsEncrypted(value) then DecryptString(lib, value).None? else t < 0x10_0000_0000)
  {
    if value == "" {
    } else if IsEncrypted(value) {
      if DecryptString(lib, value).Some? {
        DecryptedIsShorter(lib, value);
      }
    } else {
      var token := EncryptString(lib, t, iv, value).value;
      StringReadsBack(lib, t, iv, value);
      TokenIsRecognised(lib, t, iv, lib.utf8(value));
      assert |lib.utf8(value)| >= |value|;
      assert |token| > |value|;
    }
  }

  /** Migrating twice is migrating once. */
  lemma MigrationIsIdempotent(lib: Library, t: Timestamp, iv: Vector, t': Timestamp, iv': Vector, value: string)
    requires StringLaws(lib) && lib.hasSecret && t < 0x10_0000_0000
    ensures var once := EncryptIfNeeded(lib, t, iv, value);
            once.Some? && EncryptIfNeeded(lib, t', iv', once.value) == once
  {
    if value != "" && !IsEncrypted(value) {
      TokenIsRecognised(lib, t, iv, lib.utf8(value));
    }
  }

  // ----- Dictionaries: what reads back -----

  datatype Step = At(index: nat) | Under(key: string)

  /** `path` leads from `v` down to some value. */
  predicate Leads(v: Json, path: seq<Step>)
    decreases |path|
  {
    path == [] ||
    (match path[0]
     case At(i) => v.List? && i < |v.items| && Leads(v.items[i], path[1..])
     case Under(key) => v.Dict? && key in v.fields && Leads(v.fields[key], path[1..]))
  }

  /** No value is nested more than ten levels below this one. */
  ghost predicate IsShallow(v: Json) {
    forall path :: Leads(v, path) ==> |path| <= 10
  }

  lemma {:induction false} ValidPathsAreShort(v: Json, depth: nat, path: seq<Step>)
    requires IsValid(v, depth) && Leads(v, path)
    ensures depth + |path| <= MAX_DEPTH
    decreases |path|
  {
    if path != [] {
      match path[0] {
        case At(i) =>
          assert v.items[i] in v.items;
          ValidPathsAreShort(v.items[i], depth + 1, path[1..]);
        case Under(key) =>
          ValidPathsAreShort(v.fields[key], depth + 1, path[1..]);
      }
    }
  }

  lemma {:induction false} InvalidHasDeepPath(v: Json, depth: nat) returns (path: seq<Step>)
    requires !IsValid(v, depth)
    ensures Leads(v, path) && depth + |path| > MAX_DEPTH
    decreases v
  {
    if depth > MAX_DEPTH {
      path := [];
    } else if v.List? {
      var i :| 0 <= i < |v.items| && !IsValid(v.items[i], depth + 1);
      var rest := InvalidHasDeepPath(v.items[i], depth + 1);
      path := [At(i)] + rest;
    } else {
      var key :| key in v.fields && !IsValid(v.fields[key], depth + 1);
      var rest := InvalidHasDeepPath(v.fields[key], depth + 1);
      path := [Under(key)] + rest;
    }
  }

  lemma ValidMeansShallow(v: Json)
    ensures IsValid(v, 0) <==> IsShallow(v)
  {
    if IsValid(v, 0) {
      forall path | Leads(v, path) ensures |path| <= 10 {
        ValidPathsAreShort(v, 0, path);
      }
    } else {
      var path := InvalidHasDeepPath(v, 0);
    }
  }

  /** What comes out of an encrypted text. */
  lemma EncryptedIsParsed(lib: Library, t: Timestamp, iv: Vector, text: string)
    requires StringLaws(lib) && JsonLaw(lib) && lib.hasSecret && text != ""
    ensures EncryptString(lib, t, iv, text).Some?
    ensures DecryptDict(lib, EncryptString(lib, t, iv, text)) == if t < 0x10_0000_0000 then Parsed(lib, text) else map[]
  {
    var token := EncryptString(lib, t, iv, text).value;
    StringReadsBack(lib, t, iv, text);
    TokenIsRecognised(lib, t, iv, lib.utf8(text));
    if t >= 0x10_0000_0000 {
      assert lib.loads(token) == None;
    }
  }

  lemma DumpedIsParsed(lib: Library, fields: map<string, Json>)
    requires Reloads(lib, Dict(fields))
    ensures Parsed(lib, lib.dumps(Dict(fields))) == if IsShallow(Dict(fields)) then fields else map[]
  {
    ValidMeansShallow(Dict(fields));
  }

  /** The round trip of a dictionary, and everything that can come out of it. */
  lemma DictReadsBack(lib: Library, t: Timestamp, iv: Vector, fields: map<string, Json>)
    requires StringLaws(lib) && JsonLaw(lib) && lib.hasSecret && Reloads(lib, Dict(fields))
    ensures EncryptDict(lib, t, iv, fields).Some?
    ensures DecryptDict(lib, EncryptDict(lib, t, iv, fields).value) ==
            if t < 0x10_0000_0000 && IsShallow(Dict(fields)) then fields else map[]
    ensures DecryptDict(lib, EncryptDict(lib, t, iv, fields).value) == fields <==>
            fields == map[] || (t < 0x10_0000_0000 && IsShallow(Dict(fields)))
  {
    if fields == map[] {
    } else {
      DumpedIsParsed(lib, fields);
      EncryptedIsParsed(lib, t, iv, lib.dumps(Dict(fields)));
    }
  }

  /** Plaintext JSON left from before the migration decodes like its encryption. */
  lemma LegacyDecodesAlike(lib: Library, t: Timestamp, iv: Vector, text: string)
    requires StringLaws(lib) && JsonLaw(lib) && lib.hasSecret && t < 0x10_0000_0000 && lib.loads(text).Some?
    ensures EncryptString(lib, t, iv, text).Some?
    ensures DecryptDict(lib, Some(text)) == DecryptDict(lib, EncryptString(lib, t, iv, text))
  {
    if text == "" {
    } else {
      EncryptedIsParsed(lib, t, iv, text);
      assert text[0] != 'g';
    }
  }

  // ----- What is refused, and what is left alone -----

  /** Long enough, and it starts like a token. */
  predicate LooksLikeToken(value: string) {
    && |value| >= 51
    && value[0] == 'g' && value[1] == 'A' && value[2] == 'A' && value[3] == 'A' && value[4] == 'A' && value[5] == 'A'
  }

  /** Only text is opened that holds the version byte, and at its end the MAC of everything before. */
  lemma OnlyAuthenticIsOpened(lib: Library, token: string)
    requires Opened(lib, token).Some?
    ensures Decode(token).Some?
    ensures var data := Decode(token).value;
            && |data| >= 57 && data[0] == 0x80 && data[|data| - 32..] == lib.mac(data[..|data| - 32])
  {
  }

  /** Encrypting for the migration leaves alone exactly what is empty or looks like a token. */
  lemma LeftAloneExactly(lib: Library, t: Timestamp, iv: Vector, value: string)
    requires StringLaws(lib) && lib.hasSecret
    ensures EncryptIfNeeded(lib, t, iv, value) == Some(value) <==> value == "" || LooksLikeToken(value)
  {
    RecognisedMeans(value);
    if value != "" && !IsEncrypted(value) {
      TokenIsRecognised(lib, t, iv, lib.utf8(value));
      assert |lib.utf8(value)| >= |value|;
    }
  }

  lemma RecognisedMeans(value: string)
    ensures IsEncrypted(value) <==> LooksLikeToken(value)
  {
    if |value| >= 6 {
      StartsWith(value, "gAAAAA");
      if LooksLikeToken(value) {
        assert value[..6] == "gAAAAA";
      } else if "gAAAAA" <= value {
        assert value[0] == "gAAAAA"[0] && value[1] == "gAAAAA"[1] && value[2] == "gAAAAA"[2];
        assert value[3] == "gAAAAA"[3] && value[4] == "gAAAAA"[4] && value[5] == "gAAAAA"[5];
      }
    }
  }

  /** Decrypting for the migration changes only what looks like a token and can be decrypted. */
  lemma UndecryptableIsLeftAlone(lib: Library, value: string)
    requires !LooksLikeToken(value) || DecryptString(lib, value).None?
    ensures DecryptIfNeeded(lib, value) == value
  {
    RecognisedMeans(value);
  }

  /** Without a secret only what is empty can be encrypted or decrypted; a dictionary that looks encrypted is lost. */
  lemma WithoutSecret(lib: Library, t: Timestamp, iv: Vector, value: string, fields: map<string, Json>)
    requires !lib.hasSecret && lib.dumps(Dict(fields)) != ""
    ensures EncryptString(lib, t, iv, value) == if value == "" then Some("") else None
    ensures DecryptString(lib, value) == if value == "" then Some("") else None
    ensures EncryptDict(lib, t, iv, fields) == if fields == map[] then Some(None) else None
    ensures LooksLikeToken(value) ==> DecryptDict(lib, Some(value)) == map[]
  {
    RecognisedMeans(value);
  }

  /** A dictionary comes only from JSON that is a dictionary and nested no deeper than ten levels: from the text itself,
      or from what it decrypts to if it looks like a token. Everything else gives an empty one. */
  lemma DictComesFromJson(lib: Library, encrypted: Option<string>)
    ensures encrypted == None || encrypted == Some("") ==> DecryptDict(lib, encrypted) == map[]
    ensures DecryptDict(lib, encrypted) != map[] ==>
              && encrypted.Some?
              && var text := if LooksLikeToken(encrypted.value) then DecryptString(lib, encrypted.value) else encrypted;
                 && text.Some? && lib.loads(text.value) == Some(Dict(DecryptDict(lib, encrypted)))
                 && IsShallow(Dict(DecryptDict(lib, encrypted)))
  {
    if DecryptDict(lib, encrypted) != map[] {
      RecognisedMeans(encrypted.value);
      ValidMeansShallow(Dict(DecryptDict(lib, encrypted)));
    }
  }
}
