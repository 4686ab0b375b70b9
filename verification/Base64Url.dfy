/**
 * The two base64url encoders and the token built on the first one
 * (farcaster-audio/services/protocolAuth.ts and services/snapSigner.ts).
 * Shifts and masks of non-negative numbers are written as `/` and `%`.
 */
module Base64Url {
  import opened Options

  type Byte = x: int | 0 <= x < 256

  /** `A-Z`, `a-z`, `0-9`, then the two letters in which base64 and base64url differ. */
  function Letter(v: int, plus: char, slash: char): char {
    if 0 <= v < 26 then 'A' + v as char
    else if 26 <= v < 52 then 'a' + (v - 26) as char
    else if 52 <= v < 62 then '0' + (v - 52) as char
    else if v == 62 then plus
    else slash
  }

  function Alphabet(plus: char, slash: char): (alphabet: string)
    ensures |alphabet| == 64
  {
    seq(64, v => Letter(v, plus, slash))
  }

  const BASE64URL_ALPHABET: string := Alphabet('-', '_')
  /** Section 4 of RFC 4648: what `btoa` writes. */
  const BASE64_ALPHABET: string := Alphabet('+', '/')

  lemma AlphabetAsWritten()
    ensures BASE64URL_ALPHABET == "ABCDEFGHIJKLMNOPQRSTUVWXYZ" + "abcdefghijklmnopqrstuvwxyz" + "0123456789-_"
  {
  }

  // ---------------------------------------------------------------------
  // The specification: encode three bytes at a time over an alphabet
  // ---------------------------------------------------------------------

  /** `(a << 16) | (b << 8) | c`, the operands being bytes. */
  function Word(a: int, b: int, c: int): nat
    requires 0 <= a < 256 && 0 <= b < 256 && 0 <= c < 256
  {
    a * 65536 + b * 256 + c
  }

  /** The `k`-th of the four letters of a 24-bit word: `(n >> 18) & 63`, `(n >> 12) & 63` and so on. */
  function Digit(alphabet: string, n: nat, k: nat): char
    requires |alphabet| == 64 && k < 4
  {
    alphabet[if k == 0 then n / 262144 % 64 else if k == 1 then n / 4096 % 64 else if k == 2 then n / 64 % 64 else n % 64]
  }

  /** The letters of one group: one to three bytes give two to four letters. */
  function Group(alphabet: string, g: seq<Byte>): string
    requires |alphabet| == 64 && 1 <= |g| <= 3
  {
    var n := Word(g[0], if |g| > 1 then g[1] else 0, if |g| > 2 then g[2] else 0);
    [Digit(alphabet, n, 0), Digit(alphabet, n, 1), Digit(alphabet, n, 2), Digit(alphabet, n, 3)][..|g| + 1]
  }

  function GroupSize(bytes: seq<Byte>): nat {
    if |bytes| < 3 then |bytes| else 3
  }

  function EncodedOver(alphabet: string, bytes: seq<Byte>): string
    requires |alphabet| == 64
  {
    if bytes == [] then ""
    else
      var k := GroupSize(bytes);
      Group(alphabet, bytes[..k]) + EncodedOver(alphabet, bytes[k..])
  }

  function Encoded(bytes: seq<Byte>): string {
    EncodedOver(BASE64URL_ALPHABET, bytes)
  }

  // ---------------------------------------------------------------------
  // An independent decoder: section 5 of RFC 4648, unpadded, canonical
  // ---------------------------------------------------------------------

  /** The value of a base64url character, by character range. */
  function Sextet(c: char): int {
    if 'A' <= c <= 'Z' then c as int - 'A' as int
    else if 'a' <= c <= 'z' then c as int - 'a' as int + 26
    else if '0' <= c <= '9' then c as int - '0' as int + 52
    else if c == '-' then 62
    else if c == '_' then 63
    else -1
  }

  predicate InAlphabet(c: char) { Sextet(c) >= 0 }

  /** `None` on a character outside the alphabet, an impossible length or stray trailing bits. */
  function Decode(s: string): Option<seq<Byte>> {
    if |s| == 0 then Some([])
    else if |s| == 1 || !InAlphabet(s[0]) || !InAlphabet(s[1]) then None
    else
      var v0, v1 := Sextet(s[0]), Sextet(s[1]);
      var b0: Byte := v0 * 4 + v1 / 16;
      if |s| == 2 then
        if v1 % 16 == 0 then Some([b0]) else None
      else if !InAlphabet(s[2]) then None
      else
        var v2 := Sextet(s[2]);
        var b1: Byte := v1 % 16 * 16 + v2 / 4;
        if |s| == 3 then
          if v2 % 4 == 0 then Some([b0, b1]) else None
        else if !InAlphabet(s[3]) then None
        else
          var b2: Byte := v2 % 4 * 64 + Sextet(s[3]);
          match Decode(s[4..])
          case None => None
          case Some(rest) => Some([b0, b1, b2] + rest)
  }

  /** Reading a letter of the alphabet gives back its position. */
  ghost predicate Reads(alphabet: string) {
    |alphabet| == 64 && forall v :: 0 <= v < 64 ==> Sextet(alphabet[v]) == v
  }

  lemma AlphabetReads()
    ensures Reads(BASE64URL_ALPHABET)
  {
  }

  lemma SextetIsInjective(c: char, d: char)
    requires InAlphabet(c) && Sextet(c) == Sextet(d)
    ensures Sextet(c) < 64 && c == d
  {
  }

  // ---------------------------------------------------------------------
  // Decoding inverts encoding, both ways
  // ---------------------------------------------------------------------

  lemma QuotientIs(n: int, q: int, r: int, d: int)
    requires d in [4, 16, 64, 4096, 262144] && 0 <= r < d
    requires n == q * d + r
    ensures n / d == q
  {
    if d == 4 {
    } else if d == 16 {
    } else if d == 64 {
    } else if d == 4096 {
    }
  }

  lemma FirstDigits(a: Byte, b: Byte, c: Byte)
    ensures Word(a, b, c) / 262144 % 64 == a / 4
    ensures Word(a, b, c) / 4096 % 64 == a % 4 * 16 + b / 16
  {
    var q, r := a / 4, a % 4;
    QuotientIs(Word(a, b, c), q, r * 65536 + b * 256 + c, 262144);
    QuotientIs(Word(a, b, c), a * 16 + b / 16, b % 16 * 256 + c, 4096);
    QuotientIs(a * 16 + b / 16, q, r * 16 + b / 16, 64);
  }

  lemma LastDigits(a: Byte, b: Byte, c: Byte)
    ensures Word(a, b, c) / 64 % 64 == b % 16 * 4 + c / 64
    ensures Word(a, b, c) % 64 == c % 64
  {
    QuotientIs(Word(a, b, c), a * 1024 + b * 4 + c / 64, c % 64, 64);
    QuotientIs(a * 1024 + b * 4 + c / 64, a * 16 + b / 16, b % 16 * 4 + c / 64, 64);
  }

  /** The sextets of three bytes. */
  ghost predicate AreSextets(a: Byte, b: Byte, c: Byte, v0: int, v1: int, v2: int, v3: int) {
    v0 == a / 4 && v1 == a % 4 * 16 + b / 16 && v2 == b % 16 * 4 + c / 64 && v3 == c % 64
  }

  lemma GroupOfSextets(alphabet: string, g: seq<Byte>, b: Byte, c: Byte, v0: int, v1: int, v2: int, v3: int)
    requires |alphabet| == 64 && 1 <= |g| <= 3
    requires b == (if |g| > 1 then g[1] else 0) && c == (if |g| > 2 then g[2] else 0)
    requires AreSextets(g[0], b, c, v0, v1, v2, v3)
    ensures 0 <= v0 < 64 && 0 <= v1 < 64 && 0 <= v2 < 64 && 0 <= v3 < 64
    ensures Group(alphabet, g) == [alphabet[v0], alphabet[v1], alphabet[v2], alphabet[v3]][..|g| + 1]
  {
    FirstDigits(g[0], b, c);
    LastDigits(g[0], b, c);
  }

  lemma SextetsDetermineBytes(a: Byte, b: Byte, c: Byte, v0: int, v1: int, v2: int, v3: int)
    requires AreSextets(a, b, c, v0, v1, v2, v3)
    ensures a == v0 * 4 + v1 / 16 && b == v1 % 16 * 16 + v2 / 4 && c == v2 % 4 * 64 + v3
  {
  }

  lemma BytesDetermineSextets(a: Byte, b: Byte, c: Byte, v0: int, v1: int, v2: int, v3: int)
    requires 0 <= v0 < 64 && 0 <= v1 < 64 && 0 <= v2 < 64 && 0 <= v3 < 64
    requires a == v0 * 4 + v1 / 16 && b == v1 % 16 * 16 + v2 / 4 && c == v2 % 4 * 64 + v3
    ensures AreSextets(a, b, c, v0, v1, v2, v3)
  {
    QuotientIs(a, v0, v1 / 16, 4);
    QuotientIs(b, v1 % 16, v2 / 4, 16);
    QuotientIs(c, v2 % 4, v3, 64);
  }

  lemma FirstGroup(alphabet: string, g: seq<Byte>, rest: seq<Byte>)
    requires |alphabet| == 64 && 1 <= |g| <= 3 && (|g| < 3 ==> rest == [])
    ensures EncodedOver(alphabet, g + rest) == Group(alphabet, g) + EncodedOver(alphabet, rest)
  {
    var whole := g + rest;
    assert whole[..GroupSize(whole)] == g && whole[GroupSize(whole)..] == rest;
  }

  /** What `Decode` does with one step's worth of sextets. */
  lemma DecodeStep(s: string, g: seq<Byte>, v2: int, v3: int)
    requires 1 <= |g| <= 3 && |s| > |g| && (|g| < 3 ==> |s| == |g| + 1)
    requires |g| > 1 ==> v2 == Sextet(s[2])
    requires |g| > 2 ==> v3 == Sextet(s[3])
    requires AreSextets(g[0], if |g| > 1 then g[1] else 0, if |g| > 2 then g[2] else 0,
                        Sextet(s[0]), Sextet(s[1]), v2, v3)
    ensures Decode(s) ==
      if |g| < 3 then Some(g)
      else if Decode(s[4..]).None? then None
      else Some(g + Decode(s[4..]).value)
  {
    SextetsDetermineBytes(g[0], if |g| > 1 then g[1] else 0, if |g| > 2 then g[2] else 0,
                          Sextet(s[0]), Sextet(s[1]), v2, v3);
    if |g| == 1 {
      assert g == [g[0]];
    } else if |g| == 2 {
      assert g == [g[0], g[1]];
    } else {
      assert g == [g[0], g[1], g[2]];
    }
  }

  /** Decoding a group's letters followed by `rest`. */
  lemma GroupDecodes(alphabet: string, g: seq<Byte>, rest: string)
    requires Reads(alphabet) && 1 <= |g| <= 3 && (|g| < 3 ==> rest == "")
    ensures var s := Group(alphabet, g) + rest;
      Decode(s) ==
        if |g| < 3 then Some(g)
        else if Decode(rest).None? then None
        else Some(g + Decode(rest).value)
  {
    var a := g[0];
    var b := if |g| > 1 then g[1] else 0;
    var c := if |g| > 2 then g[2] else 0;
    var v0, v1, v2, v3 := a / 4, a % 4 * 16 + b / 16, b % 16 * 4 + c / 64, c % 64;
    GroupOfSextets(alphabet, g, b, c, v0, v1, v2, v3);
    var s := Group(alphabet, g) + rest;
    DecodeStep(s, g, v2, v3);
    assert |g| == 3 ==> s[4..] == rest;
  }

  lemma {:induction false} DecodeOver(alphabet: string, bytes: seq<Byte>)
    requires Reads(alphabet)
    ensures Decode(EncodedOver(alphabet, bytes)) == Some(bytes)
  {
    if |bytes| < 3 {
      if bytes != [] {
        GroupDecodes(alphabet, bytes, "");
        FirstGroup(alphabet, bytes, []);
        assert bytes + [] == bytes;
      }
    } else {
      var g, rest := bytes[..3], bytes[3..];
      GroupDecodes(alphabet, g, EncodedOver(alphabet, rest));
      FirstGroup(alphabet, g, rest);
      assert bytes == g + rest;
      DecodeOver(alphabet, rest);
    }
  }

  /** The letters of the bytes that one decoding step reads. */
  lemma DecodedGroup(alphabet: string, g: seq<Byte>, s: string, v2: int, v3: int)
    requires Reads(alphabet) && 1 <= |g| <= 3 && |s| == |g| + 1
    requires forall i :: 0 <= i < |s| ==> InAlphabet(s[i])
    requires v2 == (if |s| > 2 then Sextet(s[2]) else 0) && v3 == (if |s| > 3 then Sextet(s[3]) else 0)
    requires g[0] == Sextet(s[0]) * 4 + Sextet(s[1]) / 16
    requires (if |g| > 1 then g[1] else 0) == Sextet(s[1]) % 16 * 16 + v2 / 4
    requires (if |g| > 2 then g[2] else 0) == v2 % 4 * 64 + v3
    ensures Group(alphabet, g) == s
  {
    var b := if |g| > 1 then g[1] else 0;
    var c := if |g| > 2 then g[2] else 0;
    BytesDetermineSextets(g[0], b, c, Sextet(s[0]), Sextet(s[1]), v2, v3);
    GroupOfSextets(alphabet, g, b, c, Sextet(s[0]), Sextet(s[1]), v2, v3);
    forall i | 0 <= i < |s|
      ensures alphabet[Sextet(s[i])] == s[i]
    {
      SextetIsInjective(s[i], alphabet[Sextet(s[i])]);
    }
  }

  lemma {:induction false} EncodeOver(alphabet: string, s: string)
    requires Reads(alphabet) && Decode(s).Some?
    ensures EncodedOver(alphabet, Decode(s).value) == s
  {
    var bytes := Decode(s).value;
    var v2 := if |s| > 2 then Sextet(s[2]) else 0;
    if |s| > 3 {
      var g, rest := bytes[..3], bytes[3..];
      assert rest == Decode(s[4..]).value;
      DecodedGroup(alphabet, g, s[..4], v2, Sextet(s[3]));
      assert bytes == g + rest;
      FirstGroup(alphabet, g, rest);
      EncodeOver(alphabet, s[4..]);
      assert s == s[..4] + s[4..];
    } else if s != "" {
      DecodedGroup(alphabet, bytes, s, v2, 0);
      FirstGroup(alphabet, bytes, []);
      assert bytes + [] == bytes;
    }
  }

  /** A string decodes to `bytes` exactly when it is their encoding: no two spellings, no two readings. */
  lemma DecodesExactlyItsEncoding(s: string, bytes: seq<Byte>)
    ensures Decode(s) == Some(bytes) <==> s == Encoded(bytes)
  {
    AlphabetReads();
    DecodeOver(BASE64URL_ALPHABET, bytes);
    if Decode(s).Some? {
      EncodeOver(BASE64URL_ALPHABET, s);
    }
  }

  /** Four letters for every three bytes, then two for one byte left over or three for two. */
  lemma {:induction false} EncodedLength(alphabet: string, bytes: seq<Byte>, groups: nat, left: nat)
    requires |alphabet| == 64 && |bytes| == 3 * groups + left && left < 3
    ensures |EncodedOver(alphabet, bytes)| == 4 * groups + (if left == 0 then 0 else left + 1)
    decreases groups
  {
    if groups > 0 {
      EncodedLength(alphabet, bytes[3..], groups - 1, left);
    } else if left > 0 {
      assert bytes[left..] == [];
    }
  }

  lemma {:induction false} EncodedStaysInAlphabet(alphabet: string, bytes: seq<Byte>)
    requires |alphabet| == 64
    ensures forall i :: 0 <= i < |EncodedOver(alphabet, bytes)| ==> EncodedOver(alphabet, bytes)[i] in alphabet
  {
    if bytes != [] {
      EncodedStaysInAlphabet(alphabet, bytes[GroupSize(bytes)..]);
    }
  }

  // ---------------------------------------------------------------------
  // The loop of services/protocolAuth.ts
  // ---------------------------------------------------------------------

  /** Appending one more group after `k` whole ones. */
  lemma {:induction false} NextGroup(alphabet: string, head: seq<Byte>, g: seq<Byte>, k: nat)
    requires |alphabet| == 64 && |head| == 3 * k && 1 <= |g| <= 3
    ensures EncodedOver(alphabet, head + g) == EncodedOver(alphabet, head) + Group(alphabet, g)
    decreases k
  {
    if k == 0 {
      FirstGroup(alphabet, g, []);
      assert head + g == g + [] && EncodedOver(alphabet, []) == "";
    } else {
      var first, rest := head[..3], head[3..];
      assert head + g == first + (rest + g);
      FirstGroup(alphabet, first, rest + g);
      assert head == first + rest;
      FirstGroup(alphabet, first, rest);
      NextGroup(alphabet, rest, g, k - 1);
    }
  }

  lemma GroupLetters(alphabet: string, g: seq<Byte>, n: nat)
    requires |alphabet| == 64 && 1 <= |g| <= 3
    requires n == Word(g[0], if |g| > 1 then g[1] else 0, if |g| > 2 then g[2] else 0)
    ensures |g| == 1 ==> Group(alphabet, g) == [Digit(alphabet, n, 0), Digit(alphabet, n, 1)]
    ensures |g| == 2 ==>
      Group(alphabet, g) == [Digit(alphabet, n, 0), Digit(alphabet, n, 1), Digit(alphabet, n, 2)]
    ensures |g| == 3 ==>
      Group(alphabet, g) ==
        [Digit(alphabet, n, 0), Digit(alphabet, n, 1), Digit(alphabet, n, 2), Digit(alphabet, n, 3)]
  {
  }

  /** One turn of the loop, or its remainder: the group at `i` in letters. */
  lemma EncodeAt(bytes: seq<Byte>, i: nat, size: nat, n: nat)
    requires i % 3 == 0 && 1 <= size <= 3 && i + size <= |bytes|
    requires n == Word(bytes[i], if size > 1 then bytes[i + 1] else 0, if size > 2 then bytes[i + 2] else 0)
    ensures Encoded(bytes[..i + size]) == Encoded(bytes[..i]) + Group(BASE64URL_ALPHABET, bytes[i..i + size])
  {
    NextGroup(BASE64URL_ALPHABET, bytes[..i], bytes[i..i + size], i / 3);
    assert bytes[..i + size] == bytes[..i] + bytes[i..i + size];
  }

  method Base64UrlEncode(bytes: array<Byte>) returns (out: string)
    ensures out == Encoded(bytes[..])
  {
    out := "";
    var i := 0;
    while i + 2 < bytes.Length
      invariant 0 <= i <= bytes.Length && i % 3 == 0
      invariant out == Encoded(bytes[..][..i])
    {
      assert (i + 3) % 3 == 0;
      var n := Word(bytes[i], bytes[i + 1], bytes[i + 2]);
      EncodeAt(bytes[..], i, 3, n);
      GroupLetters(BASE64URL_ALPHABET, bytes[..][i..i + 3], n);
      out := out + [Digit(BASE64URL_ALPHABET, n, 0), Digit(BASE64URL_ALPHABET, n, 1),
                    Digit(BASE64URL_ALPHABET, n, 2), Digit(BASE64URL_ALPHABET, n, 3)];
      i := i + 3;
    }
    var remaining := bytes.Length - i;
    assert bytes[..][..i + remaining] == bytes[..];
    if remaining == 1 {
      var n := Word(bytes[i], 0, 0);
      EncodeAt(bytes[..], i, 1, n);
      GroupLetters(BASE64URL_ALPHABET, bytes[..][i..i + 1], n);
      out := out + [Digit(BASE64URL_ALPHABET, n, 0), Digit(BASE64URL_ALPHABET, n, 1)];
    } else if remaining == 2 {
      var n := Word(bytes[i], bytes[i + 1], 0);
      EncodeAt(bytes[..], i, 2, n);
      GroupLetters(BASE64URL_ALPHABET, bytes[..][i..i + 2], n);
      out := out + [Digit(BASE64URL_ALPHABET, n, 0), Digit(BASE64URL_ALPHABET, n, 1),
                    Digit(BASE64URL_ALPHABET, n, 2)];
    }
  }

  // ---------------------------------------------------------------------
  // The encoder of services/snapSigner.ts: btoa, replace, replace, strip
  // ---------------------------------------------------------------------

  /** `btoa` on a string of code units below 256: padded base64, section 4 of RFC 4648. */
  function Btoa(bin: string): string
    requires forall i :: 0 <= i < |bin| ==> bin[i] as int < 256
  {
    var bytes: seq<Byte> := seq(|bin|, i requires 0 <= i < |bin| => bin[i] as int);
    EncodedOver(BASE64_ALPHABET, bytes) + Padding(|bin|)
  }

  function Padding(n: nat): string {
    if n % 3 == 1 then "==" else if n % 3 == 2 then "=" else ""
  }

  function ReplaceAll(s: string, from: char, to: char): string {
    seq(|s|, i requires 0 <= i < |s| => if s[i] == from then to else s[i])
  }

  /** `replace(/=+$/, "")`. */
  function StripPadding(s: string): string {
    if s != "" && s[|s| - 1] == '=' then StripPadding(s[..|s| - 1]) else s
  }

  lemma StripPaddingStops(s: string, n: nat)
    requires '=' !in s
    ensures StripPadding(s + Padding(n)) == s
  {
    var pad := Padding(n);
    assert StripPadding(s) == s;
    assert (s + "=")[..|s|] == s;
    assert StripPadding(s + "=") == s;
    assert s + "==" == (s + "=") + "=";
    assert (s + "==")[..|s| + 1] == s + "=";
    assert s + "" == s;
  }

  function Urlsafe(c: char): char {
    if c == '+' then '-' else if c == '/' then '_' else c
  }

  lemma AlphabetsCorrespond(v: int)
    requires 0 <= v < 64
    ensures Urlsafe(BASE64_ALPHABET[v]) == BASE64URL_ALPHABET[v] && BASE64_ALPHABET[v] != '='
  {
  }

  lemma {:induction false} EncodingsCorrespond(bytes: seq<Byte>)
    ensures |EncodedOver(BASE64_ALPHABET, bytes)| == |Encoded(bytes)|
    ensures forall i :: 0 <= i < |Encoded(bytes)| ==>
      Urlsafe(EncodedOver(BASE64_ALPHABET, bytes)[i]) == Encoded(bytes)[i] &&
      EncodedOver(BASE64_ALPHABET, bytes)[i] != '='
  {
    forall v | 0 <= v < 64
      ensures Urlsafe(BASE64_ALPHABET[v]) == BASE64URL_ALPHABET[v] && BASE64_ALPHABET[v] != '='
    {
      AlphabetsCorrespond(v);
    }
    if bytes != [] {
      EncodingsCorrespond(bytes[GroupSize(bytes)..]);
    }
  }

  /** Both encoders write the same string for every byte array. */
  method EncodeSnapPayload(bytes: array<Byte>) returns (out: string)
    ensures out == Encoded(bytes[..])
  {
    var bin := "";
    for i := 0 to bytes.Length
      invariant |bin| == i
      invariant forall k :: 0 <= k < i ==> bin[k] as int == bytes[k]
    {
      bin := bin + [bytes[i] as char];
    }
    var b64 := Btoa(bin);
    out := StripPadding(ReplaceAll(ReplaceAll(b64, '+', '-'), '/', '_'));

    EncodingsCorrespond(bytes[..]);
    assert seq(|bin|, i requires 0 <= i < |bin| => bin[i] as int) == bytes[..];
    assert ReplaceAll(ReplaceAll(b64, '+', '-'), '/', '_') == Encoded(bytes[..]) + Padding(|bin|);
    StripPaddingStops(Encoded(bytes[..]), |bin|);
  }

  // ---------------------------------------------------------------------
  // Tokens
  // ---------------------------------------------------------------------

  const SIGNATURE_BYTE_LENGTH := 65
  const PROTOCOL_AUTH_TOKEN_PREFIX := "hqa1."

  datatype TokenResult = Token(text: string) | EmptyMessage | WrongSignatureLength

  /** `encodeProtocolAuthToken` on the message's UTF-8 bytes and the signature's bytes. */
  function EncodeProtocolAuthToken(message: seq<Byte>, signature: seq<Byte>): TokenResult {
    if message == [] then EmptyMessage
    else if |signature| != SIGNATURE_BYTE_LENGTH then WrongSignatureLength
    else Token(PROTOCOL_AUTH_TOKEN_PREFIX + Encoded(message) + "." + Encoded(signature))
  }

  /** `text.split(".")`. */
  function SplitAtDots(s: string): (parts: seq<string>)
    ensures |parts| > 0
  {
    if s == "" then [""]
    else
      var rest := SplitAtDots(s[1..]);
      if s[0] == '.' then [""] + rest else [[s[0]] + rest[0]] + rest[1..]
  }

  lemma {:induction false} SplitTakesTheFirstPart(part: string, rest: string)
    requires '.' !in part
    ensures SplitAtDots(part + "." + rest) == [part] + SplitAtDots(rest)
  {
    var s := part + "." + rest;
    if part == "" {
      assert s[1..] == rest;
    } else {
      SplitTakesTheFirstPart(part[1..], rest);
      assert s[1..] == part[1..] + "." + rest;
      assert s[0] == part[0] && s[0] != '.';
      assert [part[0]] + part[1..] == part;
    }
  }

  lemma {:induction false} SplitIsWholeWithoutDots(s: string)
    requires '.' !in s
    ensures SplitAtDots(s) == [s]
  {
    if s != "" {
      SplitIsWholeWithoutDots(s[1..]);
      assert [s[0]] + s[1..] == s;
    }
  }

  function JoinWithDots(parts: seq<string>): string
    requires |parts| > 0
  {
    if |parts| == 1 then parts[0] else parts[0] + "." + JoinWithDots(parts[1..])
  }

  lemma {:induction false} JoinUndoesSplit(s: string)
    ensures JoinWithDots(SplitAtDots(s)) == s
  {
    if s != "" {
      var rest := SplitAtDots(s[1..]);
      JoinUndoesSplit(s[1..]);
      assert [s[0]] + s[1..] == s;
      if s[0] == '.' {
        assert SplitAtDots(s)[1..] == rest;
      } else {
        assert SplitAtDots(s)[1..] == rest[1..];
      }
    }
  }

  /** What a verifier reads back: three dot-separated parts, both payloads decodable. */
  function ParseToken(text: string): Option<(seq<Byte>, seq<Byte>)> {
    var parts := SplitAtDots(text);
    if |parts| != 3 || parts[0] != "hqa1" then None
    else match (Decode(parts[1]), Decode(parts[2]))
      case (Some(message), Some(signature)) =>
        if message != [] && |signature| == 65 then Some((message, signature)) else None
      case _ => None
  }

  lemma NoDotInEncoding(bytes: seq<Byte>)
    ensures '.' !in Encoded(bytes)
  {
    EncodedStaysInAlphabet(BASE64URL_ALPHABET, bytes);
    AlphabetReads();
    assert Sextet('.') < 0;
  }

  lemma TokenSplits(m: string, s: string)
    requires '.' !in m && '.' !in s
    ensures SplitAtDots(PROTOCOL_AUTH_TOKEN_PREFIX + m + "." + s) == ["hqa1", m, s]
  {
    var text := PROTOCOL_AUTH_TOKEN_PREFIX + m + "." + s;
    assert text == "hqa1" + "." + (m + "." + s);
    SplitTakesTheFirstPart("hqa1", m + "." + s);
    SplitTakesTheFirstPart(m, s);
    SplitIsWholeWithoutDots(s);
  }

  lemma TokenJoins(text: string, m: string, s: string)
    requires SplitAtDots(text) == ["hqa1", m, s]
    ensures text == PROTOCOL_AUTH_TOKEN_PREFIX + m + "." + s
  {
    JoinUndoesSplit(text);
    var parts := ["hqa1", m, s];
    assert parts[1..] == [m, s] && [m, s][1..] == [s];
    assert JoinWithDots([m, s]) == m + "." + s;
    assert JoinWithDots(parts) == "hqa1" + "." + (m + "." + s);
  }

  /** A text reads back as a message and a signature exactly when it is the token made from them. */
  lemma TokenReadsBackExactly(text: string, message: seq<Byte>, signature: seq<Byte>)
    ensures ParseToken(text) == Some((message, signature))
      <==> EncodeProtocolAuthToken(message, signature) == Token(text)
    ensures EncodeProtocolAuthToken(message, signature) == EmptyMessage <==> message == []
    ensures EncodeProtocolAuthToken(message, signature) == WrongSignatureLength <==> message != [] && |signature| != 65
  {
    var m, s := Encoded(message), Encoded(signature);
    DecodesExactlyItsEncoding(m, message);
    DecodesExactlyItsEncoding(s, signature);
    NoDotInEncoding(message);
    NoDotInEncoding(signature);
    TokenSplits(m, s);
    if ParseToken(text) == Some((message, signature)) {
      var parts := SplitAtDots(text);
      DecodesExactlyItsEncoding(parts[1], message);
      DecodesExactlyItsEncoding(parts[2], signature);
      assert parts == ["hqa1", m, s];
      TokenJoins(text, m, s);
    }
  }
}
