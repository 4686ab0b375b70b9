/**
 * The canonical text of a request: `JSON.stringify` after sorting, and what a
 * signature over it pins down (farcaster-audio/services/messagingToken.ts).
 */
module JsonText {
  import opened JsStrings
  import opened CanonicalJson

  // ---------------------------------------------------------------------
  // Strings: section 25.5.2.3 (QuoteJSONString) of ECMA-262
  // ---------------------------------------------------------------------

  predicate IsHigh(c: CodeUnit) { 0xD800 <= c <= 0xDBFF }

  predicate IsLow(c: CodeUnit) { 0xDC00 <= c <= 0xDFFF }

  /** A surrogate pair at the front is one code point and is copied as it is. */
  predicate StartsWithPair(s: JsString) {
    |s| > 1 && IsHigh(s[0]) && IsLow(s[1])
  }

  function HexDigit(n: int): CodeUnit
    requires 0 <= n < 16
  {
    if n < 10 then (48 + n) as CodeUnit else (87 + n) as CodeUnit
  }

  /** `\uXXXX`, in lower case. */
  function UnicodeEscape(c: CodeUnit): JsString {
    var n := c as int;
    [92, 117, HexDigit(n / 16 / 16 / 16), HexDigit(n / 16 / 16 % 16), HexDigit(n / 16 % 16), HexDigit(n % 16)]
  }

  /** The letter after the backslash in a two-character escape; 0 for none. */
  function ShortEscape(c: CodeUnit): CodeUnit {
    if c == 34 then 34
    else if c == 92 then 92
    else if c == 8 then 98
    else if c == 9 then 116
    else if c == 10 then 110
    else if c == 12 then 102
    else if c == 13 then 114
    else 0
  }

  /** How many code units the first code point of `s` takes. */
  function PointLength(s: JsString): nat
    requires s != []
  {
    if StartsWithPair(s) then 2 else 1
  }

  function PointText(s: JsString): (t: JsString)
    requires s != []
    ensures t != [] && t[0] != 34
  {
    if StartsWithPair(s) then s[..2]
    else if ShortEscape(s[0]) != 0 then [92, ShortEscape(s[0])]
    else if s[0] < 32 || IsHigh(s[0]) || IsLow(s[0]) then UnicodeEscape(s[0])
    else [s[0]]
  }

  function Escaped(s: JsString): JsString {
    if s == [] then [] else PointText(s) + Escaped(s[PointLength(s)..])
  }

  function Quote(s: JsString): JsString {
    [34] + Escaped(s) + [34]
  }

  // ---------------------------------------------------------------------
  // Values, without whitespace
  // ---------------------------------------------------------------------

  function Stringify(v: Json): JsString
    decreases v, 1, 0
  {
    match v
    case JNull => [110, 117, 108, 108]
    case JBool(b) => if b then [116, 114, 117, 101] else [102, 97, 108, 115, 101]
    case JNumber(text) => text
    case JString(s) => Quote(s)
    case JArray(_) => [91] + Items(v, 0)
    case JObject(_) => [123] + Entries(v, 0)
  }

  function Comma(i: nat): JsString { if i == 0 then [] else [44] }

  /** From the `i`-th item of an array on, to the closing bracket. */
  function Items(v: Json, i: nat): (t: JsString)
    requires v.JArray? && i <= |v.items|
    ensures t != []
    decreases v, 0, |v.items| - i
  {
    if i == |v.items| then [93] else Comma(i) + (Stringify(v.items[i]) + Items(v, i + 1))
  }

  function Entries(v: Json, i: nat): (t: JsString)
    requires v.JObject? && i <= |v.entries|
    ensures t != []
    decreases v, 0, |v.entries| - i
  {
    if i == |v.entries| then [125]
    else Comma(i) + (Quote(v.entries[i].key) + ([58] + (Stringify(v.entries[i].value) + Entries(v, i + 1))))
  }

  /** `canonicalizeAuthRequest`. */
  function CanonicalizeAuthRequest(v: Json): JsString {
    Stringify(SortKeysDeep(v))
  }

  // ---------------------------------------------------------------------
  // A quoted string can be read back, whatever follows it
  // ---------------------------------------------------------------------

  lemma HexDigitIsInjective(m: int, n: int)
    requires 0 <= m < 16 && 0 <= n < 16 && HexDigit(m) == HexDigit(n)
    ensures m == n
  {
  }

  lemma UnicodeEscapeIsInjective(c: CodeUnit, d: CodeUnit)
    requires UnicodeEscape(c) == UnicodeEscape(d)
    ensures c == d
  {
    var m, n := c as int, d as int;
    var e, f := UnicodeEscape(c), UnicodeEscape(d);
    assert e[2] == f[2] && e[3] == f[3] && e[4] == f[4] && e[5] == f[5];
    HexDigitIsInjective(m / 16 / 16 / 16, n / 16 / 16 / 16);
    HexDigitIsInjective(m / 16 / 16 % 16, n / 16 / 16 % 16);
    HexDigitIsInjective(m / 16 % 16, n / 16 % 16);
    HexDigitIsInjective(m % 16, n % 16);
  }

  /** Equal texts begin with the same code point. */
  lemma PointTextsDiffer(s: JsString, t: JsString, x: JsString, y: JsString)
    requires s != [] && t != [] && PointText(s) + x == PointText(t) + y
    ensures PointLength(s) == PointLength(t) && s[..PointLength(s)] == t[..PointLength(t)] && x == y
  {
    var p, q := PointText(s) + x, PointText(t) + y;
    assert p[0] == PointText(s)[0] && q[0] == PointText(t)[0];
    if |PointText(s)| > 1 && |PointText(t)| > 1 {
      assert p[1] == PointText(s)[1] && q[1] == PointText(t)[1];
    }
    assert |PointText(s)| == |PointText(t)|;
    assert PointText(s) == p[..|PointText(s)|] == q[..|PointText(t)|] == PointText(t);
    assert x == p[|PointText(s)|..] && y == q[|PointText(t)|..];
    if |PointText(s)| == 6 {
      UnicodeEscapeIsInjective(s[0], t[0]);
    }
  }

  lemma QuoteEndsOnlyAtTheEnd(s: JsString, x: JsString)
    ensures (Escaped(s) + [34] + x)[0] == 34 <==> s == []
  {
    if s != [] {
      assert (Escaped(s) + [34] + x)[0] == PointText(s)[0];
    }
  }

  lemma FirstPoint(s: JsString, x: JsString)
    requires s != []
    ensures Escaped(s) + [34] + x == PointText(s) + (Escaped(s[PointLength(s)..]) + [34] + x)
  {
  }

  lemma {:induction false} EscapedReadsBack(s: JsString, t: JsString, x: JsString, y: JsString)
    requires Escaped(s) + [34] + x == Escaped(t) + [34] + y
    ensures s == t && x == y
    decreases |s|
  {
    var p, q := Escaped(s) + [34] + x, Escaped(t) + [34] + y;
    QuoteEndsOnlyAtTheEnd(s, x);
    QuoteEndsOnlyAtTheEnd(t, y);
    if s == [] {
      assert x == p[1..] && y == q[1..];
    } else {
      var k, l := PointLength(s), PointLength(t);
      var a, b := Escaped(s[k..]) + [34] + x, Escaped(t[l..]) + [34] + y;
      FirstPoint(s, x);
      FirstPoint(t, y);
      PointTextsDiffer(s, t, a, b);
      EscapedReadsBack(s[k..], t[l..], x, y);
      assert s == s[..k] + s[k..] && t == t[..l] + t[l..];
    }
  }

  lemma QuoteReadsBack(s: JsString, t: JsString, x: JsString, y: JsString)
    requires Quote(s) + x == Quote(t) + y
    ensures s == t && x == y
  {
    var e, f := Escaped(s) + [34], Escaped(t) + [34];
    assert Quote(s) == [34] + e && Quote(t) == [34] + f;
    DropFirst(34, e, x, f, y);
    EscapedReadsBack(s, t, x, y);
  }

  // ---------------------------------------------------------------------
  // A value can be read back when what follows cannot extend it
  // ---------------------------------------------------------------------

  /** What may stand after a value: nothing, a comma, a closing bracket or a closing brace. */
  predicate EndsValue(x: JsString) {
    x == [] || x[0] == 44 || x[0] == 93 || x[0] == 125
  }

  lemma NumbersReadBack(s: JsString, t: JsString, x: JsString, y: JsString)
    requires IsNumberText(s) && IsNumberText(t) && EndsValue(x) && EndsValue(y)
    requires s + x == t + y
    ensures s == t && x == y
  {
    NotShorter(s, t, x, y);
    NotShorter(t, s, y, x);
    assert s == (s + x)[..|s|] && t == (t + y)[..|t|];
    assert x == (s + x)[|s|..] && y == (t + y)[|t|..];
  }

  lemma NotShorter(s: JsString, t: JsString, x: JsString, y: JsString)
    requires IsNumberText(t) && EndsValue(x) && s + x == t + y
    ensures |s| >= |t|
  {
    var whole := s + x;
    assert forall i :: 0 <= i < |t| ==> IsNumberUnit(whole[i]) by {
      assert forall i :: 0 <= i < |t| ==> whole[i] == (t + y)[i] == t[i];
    }
    assert |whole| > |s| ==> whole[|s|] == x[0];
  }

  /** The kind of a value shows in its first unit. */
  function Kind(c: CodeUnit): int {
    if c == 110 then 0
    else if c == 116 || c == 102 then 1
    else if IsDigit(c) || c == 45 then 2
    else if c == 34 then 3
    else if c == 91 then 4
    else if c == 123 then 5
    else -1
  }

  lemma FirstUnit(v: Json)
    requires WellFormed(v)
    ensures Stringify(v) != []
    ensures Kind(Stringify(v)[0]) ==
      match v
      case JNull => 0
      case JBool(_) => 1
      case JNumber(_) => 2
      case JString(_) => 3
      case JArray(_) => 4
      case JObject(_) => 5
  {
  }

  lemma ItemsStart(v: Json, i: nat, x: JsString)
    requires v.JArray? && WellFormed(v) && i <= |v.items|
    ensures (Items(v, i) + x)[0] == 93 <==> i == |v.items|
    ensures i > 0 ==> EndsValue(Items(v, i) + x)
  {
    if i < |v.items| {
      FirstUnit(v.items[i]);
    }
  }

  lemma EntriesStart(v: Json, i: nat, x: JsString)
    requires v.JObject? && i <= |v.entries|
    ensures (Entries(v, i) + x)[0] == 125 <==> i == |v.entries|
    ensures i > 0 ==> EndsValue(Entries(v, i) + x)
  {
    if i < |v.entries| {
      assert Quote(v.entries[i].key)[0] == 34;
    }
  }

  lemma DropComma(i: nat, x: JsString, y: JsString)
    requires Comma(i) + x == Comma(i) + y
    ensures x == y
  {
    assert x == (Comma(i) + x)[|Comma(i)|..] && y == (Comma(i) + y)[|Comma(i)|..];
  }

  lemma ItemsGoOn(a: Json, b: Json, i: nat, x: JsString, y: JsString)
    requires a.JArray? && b.JArray? && i < |a.items| && i < |b.items| && Items(a, i) + x == Items(b, i) + y
    ensures Stringify(a.items[i]) + (Items(a, i + 1) + x) == Stringify(b.items[i]) + (Items(b, i + 1) + y)
  {
    ItemText(a, i, x);
    ItemText(b, i, y);
    DropComma(i, Stringify(a.items[i]) + (Items(a, i + 1) + x), Stringify(b.items[i]) + (Items(b, i + 1) + y));
  }

  lemma {:induction false} ItemsReadBack(a: Json, b: Json, i: nat, x: JsString, y: JsString)
    requires a.JArray? && b.JArray? && WellFormed(a) && WellFormed(b) && EndsValue(x) && EndsValue(y)
    requires i <= |a.items| && i <= |b.items| && Items(a, i) + x == Items(b, i) + y
    ensures a.items[i..] == b.items[i..] && x == y
    decreases a, 0, |a.items| - i
  {
    ItemsStart(a, i, x);
    ItemsStart(b, i, y);
    if i == |a.items| {
      assert x == (Items(a, i) + x)[1..] && y == (Items(b, i) + y)[1..];
    } else {
      var v, w := a.items[i], b.items[i];
      var p, q := Items(a, i + 1) + x, Items(b, i + 1) + y;
      ItemsGoOn(a, b, i, x, y);
      ItemsStart(a, i + 1, x);
      ItemsStart(b, i + 1, y);
      ReadsBack(v, w, p, q);
      ItemsReadBack(a, b, i + 1, x, y);
      assert a.items[i..] == [v] + a.items[i + 1..] && b.items[i..] == [w] + b.items[i + 1..];
    }
  }

  lemma {:induction false} EntriesReadBack(a: Json, b: Json, i: nat, x: JsString, y: JsString)
    requires a.JObject? && b.JObject? && WellFormed(a) && WellFormed(b) && EndsValue(x) && EndsValue(y)
    requires i <= |a.entries| && i <= |b.entries| && Entries(a, i) + x == Entries(b, i) + y
    ensures a.entries[i..] == b.entries[i..] && x == y
    decreases a, 0, |a.entries| - i
  {
    EntriesStart(a, i, x);
    EntriesStart(b, i, y);
    if i == |a.entries| {
      assert x == (Entries(a, i) + x)[1..] && y == (Entries(b, i) + y)[1..];
    } else {
      var v, w := a.entries[i], b.entries[i];
      KeysReadBack(a, b, i, x, y);
      EntriesStart(a, i + 1, x);
      EntriesStart(b, i + 1, y);
      ReadsBack(v.value, w.value, Entries(a, i + 1) + x, Entries(b, i + 1) + y);
      EntriesReadBack(a, b, i + 1, x, y);
      assert a.entries[i..] == [v] + a.entries[i + 1..] && b.entries[i..] == [w] + b.entries[i + 1..];
    }
  }

  lemma KeysReadBack(a: Json, b: Json, i: nat, x: JsString, y: JsString)
    requires a.JObject? && b.JObject? && i < |a.entries| && i < |b.entries|
    requires Entries(a, i) + x == Entries(b, i) + y
    ensures a.entries[i].key == b.entries[i].key
    ensures Stringify(a.entries[i].value) + (Entries(a, i + 1) + x)
         == Stringify(b.entries[i].value) + (Entries(b, i + 1) + y)
  {
    var v, w := a.entries[i], b.entries[i];
    var m := Stringify(v.value) + (Entries(a, i + 1) + x);
    var n := Stringify(w.value) + (Entries(b, i + 1) + y);
    EntryText(a, i, x);
    EntryText(b, i, y);
    DropComma(i, Quote(v.key) + ([58] + m), Quote(w.key) + ([58] + n));
    QuoteReadsBack(v.key, w.key, [58] + m, [58] + n);
    assert m == ([58] + m)[1..] && n == ([58] + n)[1..];
  }

  lemma ItemText(v: Json, i: nat, x: JsString)
    requires v.JArray? && i < |v.items|
    ensures Items(v, i) + x == Comma(i) + (Stringify(v.items[i]) + (Items(v, i + 1) + x))
  {
  }

  lemma EntryText(v: Json, i: nat, x: JsString)
    requires v.JObject? && i < |v.entries|
    ensures var e := v.entries[i];
      Entries(v, i) + x == Comma(i) + (Quote(e.key) + ([58] + (Stringify(e.value) + (Entries(v, i + 1) + x))))
  {
  }

  /** A value's text, up to something that cannot extend it, determines the value. */
  lemma {:induction false} ReadsBack(a: Json, b: Json, x: JsString, y: JsString)
    requires WellFormed(a) && WellFormed(b) && EndsValue(x) && EndsValue(y)
    requires Stringify(a) + x == Stringify(b) + y
    ensures a == b && x == y
    decreases a, 1, 0
  {
    SameKind(a, b, x, y);
    match a {
      case JNumber(text) =>
        NumbersReadBack(text, b.text, x, y);
      case JString(s) =>
        QuoteReadsBack(s, b.s, x, y);
      case JArray(_) =>
        DropFirst(91, Items(a, 0), x, Items(b, 0), y);
        ItemsReadBack(a, b, 0, x, y);
      case JObject(_) =>
        DropFirst(123, Entries(a, 0), x, Entries(b, 0), y);
        EntriesReadBack(a, b, 0, x, y);
      case _ =>
        SameTail(Stringify(a), x, y);
    }
  }

  lemma DropFirst(c: CodeUnit, s: JsString, x: JsString, t: JsString, y: JsString)
    requires [c] + s + x == [c] + t + y
    ensures s + x == t + y
  {
    assert s + x == ([c] + s + x)[1..] && t + y == ([c] + t + y)[1..];
  }

  lemma SameTail(s: JsString, x: JsString, y: JsString)
    requires s + x == s + y
    ensures x == y
  {
    assert x == (s + x)[|s|..] && y == (s + y)[|s|..];
  }

  lemma SameKind(a: Json, b: Json, x: JsString, y: JsString)
    requires WellFormed(a) && WellFormed(b) && Stringify(a) + x == Stringify(b) + y
    ensures a.JNull? == b.JNull? && a.JBool? == b.JBool? && a.JNumber? == b.JNumber?
    ensures a.JString? == b.JString? && a.JArray? == b.JArray? && a.JObject? == b.JObject?
    ensures a.JBool? ==> a == b
  {
    FirstUnit(a);
    FirstUnit(b);
    assert (Stringify(a) + x)[0] == Stringify(a)[0] && (Stringify(b) + y)[0] == Stringify(b)[0];
  }

  /** Two values have the same text exactly when they are the same value. */
  lemma TextDeterminesValue(a: Json, b: Json)
    requires WellFormed(a) && WellFormed(b)
    ensures Stringify(a) == Stringify(b) <==> a == b
  {
    if Stringify(a) == Stringify(b) {
      assert Stringify(a) + [] == Stringify(b) + [];
      ReadsBack(a, b, [], []);
    }
  }

  /**
   * What a signature over the canonical text covers: two requests share a text exactly when they
   * differ in nothing but the order of object keys.
   */
  lemma CanonicalTextsEqualIff(a: Json, b: Json)
    requires WellFormed(a) && WellFormed(b)
    ensures CanonicalizeAuthRequest(a) == CanonicalizeAuthRequest(b) <==> SameUpToKeyOrder(a, b)
  {
    SortKeepsWellFormed(a);
    SortKeepsWellFormed(b);
    TextDeterminesValue(SortKeysDeep(a), SortKeysDeep(b));
    SortsEqualIffSame(a, b);
  }
}
