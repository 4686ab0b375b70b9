/**
 * The canonical text is JSON of the value: reading it gives the value back
 * (farcaster-audio/services/messagingToken.ts).
 */
module JsonRoundTrip {
  import opened JsStrings
  import opened Options
  import opened CanonicalJson
  import opened JsonText
  import opened JsonParser

  // ---------------------------------------------------------------------
  // Strings
  // ---------------------------------------------------------------------

  lemma HexDigitReadsBack(n: int)
    requires 0 <= n < 16
    ensures HexValue(HexDigit(n)) == n
  {
  }

  lemma FourDigits(n: int)
    requires 0 <= n < 0x1_0000
    ensures 4096 * (n / 16 / 16 / 16) + 256 * (n / 16 / 16 % 16) + 16 * (n / 16 % 16) + n % 16 == n
  {
    assert n == 16 * (n / 16) + n % 16;
    assert n / 16 == 16 * (n / 16 / 16) + n / 16 % 16;
    assert n / 16 / 16 == 16 * (n / 16 / 16 / 16) + n / 16 / 16 % 16;
  }

  lemma EscapeReadsBack(c: CodeUnit, x: JsString)
    ensures ParseUnit(UnicodeEscape(c) + x) == Parsed(c, x)
  {
    var n := c as int;
    var t := UnicodeEscape(c) + x;
    HexDigitReadsBack(n / 16 / 16 / 16);
    HexDigitReadsBack(n / 16 / 16 % 16);
    HexDigitReadsBack(n / 16 % 16);
    HexDigitReadsBack(n % 16);
    FourDigits(n);
    assert t[0] == 92 && t[1] == 117 && t[6..] == x;
    assert t[2] == HexDigit(n / 16 / 16 / 16) && t[3] == HexDigit(n / 16 / 16 % 16);
    assert t[4] == HexDigit(n / 16 % 16) && t[5] == HexDigit(n % 16);
  }

  lemma ShortEscapeReadsBack(c: CodeUnit, x: JsString)
    requires ShortEscape(c) != 0
    ensures ParseUnit([92, ShortEscape(c)] + x) == Parsed(c, x)
  {
    var t := [92, ShortEscape(c)] + x;
    assert t[0] == 92 && t[1] == ShortEscape(c) && t[2..] == x;
  }

  lemma PlainUnitReadsBack(c: CodeUnit, x: JsString)
    requires c >= 32 && c != 34 && c != 92
    ensures ParseUnit([c] + x) == Parsed(c, x)
  {
    assert ([c] + x)[1..] == x;
  }

  lemma ParseOneUnit(t: JsString, c: CodeUnit, rest: JsString)
    requires ParseUnit(t) == Parsed(c, rest)
    ensures ParseString(t) ==
      match ParseString(rest)
      case NoParse => NoParse
      case Parsed(s, after) => Parsed([c] + s, after)
  {
  }

  /** One code point is read back as its one or two units. */
  lemma PointReadsBack(s: JsString, x: JsString, tail: JsString, after: JsString)
    requires s != [] && ParseString(x) == Parsed(tail, after)
    ensures ParseString(PointText(s) + x) == Parsed(s[..PointLength(s)] + tail, after)
  {
    if StartsWithPair(s) {
      PairReadsBack(s[0], s[1], x, tail, after);
      assert PointText(s) == [s[0], s[1]] && s[..2] == [s[0], s[1]];
    } else {
      SingleReadsBack(s, x);
      ParseOneUnit(PointText(s) + x, s[0], x);
      assert s[..1] == [s[0]];
    }
  }

  lemma SingleReadsBack(s: JsString, x: JsString)
    requires s != [] && !StartsWithPair(s)
    ensures ParseUnit(PointText(s) + x) == Parsed(s[0], x)
  {
    if ShortEscape(s[0]) != 0 {
      ShortEscapeReadsBack(s[0], x);
    } else if s[0] < 32 || IsHigh(s[0]) || IsLow(s[0]) {
      EscapeReadsBack(s[0], x);
    } else {
      PlainUnitReadsBack(s[0], x);
    }
  }

  lemma PairReadsBack(c: CodeUnit, d: CodeUnit, x: JsString, tail: JsString, after: JsString)
    requires IsHigh(c) && IsLow(d) && ParseString(x) == Parsed(tail, after)
    ensures ParseString([c, d] + x) == Parsed([c, d] + tail, after)
  {
    PlainUnitReadsBack(d, x);
    ParseOneUnit([d] + x, d, x);
    PlainUnitReadsBack(c, [d] + x);
    ParseOneUnit([c] + ([d] + x), c, [d] + x);
    assert [c, d] + x == [c] + ([d] + x) && [c, d] + tail == [c] + ([d] + tail);
  }

  lemma {:induction false} EscapedIsRead(s: JsString, x: JsString)
    ensures ParseString(Escaped(s) + [34] + x) == Parsed(s, x)
    decreases |s|
  {
    if s == [] {
      assert ([34] + x)[1..] == x;
      assert Escaped(s) + [34] + x == [34] + x;
    } else {
      var k := PointLength(s);
      EscapedIsRead(s[k..], x);
      FirstPoint(s, x);
      PointReadsBack(s, Escaped(s[k..]) + [34] + x, s[k..], x);
      assert s == s[..k] + s[k..];
    }
  }

  lemma QuoteOpens(s: JsString, x: JsString)
    ensures Quote(s) + x == [34] + (Escaped(s) + [34] + x)
  {
  }

  lemma OpenedQuoteIsRead(t: JsString, s: JsString, x: JsString)
    requires ParseString(t) == Parsed(s, x)
    ensures StartsWith([34] + t, 34) && ParseString(([34] + t)[1..]) == Parsed(s, x)
  {
    assert ([34] + t)[1..] == t;
  }

  lemma QuoteIsRead(s: JsString, x: JsString)
    ensures StartsWith(Quote(s) + x, 34)
    ensures ParseString((Quote(s) + x)[1..]) == Parsed(s, x)
  {
    EscapedIsRead(s, x);
    QuoteOpens(s, x);
    OpenedQuoteIsRead(Escaped(s) + [34] + x, s, x);
  }

  // ---------------------------------------------------------------------
  // Numbers
  // ---------------------------------------------------------------------

  lemma {:induction false} NumberEndsWhereItEnds(n: JsString, x: JsString)
    requires forall i :: 0 <= i < |n| ==> IsNumberUnit(n[i])
    requires EndsValue(x)
    ensures NumberLength(n + x) == |n|
  {
    if n == [] {
      assert n + x == x;
    } else {
      NumberEndsWhereItEnds(n[1..], x);
      assert (n + x)[1..] == n[1..] + x;
    }
  }

  lemma NumberIsRead(n: JsString, x: JsString)
    requires IsNumberText(n) && EndsValue(x)
    ensures ParseNumber(n + x) == Parsed(JNumber(n), x)
    ensures ParseValue(n + x) == ParseNumber(n + x)
  {
    NumberEndsWhereItEnds(n, x);
    assert (n + x)[..|n|] == n && (n + x)[|n|..] == x;
    assert (n + x)[0] == n[0];
  }

  // ---------------------------------------------------------------------
  // Values
  // ---------------------------------------------------------------------

  lemma LiteralsAreRead(v: Json, x: JsString)
    requires v.JNull? || v.JBool?
    ensures ParseValue(Stringify(v) + x) == Parsed(v, x)
  {
    var s := Stringify(v);
    LiteralIsRead(s, v, x);
    assert (s + x)[0] == s[0];
  }

  lemma LiteralIsRead(literal: JsString, v: Json, x: JsString)
    requires literal != []
    ensures ParseLiteral(literal + x, literal, v) == Parsed(v, x)
  {
    assert (literal + x)[..|literal|] == literal && (literal + x)[|literal|..] == x;
  }

  lemma StringIsRead(s: JsString, x: JsString)
    ensures ParseValue(Quote(s) + x) == Parsed(JString(s), x)
  {
    QuoteIsRead(s, x);
    assert (Quote(s) + x)[0] == 34;
  }

  lemma ArrayParse(t: JsString)
    ensures ParseValue([91] + t) == ParseArray(t)
  {
    assert ([91] + t)[1..] == t;
  }

  lemma ObjectParse(t: JsString)
    ensures ParseValue([123] + t) == ParseObject(t)
  {
    assert ([123] + t)[1..] == t;
  }

  lemma LastItemParse(t: JsString, v: Json, x: JsString)
    requires ParseValue(t) == Parsed(v, [93] + x)
    ensures ParseItems(t) == Parsed([v], x)
  {
    assert StartsWith([93] + x, 93) && ([93] + x)[1..] == x;
  }

  lemma NextItemParse(t: JsString, v: Json, u: JsString, items: seq<Json>, x: JsString)
    requires ParseValue(t) == Parsed(v, [44] + u) && ParseItems(u) == Parsed(items, x)
    ensures ParseItems(t) == Parsed([v] + items, x)
  {
    assert ([44] + u)[0] == 44 && ([44] + u)[1..] == u;
  }

  lemma LaterItemText(v: Json, i: nat, x: JsString)
    requires v.JArray? && 0 < i <= |v.items|
    ensures i < |v.items| ==> Items(v, i) + x == [44] + (Stringify(v.items[i]) + (Items(v, i + 1) + x))
    ensures i == |v.items| ==> Items(v, i) + x == [93] + x
  {
    if i < |v.items| {
      ItemText(v, i, x);
    }
  }

  lemma FrontAndRest<T>(s: seq<T>, i: nat)
    requires i < |s|
    ensures s[i..] == [s[i]] + s[i+1..]
    ensures i + 1 == |s| ==> s[i..] == [s[i]]
  {
  }

  lemma {:induction false} ItemsAreRead(v: Json, i: nat, x: JsString)
    requires v.JArray? && WellFormed(v) && i < |v.items| && EndsValue(x)
    ensures ParseItems(Stringify(v.items[i]) + (Items(v, i + 1) + x)) == Parsed(v.items[i..], x)
    decreases v, 0, |v.items| - i
  {
    var item, more := v.items[i], Items(v, i + 1) + x;
    ItemsStart(v, i + 1, x);
    ValueIsRead(item, more);
    LaterItemText(v, i + 1, x);
    FrontAndRest(v.items, i);
    if i + 1 == |v.items| {
      LastItemParse(Stringify(item) + more, item, x);
    } else {
      ItemsAreRead(v, i + 1, x);
      NextItemParse(Stringify(item) + more, item, Stringify(v.items[i+1]) + (Items(v, i + 2) + x), v.items[i+1..], x);
    }
  }

  lemma MemberParse(key: JsString, t: JsString, v: Json, rest: JsString)
    requires ParseValue(t) == Parsed(v, rest)
    ensures ParseMember(Quote(key) + ([58] + t)) == Parsed(Entry(key, v), rest)
  {
    QuoteIsRead(key, [58] + t);
    assert ([58] + t)[1..] == t;
  }

  lemma LastMemberParse(t: JsString, e: Entry, x: JsString)
    requires ParseMember(t) == Parsed(e, [125] + x)
    ensures ParseMembers(t) == Parsed([e], x)
  {
    assert StartsWith([125] + x, 125) && ([125] + x)[1..] == x;
  }

  lemma NextMemberParse(t: JsString, e: Entry, u: JsString, entries: seq<Entry>, x: JsString)
    requires ParseMember(t) == Parsed(e, [44] + u) && ParseMembers(u) == Parsed(entries, x)
    ensures ParseMembers(t) == Parsed([e] + entries, x)
  {
    assert ([44] + u)[0] == 44 && ([44] + u)[1..] == u;
  }

  /** A member and what follows it. */
  function MemberText(e: Entry, more: JsString): JsString {
    Quote(e.key) + ([58] + (Stringify(e.value) + more))
  }

  lemma LaterMemberText(v: Json, i: nat, x: JsString)
    requires v.JObject? && 0 < i <= |v.entries|
    ensures i < |v.entries| ==> Entries(v, i) + x == [44] + MemberText(v.entries[i], Entries(v, i + 1) + x)
    ensures i == |v.entries| ==> Entries(v, i) + x == [125] + x
  {
    if i < |v.entries| {
      EntryText(v, i, x);
    }
  }

  lemma {:induction false} MembersAreRead(v: Json, i: nat, x: JsString)
    requires v.JObject? && WellFormed(v) && i < |v.entries| && EndsValue(x)
    ensures ParseMembers(MemberText(v.entries[i], Entries(v, i + 1) + x)) == Parsed(v.entries[i..], x)
    decreases v, 0, |v.entries| - i
  {
    var e, more := v.entries[i], Entries(v, i + 1) + x;
    EntriesStart(v, i + 1, x);
    ValueIsRead(e.value, more);
    MemberParse(e.key, Stringify(e.value) + more, e.value, more);
    LaterMemberText(v, i + 1, x);
    FrontAndRest(v.entries, i);
    if i + 1 == |v.entries| {
      LastMemberParse(MemberText(e, more), e, x);
    } else {
      MembersAreRead(v, i + 1, x);
      NextMemberParse(MemberText(e, more), e, MemberText(v.entries[i+1], Entries(v, i + 2) + x), v.entries[i+1..], x);
    }
  }

  /** A value's text is read back, whatever ends the value after it. */
  lemma {:induction false} ValueIsRead(v: Json, x: JsString)
    requires WellFormed(v) && EndsValue(x)
    ensures ParseValue(Stringify(v) + x) == Parsed(v, x)
    decreases v, 1, 0
  {
    match v {
      case JNumber(text) => NumberIsRead(text, x);
      case JString(s) => StringIsRead(s, x);
      case JArray(items) => ArrayIsRead(v, x);
      case JObject(entries) => ObjectIsRead(v, x);
      case _ => LiteralsAreRead(v, x);
    }
  }

  lemma {:induction false} ArrayIsRead(v: Json, x: JsString)
    requires v.JArray? && WellFormed(v) && EndsValue(x)
    ensures ParseValue(Stringify(v) + x) == Parsed(v, x)
    decreases v, 0, |v.items| + 1
  {
    if v.items == [] {
      EmptyArrayIsRead(v, x);
    } else {
      ItemsStart(v, 0, x);
      ItemsAreRead(v, 0, x);
      FullArrayIsRead(v, x);
    }
  }

  lemma EmptyArrayIsRead(v: Json, x: JsString)
    requires v == JArray([])
    ensures ParseValue(Stringify(v) + x) == Parsed(v, x)
  {
    ArrayText(v, x);
    ArrayParse([93] + x);
    EmptyArrayParse(x);
  }

  lemma FullArrayIsRead(v: Json, x: JsString)
    requires v.JArray? && v.items != [] && (Items(v, 0) + x)[0] != 93
    requires ParseItems(Stringify(v.items[0]) + (Items(v, 1) + x)) == Parsed(v.items[0..], x)
    ensures ParseValue(Stringify(v) + x) == Parsed(v, x)
  {
    ArrayText(v, x);
    FirstItemText(v, x);
    assert v.items[0..] == v.items;
    ArrayParse(Items(v, 0) + x);
    FullArrayParse(Items(v, 0) + x, v.items, x);
  }

  lemma ArrayText(v: Json, x: JsString)
    requires v.JArray?
    ensures Stringify(v) + x == [91] + (Items(v, 0) + x)
    ensures v.items == [] ==> v == JArray([]) && Items(v, 0) == [93]
  {
  }

  lemma FirstItemText(v: Json, x: JsString)
    requires v.JArray? && v.items != []
    ensures Items(v, 0) + x == Stringify(v.items[0]) + (Items(v, 1) + x)
  {
    ItemText(v, 0, x);
    assert Comma(0) + (Stringify(v.items[0]) + (Items(v, 1) + x)) == Stringify(v.items[0]) + (Items(v, 1) + x);
  }

  lemma EmptyArrayParse(x: JsString)
    ensures ParseArray([93] + x) == Parsed(JArray([]), x)
  {
    assert ([93] + x)[1..] == x;
  }

  lemma FullArrayParse(t: JsString, items: seq<Json>, x: JsString)
    requires !StartsWith(t, 93) && ParseItems(t) == Parsed(items, x)
    ensures ParseArray(t) == Parsed(JArray(items), x)
  {
  }

  lemma {:induction false} ObjectIsRead(v: Json, x: JsString)
    requires v.JObject? && WellFormed(v) && EndsValue(x)
    ensures ParseValue(Stringify(v) + x) == Parsed(v, x)
    decreases v, 0, |v.entries| + 1
  {
    if v.entries == [] {
      EmptyObjectIsRead(v, x);
    } else {
      EntriesStart(v, 0, x);
      MembersAreRead(v, 0, x);
      FullObjectIsRead(v, x);
    }
  }

  lemma EmptyObjectIsRead(v: Json, x: JsString)
    requires v == JObject([])
    ensures ParseValue(Stringify(v) + x) == Parsed(v, x)
  {
    ObjectText(v, x);
    ObjectParse([125] + x);
    EmptyObjectParse(x);
  }

  lemma FullObjectIsRead(v: Json, x: JsString)
    requires v.JObject? && v.entries != [] && (Entries(v, 0) + x)[0] != 125
    requires ParseMembers(MemberText(v.entries[0], Entries(v, 1) + x)) == Parsed(v.entries[0..], x)
    ensures ParseValue(Stringify(v) + x) == Parsed(v, x)
  {
    ObjectText(v, x);
    FirstMemberText(v, x);
    assert v.entries[0..] == v.entries;
    ObjectParse(Entries(v, 0) + x);
    FullObjectParse(Entries(v, 0) + x, v.entries, x);
  }

  lemma ObjectText(v: Json, x: JsString)
    requires v.JObject?
    ensures Stringify(v) + x == [123] + (Entries(v, 0) + x)
    ensures v.entries == [] ==> v == JObject([]) && Entries(v, 0) == [125]
  {
  }

  lemma FirstMemberText(v: Json, x: JsString)
    requires v.JObject? && v.entries != []
    ensures Entries(v, 0) + x == MemberText(v.entries[0], Entries(v, 1) + x)
  {
    EntryText(v, 0, x);
  }

  lemma EmptyObjectParse(x: JsString)
    ensures ParseObject([125] + x) == Parsed(JObject([]), x)
  {
    assert ([125] + x)[1..] == x;
  }

  lemma FullObjectParse(t: JsString, entries: seq<Entry>, x: JsString)
    requires !StartsWith(t, 125) && ParseMembers(t) == Parsed(entries, x)
    ensures ParseObject(t) == Parsed(JObject(entries), x)
  {
  }

  /** `JSON.parse(JSON.stringify(v))` is `v`. */
  lemma ParseOfStringify(v: Json)
    requires WellFormed(v)
    ensures Parse(Stringify(v)) == Some(v)
  {
    ValueIsRead(v, []);
    assert Stringify(v) + [] == Stringify(v);
  }

  /**
   * The text that is signed reads as the request with its keys sorted, and so
   * as the request itself up to the order of keys.
   */
  lemma CanonicalTextIsTheRequest(v: Json)
    requires WellFormed(v)
    ensures Parse(CanonicalizeAuthRequest(v)) == Some(SortKeysDeep(v)) && SameUpToKeyOrder(v, SortKeysDeep(v))
  {
    SortKeepsWellFormed(v);
    SortedIsSame(v);
    CanonicalIsStringified(v, SortKeysDeep(v));
    ParseOfStringify(SortKeysDeep(v));
  }

  lemma CanonicalIsStringified(v: Json, sorted: Json)
    requires sorted == SortKeysDeep(v)
    ensures CanonicalizeAuthRequest(v) == Stringify(sorted)
  {
  }

  /** No surrogate stands alone, so that encoding the text in UTF-8 loses nothing. */
  predicate IsUnicode(t: JsString)
    decreases |t|
  {
    t == [] || (!IsSurrogate(t[0]) && IsUnicode(t[1..])) ||
    (|t| > 1 && 0xD800 <= t[0] < 0xDC00 && 0xDC00 <= t[1] < 0xE000 && IsUnicode(t[2..]))
  }

  /** It is sound Unicode, whatever strings the request holds. */
  lemma CanonicalTextIsUnicode(v: Json)
    requires WellFormed(v)
    ensures IsUnicode(CanonicalizeAuthRequest(v))
  {
    SortKeepsWellFormed(v);
    CanonicalIsStringified(v, SortKeysDeep(v));
    UnicodeInValue(SortKeysDeep(v));
  }

  /** It has no whitespace outside strings. */
  lemma CanonicalTextIsCompact(v: Json)
    requires WellFormed(v)
    ensures NoBlankOutside(Outside, CanonicalizeAuthRequest(v))
  {
    SortKeepsWellFormed(v);
    CanonicalIsStringified(v, SortKeysDeep(v));
    NoBlankInValue(SortKeysDeep(v));
  }

  // ---------------------------------------------------------------------
  // No whitespace
  // ---------------------------------------------------------------------

  lemma {:induction false} PlacesCompose(place: Place, a: JsString, b: JsString)
    ensures PlaceAfter(place, a + b) == PlaceAfter(PlaceAfter(place, a), b)
    ensures NoBlankOutside(place, a + b) <==> NoBlankOutside(place, a) && NoBlankOutside(PlaceAfter(place, a), b)
    decreases |a|
  {
    if a == [] {
      assert a + b == b;
    } else {
      PlacesCompose(NextPlace(place, a[0]), a[1..], b);
      assert (a + b)[1..] == a[1..] + b;
    }
  }

  /** The text starts and ends outside strings and has no whitespace there. */
  predicate IsClosed(t: JsString) {
    NoBlankOutside(Outside, t) && PlaceAfter(Outside, t) == Outside
  }

  lemma ClosedTogether(a: JsString, b: JsString)
    requires IsClosed(a) && IsClosed(b)
    ensures IsClosed(a + b)
  {
    PlacesCompose(Outside, a, b);
  }

  lemma {:induction false} ClosedUnits(t: JsString)
    requires forall i :: 0 <= i < |t| ==> t[i] != 34 && !IsBlank(t[i])
    ensures IsClosed(t)
  {
    if t != [] {
      ClosedUnits(t[1..]);
    }
  }

  /** A stretch that stays inside its string. */
  predicate StaysInside(t: JsString) {
    NoBlankOutside(Inside, t) && PlaceAfter(Inside, t) == Inside
  }

  lemma PlainUnitsStayInside(t: JsString)
    requires 1 <= |t| <= 2 && forall i :: 0 <= i < |t| ==> t[i] != 34 && t[i] != 92
    ensures StaysInside(t)
  {
    InsideUnits(t);
  }

  lemma EscapesStayInside(t: JsString)
    requires |t| >= 2 && t[0] == 92 && forall i :: 2 <= i < |t| ==> t[i] != 34 && t[i] != 92
    ensures StaysInside(t)
  {
    var rest := t[2..];
    assert t[1..][0] == t[1] && t[1..][1..] == rest;
    assert forall i :: 0 <= i < |rest| ==> rest[i] == t[i + 2];
    InsideUnits(rest);
    assert NextPlace(NextPlace(Inside, t[0]), t[1]) == Inside;
    assert NoBlankOutside(AfterBackslash, t[1..]) && PlaceAfter(AfterBackslash, t[1..]) == Inside;
  }

  lemma {:induction false} InsideUnits(t: JsString)
    requires forall i :: 0 <= i < |t| ==> t[i] != 34 && t[i] != 92
    ensures StaysInside(t)
  {
    if t != [] {
      InsideUnits(t[1..]);
    }
  }

  lemma PointStaysInside(s: JsString)
    requires s != []
    ensures StaysInside(PointText(s))
  {
    if StartsWithPair(s) || (ShortEscape(s[0]) == 0 && !(s[0] < 32 || IsHigh(s[0]) || IsLow(s[0]))) {
      PlainUnitsStayInside(PointText(s));
    } else {
      EscapesStayInside(PointText(s));
    }
  }

  lemma {:induction false} EscapedStaysInside(s: JsString)
    ensures StaysInside(Escaped(s))
    decreases |s|
  {
    if s != [] {
      PointStaysInside(s);
      EscapedStaysInside(s[PointLength(s)..]);
      PlacesCompose(Inside, PointText(s), Escaped(s[PointLength(s)..]));
    }
  }

  lemma QuoteIsClosed(s: JsString)
    ensures IsClosed(Quote(s))
  {
    EscapedStaysInside(s);
    PlacesCompose(Inside, Escaped(s), [34]);
    assert [34][1..] == [];
    PlacesCompose(Outside, [34], Escaped(s) + [34]);
    assert Quote(s) == [34] + (Escaped(s) + [34]);
  }

  lemma {:induction false} NoBlankInValue(v: Json)
    requires WellFormed(v)
    ensures IsClosed(Stringify(v))
    decreases v, 1, 0
  {
    match v {
      case JString(s) => QuoteIsClosed(s);
      case JArray(_) =>
        ClosedUnits([91]);
        NoBlankInItems(v, 0);
        ClosedTogether([91], Items(v, 0));
      case JObject(_) =>
        ClosedUnits([123]);
        NoBlankInEntries(v, 0);
        ClosedTogether([123], Entries(v, 0));
      case _ => ClosedUnits(Stringify(v));
    }
  }

  lemma {:induction false} NoBlankInItems(v: Json, i: nat)
    requires v.JArray? && WellFormed(v) && i <= |v.items|
    ensures IsClosed(Items(v, i))
    decreases v, 0, |v.items| - i
  {
    if i == |v.items| {
      ClosedUnits([93]);
    } else {
      ClosedUnits(Comma(i));
      NoBlankInValue(v.items[i]);
      NoBlankInItems(v, i + 1);
      ClosedTogether(Stringify(v.items[i]), Items(v, i + 1));
      ClosedTogether(Comma(i), Stringify(v.items[i]) + Items(v, i + 1));
    }
  }

  lemma {:induction false} NoBlankInEntries(v: Json, i: nat)
    requires v.JObject? && WellFormed(v) && i <= |v.entries|
    ensures IsClosed(Entries(v, i))
    decreases v, 0, |v.entries| - i
  {
    if i == |v.entries| {
      ClosedUnits([125]);
    } else {
      var e, more := v.entries[i], Entries(v, i + 1);
      ClosedUnits(Comma(i));
      ClosedUnits([58]);
      QuoteIsClosed(e.key);
      NoBlankInValue(e.value);
      NoBlankInEntries(v, i + 1);
      ClosedTogether(Stringify(e.value), more);
      ClosedTogether([58], Stringify(e.value) + more);
      ClosedTogether(Quote(e.key), [58] + (Stringify(e.value) + more));
      ClosedTogether(Comma(i), Quote(e.key) + ([58] + (Stringify(e.value) + more)));
    }
  }

  // ---------------------------------------------------------------------
  // Sound Unicode
  // ---------------------------------------------------------------------

  lemma {:induction false} UnicodeTogether(a: JsString, b: JsString)
    requires IsUnicode(a) && IsUnicode(b)
    ensures IsUnicode(a + b)
    decreases |a|
  {
    if a == [] {
      assert a + b == b;
    } else if !IsSurrogate(a[0]) {
      UnicodeTogether(a[1..], b);
      assert (a + b)[1..] == a[1..] + b;
    } else {
      UnicodeTogether(a[2..], b);
      assert (a + b)[2..] == a[2..] + b;
    }
  }

  lemma {:induction false} PlainUnitsAreUnicode(t: JsString)
    requires forall i :: 0 <= i < |t| ==> t[i] < 128
    ensures IsUnicode(t)
  {
    if t != [] {
      PlainUnitsAreUnicode(t[1..]);
    }
  }

  lemma PointIsUnicode(s: JsString)
    requires s != []
    ensures IsUnicode(PointText(s))
  {
    var t := PointText(s);
    if StartsWithPair(s) {
      assert t[2..] == [];
    } else if |t| == 1 {
      assert t[1..] == [];
    } else {
      PlainUnitsAreUnicode(t);
    }
  }

  lemma {:induction false} EscapedIsUnicode(s: JsString)
    ensures IsUnicode(Escaped(s))
    decreases |s|
  {
    if s != [] {
      PointIsUnicode(s);
      EscapedIsUnicode(s[PointLength(s)..]);
      UnicodeTogether(PointText(s), Escaped(s[PointLength(s)..]));
    }
  }

  lemma QuoteIsUnicode(s: JsString)
    ensures IsUnicode(Quote(s))
  {
    PlainUnitsAreUnicode([34]);
    EscapedIsUnicode(s);
    UnicodeTogether([34], Escaped(s));
    UnicodeTogether([34] + Escaped(s), [34]);
  }

  lemma {:induction false} UnicodeInValue(v: Json)
    requires WellFormed(v)
    ensures IsUnicode(Stringify(v))
    decreases v, 1, 0
  {
    match v {
      case JString(s) => QuoteIsUnicode(s);
      case JArray(_) =>
        PlainUnitsAreUnicode([91]);
        UnicodeInItems(v, 0);
        UnicodeTogether([91], Items(v, 0));
      case JObject(_) =>
        PlainUnitsAreUnicode([123]);
        UnicodeInEntries(v, 0);
        UnicodeTogether([123], Entries(v, 0));
      case _ => PlainUnitsAreUnicode(Stringify(v));
    }
  }

  lemma {:induction false} UnicodeInItems(v: Json, i: nat)
    requires v.JArray? && WellFormed(v) && i <= |v.items|
    ensures IsUnicode(Items(v, i))
    decreases v, 0, |v.items| - i
  {
    if i == |v.items| {
      PlainUnitsAreUnicode([93]);
    } else {
      PlainUnitsAreUnicode(Comma(i));
      UnicodeInValue(v.items[i]);
      UnicodeInItems(v, i + 1);
      UnicodeTogether(Stringify(v.items[i]), Items(v, i + 1));
      UnicodeTogether(Comma(i), Stringify(v.items[i]) + Items(v, i + 1));
    }
  }

  lemma {:induction false} UnicodeInEntries(v: Json, i: nat)
    requires v.JObject? && WellFormed(v) && i <= |v.entries|
    ensures IsUnicode(Entries(v, i))
    decreases v, 0, |v.entries| - i
  {
    if i == |v.entries| {
      PlainUnitsAreUnicode([125]);
    } else {
      var e, more := v.entries[i], Entries(v, i + 1);
      PlainUnitsAreUnicode(Comma(i));
      PlainUnitsAreUnicode([58]);
      QuoteIsUnicode(e.key);
      UnicodeInValue(e.value);
      UnicodeInEntries(v, i + 1);
      UnicodeTogether(Stringify(e.value), more);
      UnicodeTogether([58], Stringify(e.value) + more);
      UnicodeTogether(Quote(e.key), [58] + (Stringify(e.value) + more));
      UnicodeTogether(Comma(i), Quote(e.key) + ([58] + (Stringify(e.value) + more)));
    }
  }

  // ---------------------------------------------------------------------
  // The one text among those that read alike
  // ---------------------------------------------------------------------

  /** A character that is never escaped; surrogates are treated below. */
  predicate IsPlain(c: CodeUnit) {
    c >= 32 && c != 34 && c != 92 && !IsSurrogate(c)
  }

  predicate IsSurrogate(c: CodeUnit) { 0xD800 <= c < 0xE000 }

  /** Plain characters are copied, a slash, a DEL or an accented letter included. */
  lemma {:induction false} PlainTextIsCopied(s: JsString)
    requires forall i :: 0 <= i < |s| ==> IsPlain(s[i])
    ensures Escaped(s) == s
  {
    if s != [] {
      PlainTextIsCopied(s[1..]);
      assert s == [s[0]] + s[1..];
    }
  }

  /** A surrogate pair is copied; the seven characters with a short escape take it; everything else is `\uXXXX`. */
  lemma EscapesAsSpecified(s: JsString)
    requires s != []
    ensures StartsWithPair(s) ==> PointText(s) == s[..2]
    ensures s[0] == 34 ==> PointText(s) == [92, 34]
    ensures s[0] == 92 ==> PointText(s) == [92, 92]
    ensures s[0] == 8 ==> PointText(s) == [92, 98]
    ensures s[0] == 9 ==> PointText(s) == [92, 116]
    ensures s[0] == 10 ==> PointText(s) == [92, 110]
    ensures s[0] == 12 ==> PointText(s) == [92, 102]
    ensures s[0] == 13 ==> PointText(s) == [92, 114]
    ensures (s[0] < 32 && (s[0] as int) !in {8, 9, 10, 12, 13}) || (IsSurrogate(s[0]) && !StartsWithPair(s)) ==>
      IsLowerCaseEscape(PointText(s))
  {
  }

  /** A backslash, a `u` and four hexadecimal digits in lower case. */
  predicate IsLowerCaseEscape(t: JsString) {
    |t| == 6 && t[0] == 92 && t[1] == 117 && forall i :: 2 <= i < 6 ==> 48 <= t[i] <= 57 || 97 <= t[i] <= 102
  }
}
