/**
 * Canonical JSON for custody-signed requests: recursive key sorting and which
 * values it makes equal (farcaster-audio/services/messagingToken.ts).
 */
module CanonicalJson {
  import opened JsStrings

  /** An object's `entries` are in enumeration order; a number is its decimal rendering. */
  datatype Json =
    | JNull
    | JBool(b: bool)
    | JNumber(text: JsString)
    | JString(s: JsString)
    | JArray(items: seq<Json>)
    | JObject(entries: seq<Entry>)

  datatype Entry = Entry(key: JsString, value: Json)

  predicate IsDigit(c: CodeUnit) { 48 <= c <= 57 }

  predicate IsNumberUnit(c: CodeUnit) {
    IsDigit(c) || c == 45 || c == 43 || c == 46 || c == 69 || c == 101
  }

  /** Where the digits from `i` on end. */
  function DigitsEnd(t: JsString, i: nat): (j: nat)
    requires i <= |t|
    ensures i <= j <= |t|
    decreases |t| - i
  {
    if i < |t| && IsDigit(t[i]) then DigitsEnd(t, i + 1) else i
  }

  /** `int`: one digit, or several that do not start with a zero. `i` where there is none. */
  function IntEnd(t: JsString, i: nat): (j: nat)
    requires i <= |t|
    ensures i <= j <= |t|
  {
    if i < |t| && t[i] == 48 then i + 1 else DigitsEnd(t, i)
  }

  /** `[ frac ]`; `i` again where it is not well formed. */
  function FracEnd(t: JsString, i: nat): (j: nat)
    requires i <= |t|
    ensures i <= j <= |t|
  {
    if i < |t| && t[i] == 46 && DigitsEnd(t, i + 1) > i + 1 then DigitsEnd(t, i + 1) else i
  }

  /** `[ exp ]`. */
  function ExpEnd(t: JsString, i: nat): (j: nat)
    requires i <= |t|
    ensures i <= j <= |t|
  {
    if i < |t| && (t[i] == 69 || t[i] == 101) then
      var sign := if i + 1 < |t| && (t[i+1] == 43 || t[i+1] == 45) then i + 2 else i + 1;
      if DigitsEnd(t, sign) > sign then DigitsEnd(t, sign) else i
    else i
  }

  /** `number` of section 6 of RFC 8259. */
  predicate IsNumberText(t: JsString) {
    t != [] && (IsDigit(t[0]) || t[0] == 45) && (forall i :: 0 <= i < |t| ==> IsNumberUnit(t[i])) &&
    var start := if t[0] == 45 then 1 else 0;
    IntEnd(t, start) > start && ExpEnd(t, FracEnd(t, IntEnd(t, start))) == |t|
  }

  predicate DistinctKeys(entries: seq<Entry>) {
    forall i, j :: 0 <= i < j < |entries| ==> entries[i].key != entries[j].key
  }

  /** Objects at every depth have distinct keys; numbers render as numerals. */
  predicate WellFormed(v: Json) {
    match v
    case JNumber(text) => IsNumberText(text)
    case JArray(items) => forall i :: 0 <= i < |items| ==> WellFormed(items[i])
    case JObject(entries) =>
      DistinctKeys(entries) && forall i :: 0 <= i < |entries| ==> WellFormed(entries[i].value)
    case _ => true
  }

  // ---------------------------------------------------------------------
  // Property order of a JavaScript object
  // ---------------------------------------------------------------------

  /** A canonical array index: enumerated before every other key, in numeric order. */
  predicate IsIndexKey(k: JsString) {
    k != [] && (forall i :: 0 <= i < |k| ==> IsDigit(k[i])) && (k[0] == 48 ==> |k| == 1) &&
    Numeral(k) < 0xFFFF_FFFF
  }

  function Numeral(k: JsString): int {
    if k == [] then 0 else 10 * Numeral(k[..|k|-1]) + (k[|k|-1] as int - 48)
  }

  /** Numeric order of canonical numerals: shorter first, then digit by digit. */
  predicate IndexLess(a: JsString, b: JsString) {
    |a| < |b| || (|a| == |b| && Less(a, b))
  }

  /** The order in which an object built from sorted keys enumerates them. */
  predicate KeyBefore(a: JsString, b: JsString) {
    if IsIndexKey(a) != IsIndexKey(b) then IsIndexKey(a)
    else if IsIndexKey(a) then IndexLess(a, b)
    else Less(a, b)
  }

  function InsertEntry(e: Entry, s: seq<Entry>, before: (JsString, JsString) -> bool): seq<Entry> {
    if s == [] || before(e.key, s[0].key) then [e] + s else [s[0]] + InsertEntry(e, s[1..], before)
  }

  function SortEntries(s: seq<Entry>, before: (JsString, JsString) -> bool): seq<Entry> {
    if s == [] then [] else InsertEntry(s[0], SortEntries(s[1..], before), before)
  }

  function IndexEntries(s: seq<Entry>, wanted: bool): seq<Entry> {
    if s == [] then []
    else if IsIndexKey(s[0].key) == wanted then [s[0]] + IndexEntries(s[1..], wanted)
    else IndexEntries(s[1..], wanted)
  }

  /** `Object.fromEntries`, then enumerated: index keys in numeric order, the rest as inserted. */
  function FromEntries(s: seq<Entry>): seq<Entry> {
    SortEntries(IndexEntries(s, true), IndexLess) + IndexEntries(s, false)
  }

  /** `Object.keys(record).sort()`, paired with values and rebuilt. */
  function SortedObject(s: seq<Entry>): seq<Entry> {
    FromEntries(SortEntries(s, Less))
  }

  /** `sortKeysDeep`. */
  function SortKeysDeep(v: Json): Json {
    match v
    case JArray(items) =>
      JArray(seq(|items|, i requires 0 <= i < |items| => SortKeysDeep(items[i])))
    case JObject(entries) =>
      JObject(SortedObject(
        seq(|entries|, i requires 0 <= i < |entries| => Entry(entries[i].key, SortKeysDeep(entries[i].value)))))
    case _ => v
  }

  // ---------------------------------------------------------------------
  // Orders
  // ---------------------------------------------------------------------

  /** What sorting needs of an order on keys. */
  ghost predicate IsStrictOrder(before: (JsString, JsString) -> bool) {
    (forall a :: !before(a, a)) &&
    (forall a, b :: a == b || before(a, b) || before(b, a)) &&
    (forall a, b, c :: before(a, b) && before(b, c) ==> before(a, c))
  }

  lemma LessIsStrictOrder()
    ensures IsStrictOrder(Less)
  {
    forall a ensures !Less(a, a) { LessIsIrreflexive(a); }
    forall a, b ensures a == b || Less(a, b) || Less(b, a) { LessIsTotal(a, b); }
    forall a, b, c | Less(a, b) && Less(b, c) ensures Less(a, c) { LessIsTransitive(a, b, c); }
  }

  lemma IndexLessIsStrictOrder()
    ensures IsStrictOrder(IndexLess)
  {
    LessIsStrictOrder();
  }

  lemma KeyBeforeIsStrictOrder()
    ensures IsStrictOrder(KeyBefore)
  {
    LessIsStrictOrder();
    IndexLessIsStrictOrder();
  }

  function Pow10(n: nat): nat { if n == 0 then 1 else 10 * Pow10(n - 1) }

  lemma {:induction false} NumeralBounds(k: JsString)
    requires forall i :: 0 <= i < |k| ==> IsDigit(k[i])
    ensures 0 <= Numeral(k) < Pow10(|k|)
    ensures k != [] && k[0] != 48 ==> Numeral(k) >= Pow10(|k| - 1)
  {
    if k != [] {
      NumeralBounds(k[..|k|-1]);
    }
  }

  lemma {:induction false} SameLengthNumerals(a: JsString, b: JsString)
    requires |a| == |b|
    requires forall i :: 0 <= i < |a| ==> IsDigit(a[i]) && IsDigit(b[i])
    ensures Numeral(a) < Numeral(b) <==> Less(a, b)
    ensures Numeral(a) == Numeral(b) <==> a == b
  {
    if a != [] {
      var n := |a| - 1;
      SameLengthNumerals(a[..n], b[..n]);
      NumeralsWithLastDigit(a[..n], b[..n], a[n], b[n]);
      assert a == a[..n] + [a[n]] && b == b[..n] + [b[n]];
    }
  }

  lemma NumeralsWithLastDigit(p: JsString, q: JsString, x: CodeUnit, y: CodeUnit)
    requires |p| == |q| && IsDigit(x) && IsDigit(y)
    requires Numeral(p) < Numeral(q) <==> Less(p, q)
    requires Numeral(p) == Numeral(q) <==> p == q
    ensures Numeral(p + [x]) < Numeral(q + [y]) <==> Less(p + [x], q + [y])
    ensures Numeral(p + [x]) == Numeral(q + [y]) <==> p + [x] == q + [y]
  {
    NumeralOfAppended(p, x);
    NumeralOfAppended(q, y);
    LessOnLastDigit(p, q, x, y);
    EqualOnLastDigit(p, q, x, y);
    DigitsDecide(Numeral(p), Numeral(q), x as int - 48, y as int - 48,
                 Numeral(p + [x]), Numeral(q + [y]), Less(p, q), p == q,
                 Less(p + [x], q + [y]), p + [x] == q + [y]);
  }

  lemma EqualOnLastDigit(p: JsString, q: JsString, x: CodeUnit, y: CodeUnit)
    requires |p| == |q|
    ensures p + [x] == q + [y] <==> p == q && x == y
  {
    assert p == (p + [x])[..|p|] && q == (q + [y])[..|q|];
    assert x == (p + [x])[|p|] && y == (q + [y])[|q|];
  }

  /** The arithmetic of it, with the comparisons of strings as truth values. */
  lemma DigitsDecide(m: int, n: int, x: int, y: int, mx: int, ny: int,
                     less: bool, same: bool, lessNext: bool, sameNext: bool)
    requires 0 <= x < 10 && 0 <= y < 10 && mx == 10 * m + x && ny == 10 * n + y
    requires (m < n <==> less) && (m == n <==> same)
    requires (lessNext <==> less || (same && x < y)) && (sameNext <==> same && x == y)
    ensures (mx < ny <==> lessNext) && (mx == ny <==> sameNext)
  {
  }

  lemma NumeralOfAppended(p: JsString, x: CodeUnit)
    ensures Numeral(p + [x]) == 10 * Numeral(p) + (x as int - 48)
  {
    assert (p + [x])[..|p|] == p;
  }

  lemma {:induction false} LessOnLastDigit(p: JsString, q: JsString, x: CodeUnit, y: CodeUnit)
    requires |p| == |q|
    ensures Less(p + [x], q + [y]) <==> Less(p, q) || (p == q && x < y)
  {
    if p != [] {
      assert (p + [x])[1..] == p[1..] + [x] && (q + [y])[1..] == q[1..] + [y];
      LessOnLastDigit(p[1..], q[1..], x, y);
      assert p == [p[0]] + p[1..] && q == [q[0]] + q[1..];
    }
  }

  lemma {:induction false} Pow10IsMonotone(m: nat, n: nat)
    requires m <= n
    ensures Pow10(m) <= Pow10(n)
    decreases n
  {
    if m < n {
      Pow10IsMonotone(m, n - 1);
    }
  }

  /** On index keys the enumeration order is the numeric order. */
  lemma IndexOrderIsNumeric(a: JsString, b: JsString)
    requires IsIndexKey(a) && IsIndexKey(b)
    ensures IndexLess(a, b) <==> Numeral(a) < Numeral(b)
  {
    NumeralBounds(a);
    NumeralBounds(b);
    if |a| == |b| {
      SameLengthNumerals(a, b);
    } else if |a| < |b| {
      Pow10IsMonotone(|a|, |b| - 1);
    } else {
      Pow10IsMonotone(|b|, |a| - 1);
    }
  }

  // ---------------------------------------------------------------------
  // Sorting entries
  // ---------------------------------------------------------------------

  ghost predicate SortedBy(s: seq<Entry>, before: (JsString, JsString) -> bool) {
    forall i, j :: 0 <= i < j < |s| ==> before(s[i].key, s[j].key)
  }

  ghost predicate SameElements(a: seq<Entry>, b: seq<Entry>) {
    forall e :: e in a <==> e in b
  }

  lemma {:induction false} InsertEntrySorts(e: Entry, s: seq<Entry>, before: (JsString, JsString) -> bool)
    requires IsStrictOrder(before) && SortedBy(s, before)
    requires forall x :: x in s ==> x.key != e.key
    ensures SortedBy(InsertEntry(e, s, before), before)
    ensures forall x :: x in InsertEntry(e, s, before) <==> x == e || x in s
  {
    if !(s == [] || before(e.key, s[0].key)) {
      assert s == [s[0]] + s[1..];
      InsertEntrySorts(e, s[1..], before);
      var rest := InsertEntry(e, s[1..], before);
      forall j | 0 <= j < |rest| ensures before(s[0].key, rest[j].key) {
        assert rest[j] in rest;
      }
    }
  }

  lemma {:induction false} SortEntriesSorts(s: seq<Entry>, before: (JsString, JsString) -> bool)
    requires IsStrictOrder(before) && DistinctKeys(s)
    ensures SortedBy(SortEntries(s, before), before)
    ensures SameElements(SortEntries(s, before), s)
  {
    if s != [] {
      assert s == [s[0]] + s[1..];
      SortEntriesSorts(s[1..], before);
      InsertEntrySorts(s[0], SortEntries(s[1..], before), before);
    }
  }

  lemma {:induction false} IndexEntriesAre(s: seq<Entry>, wanted: bool)
    ensures forall e :: e in IndexEntries(s, wanted) <==> e in s && IsIndexKey(e.key) == wanted
  {
    if s != [] {
      IndexEntriesAre(s[1..], wanted);
      assert s == [s[0]] + s[1..];
    }
  }

  lemma {:induction false} IndexEntriesStaySorted(s: seq<Entry>, wanted: bool)
    requires SortedBy(s, Less)
    ensures SortedBy(IndexEntries(s, wanted), Less)
  {
    if s != [] {
      IndexEntriesStaySorted(s[1..], wanted);
      IndexEntriesAre(s[1..], wanted);
      var rest := IndexEntries(s[1..], wanted);
      forall j | 0 <= j < |rest| ensures Less(s[0].key, rest[j].key) {
        assert rest[j] in s[1..];
      }
    }
  }

  lemma SortedMeansDistinct(s: seq<Entry>)
    requires SortedBy(s, Less)
    ensures DistinctKeys(s)
  {
    forall i, j | 0 <= i < j < |s| ensures s[i].key != s[j].key {
      LessIsIrreflexive(s[i].key);
    }
  }

  /** The rebuilt object has the same entries, enumerated in key order. */
  lemma SortedObjectIsSorted(s: seq<Entry>)
    requires DistinctKeys(s)
    ensures SortedBy(SortedObject(s), KeyBefore)
    ensures SameElements(SortedObject(s), s)
  {
    LessIsStrictOrder();
    IndexLessIsStrictOrder();
    SortEntriesSorts(s, Less);
    var sorted := SortEntries(s, Less);
    SortedMeansDistinct(sorted);
    IndexEntriesAre(sorted, true);
    IndexEntriesAre(sorted, false);
    IndexEntriesStaySorted(sorted, true);
    IndexEntriesStaySorted(sorted, false);
    SortedMeansDistinct(IndexEntries(sorted, true));
    SortEntriesSorts(IndexEntries(sorted, true), IndexLess);
    var first, last := SortEntries(IndexEntries(sorted, true), IndexLess), IndexEntries(sorted, false);
    forall i | 0 <= i < |first| ensures IsIndexKey(first[i].key) {
      assert first[i] in first;
    }
    forall i | 0 <= i < |last| ensures !IsIndexKey(last[i].key) {
      assert last[i] in last;
    }
  }

  lemma {:induction false} SortedSequencesAreEqual(a: seq<Entry>, b: seq<Entry>, before: (JsString, JsString) -> bool)
    requires IsStrictOrder(before) && SortedBy(a, before) && SortedBy(b, before)
    requires SameElements(a, b)
    ensures a == b
  {
    assert a != [] ==> a[0] in b;
    assert b != [] ==> b[0] in a;
    if a != [] {
      assert a == [a[0]] + a[1..] && b == [b[0]] + b[1..];
      SameFirstEntry(a, b, before);
      TailElements(a, before);
      TailElements(b, before);
      SortedSequencesAreEqual(a[1..], b[1..], before);
    }
  }

  lemma TailElements(a: seq<Entry>, before: (JsString, JsString) -> bool)
    requires IsStrictOrder(before) && SortedBy(a, before) && a != []
    ensures forall e :: e in a[1..] <==> e in a && e != a[0]
  {
    assert a == [a[0]] + a[1..];
  }

  lemma SameFirstEntry(a: seq<Entry>, b: seq<Entry>, before: (JsString, JsString) -> bool)
    requires IsStrictOrder(before) && SortedBy(a, before) && SortedBy(b, before)
    requires a != [] && b != [] && a[0] in b && b[0] in a
    ensures a[0] == b[0]
  {
    var i :| 0 <= i < |b| && b[i] == a[0];
    var j :| 0 <= j < |a| && a[j] == b[0];
    FirstIsLeast(b, i, before);
    FirstIsLeast(a, j, before);
  }

  lemma FirstIsLeast(s: seq<Entry>, k: nat, before: (JsString, JsString) -> bool)
    requires SortedBy(s, before) && k < |s|
    ensures k == 0 || before(s[0].key, s[k].key)
  {
  }

  /** Two objects rebuild to the same entry list exactly when they have the same entries. */
  lemma SortedObjectsEqualIff(a: seq<Entry>, b: seq<Entry>)
    requires DistinctKeys(a) && DistinctKeys(b)
    ensures SortedObject(a) == SortedObject(b) <==> SameElements(a, b)
  {
    SortedObjectIsSorted(a);
    SortedObjectIsSorted(b);
    KeyBeforeIsStrictOrder();
    if SameElements(a, b) {
      SortedSequencesAreEqual(SortedObject(a), SortedObject(b), KeyBefore);
    }
  }

  // ---------------------------------------------------------------------
  // Equal up to key order
  // ---------------------------------------------------------------------

  /** The values differ at most in the order of object keys, at any depth. */
  ghost predicate SameUpToKeyOrder(a: Json, b: Json)
    decreases a
  {
    match a
    case JArray(items) =>
      b.JArray? && |items| == |b.items| &&
      forall i :: 0 <= i < |items| ==> SameUpToKeyOrder(items[i], b.items[i])
    case JObject(entries) =>
      b.JObject? && SameEntries(entries, b.entries)
    case _ => a == b
  }

  /** Each entry of one has its counterpart in the other. */
  ghost predicate SameEntries(a: seq<Entry>, b: seq<Entry>)
    decreases a, 1
  {
    (forall i :: 0 <= i < |a| ==> HasSame(a[i], b)) && (forall j :: 0 <= j < |b| ==> HasSameIn(a, b[j]))
  }

  ghost predicate SameEntry(x: Entry, y: Entry)
    decreases x, 0
  {
    x.key == y.key && SameUpToKeyOrder(x.value, y.value)
  }

  ghost predicate HasSame(x: Entry, b: seq<Entry>)
    decreases x, 1
  {
    exists j :: 0 <= j < |b| && SameEntry(x, b[j])
  }

  ghost predicate HasSameIn(a: seq<Entry>, y: Entry)
    decreases a, 0
  {
    exists i :: 0 <= i < |a| && SameEntry(a[i], y)
  }

  function Deep(entries: seq<Entry>): (r: seq<Entry>)
    ensures |r| == |entries|
    ensures forall i :: 0 <= i < |r| ==> r[i] == Entry(entries[i].key, SortKeysDeep(entries[i].value))
  {
    seq(|entries|, i requires 0 <= i < |entries| => Entry(entries[i].key, SortKeysDeep(entries[i].value)))
  }

  lemma SortOfObject(entries: seq<Entry>)
    ensures SortKeysDeep(JObject(entries)) == JObject(SortedObject(Deep(entries)))
  {
    assert Deep(entries) ==
      seq(|entries|, i requires 0 <= i < |entries| => Entry(entries[i].key, SortKeysDeep(entries[i].value)));
  }

  ghost predicate Alike(x: Entry, y: Entry) {
    x.key == y.key && SortKeysDeep(x.value) == SortKeysDeep(y.value)
  }

  /** Some entry of `b` has the key of `x` and a value that sorts like its value. */
  ghost predicate HasAlike(x: Entry, b: seq<Entry>) {
    exists j :: 0 <= j < |b| && Alike(x, b[j])
  }

  lemma AlikeMeansSame(a: seq<Entry>, b: seq<Entry>)
    requires forall i, j :: 0 <= i < |a| && 0 <= j < |b| ==> (Alike(a[i], b[j]) <==> SameEntry(a[i], b[j]))
    ensures forall i :: 0 <= i < |a| ==> (HasAlike(a[i], b) <==> HasSame(a[i], b))
    ensures forall j :: 0 <= j < |b| ==> (HasAlike(b[j], a) <==> HasSameIn(a, b[j]))
  {
    forall i | 0 <= i < |a| ensures HasAlike(a[i], b) <==> HasSame(a[i], b) {
      if HasAlike(a[i], b) {
        var j :| 0 <= j < |b| && Alike(a[i], b[j]);
        assert SameEntry(a[i], b[j]);
      }
      if HasSame(a[i], b) {
        var j :| 0 <= j < |b| && SameEntry(a[i], b[j]);
        assert Alike(a[i], b[j]);
      }
    }
    forall j | 0 <= j < |b| ensures HasAlike(b[j], a) <==> HasSameIn(a, b[j]) {
      if HasAlike(b[j], a) {
        var i :| 0 <= i < |a| && Alike(b[j], a[i]);
        assert Alike(a[i], b[j]) && SameEntry(a[i], b[j]);
      }
      if HasSameIn(a, b[j]) {
        var i :| 0 <= i < |a| && SameEntry(a[i], b[j]);
        assert Alike(a[i], b[j]) && Alike(b[j], a[i]);
      }
    }
  }

  lemma DeepContains(x: Entry, b: seq<Entry>)
    ensures Entry(x.key, SortKeysDeep(x.value)) in Deep(b) <==> HasAlike(x, b)
  {
    var y := Deep(b);
    if Entry(x.key, SortKeysDeep(x.value)) in y {
      var j :| 0 <= j < |y| && y[j] == Entry(x.key, SortKeysDeep(x.value));
      assert Alike(x, b[j]);
    }
    if HasAlike(x, b) {
      var j :| 0 <= j < |b| && Alike(x, b[j]);
      assert y[j] in y;
    }
  }

  lemma DeepElementsMatch(a: seq<Entry>, b: seq<Entry>)
    ensures SameElements(Deep(a), Deep(b)) <==>
      (forall i :: 0 <= i < |a| ==> HasAlike(a[i], b)) && (forall j :: 0 <= j < |b| ==> HasAlike(b[j], a))
  {
    var x, y := Deep(a), Deep(b);
    forall i | 0 <= i < |a| ensures x[i] in y <==> HasAlike(a[i], b) {
      DeepContains(a[i], b);
    }
    forall j | 0 <= j < |b| ensures y[j] in x <==> HasAlike(b[j], a) {
      DeepContains(b[j], a);
    }
    if SameElements(x, y) {
      assert forall i :: 0 <= i < |a| ==> x[i] in y;
      assert forall j :: 0 <= j < |b| ==> y[j] in x;
    }
  }

  /**
   * Sorting forgets the key order and nothing else: two values sort to the
   * same value exactly when they differ at most in key order.
   */
  lemma {:induction false} SortsEqualIffSame(a: Json, b: Json)
    requires WellFormed(a) && WellFormed(b)
    ensures SortKeysDeep(a) == SortKeysDeep(b) <==> SameUpToKeyOrder(a, b)
    decreases a
  {
    if a.JArray? && b.JArray? && |a.items| == |b.items| {
      forall i | 0 <= i < |a.items|
        ensures SortKeysDeep(a.items[i]) == SortKeysDeep(b.items[i]) <==> SameUpToKeyOrder(a.items[i], b.items[i])
      {
        SortsEqualIffSame(a.items[i], b.items[i]);
      }
      ArraysSortEqualIff(a.items, b.items);
      assert a == JArray(a.items) && b == JArray(b.items);
    } else if a.JObject? && b.JObject? {
      forall i, j | 0 <= i < |a.entries| && 0 <= j < |b.entries|
        ensures SortKeysDeep(a.entries[i].value) == SortKeysDeep(b.entries[j].value) <==>
          SameUpToKeyOrder(a.entries[i].value, b.entries[j].value)
      {
        SortsEqualIffSame(a.entries[i].value, b.entries[j].value);
      }
      ObjectsSortEqualIff(a.entries, b.entries);
      assert a == JObject(a.entries) && b == JObject(b.entries);
    } else if a.JArray? && b.JArray? {
      assert |SortKeysDeep(a).items| != |SortKeysDeep(b).items|;
    }
  }

  lemma ArraysSortEqualIff(a: seq<Json>, b: seq<Json>)
    requires |a| == |b|
    requires forall i :: 0 <= i < |a| ==>
      (SortKeysDeep(a[i]) == SortKeysDeep(b[i]) <==> SameUpToKeyOrder(a[i], b[i]))
    ensures SortKeysDeep(JArray(a)) == SortKeysDeep(JArray(b)) <==> SameUpToKeyOrder(JArray(a), JArray(b))
  {
    var x, y := SortKeysDeep(JArray(a)).items, SortKeysDeep(JArray(b)).items;
    assert |x| == |y| == |a|;
    assert forall i :: 0 <= i < |x| ==> x[i] == SortKeysDeep(a[i]) && y[i] == SortKeysDeep(b[i]);
  }

  lemma ObjectsSortEqualIffAlike(a: seq<Entry>, b: seq<Entry>)
    requires DistinctKeys(a) && DistinctKeys(b)
    ensures SortKeysDeep(JObject(a)) == SortKeysDeep(JObject(b)) <==>
      (forall i :: 0 <= i < |a| ==> HasAlike(a[i], b)) && (forall j :: 0 <= j < |b| ==> HasAlike(b[j], a))
  {
    SortOfObject(a);
    SortOfObject(b);
    SortedObjectsEqualIff(Deep(a), Deep(b));
    DeepElementsMatch(a, b);
  }

  lemma ObjectsSortEqualIff(a: seq<Entry>, b: seq<Entry>)
    requires DistinctKeys(a) && DistinctKeys(b)
    requires forall i, j :: 0 <= i < |a| && 0 <= j < |b| ==>
      (SortKeysDeep(a[i].value) == SortKeysDeep(b[j].value) <==> SameUpToKeyOrder(a[i].value, b[j].value))
    ensures SortKeysDeep(JObject(a)) == SortKeysDeep(JObject(b)) <==> SameUpToKeyOrder(JObject(a), JObject(b))
  {
    ObjectsSortEqualIffAlike(a, b);
    forall i, j | 0 <= i < |a| && 0 <= j < |b| ensures Alike(a[i], b[j]) <==> SameEntry(a[i], b[j]) {
      AlikeIsSame(a[i], b[j]);
    }
    AlikeMeansSame(a, b);
    assert SameEntries(a, b) <==> SameUpToKeyOrder(JObject(a), JObject(b));
  }

  lemma AlikeIsSame(x: Entry, y: Entry)
    requires SortKeysDeep(x.value) == SortKeysDeep(y.value) <==> SameUpToKeyOrder(x.value, y.value)
    ensures Alike(x, y) <==> SameEntry(x, y)
  {
  }

  // ---------------------------------------------------------------------
  // Idempotence
  // ---------------------------------------------------------------------

  lemma SortedObjectKeepsDistinct(s: seq<Entry>)
    requires DistinctKeys(s)
    ensures DistinctKeys(SortedObject(s))
  {
    SortedObjectIsSorted(s);
    KeyBeforeIsStrictOrder();
  }

  lemma {:induction false} SortKeepsWellFormed(v: Json)
    requires WellFormed(v)
    ensures WellFormed(SortKeysDeep(v))
    decreases v
  {
    if v.JArray? {
      var r := SortKeysDeep(v).items;
      forall i | 0 <= i < |r| ensures WellFormed(r[i]) {
        SortKeepsWellFormed(v.items[i]);
      }
    } else if v.JObject? {
      SortOfObject(v.entries);
      var deep := Deep(v.entries);
      SortedObjectIsSorted(deep);
      SortedObjectKeepsDistinct(deep);
      var r := SortedObject(deep);
      forall i | 0 <= i < |r| ensures WellFormed(r[i].value) {
        assert r[i] in r;
        var j :| 0 <= j < |deep| && deep[j] == r[i];
        SortKeepsWellFormed(v.entries[j].value);
      }
    }
  }

  /** A value differs from its sorted form at most in key order. */
  lemma {:induction false} SortedIsSame(v: Json)
    requires WellFormed(v)
    ensures SameUpToKeyOrder(v, SortKeysDeep(v))
    decreases v
  {
    if v.JArray? {
      forall i | 0 <= i < |v.items| ensures SameUpToKeyOrder(v.items[i], SortKeysDeep(v).items[i]) {
        SortedIsSame(v.items[i]);
      }
    } else if v.JObject? {
      var a, deep := v.entries, Deep(v.entries);
      SortOfObject(a);
      SortedObjectIsSorted(deep);
      var b := SortedObject(deep);
      forall i | 0 <= i < |a| ensures SameUpToKeyOrder(a[i].value, deep[i].value) {
        SortedIsSame(a[i].value);
      }
      forall i | 0 <= i < |a| ensures HasSame(a[i], b) {
        assert deep[i] in b;
        var j :| 0 <= j < |b| && b[j] == deep[i];
        assert SameEntry(a[i], b[j]);
      }
      forall j | 0 <= j < |b| ensures HasSameIn(a, b[j]) {
        assert b[j] in deep;
        var i :| 0 <= i < |deep| && deep[i] == b[j];
        assert SameEntry(a[i], b[j]);
      }
    }
  }

  /** Sorting twice changes nothing. */
  lemma SortingIsIdempotent(v: Json)
    requires WellFormed(v)
    ensures SortKeysDeep(SortKeysDeep(v)) == SortKeysDeep(v)
  {
    SortKeepsWellFormed(v);
    SortedIsSame(v);
    SortsEqualIffSame(v, SortKeysDeep(v));
  }

  /** Objects at every depth enumerate in key order: numeric keys first, the rest by code unit. */
  ghost predicate IsSorted(v: Json) {
    match v
    case JArray(items) => forall i :: 0 <= i < |items| ==> IsSorted(items[i])
    case JObject(entries) =>
      SortedBy(entries, KeyBefore) && forall i :: 0 <= i < |entries| ==> IsSorted(entries[i].value)
    case _ => true
  }

  lemma {:induction false} SortKeysDeepSorts(v: Json)
    requires WellFormed(v)
    ensures IsSorted(SortKeysDeep(v))
    decreases v
  {
    if v.JArray? {
      var r := SortKeysDeep(v).items;
      forall i | 0 <= i < |r| ensures IsSorted(r[i]) {
        SortKeysDeepSorts(v.items[i]);
      }
    } else if v.JObject? {
      SortOfObject(v.entries);
      var deep := Deep(v.entries);
      SortedObjectIsSorted(deep);
      var r := SortedObject(deep);
      forall i | 0 <= i < |r| ensures IsSorted(r[i].value) {
        assert r[i] in r;
        var j :| 0 <= j < |deep| && deep[j] == r[i];
        SortKeysDeepSorts(v.entries[j].value);
      }
    }
  }

  lemma PositionsFollowKeys(r: seq<Entry>, i: nat, j: nat)
    requires SortedBy(r, KeyBefore) && i < |r| && j < |r| && KeyBefore(r[i].key, r[j].key)
    ensures i < j
  {
    KeyBeforeIsStrictOrder();
  }

  /**
   * The rebuilt object enumerates its keys in code-unit order exactly when no
   * two of them are ordered differently by the object's own enumeration.
   */
  lemma SortedByCodeUnitIff(s: seq<Entry>)
    requires DistinctKeys(s)
    ensures SortedBy(SortedObject(s), Less) <==>
      forall x, y :: x in s && y in s && KeyBefore(x.key, y.key) ==> Less(x.key, y.key)
  {
    var r := SortedObject(s);
    SortedObjectIsSorted(s);
    KeyBeforeIsStrictOrder();
    if SortedBy(r, Less) {
      forall x, y | x in s && y in s && KeyBefore(x.key, y.key)
        ensures Less(x.key, y.key)
      {
        assert x in r && y in r;
        var i :| 0 <= i < |r| && r[i] == x;
        var j :| 0 <= j < |r| && r[j] == y;
        PositionsFollowKeys(r, i, j);
      }
    }
    if forall x, y :: x in s && y in s && KeyBefore(x.key, y.key) ==> Less(x.key, y.key) {
      forall i, j | 0 <= i < j < |r|
        ensures Less(r[i].key, r[j].key)
      {
        assert r[i] in r && r[j] in r;
      }
    }
  }

  /** With keys "10" and "9" it does not: the rebuilt object enumerates "9" first. */
  lemma NumericKeysAreNotLexicographic(x: Json, y: Json)
    ensures var s := [Entry([49, 48], x), Entry([57], y)];
      SortedBy(s, Less) && SortedObject(s) == [Entry([57], y), Entry([49, 48], x)]
  {
    var s := [Entry([49, 48], x), Entry([57], y)];
    assert IsIndexKey([57]) by {
      assert Numeral([57]) == 10 * Numeral([57][..0]) + 9;
    }
    assert IsIndexKey([49, 48]) by {
      assert Numeral([49, 48]) == 10 * Numeral([49, 48][..1]) + 0;
      assert [49, 48][..1] == [49];
      assert Numeral([49]) == 10 * Numeral([49][..0]) + 1;
    }
    var t := [Entry([57], y), Entry([49, 48], x)];
    assert DistinctKeys(s);
    SortedObjectIsSorted(s);
    KeyBeforeIsStrictOrder();
    assert SortedBy(t, KeyBefore);
    assert SameElements(t, s) by {
      assert s[0] == t[1] && s[1] == t[0];
    }
    SortedSequencesAreEqual(SortedObject(s), t, KeyBefore);
  }
}
