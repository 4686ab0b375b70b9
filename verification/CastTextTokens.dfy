/**
 * Tokenizing cast text (farcaster-audio/utils/castTextTokens.ts). What the two
 * regular expressions match, the boundary test and the URL parser are parameters.
 */
module CastTextTokens {
  import opened JsStrings
  import opened Options
  import opened StableSorting

  datatype Segment =
    | Text(value: JsString)
    | Mention(value: JsString, username: JsString)
    | Url(value: JsString, href: JsString)

  datatype Entity = Entity(start: nat, end: nat, segment: Segment)

  // ---------------------------------------------------------------------
  // trimTrailingProsePunctuation
  // ---------------------------------------------------------------------

  /** `. , ! ? ; :` */
  predicate IsPunctuation(c: CodeUnit) {
    c == 46 || c == 44 || c == 33 || c == 63 || c == 59 || c == 58
  }

  /** The opening partner of `)`, `]` or `}`. */
  function Opener(close: CodeUnit): Option<CodeUnit> {
    if close == 41 then Some(40) else if close == 93 then Some(91) else if close == 125 then Some(123) else None
  }

  function Count(s: JsString, c: CodeUnit): nat {
    if s == [] then 0 else Count(s[..|s| - 1], c) + if s[|s| - 1] == c then 1 else 0
  }

  predicate EndsInPunctuation(s: JsString) {
    s != [] && IsPunctuation(s[|s| - 1])
  }

  /** The last character closes a bracket and there are more of its kind than openers. */
  predicate EndsUnbalanced(s: JsString) {
    s != [] && Opener(s[|s| - 1]).Some? && Count(s, s[|s| - 1]) > Count(s, Opener(s[|s| - 1]).value)
  }

  function WithoutPunctuation(s: JsString): (r: JsString)
    ensures |r| <= |s|
  {
    if EndsInPunctuation(s) then WithoutPunctuation(s[..|s| - 1]) else s
  }

  function WithoutClosers(s: JsString): (r: JsString)
    ensures |r| <= |s|
  {
    if EndsUnbalanced(s) then WithoutClosers(s[..|s| - 1]) else s
  }

  lemma {:induction false} PunctuationRemoved(s: JsString)
    ensures WithoutPunctuation(s) <= s && !EndsInPunctuation(WithoutPunctuation(s))
    ensures forall i :: |WithoutPunctuation(s)| <= i < |s| ==> IsPunctuation(s[i])
  {
    if EndsInPunctuation(s) {
      PunctuationRemoved(s[..|s| - 1]);
    }
  }

  lemma {:induction false} ClosersRemoved(s: JsString)
    ensures WithoutClosers(s) <= s && !EndsUnbalanced(WithoutClosers(s))
    ensures forall n :: |WithoutClosers(s)| < n <= |s| ==> EndsUnbalanced(s[..n])
  {
    if EndsUnbalanced(s) {
      var shorter := s[..|s| - 1];
      ClosersRemoved(shorter);
      assert forall n :: 0 <= n <= |shorter| ==> shorter[..n] == s[..n];
      assert s[..|s|] == s;
    }
  }

  /** The longest prefix that ends neither in punctuation nor, after that, in an unmatched closer. */
  function Trimmed(s: JsString): JsString {
    WithoutClosers(WithoutPunctuation(s))
  }

  /** `trimTrailingProsePunctuation`. */
  method TrimTrailingProsePunctuation(candidate: JsString) returns (value: JsString)
    ensures value == Trimmed(candidate)
  {
    value := candidate;
    while value != [] && IsPunctuation(value[|value| - 1])
      invariant WithoutPunctuation(value) == WithoutPunctuation(candidate)
      decreases |value|
    {
      value := value[..|value| - 1];
    }
    var removed := true;
    while removed
      invariant WithoutClosers(value) == Trimmed(candidate)
      invariant !removed ==> !EndsUnbalanced(value)
      decreases |value|, removed
    {
      removed := false;
      var pairs: seq<(CodeUnit, CodeUnit)> := [(40, 41), (91, 93), (123, 125)];
      ghost var before := value;
      for i := 0 to |pairs|
        invariant !removed && value == before
        invariant forall k :: 0 <= k < i ==>
          !(before != [] && before[|before| - 1] == pairs[k].1 && Count(before, pairs[k].1) > Count(before, pairs[k].0))
      {
        var (open, close) := pairs[i];
        if value == [] || value[|value| - 1] != close {
          continue;
        }
        if Count(value, close) > Count(value, open) {
          value := value[..|value| - 1];
          removed := true;
          break;
        }
      }
      if !removed {
        assert pairs[0] == (40, 41) && pairs[1] == (91, 93) && pairs[2] == (123, 125);
      }
    }
  }

  /** A candidate is taken whole exactly when it ends in neither kind of character. */
  lemma TrimmedWholeIff(s: JsString)
    ensures Trimmed(s) == s <==> !EndsInPunctuation(s) && !EndsUnbalanced(s)
  {
    PunctuationRemoved(s);
    ClosersRemoved(s);
    assert |Trimmed(s)| <= |WithoutPunctuation(s)| <= |s|;
  }

  /**
   * The result is a prefix not ending in an unmatched closer; beyond it come unmatched closers,
   * and beyond those only punctuation.
   */
  lemma TrimmedIsPrefix(s: JsString)
    ensures Trimmed(s) <= WithoutPunctuation(s) <= s
    ensures !EndsUnbalanced(Trimmed(s))
    ensures forall n :: |Trimmed(s)| < n <= |WithoutPunctuation(s)| ==> EndsUnbalanced(s[..n])
    ensures forall i :: |WithoutPunctuation(s)| <= i < |s| ==> IsPunctuation(s[i])
  {
    var stripped := WithoutPunctuation(s);
    PunctuationRemoved(s);
    ClosersRemoved(stripped);
    forall n | |Trimmed(s)| < n <= |stripped|
      ensures EndsUnbalanced(s[..n])
    {
      assert stripped[..n] == s[..n];
    }
  }

  /** Punctuation at `n - 1` with nothing but unmatched closers from there to the end. */
  predicate BaresPunctuation(w: JsString, n: nat) {
    0 < n < |w| && IsPunctuation(w[n - 1]) && forall k :: n < k <= |w| ==> EndsUnbalanced(w[..k])
  }

  lemma BaredPunctuationIsWhereTrimmingStops(w: JsString, n: nat)
    requires BaresPunctuation(w, n)
    ensures WithoutClosers(w) == w[..n]
  {
    ClosersRemoved(w);
    var stop := |WithoutClosers(w)|;
    assert !EndsUnbalanced(w[..n]) by {
      assert w[..n][n - 1] == w[n - 1];
    }
    assert WithoutClosers(w) == w[..stop];
  }

  /**
   * Trimming again finds more to trim exactly when, once the trailing
   * punctuation is gone, the text ends in unmatched closers right after
   * punctuation: the first loop is not run again after the second.
   */
  lemma TrimmingTwiceIff(s: JsString)
    ensures Trimmed(Trimmed(s)) != Trimmed(s) <==> exists n :: BaresPunctuation(WithoutPunctuation(s), n)
  {
    var w := WithoutPunctuation(s);
    TrimmedIsPrefix(s);
    TrimmedWholeIff(Trimmed(s));
    PunctuationRemoved(s);
    ClosersRemoved(w);
    if EndsInPunctuation(Trimmed(s)) {
      assert BaresPunctuation(w, |Trimmed(s)|);
    }
    forall n | BaresPunctuation(w, n)
      ensures EndsInPunctuation(Trimmed(s))
    {
      BaredPunctuationIsWhereTrimmingStops(w, n);
    }
  }

  /** `a.)` keeps its full stop. */
  lemma BaredPunctuationStays(s: JsString)
    requires s == [97, 46, 41]
    ensures Trimmed(s) == s[..2] && EndsInPunctuation(s[..2])
  {
    assert WithoutPunctuation(s) == s;
    assert s[..2][..1][..0] == [];
    assert Count(s[..2][..1], 41) == 0 && Count(s[..2], 41) == 0;
    assert Count(s[..2][..1], 40) == 0 && Count(s[..2], 40) == 0;
    assert EndsUnbalanced(s);
    assert !EndsUnbalanced(s[..2]);
    assert WithoutClosers(s) == WithoutClosers(s[..2]);
  }

  // ---------------------------------------------------------------------
  // collectEntities
  // ---------------------------------------------------------------------

  /** One match of a pattern: a non-empty range of the text. */
  datatype Range = Range(start: nat, end: nat)

  predicate IsMatch(text: JsString, m: Range) {
    m.start < m.end <= |text|
  }

  predicate AreMatches(text: JsString, ms: seq<Range>) {
    forall i :: 0 <= i < |ms| ==> IsMatch(text, ms[i])
  }

  function MentionOf(text: JsString, m: Range): Entity
    requires IsMatch(text, m)
  {
    var value := text[m.start..m.end];
    Entity(m.start, m.end, Mention(value, value[1..]))
  }

  /** The URL entity a match gives, if its trimmed text stands at a safe boundary and parses. */
  function UrlOf(text: JsString, m: Range, hasSafeBoundary: (nat, nat) -> bool,
                 safeHref: JsString -> Option<JsString>): Option<Entity>
    requires IsMatch(text, m)
  {
    var value := Trimmed(text[m.start..m.end]);
    var end := m.start + |value|;
    if value == [] || !hasSafeBoundary(m.start, end) || safeHref(value).None? then None
    else Some(Entity(m.start, end, Url(value, safeHref(value).value)))
  }

  function Mentions(text: JsString, ms: seq<Range>): seq<Entity>
    requires AreMatches(text, ms)
  {
    seq(|ms|, i requires 0 <= i < |ms| => MentionOf(text, ms[i]))
  }

  /** What the first `n` URL matches give. */
  function Urls(text: JsString, ms: seq<Range>, n: nat, hasSafeBoundary: (nat, nat) -> bool,
                safeHref: JsString -> Option<JsString>): seq<Entity>
    requires AreMatches(text, ms) && n <= |ms|
  {
    if n == 0 then [] else
      var last := UrlOf(text, ms[n - 1], hasSafeBoundary, safeHref);
      Urls(text, ms, n - 1, hasSafeBoundary, safeHref) + if last.Some? then [last.value] else []
  }

  /** Earlier start first; at one start, the longest first. */
  predicate Earlier(a: Entity, b: Entity) {
    a.start < b.start || (a.start == b.start && a.end > b.end)
  }

  lemma EarlierIsConsistent()
    ensures IsConsistent(Earlier)
  {
  }

  /** An entity spells out its own range. */
  predicate IsEntityOf(text: JsString, e: Entity) {
    e.start < e.end <= |text| && e.segment.value == text[e.start..e.end] && !e.segment.Text?
  }

  predicate AreEntities(text: JsString, es: seq<Entity>) {
    forall i :: 0 <= i < |es| ==> IsEntityOf(text, es[i])
  }

  /** Mentions and URLs together, in (start, longest) order. */
  function Collected(text: JsString, mentionMatches: seq<Range>, urlMatches: seq<Range>,
                     hasSafeBoundary: (nat, nat) -> bool, safeHref: JsString -> Option<JsString>): seq<Entity>
    requires AreMatches(text, mentionMatches) && AreMatches(text, urlMatches)
  {
    StableSort(Mentions(text, mentionMatches) + Urls(text, urlMatches, |urlMatches|, hasSafeBoundary, safeHref), Earlier)
  }

  /** The first loop of `collectEntities`. */
  method CollectMentions(text: JsString, ms: seq<Range>) returns (entities: seq<Entity>)
    requires AreMatches(text, ms)
    ensures entities == Mentions(text, ms)
  {
    entities := [];
    for i := 0 to |ms|
      invariant entities == Mentions(text, ms[..i])
    {
      entities := entities + [MentionOf(text, ms[i])];
    }
    assert ms[..|ms|] == ms;
  }

  /** One turn of the second loop: `None` where the code goes on to the next match. */
  method UrlEntity(text: JsString, m: Range, hasSafeBoundary: (nat, nat) -> bool,
                   safeHref: JsString -> Option<JsString>)
    returns (entity: Option<Entity>)
    requires IsMatch(text, m)
    ensures entity == UrlOf(text, m, hasSafeBoundary, safeHref)
  {
    var value := TrimTrailingProsePunctuation(text[m.start..m.end]);
    if value == [] {
      return None;
    }
    var end := m.start + |value|;
    if !hasSafeBoundary(m.start, end) {
      return None;
    }
    var href := safeHref(value);
    if href.None? {
      return None;
    }
    return Some(Entity(m.start, end, Url(value, href.value)));
  }

  /** The second loop. */
  method CollectUrls(text: JsString, ms: seq<Range>, hasSafeBoundary: (nat, nat) -> bool,
                     safeHref: JsString -> Option<JsString>)
    returns (entities: seq<Entity>)
    requires AreMatches(text, ms)
    ensures entities == Urls(text, ms, |ms|, hasSafeBoundary, safeHref)
  {
    entities := [];
    for i := 0 to |ms|
      invariant entities == Urls(text, ms, i, hasSafeBoundary, safeHref)
    {
      assert IsMatch(text, ms[i]);
      NextUrl(text, ms, i, hasSafeBoundary, safeHref);
      var entity := UrlEntity(text, ms[i], hasSafeBoundary, safeHref);
      if entity.Some? {
        entities := entities + [entity.value];
      }
    }
  }

  /** `collectEntities`: mentions, then URLs, then the sort. */
  method CollectEntities(text: JsString, mentionMatches: seq<Range>, urlMatches: seq<Range>,
                         hasSafeBoundary: (nat, nat) -> bool, safeHref: JsString -> Option<JsString>)
    returns (entities: seq<Entity>)
    requires AreMatches(text, mentionMatches) && AreMatches(text, urlMatches)
    ensures AreEntities(text, entities) && IsSorted(entities, Earlier)
    ensures entities == Collected(text, mentionMatches, urlMatches, hasSafeBoundary, safeHref)
  {
    var mentions := CollectMentions(text, mentionMatches);
    var urls := CollectUrls(text, urlMatches, hasSafeBoundary, safeHref);
    entities := StableSort(mentions + urls, Earlier);
    CollectedAreOrdered(text, mentionMatches, urlMatches, hasSafeBoundary, safeHref);
  }

  lemma CollectedAreOrdered(text: JsString, mentionMatches: seq<Range>, urlMatches: seq<Range>,
                            hasSafeBoundary: (nat, nat) -> bool, safeHref: JsString -> Option<JsString>)
    requires AreMatches(text, mentionMatches) && AreMatches(text, urlMatches)
    ensures var es := Collected(text, mentionMatches, urlMatches, hasSafeBoundary, safeHref);
      AreEntities(text, es) && IsSorted(es, Earlier)
  {
    MatchesGiveEntities(text, mentionMatches, urlMatches, hasSafeBoundary, safeHref);
    SortedEntities(text, Mentions(text, mentionMatches)
                   + Urls(text, urlMatches, |urlMatches|, hasSafeBoundary, safeHref));
  }

  lemma NextUrl(text: JsString, ms: seq<Range>, n: nat, hasSafeBoundary: (nat, nat) -> bool,
                safeHref: JsString -> Option<JsString>)
    requires AreMatches(text, ms) && n < |ms|
    ensures var e := UrlOf(text, ms[n], hasSafeBoundary, safeHref);
      var before, after := Urls(text, ms, n, hasSafeBoundary, safeHref), Urls(text, ms, n + 1, hasSafeBoundary, safeHref);
      (e.None? ==> after == before) && (e.Some? ==> after == before + [e.value])
  {
  }

  lemma {:induction false} UrlsAreEntities(text: JsString, ms: seq<Range>, n: nat,
                                           hasSafeBoundary: (nat, nat) -> bool,
                                           safeHref: JsString -> Option<JsString>)
    requires AreMatches(text, ms) && n <= |ms|
    ensures AreEntities(text, Urls(text, ms, n, hasSafeBoundary, safeHref))
  {
    if n > 0 {
      var m := ms[n - 1];
      UrlsAreEntities(text, ms, n - 1, hasSafeBoundary, safeHref);
      assert IsMatch(text, m);
      var value := Trimmed(text[m.start..m.end]);
      TrimmedIsPrefix(text[m.start..m.end]);
      assert value == text[m.start..m.end][..|value|] == text[m.start..m.start + |value|];
    }
  }

  lemma MatchesGiveEntities(text: JsString, mentionMatches: seq<Range>, urlMatches: seq<Range>,
                            hasSafeBoundary: (nat, nat) -> bool, safeHref: JsString -> Option<JsString>)
    requires AreMatches(text, mentionMatches) && AreMatches(text, urlMatches)
    ensures AreEntities(text, Mentions(text, mentionMatches)
                        + Urls(text, urlMatches, |urlMatches|, hasSafeBoundary, safeHref))
  {
    UrlsAreEntities(text, urlMatches, |urlMatches|, hasSafeBoundary, safeHref);
    forall i | 0 <= i < |mentionMatches|
      ensures IsEntityOf(text, MentionOf(text, mentionMatches[i]))
    {
      assert IsMatch(text, mentionMatches[i]);
    }
  }

  lemma SortedEntities(text: JsString, es: seq<Entity>)
    requires AreEntities(text, es)
    ensures AreEntities(text, StableSort(es, Earlier)) && IsSorted(StableSort(es, Earlier), Earlier)
  {
    EarlierIsConsistent();
    StableSortIsStable(es, Earlier);
    var sorted := StableSort(es, Earlier);
    forall i | 0 <= i < |sorted|
      ensures IsEntityOf(text, sorted[i])
    {
      assert sorted[i] in multiset(sorted);
      assert sorted[i] in es;
    }
  }

  // ---------------------------------------------------------------------
  // tokenizeCastText
  // ---------------------------------------------------------------------

  /** The cursor before entity `i`: the end of the last one chosen. */
  function CursorAt(es: seq<Entity>, i: nat): nat
    requires i <= |es|
    decreases i, 0
  {
    if i == 0 then 0 else if IsChosen(es, i - 1) then es[i - 1].end else CursorAt(es, i - 1)
  }

  predicate IsChosen(es: seq<Entity>, i: nat)
    requires i < |es|
    decreases i, 1
  {
    es[i].start >= CursorAt(es, i)
  }

  /** The segments of the entities chosen among the first `i`. */
  function ChosenSegments(es: seq<Entity>, i: nat): seq<Segment>
    requires i <= |es|
  {
    if i == 0 then []
    else ChosenSegments(es, i - 1) + if IsChosen(es, i - 1) then [es[i - 1].segment] else []
  }

  function Spelled(segments: seq<Segment>): JsString {
    if segments == [] then [] else Spelled(segments[..|segments| - 1]) + segments[|segments| - 1].value
  }

  function NonText(segments: seq<Segment>): seq<Segment> {
    if segments == [] then []
    else
      var last := segments[|segments| - 1];
      NonText(segments[..|segments| - 1]) + if last.Text? then [] else [last]
  }

  predicate NoneEmpty(segments: seq<Segment>) {
    forall i :: 0 <= i < |segments| ==> segments[i].value != []
  }

  ghost predicate NoAdjacentTexts(segments: seq<Segment>) {
    forall i, j :: 0 <= i < j < |segments| && j == i + 1 ==> !(segments[i].Text? && segments[j].Text?)
  }

  /** No segment is empty and no two texts follow one another, from the last segment on down. */
  predicate IsTidy(segments: seq<Segment>) {
    segments == [] ||
    (var front, last := segments[..|segments| - 1], segments[|segments| - 1];
     last.value != [] && !(EndsInText(front) && last.Text?) && IsTidy(front))
  }

  predicate EndsInText(segments: seq<Segment>) {
    segments != [] && segments[|segments| - 1].Text?
  }

  lemma {:induction false} TidyMeans(segments: seq<Segment>)
    requires IsTidy(segments)
    ensures NoneEmpty(segments) && NoAdjacentTexts(segments)
  {
    if segments != [] {
      var front := segments[..|segments| - 1];
      TidyMeans(front);
      forall i, j | 0 <= i < j < |segments| && j == i + 1
        ensures !(segments[i].Text? && segments[j].Text?)
      {
        assert j < |front| ==> front[i] == segments[i] && front[j] == segments[j];
      }
      assert forall i :: 0 <= i < |front| ==> front[i] == segments[i];
    }
  }

  /** The first `i` entities are dealt with and the text up to the cursor is spelled out. */
  ghost predicate IsTokenized(text: JsString, es: seq<Entity>, i: nat, segments: seq<Segment>, cursor: nat)
    requires i <= |es|
  {
    cursor == CursorAt(es, i) && cursor <= |text| &&
    Spelled(segments) == text[..cursor] &&
    NonText(segments) == ChosenSegments(es, i) &&
    IsTidy(segments) && !EndsInText(segments)
  }

  lemma Appended(segments: seq<Segment>, x: Segment)
    ensures Spelled(segments + [x]) == Spelled(segments) + x.value
    ensures NonText(segments + [x]) == NonText(segments) + if x.Text? then [] else [x]
  {
    assert (segments + [x])[..|segments|] == segments;
  }

  lemma AppendedTidily(segments: seq<Segment>, x: Segment)
    requires IsTidy(segments) && x.value != []
    requires !(EndsInText(segments) && x.Text?)
    ensures IsTidy(segments + [x])
  {
    assert (segments + [x])[..|segments|] == segments;
  }

  /** The text between the cursor and a chosen entity, if any, then the entity. */
  function WithEntity(text: JsString, segments: seq<Segment>, cursor: nat, e: Entity): seq<Segment>
    requires cursor <= e.start <= |text|
  {
    (if e.start > cursor then segments + [Text(text[cursor..e.start])] else segments) + [e.segment]
  }

  lemma TakesText(text: JsString, segments: seq<Segment>, cursor: nat, end: nat)
    requires cursor < end <= |text| && Spelled(segments) == text[..cursor] && IsTidy(segments)
    requires !EndsInText(segments)
    ensures var added := segments + [Text(text[cursor..end])];
      Spelled(added) == text[..end] && NonText(added) == NonText(segments) && IsTidy(added)
  {
    Appended(segments, Text(text[cursor..end]));
    AppendedTidily(segments, Text(text[cursor..end]));
    assert text[..end] == text[..cursor] + text[cursor..end];
  }

  lemma SkipsEntity(text: JsString, es: seq<Entity>, i: nat, segments: seq<Segment>, cursor: nat)
    requires i < |es| && IsTokenized(text, es, i, segments, cursor) && es[i].start < cursor
    ensures IsTokenized(text, es, i + 1, segments, cursor)
  {
  }

  lemma TakesEntity(text: JsString, es: seq<Entity>, i: nat, segments: seq<Segment>, cursor: nat)
    requires i < |es| && IsTokenized(text, es, i, segments, cursor)
    requires cursor <= es[i].start && IsEntityOf(text, es[i])
    ensures IsTokenized(text, es, i + 1, WithEntity(text, segments, cursor, es[i]), es[i].end)
  {
    var e := es[i];
    var front := if e.start > cursor then segments + [Text(text[cursor..e.start])] else segments;
    if e.start > cursor {
      TakesText(text, segments, cursor, e.start);
    }
    Appended(front, e.segment);
    AppendedTidily(front, e.segment);
    assert text[..e.end] == text[..e.start] + text[e.start..e.end];
  }

  /** `tokenizeCastText`, given what the two patterns match in the text. */
  method TokenizeCastText(text: JsString, mentionMatches: seq<Range>, urlMatches: seq<Range>,
                          hasSafeBoundary: (nat, nat) -> bool, safeHref: JsString -> Option<JsString>)
    returns (segments: seq<Segment>)
    requires AreMatches(text, mentionMatches) && AreMatches(text, urlMatches)
    ensures Spelled(segments) == text
    ensures NoneEmpty(segments) && NoAdjacentTexts(segments)
    ensures var es := Collected(text, mentionMatches, urlMatches, hasSafeBoundary, safeHref);
      NonText(segments) == ChosenSegments(es, |es|)
  {
    var entities := CollectEntities(text, mentionMatches, urlMatches, hasSafeBoundary, safeHref);
    segments := [];
    var cursor: nat := 0;
    for i := 0 to |entities|
      invariant IsTokenized(text, entities, i, segments, cursor)
    {
      var entity := entities[i];
      assert IsEntityOf(text, entity);
      if entity.start < cursor {
        SkipsEntity(text, entities, i, segments, cursor);
        continue;
      }
      TakesEntity(text, entities, i, segments, cursor);
      ghost var taken := WithEntity(text, segments, cursor, entity);
      if entity.start > cursor {
        segments := segments + [Text(text[cursor..entity.start])];
      }
      segments := segments + [entity.segment];
      assert segments == taken;
      cursor := entity.end;
    }
    if cursor < |text| {
      TakesText(text, segments, cursor, |text|);
      segments := segments + [Text(text[cursor..])];
    }
    TidyMeans(segments);
  }

  /** Ends of chosen entities never run past the cursor, and the cursor is one of them. */
  lemma {:induction false} CursorCoversChosen(text: JsString, es: seq<Entity>, i: nat)
    requires AreEntities(text, es) && i <= |es|
    ensures forall j :: 0 <= j < i && IsChosen(es, j) ==> es[j].end <= CursorAt(es, i)
    ensures CursorAt(es, i) == 0 || exists j :: 0 <= j < i && IsChosen(es, j) && es[j].end == CursorAt(es, i)
  {
    if i > 0 {
      CursorCoversChosen(text, es, i - 1);
      assert IsEntityOf(text, es[i - 1]);
    }
  }

  /** An entity is dropped exactly when one chosen before it, in (start, longest) order, overlaps it. */
  lemma DroppedIffOverlapsChosen(text: JsString, es: seq<Entity>, i: nat)
    requires AreEntities(text, es) && IsSorted(es, Earlier) && i < |es|
    ensures !IsChosen(es, i) <==>
      exists j :: 0 <= j < i && IsChosen(es, j) && es[j].start <= es[i].start < es[j].end
  {
    CursorCoversChosen(text, es, i);
    forall j | 0 <= j < i
      ensures es[j].start <= es[i].start
    {
      assert !Earlier(es[i], es[j]);
    }
    assert IsEntityOf(text, es[i]);
  }

  /** Chosen entities do not overlap, and a chosen one is the longest starting where it does. */
  lemma ChosenAreApartAndLongest(text: JsString, es: seq<Entity>, i: nat, j: nat)
    requires AreEntities(text, es) && IsSorted(es, Earlier) && j < |es| && i < |es| && i != j
    requires IsChosen(es, j)
    ensures IsChosen(es, i) ==> es[i].end <= es[j].start || es[j].end <= es[i].start
    ensures es[i].start == es[j].start ==> es[i].end <= es[j].end
  {
    CursorCoversChosen(text, es, j);
    CursorCoversChosen(text, es, i);
    assert IsEntityOf(text, es[i]) && IsEntityOf(text, es[j]);
    if i < j {
      DroppedIffOverlapsChosen(text, es, i);
      DroppedIffOverlapsChosen(text, es, j);
    } else {
      assert !Earlier(es[i], es[j]);
    }
  }
}
