/**
 * Which mentions and links a cast's text gives, and which characters trimming
 * takes off a link (farcaster-audio/utils/castTextTokens.ts).
 */
module CastEntities {
  import opened JsStrings
  import opened Options
  import opened StableSorting
  import opened CastTextTokens

  /** `.`, `,`, `!`, `?`, `;` and `:` are punctuation, and nothing else is. */
  lemma PunctuationAsWritten(c: CodeUnit)
    ensures IsPunctuation(c) <==> (c as int) in {'.' as int, ',' as int, '!' as int, '?' as int, ';' as int, ':' as int}
  {
  }

  /** The three pairs of brackets. */
  lemma BracketsAsWritten(close: CodeUnit)
    ensures close as int == ')' as int ==> Opener(close) == Some('(' as int as CodeUnit)
    ensures close as int == ']' as int ==> Opener(close) == Some('[' as int as CodeUnit)
    ensures close as int == '}' as int ==> Opener(close) == Some('{' as int as CodeUnit)
    ensures (close as int) !in {')' as int, ']' as int, '}' as int} ==> Opener(close) == None
  {
  }

  lemma {:induction false} CountOfSnoc(s: JsString, last: CodeUnit, c: CodeUnit)
    ensures Count(s + [last], c) == Count(s, c) + if last == c then 1 else 0
  {
    assert (s + [last])[..|s|] == s;
  }

  /** A link that closes as many brackets as it opens keeps its last one. */
  lemma MatchedCloserStays(s: JsString, open: CodeUnit, close: CodeUnit)
    requires s != [] && s[|s|-1] == close && Opener(close) == Some(open) && Count(s, close) <= Count(s, open)
    ensures Trimmed(s) == s
  {
    TrimmedWholeIff(s);
  }

  /** One closing bracket too many at the end of a link is taken off, whatever kind it is. */
  lemma ExtraCloserGoes(s: JsString, open: CodeUnit, close: CodeUnit)
    requires Opener(close) == Some(open) && Count(s, close) == Count(s, open)
    requires !EndsInPunctuation(s) && !EndsUnbalanced(s)
    ensures Trimmed(s + [close]) == s
  {
    var t := s + [close];
    CountOfSnoc(s, close, close);
    CountOfSnoc(s, close, open);
    assert t[..|t|-1] == s;
    assert t[|t|-1] == close && Count(t, close) > Count(t, open);
    assert WithoutPunctuation(t) == t && EndsUnbalanced(t);
    assert WithoutClosers(t) == WithoutClosers(s) == s;
  }

  /** Punctuation at the end of a link is taken off, however much there is. */
  lemma {:induction false} TrailingPunctuationGoes(s: JsString, tail: JsString)
    requires forall i :: 0 <= i < |tail| ==> IsPunctuation(tail[i])
    requires !EndsInPunctuation(s) && !EndsUnbalanced(s)
    ensures Trimmed(s + tail) == s
  {
    if tail == [] {
      assert s + tail == s;
      TrimmedWholeIff(s);
    } else {
      TrailingPunctuationGoes(s, tail[..|tail|-1]);
      assert (s + tail)[..|s + tail|-1] == s + tail[..|tail|-1];
    }
  }

  // ---------------------------------------------------------------------
  // The entities collected
  // ---------------------------------------------------------------------

  /** A mention is a match of the first pattern; its name is the match without its first character. */
  predicate IsMentionIn(text: JsString, matches: seq<Range>, e: Entity) {
    exists m | m in matches :: IsMatch(text, m) &&
      e.start == m.start && e.end == m.end && e.segment == Mention(text[m.start..m.end], text[m.start + 1..m.end])
  }

  /** A link is what trimming leaves of a match, if anything, standing at a safe boundary and with an address. */
  predicate IsLinkIn(text: JsString, matches: seq<Range>, hasSafeBoundary: (nat, nat) -> bool,
                     safeHref: JsString -> Option<JsString>, e: Entity) {
    exists m | m in matches :: IsMatch(text, m) &&
      var value := Trimmed(text[m.start..m.end]);
      value != [] && e.start == m.start && e.end == m.start + |value| && hasSafeBoundary(e.start, e.end) &&
      safeHref(value).Some? && e.segment == Url(value, safeHref(value).value)
  }

  lemma MentionsAre(text: JsString, matches: seq<Range>, e: Entity)
    requires AreMatches(text, matches)
    ensures e in Mentions(text, matches) <==> IsMentionIn(text, matches, e)
  {
    var all := Mentions(text, matches);
    if e in all {
      var i :| 0 <= i < |all| && all[i] == e;
      assert matches[i] in matches && IsMatch(text, matches[i]);
      assert text[matches[i].start..matches[i].end][1..] == text[matches[i].start + 1..matches[i].end];
    }
    if IsMentionIn(text, matches, e) {
      var m :| m in matches && IsMatch(text, m) && e.start == m.start && e.end == m.end &&
        e.segment == Mention(text[m.start..m.end], text[m.start + 1..m.end]);
      var i :| 0 <= i < |matches| && matches[i] == m;
      assert text[m.start..m.end][1..] == text[m.start + 1..m.end];
      assert all[i] == e;
    }
  }

  lemma LinkOfMatch(text: JsString, m: Range, hasSafeBoundary: (nat, nat) -> bool,
                    safeHref: JsString -> Option<JsString>, e: Entity)
    requires IsMatch(text, m)
    ensures UrlOf(text, m, hasSafeBoundary, safeHref) == Some(e) <==>
      IsLinkIn(text, [m], hasSafeBoundary, safeHref, e)
  {
    assert m in [m];
  }

  lemma {:induction false} LinksAre(text: JsString, matches: seq<Range>, n: nat, hasSafeBoundary: (nat, nat) -> bool,
                                    safeHref: JsString -> Option<JsString>, e: Entity)
    requires AreMatches(text, matches) && n <= |matches|
    ensures e in Urls(text, matches, n, hasSafeBoundary, safeHref) <==>
      IsLinkIn(text, matches[..n], hasSafeBoundary, safeHref, e)
  {
    if n > 0 {
      LinksAre(text, matches, n - 1, hasSafeBoundary, safeHref, e);
      assert matches[..n] == matches[..n-1] + [matches[n-1]];
      assert IsMatch(text, matches[n-1]);
      LinkOfMatch(text, matches[n-1], hasSafeBoundary, safeHref, e);
      NextUrl(text, matches, n - 1, hasSafeBoundary, safeHref);
    }
  }

  /** The collected entities are exactly the mentions and the links of the text. */
  lemma CollectedIff(text: JsString, mentionMatches: seq<Range>, urlMatches: seq<Range>,
                     hasSafeBoundary: (nat, nat) -> bool, safeHref: JsString -> Option<JsString>, e: Entity)
    requires AreMatches(text, mentionMatches) && AreMatches(text, urlMatches)
    ensures e in Collected(text, mentionMatches, urlMatches, hasSafeBoundary, safeHref) <==>
      IsMentionIn(text, mentionMatches, e) || IsLinkIn(text, urlMatches, hasSafeBoundary, safeHref, e)
  {
    var mentions := Mentions(text, mentionMatches);
    var urls := Urls(text, urlMatches, |urlMatches|, hasSafeBoundary, safeHref);
    EarlierIsConsistent();
    StableSortIsStable(mentions + urls, Earlier);
    MentionsAre(text, mentionMatches, e);
    LinksAre(text, urlMatches, |urlMatches|, hasSafeBoundary, safeHref, e);
    assert urlMatches[..|urlMatches|] == urlMatches;
    var sorted := StableSort(mentions + urls, Earlier);
    assert e in sorted <==> e in multiset(sorted);
    assert e in mentions + urls <==> e in multiset(mentions + urls);
  }
}
