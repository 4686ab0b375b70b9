/**
 * What redaction keeps: everything outside the recovery phrases comes through,
 * in order, the separator that closes a phrase included
 * (farcaster-audio/utils/sentryScrub.ts).
 */
module ScrubParts {
  import opened JsStrings
  import opened SentryScrub

  /** A stretch of tokens that is kept, or a phrase with the separator after it, if any. */
  datatype Part = Kept(tokens: seq<JsString>) | Phrase(listed: seq<JsString>, closing: seq<JsString>)

  function TokensOf(part: Part): seq<JsString> {
    match part
    case Kept(tokens) => tokens
    case Phrase(listed, closing) => listed + closing
  }

  /** What is shown of a part: "[redacted]" for a phrase, everything else as it is. */
  function ShownPart(part: Part): JsString {
    match part
    case Kept(tokens) => Concat(tokens)
    case Phrase(_, closing) => [91, 114, 101, 100, 97, 99, 116, 101, 100, 93] + Concat(closing)
  }

  function Shown(parts: seq<Part>): JsString {
    if parts == [] then [] else ShownPart(parts[0]) + Shown(parts[1..])
  }

  function CountListed(ts: seq<JsString>, words: set<JsString>): nat {
    if ts == [] then 0 else CountListed(ts[..|ts|-1], words) + if IsListed(ts[|ts|-1], words) then 1 else 0
  }

  /**
   * From a listed word to a listed word, at least six of them, nothing but
   * separators in between; then at most one separator.
   */
  predicate IsPhrase(listed: seq<JsString>, closing: seq<JsString>, words: set<JsString>) {
    listed != [] && IsListed(listed[0], words) && IsListed(listed[|listed|-1], words) &&
    (forall i :: 0 <= i < |listed| ==> IsListed(listed[i], words) || IsRunSeparator(listed[i])) &&
    CountListed(listed, words) >= 6 &&
    |closing| <= 1 && (closing != [] ==> IsRunSeparator(closing[0]))
  }

  /** The tokens cut into parts, each phrase ending where its run ends. */
  predicate AreParts(ts: seq<JsString>, parts: seq<Part>, words: set<JsString>)
    decreases |parts|
  {
    if parts == [] then ts == []
    else
      TokensOf(parts[0]) <= ts && AreParts(ts[|TokensOf(parts[0])|..], parts[1..], words) &&
      (parts[0].Phrase? ==>
        IsPhrase(parts[0].listed, parts[0].closing, words) &&
        var rest := ts[|TokensOf(parts[0])|..];
        rest != [] ==> !IsListed(rest[0], words) && !IsRunSeparator(rest[0]))
  }

  /** Words and other stretches take turns. */
  predicate TakeTurns(ts: seq<JsString>) {
    (forall i :: 0 <= i < |ts| ==> IsPiece(ts[i])) &&
    forall i :: 0 <= i < |ts| - 1 ==> IsWord(ts[i]) != IsWord(ts[i+1])
  }

  lemma {:induction false} TokensTakeTurns(text: JsString)
    ensures TakeTurns(Tokens(text))
  {
    if text != [] {
      var k := StretchLength(text);
      StretchIsMaximal(text);
      TokensTakeTurns(text[k..]);
      TokensArePieces(text[k..]);
      var p, rest := text[..k], Tokens(text[k..]);
      assert Tokens(text) == [p] + rest;
      if rest != [] {
        FirstClass(p);
        FirstClass(rest[0]);
      }
    }
  }

  lemma FirstClass(p: JsString)
    requires IsPiece(p)
    ensures IsWord(p) <==> IsLetter(p[0])
  {
  }

  lemma {:induction false} CountSplits(head: JsString, tail: seq<JsString>, words: set<JsString>)
    ensures CountListed([head] + tail, words) == (if IsListed(head, words) then 1 else 0) + CountListed(tail, words)
  {
    var all := [head] + tail;
    if tail == [] {
      assert all[..|all|-1] == [];
    } else {
      CountSplits(head, tail[..|tail|-1], words);
      assert all[..|all|-1] == [head] + tail[..|tail|-1];
    }
  }

  lemma {:induction false} RunIsCounted(ts: seq<JsString>, words: set<JsString>)
    ensures CountListed(ts[..RunLength(ts, words)], words) == LeadingWords(ts, words)
  {
    if ts != [] && ContinuesRun(ts[0], words) {
      var r := RunLength(ts, words);
      RunIsCounted(ts[1..], words);
      CountSplits(ts[0], ts[1..][..r - 1], words);
      assert ts[..r] == [ts[0]] + ts[1..][..r - 1];
    }
  }

  /** A run whose last token is a word is a phrase by itself. */
  lemma RunWithoutClosing(run: seq<JsString>, words: set<JsString>)
    requires run != [] && IsListed(run[0], words) && IsWord(run[|run|-1])
    requires forall i :: 0 <= i < |run| ==> ContinuesRun(run[i], words)
    requires CountListed(run, words) >= 6
    ensures IsPhrase(run, [], words)
  {
    WordThatContinues(run[|run|-1], words);
  }

  /** Otherwise it is one without its last token. */
  lemma RunWithClosing(run: seq<JsString>, words: set<JsString>)
    requires run != [] && IsListed(run[0], words) && !IsWord(run[|run|-1]) && TakeTurns(run)
    requires forall i :: 0 <= i < |run| ==> ContinuesRun(run[i], words)
    requires CountListed(run, words) >= 6
    ensures IsPhrase(run[..|run|-1], [run[|run|-1]], words)
  {
    var last := |run| - 1;
    assert last > 0 && IsWord(run[last-1]) != IsWord(run[last]);
    WordThatContinues(run[last-1], words);
    assert !IsListed(run[last], words) && ContinuesRun(run[last], words);
  }

  lemma RunContinues(ts: seq<JsString>, words: set<JsString>)
    requires ts != [] && IsListed(ts[0], words)
    ensures var r := RunLength(ts, words);
      r > 0 && ts[..r] != [] && ts[..r][0] == ts[0] && ts[..r][r-1] == ts[r-1] &&
      (forall i :: 0 <= i < r ==> ContinuesRun(ts[..r][i], words)) &&
      (r < |ts| ==> !ContinuesRun(ts[r], words))
  {
    RunIsMaximal(ts, words);
  }

  lemma RunTakesTurns(ts: seq<JsString>, r: nat)
    requires TakeTurns(ts) && r <= |ts|
    ensures TakeTurns(ts[..r])
  {
    var run := ts[..r];
    forall i | 0 <= i < |run| - 1 ensures IsWord(run[i]) != IsWord(run[i+1]) {
      assert run[i] == ts[i] && run[i+1] == ts[i+1];
    }
  }

  /** A long run, as one phrase with its closing separator, if it ends in one. */
  function PhraseOf(run: seq<JsString>): Part
    requires run != []
  {
    var last := |run| - 1;
    if IsWord(run[last]) then Phrase(run, []) else Phrase(run[..last], [run[last]])
  }

  lemma RunIsPhrase(run: seq<JsString>, words: set<JsString>)
    requires run != [] && IsListed(run[0], words) && TakeTurns(run)
    requires forall i :: 0 <= i < |run| ==> ContinuesRun(run[i], words)
    requires CountListed(run, words) >= 6
    ensures var part := PhraseOf(run);
      TokensOf(part) == run && IsPhrase(part.listed, part.closing, words)
  {
    if IsWord(run[|run|-1]) {
      RunWithoutClosing(run, words);
    } else {
      RunWithClosing(run, words);
    }
  }

  /** The phrase at the front of tokens whose run is long. */
  function PhraseAt(ts: seq<JsString>, words: set<JsString>): Part
    requires RunLength(ts, words) > 0
  {
    PhraseOf(ts[..RunLength(ts, words)])
  }

  lemma PhraseIsCutOut(ts: seq<JsString>, words: set<JsString>)
    requires TakeTurns(ts) && ts != [] && IsListed(ts[0], words)
    requires LeadingWords(ts, words) >= MIN_REDACTED_WORD_RUN
    ensures RunLength(ts, words) > 0
    ensures var part, r := PhraseAt(ts, words), RunLength(ts, words);
      TokensOf(part) == ts[..r] && IsPhrase(part.listed, part.closing, words) &&
      (r < |ts| ==> !IsListed(ts[r], words) && !IsRunSeparator(ts[r]))
  {
    var r := RunLength(ts, words);
    RunContinues(ts, words);
    RunIsCounted(ts, words);
    RunTakesTurns(ts, r);
    RunIsPhrase(ts[..r], words);
  }

  lemma ClosingIsTrailing(ts: seq<JsString>, words: set<JsString>)
    requires RunLength(ts, words) > 0
    ensures Concat(PhraseAt(ts, words).closing) == TrailingSeparator(ts[..RunLength(ts, words)])
  {
    var last := ts[RunLength(ts, words) - 1];
    assert [last][1..] == [];
  }

  lemma WordThatContinues(t: JsString, words: set<JsString>)
    requires IsWord(t) && ContinuesRun(t, words)
    ensures IsListed(t, words)
  {
    assert IsLetter(t[0]);
  }

  function Parts(ts: seq<JsString>, words: set<JsString>): seq<Part> {
    if ts == [] then []
    else if !IsListed(ts[0], words) then [Kept([ts[0]])] + Parts(ts[1..], words)
    else
      var r := RunLength(ts, words);
      [if LeadingWords(ts, words) >= MIN_REDACTED_WORD_RUN then PhraseAt(ts, words) else Kept(ts[..r])]
      + Parts(ts[r..], words)
  }

  lemma TurnsGoOn(ts: seq<JsString>, r: nat)
    requires TakeTurns(ts) && r <= |ts|
    ensures TakeTurns(ts[r..])
  {
    var rest := ts[r..];
    forall i | 0 <= i < |rest| ensures IsPiece(rest[i]) {
      assert rest[i] == ts[r + i];
    }
    forall i | 0 <= i < |rest| - 1 ensures IsWord(rest[i]) != IsWord(rest[i+1]) {
      assert rest[i] == ts[r + i] && rest[i+1] == ts[r + i + 1];
    }
  }

  lemma ConcatOfOne(t: JsString)
    ensures Concat([t]) == t
  {
    assert [t][1..] == [];
  }

  /** How many tokens the first part takes. */
  function FirstLength(ts: seq<JsString>, words: set<JsString>): (r: nat)
    requires ts != []
    ensures 0 < r <= |ts|
  {
    if IsListed(ts[0], words) then RunLength(ts, words) else 1
  }

  lemma {:induction false} PartsSpellTheOutput(ts: seq<JsString>, words: set<JsString>)
    requires TakeTurns(ts)
    ensures AreParts(ts, Parts(ts, words), words) && Shown(Parts(ts, words)) == RedactedTokens(ts, words)
    decreases |ts|
  {
    if ts != [] {
      var r := FirstLength(ts, words);
      TurnsGoOn(ts, r);
      PartsSpellTheOutput(ts[r..], words);
      var first, rest := Parts(ts, words)[0], Parts(ts[r..], words);
      assert Parts(ts, words) == [first] + rest;
      FirstPartIsRight(ts, first, words);
      PartsGoOn(ts, first, rest, words);
    }
  }

  lemma FirstPartIsRight(ts: seq<JsString>, first: Part, words: set<JsString>)
    requires TakeTurns(ts) && ts != [] && first == Parts(ts, words)[0]
    ensures TokensOf(first) == ts[..FirstLength(ts, words)]
    ensures first.Phrase? ==>
      IsPhrase(first.listed, first.closing, words) &&
      var r := FirstLength(ts, words); r < |ts| ==> !IsListed(ts[r], words) && !IsRunSeparator(ts[r])
    ensures RedactedTokens(ts, words) == ShownPart(first) + RedactedTokens(ts[FirstLength(ts, words)..], words)
  {
    if IsListed(ts[0], words) && LeadingWords(ts, words) >= MIN_REDACTED_WORD_RUN {
      PhraseIsCutOut(ts, words);
      ClosingIsTrailing(ts, words);
      PhraseIsRedacted(ts, words);
    } else {
      OthersAreKept(ts, words);
    }
  }

  lemma PhraseIsRedacted(ts: seq<JsString>, words: set<JsString>)
    requires ts != [] && IsListed(ts[0], words) && LeadingWords(ts, words) >= MIN_REDACTED_WORD_RUN
    requires RunLength(ts, words) > 0
    requires Concat(PhraseAt(ts, words).closing) == TrailingSeparator(ts[..RunLength(ts, words)])
    ensures Parts(ts, words)[0] == PhraseAt(ts, words)
    ensures RedactedTokens(ts, words)
      == ShownPart(PhraseAt(ts, words)) + RedactedTokens(ts[RunLength(ts, words)..], words)
  {
    assert REDACTED == [91, 114, 101, 100, 97, 99, 116, 101, 100, 93];
  }

  lemma OthersAreKept(ts: seq<JsString>, words: set<JsString>)
    requires ts != [] && !(IsListed(ts[0], words) && LeadingWords(ts, words) >= MIN_REDACTED_WORD_RUN)
    ensures Parts(ts, words)[0] == Kept(ts[..FirstLength(ts, words)])
    ensures RedactedTokens(ts, words)
      == Concat(ts[..FirstLength(ts, words)]) + RedactedTokens(ts[FirstLength(ts, words)..], words)
  {
    if !IsListed(ts[0], words) {
      assert ts[..1] == [ts[0]];
      ConcatOfOne(ts[0]);
    }
  }

  lemma PartsGoOn(ts: seq<JsString>, first: Part, rest: seq<Part>, words: set<JsString>)
    requires TokensOf(first) <= ts && AreParts(ts[|TokensOf(first)|..], rest, words)
    requires first.Phrase? ==>
      IsPhrase(first.listed, first.closing, words) &&
      var tail := ts[|TokensOf(first)|..];
      tail != [] ==> !IsListed(tail[0], words) && !IsRunSeparator(tail[0])
    ensures AreParts(ts, [first] + rest, words) && Shown([first] + rest) == ShownPart(first) + Shown(rest)
  {
    assert ([first] + rest)[1..] == rest;
  }

  /**
   * Redaction replaces phrases of six or more listed words and nothing else:
   * the text's tokens fall into parts, in order, so that the result shows
   * "[redacted]" for each phrase and every other token, a phrase's closing
   * separator included, as it was.
   */
  lemma OnlyPhrasesAreReplaced(text: JsString, words: set<JsString>)
    ensures exists parts :: AreParts(Tokens(text), parts, words) && Redacted(text, words) == Shown(parts)
    ensures Concat(Tokens(text)) == text
  {
    TokensTakeTurns(text);
    TokensArePieces(text);
    PartsSpellTheOutput(Tokens(text), words);
  }

  // ---------------------------------------------------------------------
  // What counts as long
  // ---------------------------------------------------------------------

  /** Six or more listed words with nothing but separators in between, before and after. */
  predicate IsStretch(ts: seq<JsString>, words: set<JsString>) {
    (forall i :: 0 <= i < |ts| ==> IsListed(ts[i], words) || IsRunSeparator(ts[i])) && CountListed(ts, words) >= 6
  }

  ghost predicate HasStretch(ts: seq<JsString>, words: set<JsString>) {
    exists i, j :: 0 <= i <= j <= |ts| && IsStretch(ts[i..j], words)
  }

  lemma {:induction false} RunHolds(ts: seq<JsString>, words: set<JsString>)
    ensures forall i :: 0 <= i < RunLength(ts, words) ==> ContinuesRun(ts[i], words)
  {
    if ts != [] && ContinuesRun(ts[0], words) {
      RunHolds(ts[1..], words);
      assert forall i :: 1 <= i < RunLength(ts, words) ==> ts[i] == ts[1..][i-1];
    }
  }

  lemma LeadingRunIsStretch(ts: seq<JsString>, words: set<JsString>)
    requires LeadingWords(ts, words) >= MIN_REDACTED_WORD_RUN
    ensures IsStretch(ts[0..RunLength(ts, words)], words)
  {
    var r := RunLength(ts, words);
    RunIsCounted(ts, words);
    RunHolds(ts, words);
    assert ts[0..r] == ts[..r];
    assert forall i :: 0 <= i < r ==> ts[..r][i] == ts[i];
  }

  lemma {:induction false} RunIsStretch(ts: seq<JsString>, words: set<JsString>) returns (i: nat, j: nat)
    requires HasRun(ts, words)
    ensures i <= j <= |ts| && IsStretch(ts[i..j], words)
  {
    if LeadingWords(ts, words) >= MIN_REDACTED_WORD_RUN {
      LeadingRunIsStretch(ts, words);
      i, j := 0, RunLength(ts, words);
    } else {
      i, j := RunIsStretch(ts[1..], words);
      assert ts[i + 1..j + 1] == ts[1..][i..j];
      i, j := i + 1, j + 1;
    }
  }

  lemma {:induction false} LeadingCovers(ts: seq<JsString>, j: nat, words: set<JsString>)
    requires j <= |ts| && forall i :: 0 <= i < j ==> ContinuesRun(ts[i], words)
    ensures LeadingWords(ts, words) >= CountListed(ts[..j], words)
  {
    if j > 0 {
      LeadingCovers(ts[1..], j - 1, words);
      CountSplits(ts[0], ts[1..][..j - 1], words);
      assert ts[..j] == [ts[0]] + ts[1..][..j - 1];
    }
  }

  lemma {:induction false} StretchIsRun(ts: seq<JsString>, i: nat, j: nat, words: set<JsString>)
    requires i <= j <= |ts| && IsStretch(ts[i..j], words)
    ensures HasRun(ts, words)
  {
    if i > 0 {
      assert ts[1..][i - 1..j - 1] == ts[i..j];
      StretchIsRun(ts[1..], i - 1, j - 1, words);
    } else {
      assert ts[..j] == ts[i..j];
      assert forall k :: 0 <= k < j ==> ts[k] == ts[i..j][k];
      LeadingCovers(ts, j, words);
    }
  }

  lemma RunIff(ts: seq<JsString>, words: set<JsString>)
    ensures HasRun(ts, words) <==> HasStretch(ts, words)
  {
    if HasRun(ts, words) {
      var i, j := RunIsStretch(ts, words);
    }
    if HasStretch(ts, words) {
      var i, j :| 0 <= i <= j <= |ts| && IsStretch(ts[i..j], words);
      StretchIsRun(ts, i, j, words);
    }
  }

  /** Redaction leaves no stretch of six listed words, and changes a text exactly when it has one. */
  lemma NoStretchSurvives(text: JsString, words: set<JsString>)
    ensures !HasStretch(Tokens(Redacted(text, words)), words)
    ensures Redacted(text, words) == text <==> !HasStretch(Tokens(text), words)
  {
    NoRunSurvives(text, words);
    UnchangedExactlyWithoutRun(text, words);
    RunIff(Tokens(Redacted(text, words)), words);
    RunIff(Tokens(text), words);
  }

  // ---------------------------------------------------------------------
  // Which characters and words count
  // ---------------------------------------------------------------------

  /**
   * White space, `,`, `;`, `:`, `.` and digits keep a run going, and nothing else
   * does. Outside ASCII, white space is what `\s` matches in JavaScript
   * (WhiteSpace and LineTerminator of ECMA-262).
   */
  lemma SeparatorsAsWritten(c: CodeUnit)
    ensures c >= 128 ==> (KeepsRunGoing(c) <==>
      (c as int) in {0xA0, 0x1680, 0x2000, 0x2001, 0x2002, 0x2003, 0x2004, 0x2005, 0x2006, 0x2007, 0x2008, 0x2009,
                     0x200A, 0x2028, 0x2029, 0x202F, 0x205F, 0x3000, 0xFEFF})
    ensures c < 128 ==> (KeepsRunGoing(c) <==>
      (c as int) in {9, 10, 11, 12, 13, ' ' as int, ',' as int, ';' as int, ':' as int, '.' as int,
                     '0' as int, '1' as int, '2' as int, '3' as int, '4' as int,
                     '5' as int, '6' as int, '7' as int, '8' as int, '9' as int})
    ensures IsLetter(c) <==> 'A' as int <= c as int <= 'Z' as int || 'a' as int <= c as int <= 'z' as int
  {
  }

  function UpperCase(t: JsString): JsString {
    seq(|t|, i requires 0 <= i < |t| => if 97 <= t[i] <= 122 then t[i] - 32 else t[i])
  }

  /** A word counts however it is written, as long as the list has it in lower case. */
  lemma CaseDoesNotMatter(t: JsString, words: set<JsString>)
    requires IsWord(t)
    ensures IsListed(UpperCase(t), words) <==> IsListed(t, words)
    ensures IsListed(LowerCase(t), words) <==> IsListed(t, words)
    ensures t == LowerCase(t) ==> (IsListed(t, words) <==> t in words)
  {
    assert LowerCase(UpperCase(t)) == LowerCase(t);
    assert LowerCase(LowerCase(t)) == LowerCase(t);
    assert IsWord(UpperCase(t)) && IsWord(LowerCase(t));
  }
}
