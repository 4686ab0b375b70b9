/**
 * Redaction of recovery-phrase-like text (farcaster-audio/utils/sentryScrub.ts).
 * The word list is a parameter: everything holds for any list.
 */
module SentryScrub {
  import opened JsStrings

  const MIN_REDACTED_WORD_RUN := 6

  const OPEN_BRACKET: JsString := [91]
  const CLOSE_BRACKET: JsString := [93]
  /** "redacted" */
  const REDACTED_WORD: JsString := [114, 101, 100, 97, 99, 116, 101, 100]
  const REDACTED: JsString := OPEN_BRACKET + REDACTED_WORD + CLOSE_BRACKET

  predicate IsLetter(c: CodeUnit) { 65 <= c <= 90 || 97 <= c <= 122 }

  /** `\s`. */
  predicate IsSpace(c: CodeUnit) {
    9 <= c <= 13 || c == 32 || c == 0xA0 || c == 0x1680 || 0x2000 <= c <= 0x200A ||
    c == 0x2028 || c == 0x2029 || c == 0x202F || c == 0x205F || c == 0x3000 || c == 0xFEFF
  }

  /** `[\s,;:.\d]`. */
  predicate KeepsRunGoing(c: CodeUnit) {
    IsSpace(c) || c == 44 || c == 59 || c == 58 || c == 46 || 48 <= c <= 57
  }

  predicate IsWord(t: JsString) {
    t != [] && forall i :: 0 <= i < |t| ==> IsLetter(t[i])
  }

  predicate IsRunSeparator(t: JsString) {
    t != [] && forall i :: 0 <= i < |t| ==> KeepsRunGoing(t[i])
  }

  function LowerCase(t: JsString): JsString {
    seq(|t|, i requires 0 <= i < |t| => if 65 <= t[i] <= 90 then t[i] + 32 else t[i])
  }

  predicate IsListed(t: JsString, words: set<JsString>) {
    IsWord(t) && LowerCase(t) in words
  }

  predicate ContinuesRun(t: JsString, words: set<JsString>) {
    IsListed(t, words) || IsRunSeparator(t)
  }

  // ---------------------------------------------------------------------
  // Tokens: maximal stretches of letters and of other characters
  // ---------------------------------------------------------------------

  function StretchLength(text: JsString): (k: nat)
    requires text != []
    ensures 1 <= k <= |text|
  {
    if |text| == 1 || IsLetter(text[0]) != IsLetter(text[1]) then 1 else 1 + StretchLength(text[1..])
  }

  /** `text.split(/([^a-zA-Z]+)/)` without the empty pieces, which the loop skips. */
  function Tokens(text: JsString): seq<JsString> {
    if text == [] then [] else
      var k := StretchLength(text);
      [text[..k]] + Tokens(text[k..])
  }

  /** `join("")`. */
  function Concat(ps: seq<JsString>): JsString {
    if ps == [] then [] else ps[0] + Concat(ps[1..])
  }

  // ---------------------------------------------------------------------
  // Runs
  // ---------------------------------------------------------------------

  /** The number of listed words, with only separators between them, from the front on. */
  function LeadingWords(ts: seq<JsString>, words: set<JsString>): nat {
    if ts == [] || !ContinuesRun(ts[0], words) then 0
    else (if IsListed(ts[0], words) then 1 else 0) + LeadingWords(ts[1..], words)
  }

  /** The tokens in that stretch. */
  function RunLength(ts: seq<JsString>, words: set<JsString>): (r: nat)
    ensures r <= |ts|
  {
    if ts == [] || !ContinuesRun(ts[0], words) then 0 else 1 + RunLength(ts[1..], words)
  }

  /** From some token on, at least `MIN_REDACTED_WORD_RUN` listed words follow one another. */
  predicate HasRun(ts: seq<JsString>, words: set<JsString>) {
    ts != [] && (LeadingWords(ts, words) >= MIN_REDACTED_WORD_RUN || HasRun(ts[1..], words))
  }

  predicate ContainsRun(text: JsString, words: set<JsString>) {
    HasRun(Tokens(text), words)
  }

  // ---------------------------------------------------------------------
  // Specification: each maximal run that starts at a listed word is judged whole
  // ---------------------------------------------------------------------

  function TrailingSeparator(run: seq<JsString>): JsString
    requires run != []
  {
    if IsWord(run[|run| - 1]) then [] else run[|run| - 1]
  }

  function RedactedTokens(ts: seq<JsString>, words: set<JsString>): JsString {
    if ts == [] then []
    else if !IsListed(ts[0], words) then ts[0] + RedactedTokens(ts[1..], words)
    else
      var r := RunLength(ts, words);
      (if LeadingWords(ts, words) >= MIN_REDACTED_WORD_RUN
       then REDACTED + TrailingSeparator(ts[..r]) else Concat(ts[..r]))
      + RedactedTokens(ts[r..], words)
  }

  function Redacted(text: JsString, words: set<JsString>): JsString {
    RedactedTokens(Tokens(text), words)
  }

  // ---------------------------------------------------------------------
  // Pieces: like tokens, but a stretch of non-letters may be cut up
  // ---------------------------------------------------------------------

  predicate IsPiece(p: JsString) {
    p != [] && forall i :: 0 <= i < |p| ==> IsLetter(p[i]) == IsLetter(p[0])
  }

  predicate ArePieces(ps: seq<JsString>) {
    ps == [] ||
    (IsPiece(ps[0]) && (|ps| > 1 ==> !(IsWord(ps[0]) && IsWord(ps[1]))) && ArePieces(ps[1..]))
  }

  lemma {:induction false} StretchOfPiece(p: JsString, rest: JsString)
    requires IsPiece(p) && (rest == [] || IsLetter(rest[0]) != IsLetter(p[0]))
    ensures StretchLength(p + rest) == |p|
  {
    if |p| > 1 {
      assert (p + rest)[1..] == p[1..] + rest;
      StretchOfPiece(p[1..], rest);
    }
  }

  lemma TokensOfFirstPiece(p: JsString, rest: JsString)
    requires IsPiece(p) && (rest == [] || IsLetter(rest[0]) != IsLetter(p[0]))
    ensures Tokens(p + rest) == [p] + Tokens(rest)
  {
    StretchOfPiece(p, rest);
    assert (p + rest)[..|p|] == p && (p + rest)[|p|..] == rest;
  }

  /** Gluing two neighbouring stretches of non-letters changes no run. */
  lemma MergedPieces(p: JsString, q: JsString, rest: seq<JsString>, words: set<JsString>)
    requires IsPiece(p) && IsPiece(q) && !IsLetter(p[0]) && !IsLetter(q[0]) && ArePieces([q] + rest)
    ensures ArePieces([p + q] + rest)
    ensures LeadingWords([p + q] + rest, words) == LeadingWords([p] + ([q] + rest), words)
    ensures HasRun([p + q] + rest, words) == HasRun([p] + ([q] + rest), words)
  {
    var one, tail := [p + q] + rest, [q] + rest;
    assert one[1..] == rest && tail[1..] == rest && ([p] + tail)[1..] == tail;
    SeparatorsGlue(p, q);
    assert LeadingWords(tail, words) <= LeadingWords(rest, words);
  }

  lemma MergedConcat(p: JsString, q: JsString, rest: seq<JsString>)
    ensures Concat([p + q] + rest) == Concat([p] + ([q] + rest)) == p + (q + Concat(rest))
  {
    var tail := [q] + rest;
    assert ([p + q] + rest)[1..] == rest && tail[1..] == rest && ([p] + tail)[1..] == tail;
    assert Concat(tail) == q + Concat(rest);
    assert Concat([p] + tail) == p + Concat(tail);
  }

  /** A first piece that is a token of its own. */
  lemma FirstPieceStands(p: JsString, tail: seq<JsString>, words: set<JsString>)
    requires IsPiece(p) && ArePieces(tail)
    requires tail == [] || IsLetter(tail[0][0]) != IsLetter(p[0])
    ensures Tokens(Concat([p] + tail)) == [p] + Tokens(Concat(tail))
  {
    assert ([p] + tail)[1..] == tail;
    if tail != [] {
      assert Concat(tail)[0] == tail[0][0];
    }
    TokensOfFirstPiece(p, Concat(tail));
  }

  /** Reading a text back from its pieces finds the same runs. */
  lemma {:induction false} RunsInPieces(ps: seq<JsString>, words: set<JsString>)
    requires ArePieces(ps)
    ensures LeadingWords(Tokens(Concat(ps)), words) == LeadingWords(ps, words)
    ensures ContainsRun(Concat(ps), words) == HasRun(ps, words)
    decreases |ps|
  {
    if ps != [] {
      var p, tail := ps[0], ps[1..];
      assert ps == [p] + tail;
      if tail == [] || IsLetter(tail[0][0]) != IsLetter(p[0]) {
        FirstPieceStands(p, tail, words);
        RunsInPieces(tail, words);
        assert Tokens(Concat(ps))[1..] == Tokens(Concat(tail));
      } else {
        var q, rest := tail[0], tail[1..];
        assert tail == [q] + rest;
        SameClassPieces(p, q);
        MergedPieces(p, q, rest, words);
        MergedConcat(p, q, rest);
        RunsInPieces([p + q] + rest, words);
      }
    }
  }

  lemma SameClassPieces(p: JsString, q: JsString)
    requires IsPiece(p) && IsPiece(q) && !(IsWord(p) && IsWord(q)) && IsLetter(p[0]) == IsLetter(q[0])
    ensures !IsLetter(p[0])
  {
  }

  lemma SeparatorsGlue(p: JsString, q: JsString)
    requires IsPiece(p) && IsPiece(q) && !IsLetter(p[0]) && !IsLetter(q[0])
    ensures IsPiece(p + q) && !IsWord(p) && !IsWord(q) && !IsWord(p + q)
    ensures IsRunSeparator(p + q) <==> IsRunSeparator(p) && IsRunSeparator(q)
  {
    if IsRunSeparator(p + q) {
      forall i | 0 <= i < |p| ensures KeepsRunGoing(p[i]) { assert (p + q)[i] == p[i]; }
      forall i | 0 <= i < |q| ensures KeepsRunGoing(q[i]) { assert (p + q)[|p| + i] == q[i]; }
    }
    assert !IsLetter((p + q)[0]);
  }

  lemma {:induction false} TokensArePieces(text: JsString)
    ensures ArePieces(Tokens(text)) && Concat(Tokens(text)) == text
    ensures text != [] ==> Tokens(text) != [] && IsLetter(Tokens(text)[0][0]) == IsLetter(text[0])
  {
    if text != [] {
      var k := StretchLength(text);
      var p, rest := text[..k], Tokens(text[k..]);
      TokensArePieces(text[k..]);
      StretchIsMaximal(text);
      assert Tokens(text)[1..] == rest;
      assert text == p + text[k..];
      if k < |text| {
        assert IsLetter(rest[0][0]) != IsLetter(p[0]);
      }
    }
  }

  lemma {:induction false} StretchIsMaximal(text: JsString)
    requires text != []
    ensures var k := StretchLength(text);
      IsPiece(text[..k]) && text[..k][0] == text[0] && (k < |text| ==> IsLetter(text[k]) != IsLetter(text[0]))
  {
    var k := StretchLength(text);
    if k > 1 {
      StretchIsMaximal(text[1..]);
      forall i | 0 <= i < k
        ensures IsLetter(text[i]) == IsLetter(text[0])
      {
        if i > 0 {
          assert text[1..][..k - 1][i - 1] == text[i];
        }
      }
    }
  }

  // ---------------------------------------------------------------------
  // No run survives; a text without one is left alone
  // ---------------------------------------------------------------------

  /** The output, cut into pieces. */
  function RedactedPieces(ts: seq<JsString>, words: set<JsString>): seq<JsString> {
    if ts == [] then []
    else if !IsListed(ts[0], words) then [ts[0]] + RedactedPieces(ts[1..], words)
    else
      var r := RunLength(ts, words);
      (if LeadingWords(ts, words) >= MIN_REDACTED_WORD_RUN
       then [OPEN_BRACKET, REDACTED_WORD, CLOSE_BRACKET + TrailingSeparator(ts[..r])] else ts[..r])
      + RedactedPieces(ts[r..], words)
  }

  lemma {:induction false} ConcatSplits(a: seq<JsString>, b: seq<JsString>)
    ensures Concat(a + b) == Concat(a) + Concat(b)
  {
    if a == [] {
      assert a + b == b;
    } else {
      ConcatSplits(a[1..], b);
      assert (a + b)[1..] == a[1..] + b;
      assert a[0] + (Concat(a[1..]) + Concat(b)) == a[0] + Concat(a[1..]) + Concat(b);
    }
  }

  lemma ConcatOfMark(trailing: JsString)
    ensures Concat([OPEN_BRACKET, REDACTED_WORD, CLOSE_BRACKET + trailing]) == REDACTED + trailing
  {
    var last := [CLOSE_BRACKET + trailing];
    assert Concat(last) == CLOSE_BRACKET + trailing by {
      assert last[1..] == [];
    }
    var two := [REDACTED_WORD] + last;
    assert two[1..] == last;
    var three := [OPEN_BRACKET, REDACTED_WORD, CLOSE_BRACKET + trailing];
    assert three[1..] == two;
  }

  lemma {:induction false} PiecesSpellTheOutput(ts: seq<JsString>, words: set<JsString>)
    ensures Concat(RedactedPieces(ts, words)) == RedactedTokens(ts, words)
    decreases |ts|
  {
    if ts != [] {
      if !IsListed(ts[0], words) {
        PiecesSpellTheOutput(ts[1..], words);
        assert RedactedPieces(ts, words)[1..] == RedactedPieces(ts[1..], words);
      } else {
        var r := RunLength(ts, words);
        PiecesSpellTheOutput(ts[r..], words);
        var mark := [OPEN_BRACKET, REDACTED_WORD, CLOSE_BRACKET + TrailingSeparator(ts[..r])];
        ConcatSplits(mark, RedactedPieces(ts[r..], words));
        ConcatOfMark(TrailingSeparator(ts[..r]));
        ConcatSplits(ts[..r], RedactedPieces(ts[r..], words));
      }
    }
  }

  lemma {:induction false} RunIsMaximal(ts: seq<JsString>, words: set<JsString>)
    ensures var r := RunLength(ts, words);
      (forall i :: 0 <= i < r ==> ContinuesRun(ts[i], words)) &&
      (r < |ts| ==> !ContinuesRun(ts[r], words))
  {
    if ts != [] && ContinuesRun(ts[0], words) {
      RunIsMaximal(ts[1..], words);
    }
  }

  lemma {:induction false} PiecesSuffix(ps: seq<JsString>, k: nat)
    requires ArePieces(ps) && k <= |ps|
    ensures ArePieces(ps[k..]) && (k < |ps| ==> IsPiece(ps[k]))
    ensures 0 < k < |ps| ==> !(IsWord(ps[k - 1]) && IsWord(ps[k]))
  {
    if k > 0 {
      PiecesSuffix(ps[1..], k - 1);
      assert ps[1..][k - 1..] == ps[k..];
    }
  }

  lemma {:induction false} PiecesPrefix(ps: seq<JsString>, k: nat)
    requires ArePieces(ps) && k <= |ps|
    ensures ArePieces(ps[..k])
  {
    if k > 0 {
      PiecesPrefix(ps[1..], k - 1);
      assert ps[..k][1..] == ps[1..][..k - 1];
    }
  }

  lemma {:induction false} PiecesJoin(a: seq<JsString>, b: seq<JsString>)
    requires ArePieces(a) && ArePieces(b)
    requires a != [] && b != [] ==> !(IsWord(a[|a| - 1]) && IsWord(b[0]))
    ensures ArePieces(a + b)
  {
    if a == [] {
      assert a + b == b;
    } else {
      PiecesJoin(a[1..], b);
      assert (a + b)[1..] == a[1..] + b;
    }
  }

  lemma MarkIsPieces(trailing: JsString)
    requires trailing == [] || (IsPiece(trailing) && !IsLetter(trailing[0]))
    ensures ArePieces([OPEN_BRACKET, REDACTED_WORD, CLOSE_BRACKET + trailing])
    ensures !IsWord(CLOSE_BRACKET + trailing) && !IsRunSeparator(CLOSE_BRACKET + trailing)
  {
    var last := CLOSE_BRACKET + trailing;
    assert last[0] == 93;
    assert IsPiece(last);
    var one: seq<JsString> := [last];
    var two: seq<JsString> := [REDACTED_WORD, last];
    var three: seq<JsString> := [OPEN_BRACKET, REDACTED_WORD, last];
    assert one[1..] == [] && two[1..] == one && three[1..] == two;
    assert ArePieces(one);
    assert ArePieces(two);
    assert OPEN_BRACKET[0] == 91;
  }

  /** The output's pieces are pieces, and begin with a word only where the input does. */
  lemma {:induction false} OutputIsPieces(ts: seq<JsString>, words: set<JsString>)
    requires ArePieces(ts)
    ensures ArePieces(RedactedPieces(ts, words))
    ensures ts == [] <==> RedactedPieces(ts, words) == []
    ensures ts != [] && IsWord(RedactedPieces(ts, words)[0]) ==> IsWord(ts[0])
    decreases |ts|
  {
    if ts != [] {
      if !IsListed(ts[0], words) {
        OutputIsPieces(ts[1..], words);
        PiecesJoin([ts[0]], RedactedPieces(ts[1..], words));
      } else {
        var r := RunLength(ts, words);
        PiecesSuffix(ts, r);
        PiecesSuffix(ts, r - 1);
        PiecesPrefix(ts, r);
        OutputIsPieces(ts[r..], words);
        MarkIsPieces(TrailingSeparator(ts[..r]));
        var mark := [OPEN_BRACKET, REDACTED_WORD, CLOSE_BRACKET + TrailingSeparator(ts[..r])];
        assert !IsWord(OPEN_BRACKET) by {
          assert !IsLetter(OPEN_BRACKET[0]);
        }
        var first := if LeadingWords(ts, words) >= MIN_REDACTED_WORD_RUN then mark else ts[..r];
        PiecesJoin(first, RedactedPieces(ts[r..], words));
      }
    }
  }

  /** A short run followed by something that ends it adds no long run. */
  lemma {:induction false} ShortRunThenBreak(a: seq<JsString>, b: seq<JsString>, words: set<JsString>)
    requires forall i :: 0 <= i < |a| ==> ContinuesRun(a[i], words)
    requires LeadingWords(a, words) < MIN_REDACTED_WORD_RUN
    requires LeadingWords(b, words) == 0 && !HasRun(b, words)
    ensures LeadingWords(a + b, words) == LeadingWords(a, words) && !HasRun(a + b, words)
  {
    if a == [] {
      assert a + b == b;
    } else {
      assert (a + b)[1..] == a[1..] + b;
      ShortRunThenBreak(a[1..], b, words);
    }
  }

  lemma {:induction false} LeadingOfRun(ts: seq<JsString>, words: set<JsString>)
    ensures LeadingWords(ts[..RunLength(ts, words)], words) == LeadingWords(ts, words)
  {
    if ts != [] && ContinuesRun(ts[0], words) {
      var r := RunLength(ts, words);
      LeadingOfRun(ts[1..], words);
      assert ts[..r][1..] == ts[1..][..r - 1];
    }
  }

  lemma MarkStopsRuns(last: JsString, b: seq<JsString>, words: set<JsString>)
    requires !IsWord(last) && !IsRunSeparator(last) && !HasRun(b, words)
    ensures !HasRun([OPEN_BRACKET, REDACTED_WORD, last] + b, words)
    ensures LeadingWords([OPEN_BRACKET, REDACTED_WORD, last] + b, words) == 0
  {
    var tail := [last] + b;
    assert tail[1..] == b;
    assert LeadingWords(tail, words) == 0 && !HasRun(tail, words);
    var two := [REDACTED_WORD] + tail;
    assert two[1..] == tail;
    assert !HasRun(two, words);
    var three := [OPEN_BRACKET, REDACTED_WORD, last] + b;
    assert three[1..] == two;
    assert !ContinuesRun(OPEN_BRACKET, words) by {
      assert !IsLetter(OPEN_BRACKET[0]) && !KeepsRunGoing(OPEN_BRACKET[0]);
    }
  }

  lemma {:induction false} OutputHasNoRun(ts: seq<JsString>, words: set<JsString>)
    requires ArePieces(ts)
    ensures !HasRun(RedactedPieces(ts, words), words)
    ensures ts != [] && !ContinuesRun(ts[0], words) ==> LeadingWords(RedactedPieces(ts, words), words) == 0
    decreases |ts|
  {
    if ts != [] {
      if !IsListed(ts[0], words) {
        OutputHasNoRun(ts[1..], words);
        var rest := RedactedPieces(ts[1..], words);
        assert ([ts[0]] + rest)[1..] == rest;
        assert rest != [] ==> LeadingWords(rest, words) < MIN_REDACTED_WORD_RUN;
      } else {
        var r := RunLength(ts, words);
        PiecesSuffix(ts, r);
        PiecesSuffix(ts, r - 1);
        RunIsMaximal(ts, words);
        OutputHasNoRun(ts[r..], words);
        LeadingOfRun(ts, words);
        MarkIsPieces(TrailingSeparator(ts[..r]));
        if LeadingWords(ts, words) >= MIN_REDACTED_WORD_RUN {
          MarkStopsRuns(CLOSE_BRACKET + TrailingSeparator(ts[..r]), RedactedPieces(ts[r..], words), words);
        } else {
          ShortRunThenBreak(ts[..r], RedactedPieces(ts[r..], words), words);
        }
      }
    }
  }

  /** Whatever the list, no run of six or more listed words is left. */
  lemma NoRunSurvives(text: JsString, words: set<JsString>)
    ensures !ContainsRun(Redacted(text, words), words)
  {
    var ts := Tokens(text);
    TokensArePieces(text);
    OutputIsPieces(ts, words);
    OutputHasNoRun(ts, words);
    PiecesSpellTheOutput(ts, words);
    RunsInPieces(RedactedPieces(ts, words), words);
  }

  lemma {:induction false} NoRunInSuffix(ts: seq<JsString>, k: nat, words: set<JsString>)
    requires !HasRun(ts, words) && k <= |ts|
    ensures !HasRun(ts[k..], words)
  {
    if k > 0 {
      NoRunInSuffix(ts[1..], k - 1, words);
      assert ts[1..][k - 1..] == ts[k..];
    }
  }

  lemma {:induction false} TokensWithoutRunStay(ts: seq<JsString>, words: set<JsString>)
    requires !HasRun(ts, words)
    ensures RedactedTokens(ts, words) == Concat(ts)
    decreases |ts|
  {
    if ts != [] {
      var r := RunLength(ts, words);
      if !IsListed(ts[0], words) {
        TokensWithoutRunStay(ts[1..], words);
      } else {
        NoRunInSuffix(ts, r, words);
        TokensWithoutRunStay(ts[r..], words);
        ConcatSplits(ts[..r], ts[r..]);
        assert ts == ts[..r] + ts[r..];
      }
    }
  }

  /** A text comes through unchanged exactly when it contains no run. */
  lemma UnchangedExactlyWithoutRun(text: JsString, words: set<JsString>)
    ensures Redacted(text, words) == text <==> !ContainsRun(text, words)
  {
    NoRunSurvives(text, words);
    if !ContainsRun(text, words) {
      TokensArePieces(text);
      TokensWithoutRunStay(Tokens(text), words);
    }
  }

  /** Redacting twice is redacting once, even when `redacted` is itself a listed word. */
  lemma RedactionIsIdempotent(text: JsString, words: set<JsString>)
    ensures Redacted(Redacted(text, words), words) == Redacted(text, words)
  {
    NoRunSurvives(text, words);
    UnchangedExactlyWithoutRun(Redacted(text, words), words);
  }

  // ---------------------------------------------------------------------
  // The loop
  // ---------------------------------------------------------------------

  /** `run` holds the tokens of a run still open, `runWords` its listed words. */
  predicate IsOpenRun(run: seq<JsString>, runWords: nat, words: set<JsString>) {
    (forall i :: 0 <= i < |run| ==> ContinuesRun(run[i], words)) &&
    (run != [] ==> IsListed(run[0], words) && runWords > 0) &&
    runWords == LeadingWords(run, words)
  }

  lemma {:induction false} OpenRunInFront(run: seq<JsString>, rest: seq<JsString>, words: set<JsString>)
    requires forall i :: 0 <= i < |run| ==> ContinuesRun(run[i], words)
    requires rest == [] || !ContinuesRun(rest[0], words)
    ensures RunLength(run + rest, words) == |run|
    ensures LeadingWords(run + rest, words) == LeadingWords(run, words)
  {
    if run == [] {
      assert run + rest == rest;
    } else {
      assert (run + rest)[1..] == run[1..] + rest;
      OpenRunInFront(run[1..], rest, words);
    }
  }

  lemma {:induction false} LeadingGrows(run: seq<JsString>, t: JsString, words: set<JsString>)
    requires forall i :: 0 <= i < |run| ==> ContinuesRun(run[i], words)
    requires ContinuesRun(t, words)
    ensures LeadingWords(run + [t], words) == LeadingWords(run, words) + if IsListed(t, words) then 1 else 0
  {
    if run == [] {
      assert run + [t] == [t];
      assert LeadingWords([t][1..], words) == 0;
    } else {
      assert (run + [t])[1..] == run[1..] + [t];
      LeadingGrows(run[1..], t, words);
    }
  }

  /** What closing a run writes. */
  function Flushed(run: seq<JsString>, runWords: nat): JsString
    requires run == [] ==> runWords == 0
  {
    if runWords >= MIN_REDACTED_WORD_RUN then REDACTED + TrailingSeparator(run) else Concat(run)
  }

  /** `flush`. */
  method Flush(out: seq<JsString>, run: seq<JsString>, runWords: nat) returns (flushed: seq<JsString>)
    requires run == [] ==> runWords == 0
    ensures Concat(flushed) == Concat(out) + Flushed(run, runWords)
  {
    if runWords >= MIN_REDACTED_WORD_RUN {
      var last := run[|run| - 1];
      var trailing := if IsWord(last) then [] else last;
      flushed := out + [REDACTED + trailing];
      ConcatSplits(out, [REDACTED + trailing]);
      assert Concat([REDACTED + trailing]) == REDACTED + trailing;
    } else {
      flushed := out + run;
      ConcatSplits(out, run);
    }
  }

  /** The output so far and the redaction of what is still open make up the whole. */
  predicate IsPending(whole: JsString, out: seq<JsString>, run: seq<JsString>, rest: seq<JsString>,
                      words: set<JsString>)
  {
    whole == Concat(out) + RedactedTokens(run + rest, words)
  }

  /** A token that continues the run joins it. */
  lemma PendingGrows(whole: JsString, out: seq<JsString>, run: seq<JsString>, runWords: nat,
                     rest: seq<JsString>, words: set<JsString>)
    requires rest != [] && IsPending(whole, out, run, rest, words) && IsOpenRun(run, runWords, words)
    requires IsListed(rest[0], words) || (runWords > 0 && IsRunSeparator(rest[0]))
    ensures IsPending(whole, out, run + [rest[0]], rest[1..], words)
    ensures IsOpenRun(run + [rest[0]], if IsListed(rest[0], words) then runWords + 1 else runWords, words)
  {
    assert run + rest == (run + [rest[0]]) + rest[1..];
    LeadingGrows(run, rest[0], words);
  }

  lemma ClosedRun(run: seq<JsString>, runWords: nat, rest: seq<JsString>, words: set<JsString>)
    requires IsOpenRun(run, runWords, words)
    requires run == [] || rest == [] || !ContinuesRun(rest[0], words)
    ensures RedactedTokens(run + rest, words) == Flushed(run, runWords) + RedactedTokens(rest, words)
  {
    if run == [] {
      assert run + rest == rest;
    } else {
      OpenRunInFront(run, rest, words);
      assert (run + rest)[..|run|] == run && (run + rest)[|run|..] == rest;
    }
  }

  lemma Regroup(a: JsString, b: JsString, c: JsString, d: JsString)
    ensures a + (b + (c + d)) == a + b + c + d
  {
  }

  /** A token that is not listed and continues no run passes through after the run before it is closed. */
  lemma PendingCloses(whole: JsString, out: seq<JsString>, flushed: seq<JsString>,
                      run: seq<JsString>, runWords: nat, rest: seq<JsString>, words: set<JsString>)
    requires IsOpenRun(run, runWords, words) && rest != [] && !IsListed(rest[0], words)
    requires run == [] || !ContinuesRun(rest[0], words)
    requires IsPending(whole, out, run, rest, words)
    requires Concat(flushed) == Concat(out) + Flushed(run, runWords)
    ensures IsPending(whole, flushed + [rest[0]], [], rest[1..], words)
  {
    var t, tail := rest[0], rest[1..];
    ClosedRun(run, runWords, rest, words);
    assert RedactedTokens(rest, words) == t + RedactedTokens(tail, words);
    assert Concat(flushed + [t]) == Concat(flushed) + t by {
      ConcatSplits(flushed, [t]);
      assert Concat([t]) == t;
    }
    assert [] + tail == tail;
    Regroup(Concat(out), Flushed(run, runWords), t, RedactedTokens(tail, words));
  }

  lemma BreakingToken(token: JsString, run: seq<JsString>, runWords: nat, words: set<JsString>)
    requires IsOpenRun(run, runWords, words) && !IsListed(token, words)
    requires IsWord(token) || runWords == 0 || !IsRunSeparator(token)
    ensures run == [] || !ContinuesRun(token, words)
  {
    if IsWord(token) {
      assert IsLetter(token[0]) && !KeepsRunGoing(token[0]);
    }
  }

  method RedactMnemonicLikeText(text: JsString, words: set<JsString>) returns (redacted: JsString)
    ensures redacted == Redacted(text, words)
  {
    var tokens := Tokens(text);
    var out: seq<JsString> := [];
    var run: seq<JsString> := [];
    var runWords := 0;
    ghost var whole, rest := Redacted(text, words), tokens;
    assert run + rest == rest;
    for i := 0 to |tokens|
      invariant rest == tokens[i..]
      invariant IsOpenRun(run, runWords, words)
      invariant IsPending(whole, out, run, rest, words)
    {
      var token := tokens[i];
      var isWord := IsWord(token);
      assert rest[0] == token;
      if isWord && LowerCase(token) in words {
        PendingGrows(whole, out, run, runWords, rest, words);
        run := run + [token];
        runWords := runWords + 1;
      } else if !isWord && runWords > 0 && IsRunSeparator(token) {
        PendingGrows(whole, out, run, runWords, rest, words);
        run := run + [token];
      } else {
        BreakingToken(token, run, runWords, words);
        var flushed := Flush(out, run, runWords);
        PendingCloses(whole, out, flushed, run, runWords, rest, words);
        out := flushed + [token];
        run, runWords := [], 0;
      }
      rest := rest[1..];
    }
    ClosedRun(run, runWords, [], words);
    out := Flush(out, run, runWords);
    redacted := Concat(out);
  }
}
