/** Reply flattening for the thread screen (farcaster-audio/utils/replyChain.ts). */
module ReplyChain {
  import opened JsStrings
  import opened Options

  /** A cast and its replies; a missing `direct_replies` is an empty list. */
  datatype Cast = Cast(hash: JsString, replies: seq<Cast>)

  const MAX_INLINE_CHAIN := 3

  /** `subtreeContainsHash`. */
  predicate SubtreeContainsHash(c: Cast, hash: JsString) {
    c.hash == hash || exists i :: 0 <= i < |c.replies| && SubtreeContainsHash(c.replies[i], hash)
  }

  // ---------------------------------------------------------------------
  // Positions in a tree: a path lists which reply to take at each level
  // ---------------------------------------------------------------------

  predicate IsPath(c: Cast, p: seq<nat>)
    decreases |p|
  {
    p == [] || (p[0] < |c.replies| && IsPath(c.replies[p[0]], p[1..]))
  }

  function At(c: Cast, p: seq<nat>): Cast
    requires IsPath(c, p)
    decreases |p|
  {
    if p == [] then c else At(c.replies[p[0]], p[1..])
  }

  predicate HashAt(c: Cast, p: seq<nat>, hash: JsString) {
    IsPath(c, p) && At(c, p).hash == hash
  }

  lemma {:induction false} HashIsFound(c: Cast, p: seq<nat>, hash: JsString)
    requires HashAt(c, p, hash)
    ensures SubtreeContainsHash(c, hash)
    decreases |p|
  {
    if p != [] {
      HashIsFound(c.replies[p[0]], p[1..], hash);
    }
  }

  lemma {:induction false} FoundHashIsThere(c: Cast, hash: JsString) returns (p: seq<nat>)
    requires SubtreeContainsHash(c, hash)
    ensures HashAt(c, p, hash)
    decreases c
  {
    if c.hash == hash {
      p := [];
    } else {
      var i: nat :| i < |c.replies| && SubtreeContainsHash(c.replies[i], hash);
      var q := FoundHashIsThere(c.replies[i], hash);
      p := [i] + q;
      assert p[1..] == q;
    }
  }

  /** `subtreeContainsHash` finds a hash exactly when some position holds it. */
  lemma ContainsHashSomewhere(c: Cast, hash: JsString)
    ensures SubtreeContainsHash(c, hash) <==> exists p :: HashAt(c, p, hash)
  {
    if SubtreeContainsHash(c, hash) {
      var p := FoundHashIsThere(c, hash);
    }
    forall p | HashAt(c, p, hash)
      ensures SubtreeContainsHash(c, hash)
    {
      HashIsFound(c, p, hash);
    }
  }

  // ---------------------------------------------------------------------
  // Specification
  // ---------------------------------------------------------------------

  /** The index of the first of `replies` whose subtree holds `focus`, if any. */
  function FocusIndex(replies: seq<Cast>, focus: JsString): (r: Option<nat>)
    ensures r.Some? ==> r.value < |replies| && SubtreeContainsHash(replies[r.value], focus)
    ensures forall i :: 0 <= i < (if r.Some? then r.value else |replies|) ==>
      !SubtreeContainsHash(replies[i], focus)
  {
    if replies == [] then None
    else if SubtreeContainsHash(replies[0], focus) then Some(0)
    else match FocusIndex(replies[1..], focus)
      case None => None
      case Some(i) => Some(i + 1)
  }

  /** An absent focus is an empty string: the code only tests it for truth. */
  function FocusBranch(c: Cast, focus: JsString): (r: Option<nat>)
    ensures r.Some? ==> r.value < |c.replies| && SubtreeContainsHash(c.replies[r.value], focus)
  {
    if focus == [] then None else FocusIndex(c.replies, focus)
  }

  /** The chain ends here: no replies, or no room and no focus below. */
  predicate Ends(c: Cast, focus: JsString, room: int) {
    c.replies == [] || (room <= 0 && FocusBranch(c, focus).None?)
  }

  function Next(c: Cast, focus: JsString): (i: nat)
    requires c.replies != []
    ensures i < |c.replies|
  {
    match FocusBranch(c, focus) case Some(i) => i case None => 0
  }

  /** Where the chain below `c` goes, `room` casts short of the limit. */
  function ChainPath(c: Cast, focus: JsString, room: int): (p: seq<nat>)
    ensures IsPath(c, p)
  {
    if Ends(c, focus, room) then [] else
      var i := Next(c, focus);
      [i] + ChainPath(c.replies[i], focus, room - 1)
  }

  /** The casts along a path, top-down. */
  function Along(c: Cast, p: seq<nat>): (chain: seq<Cast>)
    requires IsPath(c, p)
    ensures |chain| == |p| + 1
    decreases |p|
  {
    if p == [] then [c] else [c] + Along(c.replies[p[0]], p[1..])
  }

  /** How far down the topmost chain cast with an omitted reply is. */
  function HiddenDepth(c: Cast, focus: JsString, room: int): Option<nat> {
    if c.replies == [] then None
    else if (room <= 0 && FocusBranch(c, focus).None?) || |c.replies| > 1 then Some(0)
    else match HiddenDepth(c.replies[Next(c, focus)], focus, room - 1)
      case None => None
      case Some(k) => Some(k + 1)
  }

  // ---------------------------------------------------------------------
  // The loop
  // ---------------------------------------------------------------------

  lemma {:induction false} HiddenWithinChain(c: Cast, focus: JsString, room: int)
    ensures HiddenDepth(c, focus, room).Some? ==>
      HiddenDepth(c, focus, room).value <= |ChainPath(c, focus, room)|
  {
    if !Ends(c, focus, room) {
      HiddenWithinChain(c.replies[Next(c, focus)], focus, room - 1);
    }
  }

  function ContinueFrom(c: Cast, focus: JsString, room: int): Option<Cast> {
    HiddenWithinChain(c, focus, room);
    match HiddenDepth(c, focus, room)
    case None => None
    case Some(k) => Some(Along(c, ChainPath(c, focus, room))[k])
  }

  /** `selectReplyChain`. */
  method SelectReplyChain(root: Cast, focusHash: JsString, maxLength: int := MAX_INLINE_CHAIN)
    returns (chain: seq<Cast>, continueFrom: Option<Cast>)
    ensures chain == Along(root, ChainPath(root, focusHash, maxLength - 1))
    ensures continueFrom == ContinueFrom(root, focusHash, maxLength - 1)
  {
    chain := [root];
    continueFrom := None;
    var node := root;
    ghost var above: seq<Cast> := [];
    while |node.replies| > 0
      invariant chain == above + [node]
      invariant IsRest(root, focusHash, maxLength, above, node, continueFrom)
      decreases node
    {
      var children := node.replies;
      var focusBranch := if focusHash != [] then FocusIndex(children, focusHash) else None;
      if |chain| >= maxLength && focusBranch.None? {
        if continueFrom.None? {
          continueFrom := Some(node);
        }
        break;
      }
      StepDown(root, focusHash, maxLength, above, node, continueFrom);
      if |children| > 1 && continueFrom.None? {
        continueFrom := Some(node);
      }
      above := chain;
      node := if focusBranch.Some? then children[focusBranch.value] else children[0];
      chain := chain + [node];
    }
  }

  /** With `above` shown and `node` next, the whole answer is what is left to find from `node` on. */
  predicate IsRest(root: Cast, focus: JsString, maxLength: int, above: seq<Cast>, node: Cast,
                   continueFrom: Option<Cast>)
  {
    var room := maxLength - |above| - 1;
    Along(root, ChainPath(root, focus, maxLength - 1)) == above + Along(node, ChainPath(node, focus, room)) &&
    ContinueFrom(root, focus, maxLength - 1) ==
      (if continueFrom.Some? then continueFrom else ContinueFrom(node, focus, room))
  }

  lemma StepDown(root: Cast, focus: JsString, maxLength: int, above: seq<Cast>, node: Cast,
                 continueFrom: Option<Cast>)
    requires IsRest(root, focus, maxLength, above, node, continueFrom)
    requires !Ends(node, focus, maxLength - |above| - 1)
    ensures IsRest(root, focus, maxLength, above + [node], node.replies[Next(node, focus)],
                   if |node.replies| > 1 && continueFrom.None? then Some(node) else continueFrom)
  {
    var room := maxLength - |above| - 1;
    var next := node.replies[Next(node, focus)];
    RestOfChain(node, focus, room);
    assert above + ([node] + Along(next, ChainPath(next, focus, room - 1)))
        == above + [node] + Along(next, ChainPath(next, focus, room - 1));
  }

  /** One turn that goes on: the rest of the chain hangs below the reply taken. */
  lemma RestOfChain(c: Cast, focus: JsString, room: int)
    requires !Ends(c, focus, room)
    ensures var next := c.replies[Next(c, focus)];
      Along(c, ChainPath(c, focus, room)) == [c] + Along(next, ChainPath(next, focus, room - 1)) &&
      ContinueFrom(c, focus, room) ==
        if |c.replies| > 1 then Some(c) else ContinueFrom(next, focus, room - 1)
  {
    var next := c.replies[Next(c, focus)];
    assert ChainPath(c, focus, room)[1..] == ChainPath(next, focus, room - 1);
  }

  // ---------------------------------------------------------------------
  // What the chain shows and what it leaves out
  // ---------------------------------------------------------------------

  /** Each cast of the chain replies to the one before, from the root down. */
  lemma {:induction false} ChainGoesDown(c: Cast, p: seq<nat>, i: nat)
    requires IsPath(c, p) && i <= |p|
    ensures IsPath(c, p[..i]) && Along(c, p)[i] == At(c, p[..i])
    ensures Along(c, p)[0] == c
    ensures i < |p| ==> p[i] < |Along(c, p)[i].replies| && Along(c, p)[i + 1] == Along(c, p)[i].replies[p[i]]
    decreases |p|
  {
    if i > 0 {
      ChainGoesDown(c.replies[p[0]], p[1..], i - 1);
      assert p[..i][1..] == p[1..][..i - 1];
    }
  }

  predicate Shows(chain: seq<Cast>, hash: JsString) {
    exists i :: 0 <= i < |chain| && chain[i].hash == hash
  }

  /** The focus is shown whenever the tree holds it. */
  lemma {:induction false} FocusIsShown(c: Cast, focus: JsString, room: int)
    requires focus != [] && SubtreeContainsHash(c, focus)
    ensures Shows(Along(c, ChainPath(c, focus, room)), focus)
    decreases c
  {
    var chain := Along(c, ChainPath(c, focus, room));
    if c.hash == focus {
      assert chain[0].hash == focus;
    } else {
      var next := c.replies[Next(c, focus)];
      FocusIsShown(next, focus, room - 1);
      RestOfChain(c, focus, room);
      var rest := Along(next, ChainPath(next, focus, room - 1));
      var i :| 0 <= i < |rest| && rest[i].hash == focus;
      assert chain[i + 1].hash == focus;
    }
  }

  /** Only casts on the way to the focus stand at or past the limit. */
  lemma {:induction false} LimitIsPassedOnlyForTheFocus(c: Cast, focus: JsString, room: int, i: nat)
    requires 1 <= i < |Along(c, ChainPath(c, focus, room))| && i > room
    ensures focus != [] && SubtreeContainsHash(Along(c, ChainPath(c, focus, room))[i], focus)
    decreases c
  {
    RestOfChain(c, focus, room);
    if i > 1 {
      LimitIsPassedOnlyForTheFocus(c.replies[Next(c, focus)], focus, room - 1, i - 1);
    }
  }

  /** With nothing hidden, every position of the tree is on the chain. */
  lemma {:induction false} NothingHiddenMeansWholeTree(c: Cast, focus: JsString, room: int, p: seq<nat>)
    requires HiddenDepth(c, focus, room).None? && IsPath(c, p)
    ensures p <= ChainPath(c, focus, room)
    decreases c
  {
    if p != [] {
      var next := c.replies[Next(c, focus)];
      NothingHiddenMeansWholeTree(next, focus, room - 1, p[1..]);
      assert p == [p[0]] + p[1..];
    }
  }

  /** Otherwise every omitted position lies strictly below the cast to continue from. */
  lemma {:induction false} OmittedLieBelow(c: Cast, focus: JsString, room: int, p: seq<nat>)
    requires HiddenDepth(c, focus, room).Some? && IsPath(c, p) && !(p <= ChainPath(c, focus, room))
    ensures var k := HiddenDepth(c, focus, room).value;
      k <= |ChainPath(c, focus, room)| && ChainPath(c, focus, room)[..k] < p
    decreases c
  {
    if HiddenDepth(c, focus, room) != Some(0) {
      var next := c.replies[Next(c, focus)];
      var k := HiddenDepth(c, focus, room).value;
      assert p == [p[0]] + p[1..];
      OmittedLieBelow(next, focus, room - 1, p[1..]);
      assert ChainPath(c, focus, room)[..k] == [0] + ChainPath(next, focus, room - 1)[..k - 1];
    }
  }

  /** The cast to continue from does have a reply that is left out: its `j`-th. */
  lemma {:induction false} HiddenOmitsAReply(c: Cast, focus: JsString, room: int) returns (j: nat)
    requires HiddenDepth(c, focus, room).Some?
    ensures var k, path := HiddenDepth(c, focus, room).value, ChainPath(c, focus, room);
      k <= |path| && IsPath(c, path[..k] + [j]) && !(path[..k] + [j] <= path)
    decreases c
  {
    var k, path := HiddenDepth(c, focus, room).value, ChainPath(c, focus, room);
    if k == 0 {
      j := if Ends(c, focus, room) then 0 else if path[0] == 0 then 1 else 0;
      assert path[..0] + [j] == [j];
    } else {
      var next := c.replies[Next(c, focus)];
      j := HiddenOmitsAReply(next, focus, room - 1);
      var q := path[..k] + [j];
      var below := ChainPath(next, focus, room - 1);
      assert path[1..] == below;
      assert q[1..] == below[..k - 1] + [j];
      assert |q| <= |path| ==> path[..|q|][1..] == below[..|q| - 1];
    }
  }

  /** Every chain cast above it has a single reply, so it is the topmost with one left out. */
  lemma {:induction false} NothingOmittedAbove(c: Cast, focus: JsString, room: int, i: nat)
    requires HiddenDepth(c, focus, room).Some? ==> i < HiddenDepth(c, focus, room).value
    requires HiddenDepth(c, focus, room).None? ==> i < |ChainPath(c, focus, room)|
    ensures i < |ChainPath(c, focus, room)| && |Along(c, ChainPath(c, focus, room))[i].replies| == 1
    decreases c
  {
    RestOfChain(c, focus, room);
    if i > 0 {
      NothingOmittedAbove(c.replies[Next(c, focus)], focus, room - 1, i - 1);
    }
  }

  /** The reply taken below `c`: the first whose subtree holds the focus, or else the first of all. */
  ghost predicate IsReplyTaken(c: Cast, focus: JsString, i: nat) {
    i < |c.replies| &&
    if focus != [] && exists j :: 0 <= j < |c.replies| && SubtreeContainsHash(c.replies[j], focus) then
      SubtreeContainsHash(c.replies[i], focus) &&
      forall j :: 0 <= j < i ==> !SubtreeContainsHash(c.replies[j], focus)
    else i == 0
  }

  lemma NextIsTaken(c: Cast, focus: JsString)
    requires c.replies != []
    ensures IsReplyTaken(c, focus, Next(c, focus))
  {
  }

  /** At each level the chain takes the branch with the focus, or else the first reply. */
  lemma {:induction false} ChainTakesTheReply(c: Cast, focus: JsString, room: int, k: nat)
    requires k < |ChainPath(c, focus, room)|
    ensures var p := ChainPath(c, focus, room);
      IsPath(c, p[..k]) && IsReplyTaken(At(c, p[..k]), focus, p[k])
    decreases c
  {
    var p, next := ChainPath(c, focus, room), c.replies[Next(c, focus)];
    NextIsTaken(c, focus);
    if k > 0 {
      ChainTakesTheReply(next, focus, room - 1, k - 1);
      assert p[1..] == ChainPath(next, focus, room - 1);
      assert p[..k][1..] == p[1..][..k - 1];
    }
  }

  /** No reply of this cast leads to the focus. */
  ghost predicate NoneHolds(c: Cast, focus: JsString) {
    focus == [] || forall j :: 0 <= j < |c.replies| ==> !SubtreeContainsHash(c.replies[j], focus)
  }

  /**
   * The chain ends only at a cast without replies, or with the limit reached
   * and the focus not below: `room` more casts after the first are always shown.
   */
  lemma {:induction false} ChainEndsOnlyAtTheLimit(c: Cast, focus: JsString, room: int)
    ensures var p := ChainPath(c, focus, room);
      At(c, p).replies == [] || (|p| >= room && NoneHolds(At(c, p), focus))
    decreases c
  {
    if !Ends(c, focus, room) {
      ChainEndsOnlyAtTheLimit(c.replies[Next(c, focus)], focus, room - 1);
      assert ChainPath(c, focus, room)[1..] == ChainPath(c.replies[Next(c, focus)], focus, room - 1);
    }
  }

  lemma {:induction false} ChainStopsAtTheLimit(c: Cast, room: int)
    ensures |ChainPath(c, [], room)| <= if room > 0 then room else 0
    decreases c
  {
    if !Ends(c, [], room) {
      ChainStopsAtTheLimit(c.replies[0], room - 1);
    }
  }

  /** By default three casts are shown, fewer only if there are no more, and without a focus no more than three. */
  lemma ThreeCastsByDefault(root: Cast, focus: JsString)
    ensures var p := ChainPath(root, focus, MAX_INLINE_CHAIN - 1);
      (|Along(root, p)| >= 3 || At(root, p).replies == []) && (focus == [] ==> |Along(root, p)| <= 3)
  {
    ChainEndsOnlyAtTheLimit(root, focus, MAX_INLINE_CHAIN - 1);
    ChainStopsAtTheLimit(root, MAX_INLINE_CHAIN - 1);
  }
}
