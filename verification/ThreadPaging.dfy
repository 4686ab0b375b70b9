/**
 * Paging a thread by its own cursors: where each page leaves them, and that
 * paging back reaches the first message and paging forward the live tail
 * (farcaster-audio/hooks/useConversation.ts, farcaster-audio/stores/messageStore.ts).
 */
module ThreadPaging {
  import opened Options
  import opened Messages
  import opened Threads
  import opened Conversation
  import opened ThreadRuns

  /** The cursor the server gives with a page that starts at `a`. */
  predicate IsOlderEdge(cursor: Option<Cursor>, a: nat) {
    if cursor == None then a == 0 else a > 0 && cursor.value.position == a
  }

  /** The cursor the server gives with a page that ends at `b` of the `seen` messages there are. */
  predicate IsNewerEdge(cursor: Option<Cursor>, b: nat, seen: nat) {
    if cursor == None then b == seen else b < seen && cursor.value.position == b
  }

  // ---------------------------------------------------------------------
  // One page
  // ---------------------------------------------------------------------

  /** The page of non-empty history just below the window, fetched by the window's older cursor. */
  ghost predicate IsOlderPage(w: World, step: Step) {
    step.LoadOlder? && Honest(w, step) && step.a < step.b &&
    w.thread.value.olderCursor.Some? && w.thread.value.olderCursor.value.position == step.b &&
    IsOlderEdge(step.page.nextCursor, step.a)
  }

  /**
   * An older page fetched by a cursor at the window's lower edge moves the
   * edge, and the cursor with it, to where the page starts: the cursor is null
   * exactly when the page starts the timeline. Nothing changes at the other end.
   */
  lemma OlderPageMovesTheEdge(w: World, step: Step, lo: nat, hi: nat)
    requires ValidTimeline(w.timeline) && ThreadOk(w.thread) && w.thread.Some? && WindowAt(w, lo, hi)
    requires IsOlderPage(w, step) && IsOlderEdge(w.thread.value.olderCursor, lo)
    ensures var next := Next(w, step);
      next.timeline == w.timeline && ThreadOk(next.thread) && next.thread.Some? && WindowAt(next, step.a, hi) &&
      IsOlderEdge(next.thread.value.olderCursor, step.a) && next.thread.value.hasOlder == (step.a > 0) &&
      next.thread.value.newerCursor == w.thread.value.newerCursor &&
      next.thread.value.syncedAt == w.thread.value.syncedAt && next.thread.value.isLoaded == w.thread.value.isLoaded
  {
    ApplyKeepsThreadOk(w.thread, SetPage(step.page, OlderPage, step.now));
    var next := Next(w, step);
    TouchingMergeKeepsCovers(w.timeline, w.thread.value, next.thread.value, step.page.items, w.pushed,
                             lo, hi, step.a, step.b);
  }

  /** The page of newer messages just above the window, fetched by the window's newer cursor. */
  ghost predicate IsNewerPage(w: World, step: Step) {
    step.LoadNewer? && Honest(w, step) && step.a < step.b &&
    w.thread.value.newerCursor.Some? && w.thread.value.newerCursor.value.position == step.a &&
    IsNewerEdge(step.page.nextNewerCursor, step.b, step.seen)
  }

  /**
   * A newer page moves the upper edge and the newer cursor to where the page
   * ends; at the tail of that moment the cursor is null and the window is
   * stamped synced.
   */
  lemma NewerPageMovesTheEdge(w: World, step: Step, lo: nat, hi: nat)
    requires ValidTimeline(w.timeline) && ThreadOk(w.thread) && w.thread.Some? && WindowAt(w, lo, hi)
    requires IsNewerPage(w, step) && step.a == hi
    ensures var next := Next(w, step);
      next.timeline == w.timeline && ThreadOk(next.thread) && next.thread.Some? && WindowAt(next, lo, step.b) &&
      IsNewerEdge(next.thread.value.newerCursor, step.b, step.seen) &&
      next.thread.value.hasNewer == next.thread.value.isDetached == (step.b < step.seen) &&
      next.thread.value.olderCursor == w.thread.value.olderCursor &&
      next.thread.value.isLoaded == w.thread.value.isLoaded &&
      (step.b == step.seen ==> next.thread.value.syncedAt == Some(step.now) && next.syncedLength == step.seen) &&
      (step.b < step.seen ==> next.thread.value.syncedAt == w.thread.value.syncedAt)
  {
    ApplyKeepsThreadOk(w.thread, SetPage(step.page, NewerPage, step.now));
    var next := Next(w, step);
    TouchingMergeKeepsCovers(w.timeline, w.thread.value, next.thread.value, step.page.items, w.pushed,
                             lo, hi, step.a, step.b);
  }

  /** A reload shows exactly the latest page and the unconfirmed rows, both cursors at its ends, synced now. */
  lemma ReloadSetsTheEdges(w: World, step: Step)
    requires Inv(w) && step.Reload? && Honest(w, step) && IsOlderEdge(step.page.nextCursor, step.a)
    ensures var next := Next(w, step);
      next.timeline == w.timeline && ThreadOk(next.thread) && next.thread.Some? &&
      WindowAt(next, step.a, step.seen) && next.pushed == {} &&
      IsOlderEdge(next.thread.value.olderCursor, step.a) && next.thread.value.hasOlder == (step.a > 0) &&
      next.thread.value.newerCursor == None && !next.thread.value.isDetached && next.thread.value.isLoaded &&
      next.thread.value.syncedAt == Some(step.now) && next.syncedLength == step.seen
  {
    var next := Next(w, step);
    ApplyKeepsThreadOk(w.thread, SetPage(step.page, LatestPage, step.now));
    MergeIntoPending(w.timeline, OrEmpty(w.thread).messages, step.page.items, step.a, step.seen);
    assert CoversAt(next, step.a, step.seen);
  }

  /** A jump that shares no row shows exactly the page, both cursors at its ends, synced if it reaches the tail. */
  lemma DisjointJumpSetsTheEdges(w: World, step: Step)
    requires Inv(w) && step.Jump? && Honest(w, step) && !Joins(w.thread, step.page.items)
    requires IsOlderEdge(step.page.nextCursor, step.a) && IsNewerEdge(step.page.nextNewerCursor, step.b, step.seen)
    ensures var next := Next(w, step);
      next.thread.Some? && WindowAt(next, step.a, step.b) && next.pushed == {} &&
      IsOlderEdge(next.thread.value.olderCursor, step.a) &&
      IsNewerEdge(next.thread.value.newerCursor, step.b, step.seen) && next.thread.value.isLoaded &&
      next.thread.value.syncedAt == if step.b == step.seen then Some(step.now) else None
  {
    DisjointJumpCovers(w.timeline, OrEmpty(w.thread), step.page, step.now, step.a, step.b, step.seen);
  }

  /** A poll that is merged stamps the window synced. */
  lemma MergedPollSyncs(w: World, step: Step)
    requires step.Poll? && Honest(w, step)
    ensures var next := Next(w, step);
      if TakesPushes(w.thread) && !ShouldReloadLatest(w.thread, step.recent, step.now) then
        next.thread.Some? && next.thread.value.syncedAt == Some(step.now) && next.syncedLength == step.seen &&
        next.thread.value.olderCursor == w.thread.value.olderCursor &&
        next.thread.value.newerCursor == w.thread.value.newerCursor &&
        next.thread.value.messages == MergeMessages(w.thread.value.messages, step.recent)
      else next == w
  {
  }

  // ---------------------------------------------------------------------
  // Paging back
  // ---------------------------------------------------------------------

  /** Every step is the next older page, fetched by the cursor the window then has. */
  ghost predicate PagesBack(w: World, steps: seq<Step>) {
    if steps == [] then true
    else
      PagesBack(w, steps[..|steps|-1]) && Run(w, steps[..|steps|-1]).thread.Some? &&
      IsOlderPage(Run(w, steps[..|steps|-1]), steps[|steps|-1])
  }

  /** After any number of older pages the cursor is at the lower edge, and each page has moved it. */
  lemma {:induction false} PagingBackMovesTheEdge(w: World, steps: seq<Step>, lo: nat, hi: nat) returns (edge: nat)
    requires ValidTimeline(w.timeline) && ThreadOk(w.thread) && w.thread.Some? && WindowAt(w, lo, hi)
    requires IsOlderEdge(w.thread.value.olderCursor, lo) && PagesBack(w, steps)
    ensures edge + |steps| <= lo
    ensures var after := Run(w, steps);
      after.timeline == w.timeline && ThreadOk(after.thread) && after.thread.Some? && WindowAt(after, edge, hi) &&
      IsOlderEdge(after.thread.value.olderCursor, edge)
  {
    if steps == [] {
      edge := lo;
    } else {
      var front := PagingBackMovesTheEdge(w, steps[..|steps|-1], lo, hi);
      OlderPageMovesTheEdge(Run(w, steps[..|steps|-1]), steps[|steps|-1], front, hi);
      edge := steps[|steps|-1].a;
    }
  }

  function ServerRow(key: Key): Message {
    Message(key.id, [], 1, [], key.sentAt, [], None, None, false, false, None)
  }

  /** While the cursor is not null there is an older page to fetch by it. */
  lemma OlderPageExists(w: World, lo: nat, hi: nat) returns (step: Step)
    requires ValidTimeline(w.timeline) && w.thread.Some? && WindowAt(w, lo, hi)
    requires IsOlderEdge(w.thread.value.olderCursor, lo) && w.thread.value.olderCursor != None
    ensures IsOlderPage(w, step)
  {
    var row := ServerRow(w.timeline[lo-1]);
    var older := if lo == 1 then None else Some(Cursor(lo - 1));
    step := LoadOlder(MessagesPage([row], older, None), lo - 1, lo, |w.timeline|, 0);
    OneItem(w.timeline, [row], lo - 1, row);
  }

  /**
   * After a reload, paging back by the current cursor takes at most as many
   * pages as there are messages before the window; it can go on as long as the
   * cursor is not null; and once it is, everything from the first message to
   * the tail of the reload is shown.
   */
  lemma PagingBackReachesTheStart(w: World, reload: Step, back: seq<Step>)
    requires Inv(w) && reload.Reload? && Honest(w, reload) && IsOlderEdge(reload.page.nextCursor, reload.a)
    requires PagesBack(Next(w, reload), back)
    ensures |back| <= reload.a
    ensures var after := Run(Next(w, reload), back);
      after.thread.Some? &&
      (after.thread.value.olderCursor != None ==> exists step :: IsOlderPage(after, step)) &&
      (after.thread.value.olderCursor == None <==>
        forall k: nat | k < reload.seen :: k < |after.timeline| && ShowsAt(after, k)) &&
      after.thread.value.syncedAt == Some(reload.now)
  {
    var start := Next(w, reload);
    ReloadSetsTheEdges(w, reload);
    var edge := PagingBackMovesTheEdge(start, back, reload.a, reload.seen);
    var after := Run(start, back);
    PagingBackKeepsOthers(start, back);
    if after.thread.value.olderCursor != None {
      var step := OlderPageExists(after, edge, reload.seen);
      ShownIsCovered(after, edge, reload.seen, 0);
    } else {
      forall k: nat | k < reload.seen ensures k < |after.timeline| && ShowsAt(after, k) {
        ShownIsCovered(after, edge, reload.seen, k);
      }
    }
  }

  lemma {:induction false} PagingBackKeepsOthers(w: World, back: seq<Step>)
    requires w.thread.Some? && PagesBack(w, back)
    ensures Run(w, back).thread.Some?
    ensures Run(w, back).thread.value.syncedAt == w.thread.value.syncedAt
    ensures w.pushed == {} ==> Run(w, back).pushed == {}
  {
    if back != [] {
      PagingBackKeepsOthers(w, back[..|back|-1]);
    }
  }

  // ---------------------------------------------------------------------
  // Paging forward
  // ---------------------------------------------------------------------

  ghost predicate PagesForward(w: World, steps: seq<Step>) {
    if steps == [] then true
    else
      PagesForward(w, steps[..|steps|-1]) && Run(w, steps[..|steps|-1]).thread.Some? &&
      IsNewerPage(Run(w, steps[..|steps|-1]), steps[|steps|-1]) && steps[|steps|-1].seen == |w.timeline|
  }

  predicate IsAtNewerEdge(w: World, hi: nat) {
    w.thread.Some? && IsNewerEdge(w.thread.value.newerCursor, hi, |w.timeline|)
  }

  lemma {:induction false} PagingForwardMovesTheEdge(w: World, steps: seq<Step>, lo: nat, hi: nat) returns (edge: nat)
    requires ValidTimeline(w.timeline) && ThreadOk(w.thread) && w.thread.Some? && WindowAt(w, lo, hi)
    requires IsAtNewerEdge(w, hi) && PagesForward(w, steps)
    ensures hi + |steps| <= edge <= |w.timeline|
    ensures var after := Run(w, steps);
      after.timeline == w.timeline && ThreadOk(after.thread) && after.thread.Some? && WindowAt(after, lo, edge) &&
      IsAtNewerEdge(after, edge) && (steps != [] && edge == |w.timeline| ==> after.thread.value.syncedAt.Some?)
  {
    if steps == [] {
      edge := hi;
    } else {
      var front := PagingForwardMovesTheEdge(w, steps[..|steps|-1], lo, hi);
      NewerPageMovesTheEdge(Run(w, steps[..|steps|-1]), steps[|steps|-1], lo, front);
      edge := steps[|steps|-1].b;
    }
  }

  lemma NewerPageExists(w: World, lo: nat, hi: nat) returns (step: Step)
    requires ValidTimeline(w.timeline) && w.thread.Some? && WindowAt(w, lo, hi)
    requires IsAtNewerEdge(w, hi) && w.thread.value.newerCursor != None
    ensures IsNewerPage(w, step) && step.seen == |w.timeline|
  {
    var row := ServerRow(w.timeline[hi]);
    var newer := if hi + 1 == |w.timeline| then None else Some(Cursor(hi + 1));
    step := LoadNewer(MessagesPage([row], None, newer), hi, hi + 1, |w.timeline|, 0);
    OneItem(w.timeline, [row], hi, row);
  }

  /**
   * After a jump that replaced the window, paging forward by the current
   * cursor, while nothing new arrives, takes at most as many pages as there
   * are messages after the window; it can go on as long as the cursor is not
   * null; and once it is, the window is synced and shows everything from the
   * jump's first message to the newest.
   */
  lemma PagingForwardReachesTheTail(w: World, jump: Step, forward: seq<Step>)
    requires Inv(w) && jump.Jump? && Honest(w, jump) && !Joins(w.thread, jump.page.items)
    requires IsOlderEdge(jump.page.nextCursor, jump.a) && IsNewerEdge(jump.page.nextNewerCursor, jump.b, jump.seen)
    requires jump.seen == |w.timeline| && PagesForward(Next(w, jump), forward)
    ensures jump.b + |forward| <= |w.timeline|
    ensures var after := Run(Next(w, jump), forward);
      after.thread.Some? && after.timeline == w.timeline &&
      (after.thread.value.newerCursor != None ==> exists step :: IsNewerPage(after, step)) &&
      (after.thread.value.newerCursor == None ==>
        after.thread.value.syncedAt.Some? &&
        forall k: nat | jump.a <= k < |w.timeline| :: ShowsAt(after, k))
  {
    var start := Next(w, jump);
    ApplyKeepsThreadOk(w.thread, SetPage(jump.page, AnchorPage, jump.now));
    DisjointJumpSetsTheEdges(w, jump);
    var edge := PagingForwardMovesTheEdge(start, forward, jump.a, jump.b);
    var after := Run(start, forward);
    if after.thread.value.newerCursor != None {
      var step := NewerPageExists(after, jump.a, edge);
    } else {
      forall k: nat | jump.a <= k < |w.timeline| ensures ShowsAt(after, k) {
        ShownIsCovered(after, jump.a, edge, k);
      }
    }
  }
}
