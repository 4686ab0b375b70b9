/**
 * One open thread against the server's timeline: page loads in both
 * directions, jumps, `/recent` polls and local sends, in any order
 * (farcaster-audio/hooks/useConversation.ts, farcaster-audio/stores/messageStore.ts).
 */
module Conversation {
  import opened JsStrings
  import opened Options
  import opened Messages
  import opened Threads

  const THREAD_SYNC_STALE_MS := 60_000

  /** `shouldReloadLatest`. */
  predicate ShouldReloadLatest(thread: Option<ThreadState>, recent: seq<Message>, now: int) {
    if thread == None || !thread.value.isLoaded || thread.value.isDetached then false
    else if thread.value.syncedAt == None || now - thread.value.syncedAt.value > THREAD_SYNC_STALE_MS then true
    else if recent == [] then false
    else !SharesId(thread.value.messages, recent)
  }

  // ---------------------------------------------------------------------
  // The server's side
  // ---------------------------------------------------------------------

  /** What identifies and orders a message; its text and reactions may change. */
  datatype Key = Key(id: MessageId, sentAt: int)

  /** Oldest first; grows only at the new end. */
  type Timeline = seq<Key>

  predicate KeyNewer(a: Key, b: Key) {
    a.sentAt > b.sentAt || (a.sentAt == b.sentAt && Less(b.id, a.id))
  }

  predicate ValidTimeline(t: Timeline) {
    (forall i, j :: 0 <= i < j < |t| ==> KeyNewer(t[j], t[i])) &&
    (forall i, j :: 0 <= i < j < |t| ==> t[i].id != t[j].id)
  }

  function KeyOf(m: Message): Key {
    Key(m.id, m.sentAt)
  }

  ghost function Slice(t: Timeline, lo: nat, hi: nat): set<Key>
    requires hi <= |t|
  {
    set i | lo <= i < hi :: t[i]
  }

  ghost function ItemKeys(items: seq<Message>): set<Key> {
    set m | m in items :: KeyOf(m)
  }

  /** The rows of a thread that came from the server. */
  ghost function Confirmed(rows: seq<Message>): set<Key> {
    set m | m in rows && m.sendState == None :: KeyOf(m)
  }

  /** `items` are the messages `t[a..b]`, in whatever order, as of a timeline of length `seen`. */
  ghost predicate IsSlice(t: Timeline, items: seq<Message>, a: nat, b: nat, seen: nat) {
    a <= b <= seen <= |t| && ItemKeys(items) == Slice(t, a, b)
  }

  /** A null older cursor means the page starts the timeline; any other lies on the page. */
  predicate OlderCursorOk(cursor: Option<Cursor>, a: nat, b: nat) {
    if cursor == None then a == 0 else a <= cursor.value.position <= b
  }

  /** A null newer cursor means the page ended at the live tail; any other lies on the page. */
  predicate NewerCursorOk(cursor: Option<Cursor>, a: nat, b: nat, seen: nat) {
    if cursor == None then b == seen else a <= cursor.value.position <= b
  }

  // ---------------------------------------------------------------------
  // The window invariant
  // ---------------------------------------------------------------------

  /** The messages at these positions. */
  ghost function KeysAt(t: Timeline, positions: set<nat>): set<Key>
    requires forall p :: p in positions ==> p < |t|
  {
    set p | p in positions :: t[p]
  }

  ghost predicate ApartFrom(t: Timeline, pushed: set<nat>, lo: nat, hi: nat) {
    forall p :: p in pushed ==> p < |t| && !(lo <= p < hi)
  }

  /**
   * The thread's server messages are `t[lo..hi]` and, apart from those, the
   * single messages that a push or a send's echo brought, at the positions
   * `pushed`. Both cursors lie at or inside the window's edges, so the next
   * page in either direction touches it.
   */
  ghost predicate Covers(t: Timeline, thread: ThreadState, pushed: set<nat>, lo: nat, hi: nat) {
    lo <= hi <= |t| && ApartFrom(t, pushed, lo, hi) &&
    Confirmed(thread.messages) == Slice(t, lo, hi) + KeysAt(t, pushed) &&
    OlderCursorOk(thread.olderCursor, lo, hi) &&
    (thread.newerCursor.Some? ==> lo <= thread.newerCursor.value.position <= hi)
  }

  /** What is left of the pushed positions once a page has brought `t[a..b]`. */
  function Unpaged(pushed: set<nat>, a: nat, b: nat): set<nat> {
    set p | p in pushed && !(a <= p < b)
  }

  ghost predicate IsContiguous(t: Timeline, rows: seq<Message>) {
    exists lo: nat, hi: nat :: lo <= hi <= |t| && Confirmed(rows) == Slice(t, lo, hi)
  }

  predicate SharesConfirmed(rows: seq<Message>, items: seq<Message>) {
    exists m | m in items :: exists l | l in rows :: l.id == m.id && l.sendState == None
  }

  // ---------------------------------------------------------------------
  // Merging slices
  // ---------------------------------------------------------------------

  lemma SameIdSameKey(t: Timeline, a: Key, b: Key)
    requires ValidTimeline(t) && a in t && b in t && a.id == b.id
    ensures a == b
  {
    var i :| 0 <= i < |t| && t[i] == a;
    var j :| 0 <= j < |t| && t[j] == b;
  }

  /** Merging a page adds exactly the page's messages to the confirmed rows. */
  lemma MergeAddsThePage(t: Timeline, rows: seq<Message>, items: seq<Message>)
    requires ValidTimeline(t) && IsWindow(rows)
    requires forall k :: k in Confirmed(rows) ==> k in t
    requires forall k :: k in ItemKeys(items) ==> k in t
    ensures Confirmed(MergeMessages(rows, items)) == Confirmed(rows) + ItemKeys(items)
  {
    var merged := MergeMessages(rows, items);
    MergeMessagesRows(rows, items);
    forall k | k in ItemKeys(items) ensures k in Confirmed(merged) {
      ItemIsShown(t, rows, items, k);
    }
    forall k | k in Confirmed(rows) ensures k in Confirmed(merged) {
      var row :| row in rows && row.sendState == None && KeyOf(row) == k;
      if row.id in Ids(items) {
        var y :| y in items && y.id == row.id;
        assert KeyOf(y) in ItemKeys(items);
        SameIdSameKey(t, k, KeyOf(y));
        ItemIsShown(t, rows, items, k);
      }
    }
    forall k | k in Confirmed(merged) ensures k in Confirmed(rows) + ItemKeys(items) {
      var x :| x in merged && x.sendState == None && KeyOf(x) == k;
      if x.id in Ids(items) {
        var y :| y in items && x == ToServerCopy(y);
        assert KeyOf(y) == k;
      }
    }
  }

  lemma ItemIsShown(t: Timeline, rows: seq<Message>, items: seq<Message>, k: Key)
    requires ValidTimeline(t) && IsWindow(rows)
    requires forall k :: k in ItemKeys(items) ==> k in t
    requires k in ItemKeys(items)
    ensures k in Confirmed(MergeMessages(rows, items))
  {
    MergeMessagesRows(rows, items);
    var merged := MergeMessages(rows, items);
    var y :| y in items && KeyOf(y) == k;
    assert y.id in Ids(items);
    var x :| x in merged && x.id == y.id;
    var z :| z in items && x == ToServerCopy(z);
    assert KeyOf(z) in ItemKeys(items);
    SameIdSameKey(t, k, KeyOf(z));
  }

  lemma SliceIsInTimeline(t: Timeline, lo: nat, hi: nat)
    requires lo <= hi <= |t|
    ensures forall k :: k in Slice(t, lo, hi) ==> k in t
  {
  }

  function Min(a: nat, b: nat): nat { if a <= b then a else b }

  function Max(a: nat, b: nat): nat { if a >= b then a else b }

  lemma TouchingSlicesJoin(t: Timeline, lo: nat, hi: nat, a: nat, b: nat)
    requires lo <= hi <= |t| && a <= b <= |t|
    requires a <= hi && lo <= b
    ensures Slice(t, lo, hi) + Slice(t, a, b) == Slice(t, Min(lo, a), Max(hi, b))
  {
  }

  /** Merging a touching page: the window grows to the union, with no gap. */
  lemma MergeTouchingPage(t: Timeline, rows: seq<Message>, items: seq<Message>,
                          lo: nat, hi: nat, a: nat, b: nat)
    requires ValidTimeline(t) && IsWindow(rows)
    requires lo <= hi <= |t| && Confirmed(rows) == Slice(t, lo, hi)
    requires a <= b <= |t| && ItemKeys(items) == Slice(t, a, b)
    requires a <= hi && lo <= b
    ensures Confirmed(MergeMessages(rows, items)) == Slice(t, Min(lo, a), Max(hi, b))
  {
    SliceIsInTimeline(t, lo, hi);
    SliceIsInTimeline(t, a, b);
    MergeAddsThePage(t, rows, items);
    TouchingSlicesJoin(t, lo, hi, a, b);
  }

  /** The same with pushed messages beside the window; those the page holds are now part of it. */
  lemma MergeBesidePushed(t: Timeline, rows: seq<Message>, items: seq<Message>, pushed: set<nat>,
                          lo: nat, hi: nat, a: nat, b: nat)
    requires ValidTimeline(t) && IsWindow(rows)
    requires lo <= hi <= |t| && ApartFrom(t, pushed, lo, hi)
    requires Confirmed(rows) == Slice(t, lo, hi) + KeysAt(t, pushed)
    requires a <= b <= |t| && ItemKeys(items) == Slice(t, a, b)
    ensures Confirmed(MergeMessages(rows, items))
      == Slice(t, lo, hi) + Slice(t, a, b) + KeysAt(t, Unpaged(pushed, a, b))
  {
    SliceIsInTimeline(t, lo, hi);
    SliceIsInTimeline(t, a, b);
    MergeAddsThePage(t, rows, items);
    PageAbsorbsPushed(t, pushed, a, b);
  }

  lemma PageAbsorbsPushed(t: Timeline, pushed: set<nat>, a: nat, b: nat)
    requires a <= b <= |t| && forall p :: p in pushed ==> p < |t|
    ensures KeysAt(t, pushed) + Slice(t, a, b) == KeysAt(t, Unpaged(pushed, a, b)) + Slice(t, a, b)
  {
    forall k | k in KeysAt(t, pushed) ensures k in KeysAt(t, Unpaged(pushed, a, b)) + Slice(t, a, b) {
      var p :| p in pushed && t[p] == k;
      assert p in Unpaged(pushed, a, b) || a <= p < b;
    }
  }

  lemma PendingIsUnconfirmed(rows: seq<Message>)
    ensures Confirmed(Pending(rows)) == {}
  {
  }

  lemma MergeIntoPending(t: Timeline, rows: seq<Message>, items: seq<Message>, a: nat, b: nat)
    requires ValidTimeline(t) && IsWindow(rows)
    requires a <= b <= |t| && ItemKeys(items) == Slice(t, a, b)
    ensures Confirmed(MergeMessages(Pending(rows), items)) == Slice(t, a, b)
    ensures Confirmed(MergeMessages([], items)) == Slice(t, a, b)
  {
    PendingKeepsWindow(rows);
    PendingIsUnconfirmed(rows);
    MergeTouchingPage(t, Pending(rows), items, a, a, a, b);
    MergeTouchingPage(t, [], items, a, a, a, b);
  }

  /** A shared confirmed row is a shared timeline position. */
  lemma SharedRowMeansOverlap(t: Timeline, rows: seq<Message>, items: seq<Message>,
                              lo: nat, hi: nat, a: nat, b: nat)
    requires ValidTimeline(t)
    requires lo <= hi <= |t| && Confirmed(rows) == Slice(t, lo, hi)
    requires a <= b <= |t| && ItemKeys(items) == Slice(t, a, b)
    requires SharesConfirmed(rows, items)
    ensures a < hi && lo < b
  {
    var m, l :| m in items && l in rows && l.id == m.id && l.sendState == None;
    assert KeyOf(m) in ItemKeys(items) && KeyOf(l) in Confirmed(rows);
    var i :| a <= i < b && t[i] == KeyOf(m);
    var j :| lo <= j < hi && t[j] == KeyOf(l);
  }

  lemma DisjointSlicesLeaveAGap(t: Timeline, lo: nat, hi: nat, a: nat, b: nat)
    requires ValidTimeline(t)
    requires lo < hi <= |t| && a < b <= |t|
    requires hi < a || b < lo
    ensures forall x: nat, y: nat :: x <= y <= |t| ==> Slice(t, lo, hi) + Slice(t, a, b) != Slice(t, x, y)
  {
    forall x: nat, y: nat | x <= y <= |t|
      ensures Slice(t, lo, hi) + Slice(t, a, b) != Slice(t, x, y)
    {
      var union := Slice(t, lo, hi) + Slice(t, a, b);
      var gap := if hi < a then hi else b;
      assert t[lo] in union && t[a] in union && t[gap] !in union;
      InSlice(t, x, y, lo);
      InSlice(t, x, y, a);
      InSlice(t, x, y, gap);
    }
  }

  lemma InSlice(t: Timeline, x: nat, y: nat, i: nat)
    requires ValidTimeline(t) && x <= y <= |t| && i < |t|
    ensures t[i] in Slice(t, x, y) <==> x <= i < y
  {
  }

  // ---------------------------------------------------------------------
  // One page on one window
  // ---------------------------------------------------------------------

  /** The page overlaps the window or continues it without a gap. */
  predicate Touches(lo: nat, hi: nat, a: nat, b: nat) {
    a <= hi && lo <= b
  }

  lemma UnpagedIsApart(t: Timeline, pushed: set<nat>, lo: nat, hi: nat, a: nat, b: nat)
    requires ApartFrom(t, pushed, lo, hi) && Touches(lo, hi, a, b)
    ensures ApartFrom(t, Unpaged(pushed, a, b), Min(lo, a), Max(hi, b))
  {
  }

  /** Whatever merges a touching page and keeps the cursors inside keeps the window a window. */
  lemma TouchingMergeKeepsCovers(t: Timeline, before: ThreadState, after: ThreadState, items: seq<Message>,
                                 pushed: set<nat>, lo: nat, hi: nat, a: nat, b: nat)
    requires ValidTimeline(t) && IsWindow(before.messages) && Covers(t, before, pushed, lo, hi)
    requires a <= b <= |t| && ItemKeys(items) == Slice(t, a, b) && Touches(lo, hi, a, b)
    requires after.messages == MergeMessages(before.messages, items)
    requires OlderCursorOk(after.olderCursor, Min(lo, a), Max(hi, b))
    requires after.newerCursor.Some? ==> Min(lo, a) <= after.newerCursor.value.position <= Max(hi, b)
    ensures Covers(t, after, Unpaged(pushed, a, b), Min(lo, a), Max(hi, b))
  {
    MergeBesidePushed(t, before.messages, items, pushed, lo, hi, a, b);
    TouchingSlicesJoin(t, lo, hi, a, b);
    UnpagedIsApart(t, pushed, lo, hi, a, b);
  }

  /** A touching jump that is joined keeps the window a window, cursors included. */
  lemma TouchingJumpKeepsCovers(t: Timeline, thread: ThreadState, page: MessagesPage, now: int, pushed: set<nat>,
                                lo: nat, hi: nat, a: nat, b: nat, seen: nat)
    requires ValidTimeline(t) && ThreadOk(Some(thread)) && Covers(t, thread, pushed, lo, hi)
    requires IsSlice(t, page.items, a, b, seen)
    requires OlderCursorOk(page.nextCursor, a, b) && NewerCursorOk(page.nextNewerCursor, a, b, seen)
    requires thread.isLoaded && SharesId(thread.messages, page.items) && Touches(lo, hi, a, b)
    ensures Covers(t, ApplyAnchorPage(thread, page, now), Unpaged(pushed, a, b), Min(lo, a), Max(hi, b))
  {
    TouchingMergeKeepsCovers(t, thread, ApplyAnchorPage(thread, page, now), page.items, pushed, lo, hi, a, b);
  }

  lemma DisjointJumpCovers(t: Timeline, thread: ThreadState, page: MessagesPage, now: int,
                           a: nat, b: nat, seen: nat)
    requires ValidTimeline(t) && ThreadOk(Some(thread))
    requires IsSlice(t, page.items, a, b, seen)
    requires OlderCursorOk(page.nextCursor, a, b) && NewerCursorOk(page.nextNewerCursor, a, b, seen)
    requires !(thread.isLoaded && SharesId(thread.messages, page.items))
    ensures Covers(t, ApplyAnchorPage(thread, page, now), {}, a, b)
  {
    MergeIntoPending(t, thread.messages, page.items, a, b);
  }

  /**
   * Exactly when a jump leaves the server messages contiguous: the page shares
   * no row with the window (it replaces it), the window holds no server message
   * yet, the page shares a confirmed row, or it happens to be adjacent. Sharing
   * only an unconfirmed row is not enough, although the code joins the two
   * windows then as well.
   */
  lemma JumpStaysContiguousIff(t: Timeline, thread: ThreadState, page: MessagesPage, now: int,
                               lo: nat, hi: nat, a: nat, b: nat)
    requires ValidTimeline(t) && ThreadOk(Some(thread)) && thread.isLoaded
    requires lo <= hi <= |t| && Confirmed(thread.messages) == Slice(t, lo, hi)
    requires a <= b <= |t| && ItemKeys(page.items) == Slice(t, a, b)
    ensures IsContiguous(t, ApplyAnchorPage(thread, page, now).messages) <==>
      !SharesId(thread.messages, page.items) || lo == hi ||
      SharesConfirmed(thread.messages, page.items) || a == hi || b == lo
  {
    MergeIntoPending(t, thread.messages, page.items, a, b);
    if SharesId(thread.messages, page.items) {
      SharedItemsAreSome(t, thread.messages, page.items, a, b);
      MergeStaysContiguousIff(t, thread.messages, page.items, lo, hi, a, b);
    }
  }

  /** The same condition decides whether a `/recent` poll may be merged. */
  lemma MergeStaysContiguousIff(t: Timeline, rows: seq<Message>, items: seq<Message>,
                                lo: nat, hi: nat, a: nat, b: nat)
    requires ValidTimeline(t) && IsWindow(rows)
    requires lo <= hi <= |t| && Confirmed(rows) == Slice(t, lo, hi)
    requires a <= b <= |t| && ItemKeys(items) == Slice(t, a, b)
    ensures IsContiguous(t, MergeMessages(rows, items)) <==>
      lo == hi || a == b || SharesConfirmed(rows, items) || a == hi || b == lo
  {
    SliceIsInTimeline(t, lo, hi);
    SliceIsInTimeline(t, a, b);
    MergeAddsThePage(t, rows, items);
    if lo == hi {
      assert Slice(t, lo, hi) + Slice(t, a, b) == Slice(t, a, b);
    } else if a == b {
      assert Slice(t, lo, hi) + Slice(t, a, b) == Slice(t, lo, hi);
    } else {
      TouchesIff(t, rows, items, lo, hi, a, b);
      if Touches(lo, hi, a, b) {
        TouchingSlicesJoin(t, lo, hi, a, b);
      } else {
        DisjointSlicesLeaveAGap(t, lo, hi, a, b);
      }
    }
  }

  lemma TouchesIff(t: Timeline, rows: seq<Message>, items: seq<Message>,
                   lo: nat, hi: nat, a: nat, b: nat)
    requires ValidTimeline(t)
    requires lo < hi <= |t| && Confirmed(rows) == Slice(t, lo, hi)
    requires a < b <= |t| && ItemKeys(items) == Slice(t, a, b)
    ensures Touches(lo, hi, a, b) <==> SharesConfirmed(rows, items) || a == hi || b == lo
  {
    if SharesConfirmed(rows, items) {
      SharedRowMeansOverlap(t, rows, items, lo, hi, a, b);
    } else if a < hi && lo < b {
      OverlapMeansSharedRow(t, rows, items, lo, hi, a, b);
    }
  }

  lemma OverlapMeansSharedRow(t: Timeline, rows: seq<Message>, items: seq<Message>,
                              lo: nat, hi: nat, a: nat, b: nat)
    requires lo < hi <= |t| && Confirmed(rows) == Slice(t, lo, hi)
    requires a < b <= |t| && ItemKeys(items) == Slice(t, a, b)
    requires a < hi && lo < b
    ensures SharesConfirmed(rows, items)
  {
    var i := Max(lo, a);
    assert t[i] in Slice(t, lo, hi) && t[i] in Slice(t, a, b);
    var m :| m in items && KeyOf(m) == t[i];
    var l :| l in rows && l.sendState == None && KeyOf(l) == t[i];
    assert l.id == m.id;
  }

  // ---------------------------------------------------------------------
  // Contiguity together with the cursors
  // ---------------------------------------------------------------------

  lemma SliceWithoutPushed(t: Timeline, pushed: set<nat>, lo: nat, hi: nat)
    requires ValidTimeline(t) && lo <= hi <= |t| && ApartFrom(t, pushed, lo, hi)
    ensures Slice(t, lo, hi) == Slice(t, lo, hi) + KeysAt(t, pushed) - KeysAt(t, pushed)
  {
    forall k | k in Slice(t, lo, hi) ensures k !in KeysAt(t, pushed) {
      var i :| lo <= i < hi && t[i] == k;
      assert forall p: nat :: p in pushed ==> p != i && t[p] != t[i];
    }
  }

  /** The window's place is determined by its rows and its older cursor. */
  lemma CoversIsUnique(t: Timeline, thread: ThreadState, pushed: set<nat>, lo: nat, hi: nat, x: nat, y: nat)
    requires ValidTimeline(t) && Covers(t, thread, pushed, lo, hi) && Covers(t, thread, pushed, x, y)
    ensures lo == x && hi == y
  {
    SliceWithoutPushed(t, pushed, lo, hi);
    SliceWithoutPushed(t, pushed, x, y);
    SameSliceSameEdges(t, lo, hi, x, y);
  }

  lemma SameSliceSameEdges(t: Timeline, lo: nat, hi: nat, x: nat, y: nat)
    requires ValidTimeline(t) && lo <= hi <= |t| && x <= y <= |t| && Slice(t, lo, hi) == Slice(t, x, y)
    ensures (lo == x && hi == y) || (lo == hi && x == y)
  {
    if lo < hi {
      assert t[lo] in Slice(t, lo, hi) && t[hi-1] in Slice(t, lo, hi);
      InSlice(t, x, y, lo);
      InSlice(t, x, y, hi - 1);
    }
    if x < y {
      assert t[x] in Slice(t, x, y) && t[y-1] in Slice(t, x, y);
      InSlice(t, lo, hi, x);
      InSlice(t, lo, hi, y - 1);
    }
  }

  /** The page's oldest row is older than the window's oldest, whatever its send state. */
  predicate ReachesOlder(rows: seq<Message>, items: seq<Message>)
    requires rows != [] && items != []
  {
    SortedPageIsNonEmpty(items);
    var sorted := MergeMessages([], items);
    CompareNewestFirst(sorted[|sorted|-1], rows[|rows|-1]) > 0
  }

  /** The page's newest row is at least as new as the window's newest. */
  predicate ReachesNewer(rows: seq<Message>, items: seq<Message>)
    requires rows != [] && items != []
  {
    SortedPageIsNonEmpty(items);
    CompareNewestFirst(MergeMessages([], items)[0], rows[0]) < 0
  }

  /**
   * A joining page that leaves a window: it touches the window, or the window
   * holds no server message yet and takes both cursors from a later page.
   */
  predicate JoinFits(thread: ThreadState, page: MessagesPage, lo: nat, hi: nat, a: nat, b: nat)
    requires SharesId(thread.messages, page.items)
  {
    Touches(lo, hi, a, b) ||
    (lo == hi < a && ReachesOlder(thread.messages, page.items) &&
     (thread.newerCursor == None || ReachesNewer(thread.messages, page.items)))
  }

  lemma FittingJumpCovers(t: Timeline, thread: ThreadState, page: MessagesPage, now: int, pushed: set<nat>,
                          lo: nat, hi: nat, a: nat, b: nat, seen: nat) returns (x: nat, y: nat)
    requires ValidTimeline(t) && ThreadOk(Some(thread)) && Covers(t, thread, pushed, lo, hi)
    requires IsSlice(t, page.items, a, b, seen)
    requires OlderCursorOk(page.nextCursor, a, b) && NewerCursorOk(page.nextNewerCursor, a, b, seen)
    requires thread.isLoaded && SharesId(thread.messages, page.items) && JoinFits(thread, page, lo, hi, a, b)
    ensures Covers(t, ApplyAnchorPage(thread, page, now), Unpaged(pushed, a, b), x, y) && hi <= y
  {
    if Touches(lo, hi, a, b) {
      TouchingJumpKeepsCovers(t, thread, page, now, pushed, lo, hi, a, b, seen);
      x, y := Min(lo, a), Max(hi, b);
    } else {
      MergeBesidePushed(t, thread.messages, page.items, pushed, lo, hi, a, b);
      assert Slice(t, lo, hi) + Slice(t, a, b) == Slice(t, a, b);
      x, y := a, b;
    }
  }

  /** A joined window that lies in one piece is one piece made of the old window and the page. */
  lemma JoinedPieces(t: Timeline, thread: ThreadState, page: MessagesPage, now: int, pushed: set<nat>,
                     lo: nat, hi: nat, a: nat, b: nat, x: nat, y: nat)
    requires ValidTimeline(t) && ThreadOk(Some(thread)) && Covers(t, thread, pushed, lo, hi)
    requires a <= b <= |t| && ItemKeys(page.items) == Slice(t, a, b)
    requires thread.isLoaded && SharesId(thread.messages, page.items)
    requires Covers(t, ApplyAnchorPage(thread, page, now), Unpaged(pushed, a, b), x, y)
    ensures Slice(t, lo, hi) + Slice(t, a, b) == Slice(t, x, y)
  {
    var rest := Unpaged(pushed, a, b);
    MergeBesidePushed(t, thread.messages, page.items, pushed, lo, hi, a, b);
    SliceWithoutPushed(t, rest, lo, hi);
    SliceWithoutPushed(t, rest, a, b);
    SliceWithoutPushed(t, rest, x, y);
  }

  lemma UnfitJumpLosesCovers(t: Timeline, thread: ThreadState, page: MessagesPage, now: int, pushed: set<nat>,
                             lo: nat, hi: nat, a: nat, b: nat, seen: nat, x: nat, y: nat)
    requires ValidTimeline(t) && ThreadOk(Some(thread)) && Covers(t, thread, pushed, lo, hi)
    requires IsSlice(t, page.items, a, b, seen)
    requires thread.isLoaded && SharesId(thread.messages, page.items) && !JoinFits(thread, page, lo, hi, a, b)
    ensures !(Covers(t, ApplyAnchorPage(thread, page, now), Unpaged(pushed, a, b), x, y) && hi <= y)
  {
    if Covers(t, ApplyAnchorPage(thread, page, now), Unpaged(pushed, a, b), x, y) {
      UnfitPieces(t, thread, page, now, pushed, lo, hi, a, b, x, y);
    }
  }

  /** Only a window without server messages can be in one piece then, and it is where the page is. */
  lemma UnfitPieces(t: Timeline, thread: ThreadState, page: MessagesPage, now: int, pushed: set<nat>,
                    lo: nat, hi: nat, a: nat, b: nat, x: nat, y: nat)
    requires ValidTimeline(t) && ThreadOk(Some(thread)) && Covers(t, thread, pushed, lo, hi)
    requires a <= b <= |t| && ItemKeys(page.items) == Slice(t, a, b)
    requires thread.isLoaded && SharesId(thread.messages, page.items) && !Touches(lo, hi, a, b)
    requires Covers(t, ApplyAnchorPage(thread, page, now), Unpaged(pushed, a, b), x, y)
    ensures lo == hi && x == a && y == b
  {
    SharedItemsAreSome(t, thread.messages, page.items, a, b);
    JoinedPieces(t, thread, page, now, pushed, lo, hi, a, b, x, y);
    if lo < hi {
      DisjointSlicesLeaveAGap(t, lo, hi, a, b);
    } else {
      assert Slice(t, lo, hi) + Slice(t, a, b) == Slice(t, a, b);
      SameSliceSameEdges(t, a, b, x, y);
    }
  }

  lemma SharedItemsAreSome(t: Timeline, rows: seq<Message>, items: seq<Message>, a: nat, b: nat)
    requires a <= b <= |t| && ItemKeys(items) == Slice(t, a, b) && SharesId(rows, items)
    ensures a < b
  {
    var m :| m in items;
    assert KeyOf(m) in ItemKeys(items);
  }

  /**
   * Exactly when a joining jump leaves a window with both cursors in place
   * that still reaches as far as before, windows without any server message
   * and pushed messages beside the window included.
   */
  lemma JoinedJumpCoversIff(t: Timeline, thread: ThreadState, page: MessagesPage, now: int, pushed: set<nat>,
                            lo: nat, hi: nat, a: nat, b: nat, seen: nat)
    requires ValidTimeline(t) && ThreadOk(Some(thread)) && Covers(t, thread, pushed, lo, hi)
    requires IsSlice(t, page.items, a, b, seen)
    requires OlderCursorOk(page.nextCursor, a, b) && NewerCursorOk(page.nextNewerCursor, a, b, seen)
    requires thread.isLoaded && SharesId(thread.messages, page.items)
    ensures (exists x: nat, y: nat ::
        Covers(t, ApplyAnchorPage(thread, page, now), Unpaged(pushed, a, b), x, y) && hi <= y)
      <==> JoinFits(thread, page, lo, hi, a, b)
  {
    if JoinFits(thread, page, lo, hi, a, b) {
      var x, y := FittingJumpCovers(t, thread, page, now, pushed, lo, hi, a, b, seen);
    } else {
      forall x: nat, y: nat
        ensures !(Covers(t, ApplyAnchorPage(thread, page, now), Unpaged(pushed, a, b), x, y) && hi <= y)
      {
        UnfitJumpLosesCovers(t, thread, page, now, pushed, lo, hi, a, b, seen, x, y);
      }
    }
  }

  // ---------------------------------------------------------------------
  // Taking a row out
  // ---------------------------------------------------------------------

  lemma WithoutRemovesTheKey(t: Timeline, rows: seq<Message>, i: nat)
    requires ValidTimeline(t) && i < |t|
    requires forall k :: k in Confirmed(rows) ==> k in t
    ensures Confirmed(Without(rows, t[i].id)) == Confirmed(rows) - {t[i]}
  {
    forall k | k in Confirmed(rows) && k != t[i] ensures k.id != t[i].id {
      if k.id == t[i].id {
        SameIdSameKey(t, k, t[i]);
      }
    }
  }

  /** Taking a server message out of a window leaves no hole exactly at its two ends. */
  lemma RemovingStaysContiguousIff(t: Timeline, rows: seq<Message>, lo: nat, hi: nat, i: nat)
    requires ValidTimeline(t) && lo <= i < hi <= |t| && Confirmed(rows) == Slice(t, lo, hi)
    ensures IsContiguous(t, Without(rows, t[i].id)) <==> i == lo || i == hi - 1
  {
    SliceIsInTimeline(t, lo, hi);
    WithoutRemovesTheKey(t, rows, i);
    var left := Slice(t, lo, hi) - {t[i]};
    if i == lo {
      SliceLessItsOldest(t, lo, hi);
    } else if i == hi - 1 {
      SliceLessItsNewest(t, lo, hi);
    } else {
      forall x: nat, y: nat | x <= y <= |t| ensures left != Slice(t, x, y) {
        assert t[lo] in left && t[hi-1] in left && t[i] !in left;
        InSlice(t, x, y, lo);
        InSlice(t, x, y, hi - 1);
        InSlice(t, x, y, i);
      }
    }
  }

  lemma SliceLessItsOldest(t: Timeline, lo: nat, hi: nat)
    requires ValidTimeline(t) && lo < hi <= |t|
    ensures Slice(t, lo, hi) - {t[lo]} == Slice(t, lo + 1, hi)
  {
  }

  lemma SliceLessItsNewest(t: Timeline, lo: nat, hi: nat)
    requires ValidTimeline(t) && lo < hi <= |t|
    ensures Slice(t, lo, hi) - {t[hi-1]} == Slice(t, lo, hi - 1)
  {
  }

  // ---------------------------------------------------------------------
  // Cursors stay at the edge
  // ---------------------------------------------------------------------

  /** Both cursors, when present, sit exactly at the window's edges. */
  predicate AtEdges(older: Option<Cursor>, newer: Option<Cursor>, lo: nat, hi: nat) {
    (older.Some? ==> older.value.position == lo) && (newer.Some? ==> newer.value.position == hi)
  }

  lemma NewestAndOldestRows(t: Timeline, rows: seq<Message>, lo: nat, hi: nat)
    requires ValidTimeline(t) && IsWindow(rows)
    requires forall x :: x in rows ==> x.sendState == None
    requires lo < hi <= |t| && Confirmed(rows) == Slice(t, lo, hi)
    ensures rows != [] && KeyOf(rows[0]) == t[hi-1] && KeyOf(rows[|rows|-1]) == t[lo]
  {
    var p := RowAt(t, rows, lo, hi, hi - 1);
    var q := RowAt(t, rows, lo, hi, lo);
    var i := EdgeRow(t, rows, lo, hi, 0);
    var j := EdgeRow(t, rows, lo, hi, |rows|-1);
    if p > 0 {
      AboveMeansLater(t, rows[0], rows[p], i, hi - 1);
    }
    if q < |rows| - 1 {
      AboveMeansLater(t, rows[q], rows[|rows|-1], lo, j);
    }
  }

  lemma RowAt(t: Timeline, rows: seq<Message>, lo: nat, hi: nat, i: nat) returns (n: nat)
    requires lo <= i < hi <= |t| && Confirmed(rows) == Slice(t, lo, hi)
    ensures n < |rows| && KeyOf(rows[n]) == t[i]
  {
    assert t[i] in Slice(t, lo, hi);
    var m :| m in rows && m.sendState == None && KeyOf(m) == t[i];
    n :| n < |rows| && rows[n] == m;
  }

  lemma AboveMeansLater(t: Timeline, x: Message, y: Message, i: nat, j: nat)
    requires ValidTimeline(t) && i < |t| && j < |t| && Newer(x, y)
    requires KeyOf(x) == t[i] && KeyOf(y) == t[j]
    ensures j < i
  {
    if i == j {
      assert x.id == y.id;
      LessIsIrreflexive(x.id);
    } else if i < j {
      assert KeyNewer(t[j], t[i]);
      NewerIsTransitive(x, y, x);
      NewerIsIrreflexive(x);
    }
  }

  lemma EdgeRow(t: Timeline, rows: seq<Message>, lo: nat, hi: nat, n: nat) returns (i: nat)
    requires forall x :: x in rows ==> x.sendState == None
    requires lo < hi <= |t| && Confirmed(rows) == Slice(t, lo, hi)
    requires n < |rows|
    ensures lo <= i < hi && t[i] == KeyOf(rows[n])
  {
    assert rows[n] in rows;
    assert KeyOf(rows[n]) in Confirmed(rows);
    i :| lo <= i < hi && t[i] == KeyOf(rows[n]);
  }

  lemma CompareMatchesPositions(t: Timeline, x: Message, y: Message, i: nat, j: nat)
    requires ValidTimeline(t) && i < |t| && j < |t|
    requires KeyOf(x) == t[i] && KeyOf(y) == t[j]
    ensures CompareNewestFirst(x, y) < 0 <==> i >= j
    ensures CompareNewestFirst(x, y) > 0 <==> i < j
  {
    if i == j {
      LessIsIrreflexive(x.id);
    } else if i > j {
      assert KeyNewer(t[i], t[j]);
      NewerIsTotal(x, y);
    } else {
      assert KeyNewer(t[j], t[i]);
      NewerIsTotal(x, y);
    }
  }

  lemma FreshRowsAreConfirmed(items: seq<Message>)
    ensures IsWindow(MergeMessages([], items))
    ensures forall x :: x in MergeMessages([], items) ==> x.sendState == None
  {
    MergeMessagesRows([], items);
    assert Ids(MergeMessages([], items)) == Ids(items);
  }

  lemma PageEdges(t: Timeline, items: seq<Message>, a: nat, b: nat)
    requires ValidTimeline(t) && a < b <= |t| && ItemKeys(items) == Slice(t, a, b)
    ensures var sorted := MergeMessages([], items);
      sorted != [] && KeyOf(sorted[0]) == t[b-1] && KeyOf(sorted[|sorted|-1]) == t[a]
  {
    MergeIntoPending(t, [], items, a, b);
    FreshRowsAreConfirmed(items);
    NewestAndOldestRows(t, MergeMessages([], items), a, b);
  }

  /** The two comparisons of `applyAnchorPage` compare positions; equal newest counts as reaching newer. */
  lemma ReachComparesPositions(t: Timeline, rows: seq<Message>, items: seq<Message>,
                               lo: nat, hi: nat, a: nat, b: nat)
    requires ValidTimeline(t) && IsWindow(rows)
    requires lo < hi <= |t| && Confirmed(rows) == Slice(t, lo, hi)
    requires forall x :: x in rows ==> x.sendState == None
    requires a < b <= |t| && ItemKeys(items) == Slice(t, a, b)
    ensures rows != [] && items != []
    ensures ReachesOlder(rows, items) <==> a < lo
    ensures ReachesNewer(rows, items) <==> b >= hi
  {
    var sorted := MergeMessages([], items);
    PageEdges(t, items, a, b);
    NewestAndOldestRows(t, rows, lo, hi);
    CompareMatchesPositions(t, sorted[0], rows[0], b - 1, hi - 1);
    CompareMatchesPositions(t, sorted[|sorted|-1], rows[|rows|-1], a, lo);
  }

  lemma SharesConfirmedSharesId(rows: seq<Message>, items: seq<Message>)
    requires SharesConfirmed(rows, items)
    ensures SharesId(rows, items)
  {
  }

  /**
   * With no unconfirmed row in the way, a joining jump keeps both cursors
   * exactly at the edges of the merged window: each comes from whichever side
   * reaches further, and a window at the live tail stays attached. A page
   * ending on the same newest message reattaches a window it knows is at the tail.
   */
  lemma JoinedJumpKeepsCursorsAtEdges(t: Timeline, thread: ThreadState, page: MessagesPage, now: int,
                                      lo: nat, hi: nat, a: nat, b: nat)
    requires ValidTimeline(t) && ThreadOk(Some(thread)) && thread.isLoaded
    requires lo < hi <= |t| && Confirmed(thread.messages) == Slice(t, lo, hi)
    requires forall x :: x in thread.messages ==> x.sendState == None
    requires a < b <= |t| && ItemKeys(page.items) == Slice(t, a, b)
    requires SharesConfirmed(thread.messages, page.items)
    requires AtEdges(thread.olderCursor, thread.newerCursor, lo, hi)
    requires AtEdges(page.nextCursor, page.nextNewerCursor, a, b)
    ensures var next := ApplyAnchorPage(thread, page, now);
      AtEdges(next.olderCursor, next.newerCursor, Min(lo, a), Max(hi, b)) &&
      (next.olderCursor == None <==> (if a < lo then page.nextCursor else thread.olderCursor) == None) &&
      (next.newerCursor == None <==>
        thread.newerCursor == None || (b >= hi && page.nextNewerCursor == None))
  {
    SharesConfirmedSharesId(thread.messages, page.items);
    ReachComparesPositions(t, thread.messages, page.items, lo, hi, a, b);
  }
}
