/**
 * Every run of one open thread: page loads, jumps, polls, pushes, send echoes
 * and local sends interleaved with messages arriving at the server
 * (farcaster-audio/hooks/useConversation.ts, farcaster-audio/hooks/useMessagesBadge.ts).
 */
module ThreadRuns {
  import opened JsStrings
  import opened Options
  import opened Messages
  import opened Threads
  import opened Conversation

  /**
   * `pushed` are the positions of the messages shown only because a push or an
   * echo brought them, no page or poll since; `syncedLength` is how long the
   * timeline was when `syncedAt` was last stamped.
   */
  datatype World = World(timeline: Timeline, thread: Option<ThreadState>, pushed: set<nat>, syncedLength: nat)

  /**
   * `a`, `b` and `seen` say which messages a response holds and how long the
   * timeline was when the server produced it; more may have arrived since.
   * A push and an echo bring the one message at position `i`.
   */
  datatype Step =
    | Arrive(key: Key)
    | Reload(page: MessagesPage, a: nat, seen: nat, now: int)
    | LoadOlder(page: MessagesPage, a: nat, b: nat, seen: nat, now: int)
    | LoadNewer(page: MessagesPage, a: nat, b: nat, seen: nat, now: int)
    | Jump(page: MessagesPage, a: nat, b: nat, seen: nat, now: int)
    | Poll(recent: seq<Message>, a: nat, seen: nat, now: int)
    | Push(message: Message, i: nat)
    | Echo(message: Message, i: nat)
    | Local(action: ThreadAction)

  /** Sends, failures, retries, discards, deletions and reactions, on rows the server has not confirmed. */
  predicate IsLocal(thread: Option<ThreadState>, action: ThreadAction) {
    match action
    case Upsert(m) => m.sendState != None && !HasConfirmed(thread, m.id)
    case MarkFailed(_) => true
    case Patch(id, patch) => patch.SetSending? ==> !HasConfirmed(thread, id)
    case Remove(id) => !HasConfirmed(thread, id)
    case React(_, _, _) => true
    case _ => false
  }

  /** The page or poll is joined to the loaded window rather than replacing it. */
  predicate Joins(thread: Option<ThreadState>, items: seq<Message>) {
    thread.Some? && thread.value.isLoaded && SharesId(thread.value.messages, items)
  }

  /** The poll is merged into the window rather than ignored or answered by a reload. */
  predicate PollJoins(thread: Option<ThreadState>, recent: seq<Message>, now: int) {
    Joins(thread, recent) && !thread.value.isDetached && !ShouldReloadLatest(thread, recent, now)
  }

  ghost predicate CoversAt(w: World, lo: nat, hi: nat)
    requires w.thread.Some?
  {
    Covers(w.timeline, w.thread.value, w.pushed, lo, hi)
  }

  /** If the page is joined, it fits the window. */
  ghost predicate PageFits(w: World, page: MessagesPage, a: nat, b: nat) {
    Joins(w.thread, page.items) ==>
      exists lo: nat, hi: nat :: CoversAt(w, lo, hi) && JoinFits(w.thread.value, page, lo, hi, a, b)
  }

  /** If the poll is joined, it touches the window. */
  ghost predicate PollFits(w: World, recent: seq<Message>, a: nat, b: nat, now: int) {
    PollJoins(w.thread, recent, now) ==>
      exists lo: nat, hi: nat :: CoversAt(w, lo, hi) && Touches(lo, hi, a, b)
  }

  /** A page fetched by a cursor touches the window, though the window may have changed since it was asked for. */
  ghost predicate AdjacentFits(w: World, a: nat, b: nat) {
    w.thread.Some? ==> exists lo: nat, hi: nat :: CoversAt(w, lo, hi) && Touches(lo, hi, a, b)
  }

  predicate IsAt(t: Timeline, m: Message, i: nat) {
    i < |t| && t[i] == KeyOf(m)
  }

  /** The server and the device behave; whether a joined page fits is left open. */
  ghost predicate Honest(w: World, step: Step) {
    match step
    case Arrive(key) => ValidTimeline(w.timeline + [key])
    case Reload(page, a, seen, _) =>
      IsSlice(w.timeline, page.items, a, seen, seen) &&
      OlderCursorOk(page.nextCursor, a, seen) && page.nextNewerCursor == None
    case LoadOlder(page, a, b, seen, _) =>
      w.thread.Some? && IsSlice(w.timeline, page.items, a, b, seen) &&
      OlderCursorOk(page.nextCursor, a, b)
    case LoadNewer(page, a, b, seen, _) =>
      w.thread.Some? && IsSlice(w.timeline, page.items, a, b, seen) &&
      NewerCursorOk(page.nextNewerCursor, a, b, seen)
    case Jump(page, a, b, seen, _) =>
      IsSlice(w.timeline, page.items, a, b, seen) &&
      OlderCursorOk(page.nextCursor, a, b) && NewerCursorOk(page.nextNewerCursor, a, b, seen)
    case Poll(recent, a, seen, _) =>
      IsSlice(w.timeline, recent, a, seen, seen) && (recent == [] ==> seen == 0)
    case Push(m, i) => IsAt(w.timeline, m, i)
    case Echo(m, i) => IsAt(w.timeline, m, i)
    case Local(action) => IsLocal(w.thread, action)
  }

  ghost predicate Fits(w: World, step: Step) {
    match step
    case LoadOlder(_, a, b, _, _) => AdjacentFits(w, a, b)
    case LoadNewer(_, a, b, _, _) => AdjacentFits(w, a, b)
    case Jump(page, a, b, _, _) => PageFits(w, page, a, b)
    case Poll(recent, a, seen, now) => PollFits(w, recent, a, seen, now)
    case _ => true
  }

  ghost predicate Enabled(w: World, step: Step) {
    Honest(w, step) && Fits(w, step)
  }

  /** Pushes and polls reach only a loaded window at the live tail. */
  predicate TakesPushes(thread: Option<ThreadState>) {
    thread.Some? && thread.value.isLoaded && !thread.value.isDetached
  }

  function WithPushed(w: World, id: MessageId, i: nat): set<nat> {
    if HasConfirmed(w.thread, id) then w.pushed else w.pushed + {i}
  }

  function Next(w: World, step: Step): World {
    match step
    case Arrive(key) => w.(timeline := w.timeline + [key])
    case Reload(page, _, seen, now) =>
      w.(thread := Apply(w.thread, SetPage(page, LatestPage, now)), pushed := {}, syncedLength := seen)
    case LoadOlder(page, a, b, _, now) =>
      w.(thread := Apply(w.thread, SetPage(page, OlderPage, now)), pushed := Unpaged(w.pushed, a, b))
    case LoadNewer(page, a, b, seen, now) =>
      w.(thread := Apply(w.thread, SetPage(page, NewerPage, now)),
         pushed := Unpaged(w.pushed, a, b),
         syncedLength := if page.nextNewerCursor == None then seen else w.syncedLength)
    case Jump(page, a, b, seen, now) =>
      var isDisjoint := IsDisjointJump(w.thread, SetPage(page, AnchorPage, now));
      w.(thread := Apply(w.thread, SetPage(page, AnchorPage, now)),
         pushed := if isDisjoint then {} else Unpaged(w.pushed, a, b),
         syncedLength := if isDisjoint then seen else w.syncedLength)
    case Poll(recent, a, seen, now) =>
      // A window that may not reach the tail is reloaded instead (a later `Reload`).
      if ShouldReloadLatest(w.thread, recent, now) || !TakesPushes(w.thread) then w
      else
        w.(thread := Apply(Apply(w.thread, MergeLatest(recent)), MarkSynced(now)),
           pushed := Unpaged(w.pushed, a, seen),
           syncedLength := seen)
    case Push(m, i) =>
      w.(thread := Apply(w.thread, MergeLatest([m])),
         pushed := if TakesPushes(w.thread) then WithPushed(w, m.id, i) else w.pushed)
    case Echo(m, i) =>
      w.(thread := Apply(w.thread, Confirm(m)), pushed := WithPushed(w, m.id, i))
    case Local(action) => w.(thread := Apply(w.thread, action))
  }

  function Run(w: World, steps: seq<Step>): World {
    if steps == [] then w else Next(Run(w, steps[..|steps|-1]), steps[|steps|-1])
  }

  ghost predicate Legal(w: World, steps: seq<Step>) {
    if steps == [] then true
    else Legal(w, steps[..|steps|-1]) && Enabled(Run(w, steps[..|steps|-1]), steps[|steps|-1])
  }

  ghost predicate Initial(w: World) {
    ValidTimeline(w.timeline) && w.thread == None && w.pushed == {}
  }

  // ---------------------------------------------------------------------
  // The invariant
  // ---------------------------------------------------------------------

  /** A synced window reaches the tail of that moment. */
  predicate SyncOk(thread: ThreadState, hi: nat, syncedLength: nat) {
    thread.syncedAt.Some? ==> syncedLength <= hi
  }

  ghost predicate WindowAt(w: World, lo: nat, hi: nat)
    requires w.thread.Some?
  {
    CoversAt(w, lo, hi) && SyncOk(w.thread.value, hi, w.syncedLength)
  }

  ghost predicate Inv(w: World) {
    ValidTimeline(w.timeline) && ThreadOk(w.thread) &&
    (w.thread == None ==> w.pushed == {}) &&
    (w.thread.Some? ==> exists lo: nat, hi: nat :: WindowAt(w, lo, hi))
  }

  lemma ArriveKeepsInv(w: World, key: Key)
    requires Inv(w) && Enabled(w, Arrive(key))
    ensures Inv(Next(w, Arrive(key)))
  {
    if w.thread.Some? {
      var lo: nat, hi: nat :| WindowAt(w, lo, hi);
      var next := Next(w, Arrive(key));
      assert forall i :: lo <= i < hi ==> next.timeline[i] == w.timeline[i];
      assert Slice(next.timeline, lo, hi) == Slice(w.timeline, lo, hi);
      assert WindowAt(next, lo, hi);
    }
  }

  lemma ReloadKeepsInv(w: World, page: MessagesPage, a: nat, seen: nat, now: int)
    requires Inv(w) && Enabled(w, Reload(page, a, seen, now))
    ensures Inv(Next(w, Reload(page, a, seen, now)))
  {
    ApplyKeepsThreadOk(w.thread, SetPage(page, LatestPage, now));
    MergeIntoPending(w.timeline, OrEmpty(w.thread).messages, page.items, a, seen);
    var next := Next(w, Reload(page, a, seen, now));
    assert next.thread.value.messages == MergeMessages(Pending(OrEmpty(w.thread).messages), page.items);
    assert CoversAt(next, a, seen);
    assert WindowAt(next, a, seen);
  }

  lemma LoadOlderKeepsInv(w: World, page: MessagesPage, a: nat, b: nat, seen: nat, now: int)
    requires Inv(w) && Enabled(w, LoadOlder(page, a, b, seen, now))
    ensures Inv(Next(w, LoadOlder(page, a, b, seen, now)))
  {
    ApplyKeepsThreadOk(w.thread, SetPage(page, OlderPage, now));
    var lo: nat, hi: nat :| WindowAt(w, lo, hi);
    var from: nat, to: nat :| CoversAt(w, from, to) && Touches(from, to, a, b);
    CoversIsUnique(w.timeline, w.thread.value, w.pushed, lo, hi, from, to);
    var next := Next(w, LoadOlder(page, a, b, seen, now));
    TouchingMergeKeepsCovers(w.timeline, w.thread.value, next.thread.value, page.items, w.pushed, lo, hi, a, b);
    assert WindowAt(next, Min(lo, a), Max(hi, b));
  }

  lemma LoadNewerKeepsInv(w: World, page: MessagesPage, a: nat, b: nat, seen: nat, now: int)
    requires Inv(w) && Enabled(w, LoadNewer(page, a, b, seen, now))
    ensures Inv(Next(w, LoadNewer(page, a, b, seen, now)))
  {
    ApplyKeepsThreadOk(w.thread, SetPage(page, NewerPage, now));
    var lo: nat, hi: nat :| WindowAt(w, lo, hi);
    var from: nat, to: nat :| CoversAt(w, from, to) && Touches(from, to, a, b);
    CoversIsUnique(w.timeline, w.thread.value, w.pushed, lo, hi, from, to);
    var next := Next(w, LoadNewer(page, a, b, seen, now));
    TouchingMergeKeepsCovers(w.timeline, w.thread.value, next.thread.value, page.items, w.pushed, lo, hi, a, b);
    assert WindowAt(next, Min(lo, a), Max(hi, b));
  }

  lemma JumpKeepsInv(w: World, page: MessagesPage, a: nat, b: nat, seen: nat, now: int)
    requires Inv(w) && Enabled(w, Jump(page, a, b, seen, now))
    ensures Inv(Next(w, Jump(page, a, b, seen, now)))
  {
    var step := Jump(page, a, b, seen, now);
    ApplyKeepsThreadOk(w.thread, SetPage(page, AnchorPage, now));
    if IsDisjointJump(w.thread, SetPage(page, AnchorPage, now)) {
      DisjointJumpCovers(w.timeline, OrEmpty(w.thread), page, now, a, b, seen);
      assert WindowAt(Next(w, step), a, b);
    } else {
      var lo: nat, hi: nat :| WindowAt(w, lo, hi);
      var from: nat, to: nat :| CoversAt(w, from, to) && JoinFits(w.thread.value, page, from, to, a, b);
      CoversIsUnique(w.timeline, w.thread.value, w.pushed, lo, hi, from, to);
      var x, y := FittingJumpCovers(w.timeline, w.thread.value, page, now, w.pushed, lo, hi, a, b, seen);
      assert WindowAt(Next(w, step), x, y);
    }
  }

  lemma PollKeepsInv(w: World, recent: seq<Message>, a: nat, seen: nat, now: int)
    requires Inv(w) && Enabled(w, Poll(recent, a, seen, now))
    ensures Inv(Next(w, Poll(recent, a, seen, now)))
  {
    var next := Next(w, Poll(recent, a, seen, now));
    if next != w {
      ApplyKeepsThreadOk(w.thread, MergeLatest(recent));
      ApplyKeepsThreadOk(Apply(w.thread, MergeLatest(recent)), MarkSynced(now));
      var lo: nat, hi: nat :| WindowAt(w, lo, hi);
      if recent == [] {
        EmptyPollKeepsWindow(w, a, seen, now, lo, hi);
      } else {
        var from: nat, to: nat :| CoversAt(w, from, to) && Touches(from, to, a, seen);
        CoversIsUnique(w.timeline, w.thread.value, w.pushed, lo, hi, from, to);
        TouchingPollKeepsWindow(w, recent, a, seen, now, lo, hi);
      }
    }
  }

  lemma MergedPoll(w: World, recent: seq<Message>, a: nat, seen: nat, now: int)
    requires TakesPushes(w.thread) && !ShouldReloadLatest(w.thread, recent, now)
    ensures Next(w, Poll(recent, a, seen, now)) ==
      World(w.timeline,
            Some(w.thread.value.(messages := MergeMessages(w.thread.value.messages, recent), syncedAt := Some(now))),
            Unpaged(w.pushed, a, seen), seen)
  {
  }

  lemma TouchingPollKeepsWindow(w: World, recent: seq<Message>, a: nat, seen: nat, now: int, lo: nat, hi: nat)
    requires ValidTimeline(w.timeline) && ThreadOk(w.thread) && TakesPushes(w.thread) && WindowAt(w, lo, hi)
    requires Honest(w, Poll(recent, a, seen, now)) && !ShouldReloadLatest(w.thread, recent, now)
    requires Touches(lo, hi, a, seen)
    ensures var next := Next(w, Poll(recent, a, seen, now));
      next.thread.Some? && WindowAt(next, Min(lo, a), Max(hi, seen))
  {
    MergedPoll(w, recent, a, seen, now);
    var next := Next(w, Poll(recent, a, seen, now));
    TouchingMergeKeepsCovers(w.timeline, w.thread.value, next.thread.value, recent, w.pushed, lo, hi, a, seen);
  }

  lemma EmptyPollKeepsWindow(w: World, a: nat, seen: nat, now: int, lo: nat, hi: nat)
    requires ThreadOk(w.thread) && TakesPushes(w.thread) && WindowAt(w, lo, hi)
    requires Honest(w, Poll([], a, seen, now)) && !ShouldReloadLatest(w.thread, [], now)
    ensures var next := Next(w, Poll([], a, seen, now)); next.thread.Some? && WindowAt(next, lo, hi)
  {
    var rows := w.thread.value.messages;
    assert rows + ServerCopies([]) == rows;
    WindowOfWindowIsItself(rows);
    assert Unpaged(w.pushed, a, seen) == w.pushed;
  }

  lemma PushAddsItsMessage(t: Timeline, rows: seq<Message>, m: Message, i: nat)
    requires ValidTimeline(t) && IsWindow(rows) && IsAt(t, m, i)
    requires forall k :: k in Confirmed(rows) ==> k in t
    ensures Confirmed(MergeMessages(rows, [m])) == Confirmed(rows) + {t[i]}
  {
    OneItem(t, [m], i, m);
    assert ItemKeys([m]) == {t[i]} by {
      assert Slice(t, i, i + 1) == {t[i]};
    }
    MergeAddsThePage(t, rows, [m]);
  }

  lemma EchoAddsItsMessage(t: Timeline, rows: seq<Message>, echo: Message, i: nat)
    requires ValidTimeline(t) && IsWindow(rows) && IsAt(t, echo, i)
    requires forall k :: k in Confirmed(rows) ==> k in t
    ensures var row := MergeSendEcho(FindById(rows, echo.id), echo);
      Confirmed(ReplaceMessage(rows, row)) == Confirmed(rows) + {t[i]}
  {
    var row := MergeSendEcho(FindById(rows, echo.id), echo);
    ReplaceMessageIsWindow(rows, row);
    assert KeyOf(row) == t[i] && row.sendState == None && row.id == echo.id;
    forall k | k in Confirmed(rows) ensures k in Confirmed(ReplaceMessage(rows, row)) {
      if k.id == echo.id {
        SameIdSameKey(t, k, t[i]);
      }
    }
  }

  lemma InsideIsConfirmed(w: World, m: Message, i: nat, lo: nat, hi: nat)
    requires IsAt(w.timeline, m, i) && w.thread.Some? && CoversAt(w, lo, hi)
    ensures lo <= i < hi ==> HasConfirmed(w.thread, m.id)
  {
    if lo <= i < hi {
      assert KeyOf(m) in Confirmed(w.thread.value.messages);
    }
  }

  /** A single message beside the window leaves the window where it was. */
  lemma OneMoreKeepsCovers(w: World, next: World, m: Message, i: nat, lo: nat, hi: nat)
    requires ValidTimeline(w.timeline) && IsAt(w.timeline, m, i)
    requires w.thread.Some? && CoversAt(w, lo, hi)
    requires next.thread.Some? && next.timeline == w.timeline && next.pushed == WithPushed(w, m.id, i)
    requires next.thread.value.olderCursor == w.thread.value.olderCursor
    requires next.thread.value.newerCursor == w.thread.value.newerCursor
    requires Confirmed(next.thread.value.messages) == Confirmed(w.thread.value.messages) + {w.timeline[i]}
    ensures CoversAt(next, lo, hi)
  {
    var t, rows := w.timeline, w.thread.value.messages;
    if HasConfirmed(w.thread, m.id) {
      var x :| x in rows && x.id == m.id && x.sendState == None;
      assert KeyOf(x) in Confirmed(rows);
      SliceIsInTimeline(t, lo, hi);
      SameIdSameKey(t, KeyOf(x), t[i]);
    } else {
      InsideIsConfirmed(w, m, i, lo, hi);
      assert KeysAt(t, w.pushed + {i}) == KeysAt(t, w.pushed) + {t[i]};
    }
  }

  lemma PushKeepsInv(w: World, m: Message, i: nat)
    requires Inv(w) && Enabled(w, Push(m, i))
    ensures Inv(Next(w, Push(m, i)))
  {
    var next := Next(w, Push(m, i));
    ApplyKeepsThreadOk(w.thread, MergeLatest([m]));
    if w.thread.Some? {
      var lo: nat, hi: nat :| WindowAt(w, lo, hi);
      if TakesPushes(w.thread) {
        SliceIsInTimeline(w.timeline, lo, hi);
        PushAddsItsMessage(w.timeline, w.thread.value.messages, m, i);
        OneMoreKeepsCovers(w, next, m, i, lo, hi);
      }
      assert WindowAt(next, lo, hi);
    }
  }

  lemma EchoKeepsInv(w: World, m: Message, i: nat)
    requires Inv(w) && Enabled(w, Echo(m, i))
    ensures Inv(Next(w, Echo(m, i)))
  {
    var next := Next(w, Echo(m, i));
    ApplyKeepsThreadOk(w.thread, Confirm(m));
    if w.thread.Some? {
      var lo: nat, hi: nat :| WindowAt(w, lo, hi);
      SliceIsInTimeline(w.timeline, lo, hi);
      EchoAddsItsMessage(w.timeline, w.thread.value.messages, m, i);
      OneMoreKeepsCovers(w, next, m, i, lo, hi);
      assert WindowAt(next, lo, hi);
    } else {
      EchoAddsItsMessage(w.timeline, [], m, i);
      assert Confirmed([]) == Slice(w.timeline, 0, 0) && KeysAt(w.timeline, {i}) == {w.timeline[i]};
      assert WindowAt(next, 0, 0);
    }
  }

  lemma LocalKeepsConfirmed(thread: Option<ThreadState>, action: ThreadAction)
    requires ThreadOk(thread) && IsLocal(thread, action)
    ensures Confirmed(OrLocal(Apply(thread, action)).messages) == Confirmed(OrLocal(thread).messages)
  {
    var s := OrLocal(thread).messages;
    match action
    case Upsert(m) =>
      ReplaceMessageIsWindow(s, m);
    case MarkFailed(id) => MapKeepsConfirmedKeys(s, id, FailIfSending);
    case Patch(id, patch) => MapKeepsConfirmedKeys(s, id, m => ApplyPatch(m, patch));
    case Remove(id) =>
    case React(id, reaction, add) => MapKeepsConfirmedKeys(s, id, m => ApplyReaction(m, reaction, add));
  }

  lemma MapKeepsConfirmedKeys(s: seq<Message>, id: MessageId, update: Message -> Message)
    requires forall m: Message :: KeyOf(update(m)) == KeyOf(m)
    requires forall m | m in s :: m.id == id ==> (update(m).sendState == None <==> m.sendState == None)
    ensures Confirmed(MapMessage(s, id, update)) == Confirmed(s)
  {
    var r := MapMessage(s, id, update);
    forall k ensures k in Confirmed(r) <==> k in Confirmed(s) {
      if k in Confirmed(r) {
        var i :| 0 <= i < |r| && r[i].sendState == None && KeyOf(r[i]) == k;
        assert s[i] in s;
      }
      if k in Confirmed(s) {
        var i :| 0 <= i < |s| && s[i].sendState == None && KeyOf(s[i]) == k;
        assert r[i] in r;
      }
    }
  }

  lemma LocalKeepsInv(w: World, action: ThreadAction)
    requires Inv(w) && Enabled(w, Local(action))
    ensures Inv(Next(w, Local(action)))
  {
    ApplyKeepsThreadOk(w.thread, action);
    LocalKeepsConfirmed(w.thread, action);
    var next := Next(w, Local(action));
    if w.thread.Some? {
      var lo: nat, hi: nat :| WindowAt(w, lo, hi);
      assert WindowAt(next, lo, hi);
    } else if next.thread.Some? {
      assert Confirmed(OrLocal(None).messages) == Slice(w.timeline, 0, 0);
      assert WindowAt(next, 0, 0);
    }
  }

  /** Every enabled step keeps the thread a gap-free window onto the timeline. */
  lemma StepKeepsInv(w: World, step: Step)
    requires Inv(w) && Enabled(w, step)
    ensures Inv(Next(w, step))
  {
    match step
    case Arrive(key) => ArriveKeepsInv(w, key);
    case Reload(page, a, seen, now) => ReloadKeepsInv(w, page, a, seen, now);
    case LoadOlder(page, a, b, seen, now) => LoadOlderKeepsInv(w, page, a, b, seen, now);
    case LoadNewer(page, a, b, seen, now) => LoadNewerKeepsInv(w, page, a, b, seen, now);
    case Jump(page, a, b, seen, now) => JumpKeepsInv(w, page, a, b, seen, now);
    case Poll(recent, a, seen, now) => PollKeepsInv(w, recent, a, seen, now);
    case Push(m, i) => PushKeepsInv(w, m, i);
    case Echo(m, i) => EchoKeepsInv(w, m, i);
    case Local(action) => LocalKeepsInv(w, action);
  }

  lemma {:induction false} EveryRunKeepsInv(w: World, steps: seq<Step>)
    requires Initial(w) && Legal(w, steps)
    ensures Inv(Run(w, steps))
  {
    if steps != [] {
      EveryRunKeepsInv(w, steps[..|steps|-1]);
      StepKeepsInv(Run(w, steps[..|steps|-1]), steps[|steps|-1]);
    }
  }

  // ---------------------------------------------------------------------
  // What the reader sees
  // ---------------------------------------------------------------------

  predicate Shows(thread: ThreadState, key: Key) {
    exists m | m in thread.messages :: KeyOf(m) == key && m.sendState == None
  }

  /** The reader sees the message at this position. */
  predicate ShowsAt(w: World, i: nat)
    requires i < |w.timeline|
  {
    w.thread.Some? && Shows(w.thread.value, w.timeline[i])
  }

  /**
   * A message between two shown messages is shown; when the older cursor is
   * null everything before a shown message is shown; and once synced,
   * everything after a shown message, up to the timeline of that moment, is
   * shown. A message that only a push or an echo brought (`pushed`) does not
   * count as an end of such a stretch until a page or a poll has held it.
   */
  ghost predicate GapFree(w: World)
    requires w.thread.Some?
  {
    (forall i, j, k | 0 <= i <= j <= k < |w.timeline| && i !in w.pushed && k !in w.pushed ::
      ShowsAt(w, i) && ShowsAt(w, k) ==> ShowsAt(w, j)) &&
    (w.thread.value.olderCursor == None ==>
      forall j, k | 0 <= j <= k < |w.timeline| && k !in w.pushed :: ShowsAt(w, k) ==> ShowsAt(w, j)) &&
    (w.thread.value.syncedAt.Some? ==>
      forall i, j | 0 <= i <= j < |w.timeline| && j < w.syncedLength && i !in w.pushed ::
        ShowsAt(w, i) ==> ShowsAt(w, j)) &&
    (forall p | p in w.pushed :: p < |w.timeline| && ShowsAt(w, p))
  }

  /** No silent gap, over every run. */
  lemma NoSilentGap(w: World, steps: seq<Step>)
    requires Initial(w) && Legal(w, steps)
    ensures Run(w, steps).thread.Some? ==> GapFree(Run(w, steps))
  {
    EveryRunKeepsInv(w, steps);
    var after := Run(w, steps);
    if after.thread.Some? {
      var lo: nat, hi: nat :| WindowAt(after, lo, hi);
      WindowIsGapFree(after, lo, hi);
    }
  }

  lemma WindowIsGapFree(w: World, lo: nat, hi: nat)
    requires ValidTimeline(w.timeline) && w.thread.Some? && WindowAt(w, lo, hi)
    ensures GapFree(w)
  {
    forall i: nat | i < |w.timeline| ensures ShowsAt(w, i) <==> lo <= i < hi || i in w.pushed {
      ShownIsCovered(w, lo, hi, i);
    }
  }

  lemma ShownIsConfirmed(thread: ThreadState, key: Key)
    ensures Shows(thread, key) <==> key in Confirmed(thread.messages)
  {
  }

  lemma ShownIsCovered(w: World, lo: nat, hi: nat, i: nat)
    requires ValidTimeline(w.timeline) && w.thread.Some? && CoversAt(w, lo, hi) && i < |w.timeline|
    ensures ShowsAt(w, i) <==> lo <= i < hi || i in w.pushed
  {
    ShownIsConfirmed(w.thread.value, w.timeline[i]);
    InSlice(w.timeline, lo, hi, i);
    if w.timeline[i] in KeysAt(w.timeline, w.pushed) {
      var p :| p in w.pushed && w.timeline[p] == w.timeline[i];
      assert p == i;
    }
  }

  // ---------------------------------------------------------------------
  // A guard the client can check
  // ---------------------------------------------------------------------

  ghost predicate IsPushed(w: World, key: Key) {
    exists p :: p in w.pushed && p < |w.timeline| && w.timeline[p] == key
  }

  /** Page and window share a row that a page or a poll has brought. */
  ghost predicate SharesLoaded(w: World, items: seq<Message>) {
    w.thread.Some? &&
    exists m | m in items :: exists l | l in w.thread.value.messages ::
      l.id == m.id && l.sendState == None && !IsPushed(w, KeyOf(l))
  }

  predicate LiesOn(cursor: Option<Cursor>, a: nat, b: nat) {
    cursor.Some? && a <= cursor.value.position <= b
  }

  /**
   * Joining only on such a row, and taking an adjacent page only while the
   * cursor that fetched it is still the window's: unlike `Fits`, a test of
   * what the thread holds.
   */
  ghost predicate Guarded(w: World, step: Step) {
    match step
    case LoadOlder(_, a, b, _, _) => w.thread.Some? && LiesOn(w.thread.value.olderCursor, a, b)
    case LoadNewer(_, a, b, _, _) => w.thread.Some? && LiesOn(w.thread.value.newerCursor, a, b)
    case Jump(page, _, _, _, _) => Joins(w.thread, page.items) ==> SharesLoaded(w, page.items)
    case Poll(recent, _, _, now) => PollJoins(w.thread, recent, now) ==> SharesLoaded(w, recent)
    case _ => true
  }

  lemma SharedLoadedRowTouches(w: World, items: seq<Message>, lo: nat, hi: nat, a: nat, b: nat)
    requires ValidTimeline(w.timeline) && w.thread.Some? && CoversAt(w, lo, hi)
    requires a <= b <= |w.timeline| && ItemKeys(items) == Slice(w.timeline, a, b)
    requires SharesLoaded(w, items)
    ensures Touches(lo, hi, a, b)
  {
    var t, rows := w.timeline, w.thread.value.messages;
    var m, l :| m in items && l in rows && l.id == m.id && l.sendState == None && !IsPushed(w, KeyOf(l));
    assert KeyOf(m) in ItemKeys(items) && KeyOf(l) in Confirmed(rows);
    var i :| a <= i < b && t[i] == KeyOf(m);
    assert KeyOf(l) !in KeysAt(t, w.pushed);
    var j :| lo <= j < hi && t[j] == KeyOf(l);
  }

  /** Under the guard every honest page and poll fits; with nothing pushed, sharing a confirmed row is the guard. */
  lemma GuardedStepFits(w: World, step: Step)
    requires Inv(w) && Honest(w, step) && Guarded(w, step)
    ensures Enabled(w, step)
  {
    if w.thread.Some? {
      var lo: nat, hi: nat :| WindowAt(w, lo, hi);
      match step
      case LoadOlder(_, a, b, _, _) => assert CoversAt(w, lo, hi) && Touches(lo, hi, a, b);
      case LoadNewer(_, a, b, _, _) => assert CoversAt(w, lo, hi) && Touches(lo, hi, a, b);
      case Jump(page, a, b, _, _) =>
        if Joins(w.thread, page.items) {
          SharedLoadedRowTouches(w, page.items, lo, hi, a, b);
        }
      case Poll(recent, a, seen, now) =>
        if PollJoins(w.thread, recent, now) {
          SharedLoadedRowTouches(w, recent, lo, hi, a, seen);
        }
      case _ =>
    }
  }

  lemma ConfirmedIsLoadedUnlessPushed(w: World, items: seq<Message>)
    requires w.thread.Some? && w.pushed == {} && SharesConfirmed(w.thread.value.messages, items)
    ensures SharesLoaded(w, items)
  {
  }

  ghost predicate HonestAndGuarded(w: World, steps: seq<Step>) {
    if steps == [] then true
    else
      HonestAndGuarded(w, steps[..|steps|-1]) &&
      Honest(Run(w, steps[..|steps|-1]), steps[|steps|-1]) &&
      Guarded(Run(w, steps[..|steps|-1]), steps[|steps|-1])
  }

  /** A client that joins under the guard has only legal runs, so `NoSilentGap` holds of all of them. */
  lemma {:induction false} GuardedRunsAreLegal(w: World, steps: seq<Step>)
    requires Initial(w) && HonestAndGuarded(w, steps)
    ensures Legal(w, steps)
  {
    if steps != [] {
      GuardedRunsAreLegal(w, steps[..|steps|-1]);
      EveryRunKeepsInv(w, steps[..|steps|-1]);
      GuardedStepFits(Run(w, steps[..|steps|-1]), steps[|steps|-1]);
    }
  }

  // ---------------------------------------------------------------------
  // Why the overlap has to be a confirmed row
  // ---------------------------------------------------------------------

  function Row(n: CodeUnit, sendState: Option<SendState>): Message {
    Message([n], [], 1, [], n as int, [], None, None, false, false, sendState)
  }

  lemma OneItem(t: Timeline, items: seq<Message>, i: nat, m: Message)
    requires items == [m] && i < |t| && t[i] == KeyOf(m)
    ensures ItemKeys(items) == Slice(t, i, i + 1)
  {
    assert items[0] == m;
    assert ItemKeys(items) == {KeyOf(m)};
    assert Slice(t, i, i + 1) == {t[i]};
  }

  const GAP_TIMELINE: Timeline := [Key([1], 1), Key([2], 2), Key([3], 3)]

  /** Synced when only the first message existed; the send has since landed as the third. */
  const GAP_THREAD :=
    ThreadState([Row(3, Some(Sending)), Row(1, None)], None, false, None, false, false, true, Some(0))

  /** The same before the send. */
  const LOADED_THREAD := ThreadState([Row(1, None)], None, false, None, false, false, true, Some(0))

  const GAP_PAGE := MessagesPage([Row(3, None)], Some(Cursor(2)), None)

  lemma GapStateIsLegal()
    ensures ValidTimeline(GAP_TIMELINE) && ThreadOk(Some(GAP_THREAD))
    ensures Covers(GAP_TIMELINE, GAP_THREAD, {}, 0, 1) && Confirmed(GAP_THREAD.messages) == Slice(GAP_TIMELINE, 0, 1)
    ensures ItemKeys(GAP_PAGE.items) == Slice(GAP_TIMELINE, 2, 3)
    ensures SharesId(GAP_THREAD.messages, GAP_PAGE.items)
    ensures !SharesConfirmed(GAP_THREAD.messages, GAP_PAGE.items)
  {
    OneItem(GAP_TIMELINE, GAP_PAGE.items, 2, Row(3, None));
    assert GAP_THREAD.messages[1] == Row(1, None);
    assert Confirmed(GAP_THREAD.messages) == {KeyOf(Row(1, None))};
    assert Slice(GAP_TIMELINE, 0, 1) == {GAP_TIMELINE[0]};
    assert GAP_THREAD.messages[0].id == GAP_PAGE.items[0].id;
  }

  lemma OneRowMerges(n: CodeUnit)
    ensures MergeMessages([], [Row(n, None)]) == [Row(n, None)]
  {
    assert [] + ServerCopies([Row(n, None)]) == [Row(n, None)];
    WindowOfWindowIsItself([Row(n, None)]);
  }

  /** The page does not reach further back than the first message, so its older cursor is dropped. */
  lemma GapJumpDropsTheCursor()
    ensures var next := ApplyAnchorPage(GAP_THREAD, GAP_PAGE, 0);
      next.olderCursor == None && next.newerCursor == None
  {
    GapStateIsLegal();
    OneRowMerges(3);
  }

  lemma RunOn(w: World, steps: seq<Step>, step: Step)
    requires Legal(w, steps) && Enabled(Run(w, steps), step)
    ensures Legal(w, steps + [step]) && Run(w, steps + [step]) == Next(Run(w, steps), step)
  {
    assert (steps + [step])[..|steps|] == steps;
  }

  const FIRST_PAGE := MessagesPage([Row(1, None)], None, None)

  lemma FirstPageIsHonest()
    ensures IsSlice([Key([1], 1)], FIRST_PAGE.items, 0, 1, 1)
  {
    OneItem([Key([1], 1)], FIRST_PAGE.items, 0, Row(1, None));
  }

  /** The thread opens on the only message there is. */
  lemma GapRunLoads(w: World) returns (step: Step)
    requires w == World([Key([1], 1)], None, {}, 0)
    ensures Enabled(w, step)
    ensures Next(w, step) == World([Key([1], 1)], Some(LOADED_THREAD), {}, 1)
  {
    step := Reload(FIRST_PAGE, 0, 1, 0);
    FirstPageIsHonest();
    FirstReload();
  }

  lemma FirstReload()
    ensures Apply(None, SetPage(FIRST_PAGE, LatestPage, 0)) == Some(LOADED_THREAD)
  {
    OneRowMerges(1);
    assert Pending([]) == [];
  }

  /** A send goes out while that message is the newest. */
  lemma GapRunSends(w: World) returns (step: Step)
    requires w == World([Key([1], 1)],
      Some(LOADED_THREAD), {}, 1)
    ensures Enabled(w, step) && Next(w, step) == World([Key([1], 1)], Some(GAP_THREAD), {}, 1)
  {
    var m := Row(3, Some(Sending));
    step := Local(Upsert(m));
    var s := w.thread.value.messages;
    assert s[0] == Row(1, None);
    assert !HasConfirmed(w.thread, m.id);
    ReplaceMessageIsWindow(s, m);
    assert IsWindow([m, Row(1, None)]);
    assert forall x :: x in [m, Row(1, None)] <==> x == m || x == Row(1, None);
    WindowsWithSameRowsAreEqual(ReplaceMessage(s, m), [m, Row(1, None)]);
  }

  lemma GapRunOpens(start: World) returns (steps: seq<Step>)
    requires start == World([Key([1], 1)], None, {}, 0)
    ensures Legal(start, steps) && Run(start, steps) == World([Key([1], 1)], Some(GAP_THREAD), {}, 1)
  {
    var load := GapRunLoads(start);
    RunOn(start, [], load);
    var send := GapRunSends(Run(start, [] + [load]));
    RunOn(start, [] + [load], send);
    steps := [] + [load] + [send];
  }

  lemma RunArrives(start: World, steps: seq<Step>, key: Key) returns (more: seq<Step>)
    requires Legal(start, steps) && ValidTimeline(Run(start, steps).timeline + [key])
    ensures Legal(start, more) && more == steps + [Arrive(key)]
    ensures var w := Run(start, steps);
      Run(start, more) == w.(timeline := w.timeline + [key])
  {
    RunOn(start, steps, Arrive(key));
    more := steps + [Arrive(key)];
  }

  lemma GapTimelineGrows()
    ensures ValidTimeline([Key([1], 1)])
    ensures [Key([1], 1)] + [Key([2], 2)] == [Key([1], 1), Key([2], 2)]
    ensures ValidTimeline([Key([1], 1), Key([2], 2)])
    ensures [Key([1], 1), Key([2], 2)] + [Key([3], 3)] == GAP_TIMELINE && ValidTimeline(GAP_TIMELINE)
  {
  }

  /** Two more messages reach the server, the second of them the send itself: the state is that of a legal run. */
  lemma GapStateIsReached() returns (start: World, steps: seq<Step>)
    ensures Initial(start) && Legal(start, steps)
    ensures Run(start, steps) == World(GAP_TIMELINE, Some(GAP_THREAD), {}, 1)
  {
    start := World([Key([1], 1)], None, {}, 0);
    GapTimelineGrows();
    var begun := GapRunOpens(start);
    var both := RunArrives(start, begun, Key([2], 2));
    steps := RunArrives(start, both, Key([3], 3));
  }

  /**
   * A legal run and then an honest jump page that shares only the unconfirmed
   * send: the code joins the windows, and the messages in between are gone
   * with no cursor left to fetch them.
   */
  lemma UnconfirmedOverlapOpensAGap()
    ensures exists start: World, steps: seq<Step>, page: MessagesPage, a: nat, b: nat, seen: nat ::
      JoinLosesMessages(start, steps, page, a, b, seen)
  {
    var start, steps := GapStateIsReached();
    GapStateIsLegal();
    GapJumpDropsTheCursor();
    JumpStaysContiguousIff(GAP_TIMELINE, GAP_THREAD, GAP_PAGE, 0, 0, 1, 2, 3);
    assert IsSlice(GAP_TIMELINE, GAP_PAGE.items, 2, 3, 3);
    assert JoinLosesMessages(start, steps, GAP_PAGE, 2, 3, 3);
  }

  ghost predicate JoinLosesMessages(start: World, steps: seq<Step>, page: MessagesPage, a: nat, b: nat, seen: nat) {
    Initial(start) && Legal(start, steps) &&
    var w := Run(start, steps);
    w.thread.Some? &&
    IsSlice(w.timeline, page.items, a, b, seen) &&
    OlderCursorOk(page.nextCursor, a, b) && NewerCursorOk(page.nextNewerCursor, a, b, seen) &&
    SharesId(w.thread.value.messages, page.items) && !SharesConfirmed(w.thread.value.messages, page.items) &&
    var next := ApplyAnchorPage(w.thread.value, page, 0);
    !IsContiguous(w.timeline, next.messages) && next.olderCursor == None && next.newerCursor == None
  }

  // ---------------------------------------------------------------------
  // The same for a poll
  // ---------------------------------------------------------------------

  /** The window is stamped synced, and a message after a loaded one is missing all the same. */
  ghost predicate SyncSkips(w: World) {
    w.thread.Some? && w.thread.value.syncedAt.Some? &&
    exists i: nat, j: nat ::
      i <= j < |w.timeline| && j < w.syncedLength && i !in w.pushed && ShowsAt(w, i) && !ShowsAt(w, j)
  }

  /** After a legal run an honest poll, merged by the code, stamps a window with a hole as synced. */
  ghost predicate PollSkips(start: World, steps: seq<Step>, recent: seq<Message>, a: nat, seen: nat, now: int) {
    Initial(start) && Legal(start, steps) &&
    var w := Run(start, steps);
    Honest(w, Poll(recent, a, seen, now)) && PollJoins(w.thread, recent, now) &&
    SyncSkips(Next(w, Poll(recent, a, seen, now)))
  }

  const GAP_POLL := [Row(3, None)]

  lemma GapPollSkips(w: World)
    requires w.timeline == GAP_TIMELINE && ThreadOk(w.thread) && TakesPushes(w.thread)
    requires w.thread.value.syncedAt == Some(0) && 0 !in w.pushed
    requires GAP_TIMELINE[0] in Confirmed(w.thread.value.messages)
    requires GAP_TIMELINE[1] !in Confirmed(w.thread.value.messages)
    requires forall k :: k in Confirmed(w.thread.value.messages) ==> k in GAP_TIMELINE
    requires SharesId(w.thread.value.messages, GAP_POLL)
    ensures Honest(w, Poll(GAP_POLL, 2, 3, 0)) && PollJoins(w.thread, GAP_POLL, 0)
    ensures SyncSkips(Next(w, Poll(GAP_POLL, 2, 3, 0)))
  {
    GapTimelineGrows();
    OneItem(w.timeline, GAP_POLL, 2, Row(3, None));
    PushAddsItsMessage(w.timeline, w.thread.value.messages, Row(3, None), 2);
    var next := Next(w, Poll(GAP_POLL, 2, 3, 0));
    MergedPoll(w, GAP_POLL, 2, 3, 0);
    HoleIsSkipped(next);
  }

  lemma HoleIsSkipped(w: World)
    requires w.timeline == GAP_TIMELINE && w.thread.Some? && w.thread.value.syncedAt.Some?
    requires w.syncedLength == 3 && 0 !in w.pushed
    requires GAP_TIMELINE[0] in Confirmed(w.thread.value.messages)
    requires GAP_TIMELINE[1] !in Confirmed(w.thread.value.messages)
    ensures SyncSkips(w)
  {
    ShownIsConfirmed(w.thread.value, GAP_TIMELINE[0]);
    ShownIsConfirmed(w.thread.value, GAP_TIMELINE[1]);
    assert ShowsAt(w, 0) && !ShowsAt(w, 1);
  }

  /** Sharing only an unconfirmed send misleads the poll as it does the jump. */
  lemma UnconfirmedOverlapMisleadsThePoll()
    ensures exists start: World, steps: seq<Step>, recent: seq<Message>, a: nat, seen: nat, now: int ::
      PollSkips(start, steps, recent, a, seen, now) &&
      !SharesConfirmed(Run(start, steps).thread.value.messages, recent)
  {
    var start, steps := GapStateIsReached();
    GapStateIsLegal();
    assert Slice(GAP_TIMELINE, 0, 1) == {GAP_TIMELINE[0]};
    GapPollSkips(Run(start, steps));
    assert PollSkips(start, steps, GAP_POLL, 2, 3, 0);
  }

  lemma PushIsTaken(w: World)
    requires w == World(GAP_TIMELINE, Some(LOADED_THREAD), {}, 1)
    ensures Enabled(w, Push(Row(3, None), 2))
    ensures var next := Next(w, Push(Row(3, None), 2));
      next.timeline == GAP_TIMELINE && ThreadOk(next.thread) && TakesPushes(next.thread) &&
      next.thread.value.syncedAt == Some(0) && next.pushed == {2} &&
      Confirmed(next.thread.value.messages) == {GAP_TIMELINE[0], GAP_TIMELINE[2]}
  {
    GapTimelineGrows();
    assert LOADED_THREAD.messages[0] == Row(1, None);
    assert Confirmed(LOADED_THREAD.messages) == {GAP_TIMELINE[0]};
    ApplyKeepsThreadOk(w.thread, MergeLatest([Row(3, None)]));
    PushAddsItsMessage(GAP_TIMELINE, LOADED_THREAD.messages, Row(3, None), 2);
  }

  /** The third message is pushed while the second has not been loaded. */
  lemma PushedStateIsReached() returns (start: World, steps: seq<Step>, w: World)
    ensures Initial(start) && Legal(start, steps) && Run(start, steps) == w
    ensures w.timeline == GAP_TIMELINE && ThreadOk(w.thread) && TakesPushes(w.thread)
    ensures w.thread.value.syncedAt == Some(0) && w.pushed == {2}
    ensures Confirmed(w.thread.value.messages) == {GAP_TIMELINE[0], GAP_TIMELINE[2]}
  {
    start := World([Key([1], 1)], None, {}, 0);
    GapTimelineGrows();
    var load := GapRunLoads(start);
    RunOn(start, [], load);
    var both := RunArrives(start, [] + [load], Key([2], 2));
    var all := RunArrives(start, both, Key([3], 3));
    var before := World(GAP_TIMELINE, Some(LOADED_THREAD), {}, 1);
    assert Run(start, all) == before;
    PushIsTaken(before);
    RunOn(start, all, Push(Row(3, None), 2));
    steps, w := all + [Push(Row(3, None), 2)], Next(before, Push(Row(3, None), 2));
  }

  lemma PushedRowIsShared(w: World)
    requires w.timeline == GAP_TIMELINE && w.thread.Some? && w.pushed == {2}
    requires Confirmed(w.thread.value.messages) == {GAP_TIMELINE[0], GAP_TIMELINE[2]}
    ensures SharesConfirmed(w.thread.value.messages, GAP_POLL) && !SharesLoaded(w, GAP_POLL)
  {
    var rows := w.thread.value.messages;
    assert GAP_TIMELINE[2] in Confirmed(rows);
    var row :| row in rows && row.sendState == None && KeyOf(row) == GAP_TIMELINE[2];
    assert row.id == GAP_POLL[0].id;
    forall m, l | m in GAP_POLL && l in rows && l.id == m.id && l.sendState == None
      ensures IsPushed(w, KeyOf(l))
    {
      assert KeyOf(l) in Confirmed(rows);
    }
  }

  /** A pushed message counts as overlap too: a poll that shares nothing else skips what lies before it. */
  lemma PushedOverlapMisleadsThePoll()
    ensures exists start: World, steps: seq<Step>, recent: seq<Message>, a: nat, seen: nat, now: int ::
      PollSkips(start, steps, recent, a, seen, now) &&
      SharesConfirmed(Run(start, steps).thread.value.messages, recent) && !SharesLoaded(Run(start, steps), recent)
  {
    var start, steps, w := PushedStateIsReached();
    PushedRowIsShared(w);
    SharesConfirmedSharesId(w.thread.value.messages, GAP_POLL);
    GapPollSkips(w);
    assert PollSkips(start, steps, GAP_POLL, 2, 3, 0);
  }

  // ---------------------------------------------------------------------
  // Why a discard must see the current row
  // ---------------------------------------------------------------------

  /** Discarding this confirmed row leaves a hole in a synced window, and no cursor to fetch it again. */
  ghost predicate DiscardSkips(t: Timeline, thread: ThreadState, id: MessageId) {
    HasConfirmed(Some(thread), id) &&
    var next := Apply(Some(thread), Remove(id)).value;
    !IsContiguous(t, next.messages) &&
    next.syncedAt.Some? && next.olderCursor == None && next.newerCursor == None
  }

  /**
   * The row handed to `discard` was the thread's failed row after `failed`,
   * the first steps of a legal run; by its end the store has confirmed it.
   */
  ghost predicate StaleDiscardSkips(start: World, failed: seq<Step>, steps: seq<Step>, id: MessageId) {
    Initial(start) && Legal(start, steps) && failed <= steps &&
    HasFailed(Run(start, failed).thread, id) && Run(start, steps).thread.Some? &&
    DiscardSkips(Run(start, steps).timeline, Run(start, steps).thread.value, id)
  }

  /** The server's whole timeline of four messages. */
  const FULL_TIMELINE: Timeline := [Key([1], 1), Key([2], 2), Key([3], 3), Key([4], 4)]

  const FULL_PAGE := MessagesPage([Row(1, None), Row(2, None), Row(3, None), Row(4, None)], None, None)

  lemma FullTimelineGrows()
    ensures GAP_TIMELINE + [Key([4], 4)] == FULL_TIMELINE && ValidTimeline(FULL_TIMELINE)
  {
  }

  lemma ItemsAreTheTimeline(t: Timeline, items: seq<Message>)
    requires |items| == |t| && forall i :: 0 <= i < |t| ==> KeyOf(items[i]) == t[i]
    ensures ItemKeys(items) == Slice(t, 0, |t|)
  {
    forall k | k in Slice(t, 0, |t|) ensures k in ItemKeys(items) {
      var i :| 0 <= i < |t| && t[i] == k;
      assert items[i] in items;
    }
  }

  lemma ErrorFailsTheSend()
    ensures HasFailed(Apply(Some(GAP_THREAD), MarkFailed([3])), [3])
  {
    var row := Row(3, Some(Sending));
    assert GAP_THREAD.messages[0] == row;
    MapMessageRows(GAP_THREAD.messages, [3], FailIfSending, FailIfSending(row));
  }

  lemma FullReload(w: World)
    requires w.timeline == FULL_TIMELINE && Inv(w)
    ensures Enabled(w, Reload(FULL_PAGE, 0, 4, 0))
    ensures var next := Next(w, Reload(FULL_PAGE, 0, 4, 0));
      next.timeline == FULL_TIMELINE && next.thread.Some? &&
      Confirmed(next.thread.value.messages) == Slice(FULL_TIMELINE, 0, 4) &&
      next.thread.value.syncedAt.Some? && next.thread.value.olderCursor == None &&
      next.thread.value.newerCursor == None
  {
    ItemsAreTheTimeline(FULL_TIMELINE, FULL_PAGE.items);
    MergeIntoPending(w.timeline, OrEmpty(w.thread).messages, FULL_PAGE.items, 0, 4);
  }

  lemma DiscardOfTheThird(thread: ThreadState)
    requires Confirmed(thread.messages) == Slice(FULL_TIMELINE, 0, 4)
    requires thread.syncedAt.Some? && thread.olderCursor == None && thread.newerCursor == None
    ensures DiscardSkips(FULL_TIMELINE, thread, [3])
  {
    FullTimelineGrows();
    assert FULL_TIMELINE[2] == Key([3], 3);
    assert FULL_TIMELINE[2] in Confirmed(thread.messages);
    RemovingStaysContiguousIff(FULL_TIMELINE, thread.messages, 0, 4, 2);
  }

  /** A send fails on the device, arrives after all, and is discarded from a menu opened before. */
  lemma StaleDiscardOpensAGap()
    ensures exists start: World, failed: seq<Step>, steps: seq<Step>, id: MessageId ::
      StaleDiscardSkips(start, failed, steps, id)
  {
    var start, failed, steps := StaleDiscardRun();
    DiscardOfTheThird(Run(start, steps).thread.value);
    assert StaleDiscardSkips(start, failed, steps, [3]);
  }

  lemma StaleDiscardRun() returns (start: World, failed: seq<Step>, steps: seq<Step>)
    ensures Initial(start) && Legal(start, steps) && failed <= steps
    ensures HasFailed(Run(start, failed).thread, [3])
    ensures var w := Run(start, steps);
      w.timeline == FULL_TIMELINE && w.thread.Some? &&
      Confirmed(w.thread.value.messages) == Slice(FULL_TIMELINE, 0, 4) &&
      w.thread.value.syncedAt.Some? && w.thread.value.olderCursor == None && w.thread.value.newerCursor == None
  {
    start, failed := FailedState();
    FullTimelineGrows();
    var arrived := RunArrives(start, failed, Key([4], 4));
    EveryRunKeepsInv(start, arrived);
    FullReload(Run(start, arrived));
    RunOn(start, arrived, Reload(FULL_PAGE, 0, 4, 0));
    steps := arrived + [Reload(FULL_PAGE, 0, 4, 0)];
  }

  lemma FailedState() returns (start: World, failed: seq<Step>)
    ensures Initial(start) && Legal(start, failed)
    ensures Run(start, failed).timeline == GAP_TIMELINE && HasFailed(Run(start, failed).thread, [3])
  {
    var begun: seq<Step>;
    start, begun := GapStateIsReached();
    ErrorFailsTheSend();
    RunOn(start, begun, Local(MarkFailed([3])));
    failed := begun + [Local(MarkFailed([3]))];
  }

  // ---------------------------------------------------------------------
  // Why an adjacent page must find the window that asked for it
  // ---------------------------------------------------------------------

  /**
   * An older page asked for after `asked`, the first steps of a legal run, by
   * the cursor the window had then, lands at the run's end and opens a gap.
   */
  ghost predicate StalePageSkips(start: World, asked: seq<Step>, steps: seq<Step>,
                                 page: MessagesPage, a: nat, b: nat, seen: nat) {
    Initial(start) && Legal(start, steps) && asked <= steps &&
    Run(start, asked).thread.Some? && LiesOn(Run(start, asked).thread.value.olderCursor, a, b) &&
    Honest(Run(start, steps), LoadOlder(page, a, b, seen, 0)) &&
    var after := Next(Run(start, steps), LoadOlder(page, a, b, seen, 0));
    after.thread.Some? && !GapFree(after)
  }

  function OneRowThread(n: CodeUnit, older: Option<Cursor>, newer: Option<Cursor>): ThreadState {
    CursorFields(
      ThreadState([Row(n, None)], None, false, None, false, false, true, if newer == None then Some(0) else None),
      older, newer)
  }

  const TAIL_PAGE := MessagesPage([Row(4, None)], Some(Cursor(3)), None)

  const HEAD_PAGE := MessagesPage([Row(1, None)], None, Some(Cursor(1)))

  const STALE_PAGE := MessagesPage([Row(3, None)], Some(Cursor(2)), None)

  lemma TailLoads(w: World)
    requires w == World(FULL_TIMELINE, None, {}, 0)
    ensures Enabled(w, Reload(TAIL_PAGE, 3, 4, 0))
    ensures Next(w, Reload(TAIL_PAGE, 3, 4, 0))
      == World(FULL_TIMELINE, Some(OneRowThread(4, Some(Cursor(3)), None)), {}, 4)
  {
    OneItem(FULL_TIMELINE, TAIL_PAGE.items, 3, Row(4, None));
    OneRowMerges(4);
    assert Pending([]) == [];
  }

  lemma HeadIsJumpedTo(w: World)
    requires w == World(FULL_TIMELINE, Some(OneRowThread(4, Some(Cursor(3)), None)), {}, 4)
    ensures Enabled(w, Jump(HEAD_PAGE, 0, 1, 4, 0))
    ensures Next(w, Jump(HEAD_PAGE, 0, 1, 4, 0))
      == World(FULL_TIMELINE, Some(OneRowThread(1, None, Some(Cursor(1)))), {}, 4)
  {
    OneItem(FULL_TIMELINE, HEAD_PAGE.items, 0, Row(1, None));
    OneRowMerges(1);
    assert !SharesId([Row(4, None)], [Row(1, None)]);
  }

  lemma StalePageLands(w: World)
    requires w == World(FULL_TIMELINE, Some(OneRowThread(1, None, Some(Cursor(1)))), {}, 4)
    ensures Honest(w, LoadOlder(STALE_PAGE, 2, 3, 4, 0))
    ensures var after := Next(w, LoadOlder(STALE_PAGE, 2, 3, 4, 0)); after.thread.Some? && !GapFree(after)
  {
    FullTimelineGrows();
    OneItem(FULL_TIMELINE, STALE_PAGE.items, 2, Row(3, None));
    var rows := w.thread.value.messages;
    assert rows[0] == Row(1, None);
    assert Confirmed(rows) == {FULL_TIMELINE[0]};
    PushAddsItsMessage(FULL_TIMELINE, rows, Row(3, None), 2);
    var after := Next(w, LoadOlder(STALE_PAGE, 2, 3, 4, 0));
    HoleMeansNotGapFree(after);
  }

  lemma HoleMeansNotGapFree(w: World)
    requires w.timeline == FULL_TIMELINE && w.thread.Some? && w.pushed == {}
    requires Confirmed(w.thread.value.messages) == {FULL_TIMELINE[0], FULL_TIMELINE[2]}
    ensures !GapFree(w)
  {
    ShownIsConfirmed(w.thread.value, FULL_TIMELINE[0]);
    ShownIsConfirmed(w.thread.value, FULL_TIMELINE[1]);
    ShownIsConfirmed(w.thread.value, FULL_TIMELINE[2]);
    assert ShowsAt(w, 0) && !ShowsAt(w, 1) && ShowsAt(w, 2);
  }

  lemma TailThenHead() returns (start: World, asked: seq<Step>, steps: seq<Step>)
    ensures Initial(start) && Legal(start, steps) && asked <= steps
    ensures Run(start, asked).thread == Some(OneRowThread(4, Some(Cursor(3)), None))
    ensures Run(start, steps) == World(FULL_TIMELINE, Some(OneRowThread(1, None, Some(Cursor(1)))), {}, 4)
  {
    start := World(FULL_TIMELINE, None, {}, 0);
    FullTimelineGrows();
    TailLoads(start);
    RunOn(start, [], Reload(TAIL_PAGE, 3, 4, 0));
    asked := [] + [Reload(TAIL_PAGE, 3, 4, 0)];
    HeadIsJumpedTo(Run(start, asked));
    RunOn(start, asked, Jump(HEAD_PAGE, 0, 1, 4, 0));
    steps := asked + [Jump(HEAD_PAGE, 0, 1, 4, 0)];
  }

  /** The tail is loaded, an older page is asked for, a jump replaces the window, and the page lands on the new one. */
  lemma StalePageOpensAGap()
    ensures exists start: World, asked: seq<Step>, steps: seq<Step>, page: MessagesPage, a: nat, b: nat, seen: nat ::
      StalePageSkips(start, asked, steps, page, a, b, seen)
  {
    var start, asked, steps := TailThenHead();
    StalePageLands(Run(start, steps));
    assert StalePageSkips(start, asked, steps, STALE_PAGE, 2, 3, 4);
  }
}
