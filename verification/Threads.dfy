/**
 * One conversation's message window and everything the store does to it
 * (farcaster-audio/stores/messageStore.ts).
 */
module Threads {
  import opened JsStrings
  import opened Options
  import opened Messages

  /** Opaque to the store; the server decodes it to a timeline position. */
  datatype Cursor = Cursor(position: nat)

  datatype MessagesPage = MessagesPage(
    items: seq<Message>,
    nextCursor: Option<Cursor>,
    nextNewerCursor: Option<Cursor>)

  datatype ThreadState = ThreadState(
    messages: seq<Message>,
    olderCursor: Option<Cursor>,
    hasOlder: bool,
    newerCursor: Option<Cursor>,
    hasNewer: bool,
    isDetached: bool,
    isLoaded: bool,
    syncedAt: Option<int>)

  const EMPTY_THREAD := ThreadState([], None, false, None, false, false, false, None)

  /** A thread created locally, by an optimistic send or an adopted draft. */
  const LOCAL_THREAD := EMPTY_THREAD.(isLoaded := true)

  datatype PageMode = LatestPage | OlderPage | NewerPage | AnchorPage

  /** The callers' `Partial<Message>` patches: a deletion flag, or a retry. */
  datatype MessagePatch = SetDeleted(isDeleted: bool) | SetSending

  /** The store actions that rewrite one thread. `now` stands for `Date.now()`. */
  datatype ThreadAction =
    | SetPage(page: MessagesPage, mode: PageMode, now: int)
    | MergeLatest(items: seq<Message>)
    | MarkSynced(now: int)
    | Upsert(message: Message)
    | Confirm(echo: Message)
    | MarkFailed(id: MessageId)
    | Patch(id: MessageId, patch: MessagePatch)
    | Remove(id: MessageId)
    | React(id: MessageId, reaction: JsString, add: bool)

  // ---------------------------------------------------------------------
  // Helpers of the store
  // ---------------------------------------------------------------------

  function CursorFields(t: ThreadState, older: Option<Cursor>, newer: Option<Cursor>): ThreadState {
    t.(olderCursor := older, hasOlder := older != None,
       newerCursor := newer, hasNewer := newer != None, isDetached := newer != None)
  }

  predicate SharesId(a: seq<Message>, b: seq<Message>) {
    exists m | m in b :: exists l | l in a :: l.id == m.id
  }

  /** `applyAnchorPage`. */
  function ApplyAnchorPage(current: ThreadState, page: MessagesPage, now: int): ThreadState {
    if !(current.isLoaded && SharesId(current.messages, page.items)) then
      CursorFields(
        ThreadState(MergeMessages([], page.items), None, false, None, false, false, true,
                    if page.nextNewerCursor == None then Some(now) else None),
        page.nextCursor, page.nextNewerCursor)
    else
      SortedPageIsNonEmpty(page.items);
      var pageSorted := MergeMessages([], page.items);
      var reachesOlder :=
        CompareNewestFirst(pageSorted[|pageSorted|-1], current.messages[|current.messages|-1]) > 0;
      var reachesNewer := CompareNewestFirst(pageSorted[0], current.messages[0]) < 0;
      CursorFields(
        current.(messages := MergeMessages(current.messages, page.items)),
        if reachesOlder then page.nextCursor else current.olderCursor,
        if reachesNewer && current.hasNewer then page.nextNewerCursor else current.newerCursor)
  }

  lemma SortedPageIsNonEmpty(items: seq<Message>)
    requires items != []
    ensures MergeMessages([], items) != []
  {
    MergeMessagesRows([], items);
    assert items[0].id in Ids(items);
  }

  function Pending(s: seq<Message>): (r: seq<Message>)
    ensures forall x :: x in r <==> x in s && x.sendState != None
  {
    if s == [] then []
    else
      assert s == [s[0]] + s[1..];
      if s[0].sendState != None then [s[0]] + Pending(s[1..]) else Pending(s[1..])
  }

  /** `setThreadPage` on one thread. */
  function ApplyPage(current: ThreadState, page: MessagesPage, mode: PageMode, now: int): ThreadState {
    match mode
    case OlderPage =>
      current.(messages := MergeMessages(current.messages, page.items),
               olderCursor := page.nextCursor,
               hasOlder := page.nextCursor != None)
    case NewerPage =>
      CursorFields(
        current.(messages := MergeMessages(current.messages, page.items),
                 syncedAt := if page.nextNewerCursor == None then Some(now) else current.syncedAt),
        current.olderCursor, page.nextNewerCursor)
    case AnchorPage => ApplyAnchorPage(current, page, now)
    case LatestPage =>
      CursorFields(
        ThreadState(MergeMessages(Pending(current.messages), page.items),
                    None, false, None, false, false, true, Some(now)),
        page.nextCursor, page.nextNewerCursor)
  }

  function MapMessage(s: seq<Message>, id: MessageId, update: Message -> Message): (r: seq<Message>)
    ensures |r| == |s|
    ensures forall i :: 0 <= i < |s| ==> r[i] == if s[i].id == id then update(s[i]) else s[i]
  {
    seq(|s|, i requires 0 <= i < |s| => if s[i].id == id then update(s[i]) else s[i])
  }

  function FailIfSending(m: Message): Message {
    if m.sendState == Some(Sending) then m.(sendState := Some(Failed)) else m
  }

  function ApplyPatch(m: Message, patch: MessagePatch): Message {
    match patch
    case SetDeleted(d) => m.(isDeleted := d)
    case SetSending => m.(sendState := Some(Sending))
  }

  /** `findIndex`, with `|s|` for "not found". */
  function ReactionIndex(s: seq<Reaction>, reaction: JsString): (i: nat)
    ensures i <= |s|
    ensures i < |s| ==> s[i].reaction == reaction
    ensures forall j :: 0 <= j < i ==> s[j].reaction != reaction
  {
    if s == [] || s[0].reaction == reaction then 0 else 1 + ReactionIndex(s[1..], reaction)
  }

  /** `toggleReactionSummary`. */
  function ToggleReaction(s: seq<Reaction>, reaction: JsString, add: bool): seq<Reaction> {
    var i := ReactionIndex(s, reaction);
    if i == |s| then (if add then s + [Reaction(reaction, 1, true)] else s)
    else if s[i].viewerReacted == add then s
    else
      var moved := s[i].count + (if add then 1 else -1);
      var count := if moved < 0 then 0 else moved;
      if count == 0 then s[..i] + s[i+1..]
      else s[i := s[i].(count := count, viewerReacted := add)]
  }

  function ApplyReaction(m: Message, reaction: JsString, add: bool): Message {
    m.(reactions := ToggleReaction(m.reactions, reaction, add))
  }

  /** A placeholder quote carries only the parent id. */
  predicate IsPlaceholder(q: Option<Quote>) {
    q.Some? && q.value.senderFid == 0
  }

  /** `mergeSendEcho`. */
  function MergeSendEcho(optimistic: Option<Message>, echo: Message): Message {
    var copy := ToServerCopy(echo);
    if optimistic == None then copy
    else
      var echoQuote := if IsPlaceholder(copy.inReplyTo) then None else copy.inReplyTo;
      copy.(inReplyTo := OrElse(echoQuote, OrElse(optimistic.value.inReplyTo, copy.inReplyTo)),
            metadata := OrElse(copy.metadata, optimistic.value.metadata))
  }

  function FindById(s: seq<Message>, id: MessageId): (r: Option<Message>)
    ensures r.Some? ==> r.value in s && r.value.id == id
    ensures r.None? ==> forall x :: x in s ==> x.id != id
  {
    if s == [] then None
    else if s[0].id == id then Some(s[0])
    else
      assert s == [s[0]] + s[1..];
      FindById(s[1..], id)
  }

  // ---------------------------------------------------------------------
  // One action on one thread
  // ---------------------------------------------------------------------

  function OrEmpty(t: Option<ThreadState>): ThreadState {
    if t.Some? then t.value else EMPTY_THREAD
  }

  function OrLocal(t: Option<ThreadState>): ThreadState {
    if t.Some? then t.value else LOCAL_THREAD
  }

  /** `updateThreadMessages`: a missing thread is left alone. */
  function OnMessages(t: Option<ThreadState>, messages: seq<Message> -> seq<Message>): Option<ThreadState> {
    if t == None then None else Some(t.value.(messages := messages(t.value.messages)))
  }

  /** The thread stored under a key (`None`: no entry) after one action. */
  function Apply(t: Option<ThreadState>, action: ThreadAction): Option<ThreadState> {
    match action
    case SetPage(page, mode, now) => Some(ApplyPage(OrEmpty(t), page, mode, now))
    case MergeLatest(items) =>
      if t == None || !t.value.isLoaded || t.value.isDetached then t
      else Some(t.value.(messages := MergeMessages(t.value.messages, items)))
    case MarkSynced(now) =>
      if t == None || !t.value.isLoaded || t.value.isDetached then t
      else Some(t.value.(syncedAt := Some(now)))
    case Upsert(m) =>
      Some(OrLocal(t).(messages := ReplaceMessage(OrLocal(t).messages, m)))
    case Confirm(echo) =>
      var current := OrLocal(t);
      var row := MergeSendEcho(FindById(current.messages, echo.id), echo);
      Some(current.(messages := ReplaceMessage(current.messages, row)))
    case MarkFailed(id) => OnMessages(t, s => MapMessage(s, id, FailIfSending))
    case Patch(id, patch) => OnMessages(t, s => MapMessage(s, id, m => ApplyPatch(m, patch)))
    case Remove(id) => OnMessages(t, s => Without(s, id))
    case React(id, reaction, add) =>
      OnMessages(t, s => MapMessage(s, id, m => ApplyReaction(m, reaction, add)))
  }

  // ---------------------------------------------------------------------
  // What every action keeps
  // ---------------------------------------------------------------------

  predicate FlagsAgree(t: ThreadState) {
    t.hasOlder == (t.olderCursor != None) &&
    t.hasNewer == t.isDetached == (t.newerCursor != None)
  }

  predicate ThreadOk(t: Option<ThreadState>) {
    t.Some? ==> IsWindow(t.value.messages) && FlagsAgree(t.value)
  }

  lemma MapMessageKeepsWindow(s: seq<Message>, id: MessageId, update: Message -> Message)
    requires IsWindow(s)
    requires forall m :: update(m).id == m.id && update(m).sentAt == m.sentAt
    ensures IsWindow(MapMessage(s, id, update))
  {
  }

  lemma {:induction false} PendingKeepsWindow(s: seq<Message>)
    requires IsWindow(s)
    ensures IsWindow(Pending(s))
  {
    if s != [] {
      TopRowIsNewest(s);
      PendingKeepsWindow(s[1..]);
      if s[0].sendState != None {
        TopRowKeepsWindow(s[0], Pending(s[1..]));
      }
    }
  }

  lemma ApplyPageKeepsThreadOk(current: ThreadState, page: MessagesPage, mode: PageMode, now: int)
    requires ThreadOk(Some(current))
    ensures ThreadOk(Some(ApplyPage(current, page, mode, now)))
  {
    WindowIsSortedUnion(current.messages + ServerCopies(page.items));
    WindowIsSortedUnion([] + ServerCopies(page.items));
    WindowIsSortedUnion(Pending(current.messages) + ServerCopies(page.items));
  }

  /** Every action leaves a thread strictly newest-first, one row per id, flags matching cursors. */
  lemma ApplyKeepsThreadOk(t: Option<ThreadState>, action: ThreadAction)
    requires ThreadOk(t)
    ensures ThreadOk(Apply(t, action))
  {
    var current := OrEmpty(t);
    assert IsWindow(current.messages) && OrLocal(t).messages == current.messages;
    match action
    case SetPage(page, mode, now) => ApplyPageKeepsThreadOk(current, page, mode, now);
    case MergeLatest(items) => MergeMessagesRows(current.messages, items);
    case MarkSynced(now) =>
    case Upsert(m) => ReplaceMessageIsWindow(current.messages, m);
    case Confirm(echo) =>
      ReplaceMessageIsWindow(current.messages, MergeSendEcho(FindById(current.messages, echo.id), echo));
    case MarkFailed(id) => MapMessageKeepsWindow(current.messages, id, FailIfSending);
    case Patch(id, patch) => MapMessageKeepsWindow(current.messages, id, m => ApplyPatch(m, patch));
    case Remove(id) => WithoutKeepsWindow(current.messages, id);
    case React(id, reaction, add) =>
      MapMessageKeepsWindow(current.messages, id, m => ApplyReaction(m, reaction, add));
  }

  // ---------------------------------------------------------------------
  // Unconfirmed sends
  // ---------------------------------------------------------------------

  /** The rows include an unconfirmed one of this id (`DistinctIds` makes it the only one). */
  predicate HoldsPending(rows: seq<Message>, id: MessageId) {
    exists x | x in rows :: x.id == id && x.sendState != None
  }

  predicate HasPending(t: Option<ThreadState>, id: MessageId) {
    t.Some? && HoldsPending(t.value.messages, id)
  }

  predicate HasFailed(t: Option<ThreadState>, id: MessageId) {
    t.Some? && exists x | x in t.value.messages :: x.id == id && x.sendState == Some(Failed)
  }

  predicate HasConfirmed(t: Option<ThreadState>, id: MessageId) {
    t.Some? && exists x | x in t.value.messages :: x.id == id && x.sendState == None
  }

  predicate Mentions(items: seq<Message>, id: MessageId) {
    exists x | x in items :: x.id == id
  }

  /** The action delivers a server copy of the row. */
  predicate Confirms(t: Option<ThreadState>, action: ThreadAction, id: MessageId) {
    match action
    case SetPage(page, _, _) => Mentions(page.items, id)
    case MergeLatest(items) => t.Some? && t.value.isLoaded && !t.value.isDetached && Mentions(items, id)
    case Confirm(echo) => echo.id == id
    case Upsert(m) => m.id == id && m.sendState == None
    case _ => false
  }

  /** A jump to a window that shares no row with the loaded one. */
  predicate IsDisjointJump(t: Option<ThreadState>, action: ThreadAction) {
    action.SetPage? && action.mode == AnchorPage &&
    !(OrEmpty(t).isLoaded && SharesId(OrEmpty(t).messages, action.page.items))
  }

  lemma ConfirmedMeansNotPending(t: Option<ThreadState>, id: MessageId)
    requires ThreadOk(t)
    ensures !(HasPending(t, id) && HasConfirmed(t, id))
  {
  }

  lemma MergeKeepsPending(existing: seq<Message>, items: seq<Message>, id: MessageId)
    requires IsWindow(existing)
    ensures (exists x | x in MergeMessages(existing, items) :: x.id == id && x.sendState != None)
      <==> !Mentions(items, id) && exists x | x in existing :: x.id == id && x.sendState != None
  {
    MergeMessagesRows(existing, items);
    assert Mentions(items, id) <==> id in Ids(items);
    if id !in Ids(items) {
      assert forall x: Message :: x.id == id ==> (x in MergeMessages(existing, items) <==> x in existing);
    }
  }

  lemma MapMessageRows(s: seq<Message>, id: MessageId, update: Message -> Message, x: Message)
    ensures x in MapMessage(s, id, update)
      <==> exists y | y in s :: x == if y.id == id then update(y) else y
  {
    var r := MapMessage(s, id, update);
    if x in r {
      var i :| 0 <= i < |r| && r[i] == x;
      assert s[i] in s;
    }
    if y :| y in s && x == if y.id == id then update(y) else y {
      var i :| 0 <= i < |s| && s[i] == y;
      assert r[i] in r;
    }
  }

  /**
   * An unconfirmed send loses its pending row in exactly three ways: a server
   * copy confirms it, it is discarded, or the window jumps somewhere disjoint.
   * Page loads, polls, pushes, failures, retries and reactions all keep it.
   */
  lemma PendingRowLeavesOnlyWhenSettled(t: Option<ThreadState>, action: ThreadAction, id: MessageId)
    requires ThreadOk(t) && HasPending(t, id)
    ensures HasPending(Apply(t, action), id) <==>
      !(Confirms(t, action, id) || action == Remove(id) || IsDisjointJump(t, action))
    ensures Confirms(t, action, id) ==> HasConfirmed(Apply(t, action), id)
  {
    match action
    case SetPage(page, mode, now) => PageSettles(t, page, mode, now, id);
    case MergeLatest(items) => PollSettles(t, items, id);
    case Upsert(_) => CopySettles(t, action, id);
    case Confirm(_) => CopySettles(t, action, id);
    case Remove(_) =>
    case _ => LocalActionKeepsPending(t, action, id);
  }

  lemma PollSettles(t: Option<ThreadState>, items: seq<Message>, id: MessageId)
    requires ThreadOk(t) && HasPending(t, id)
    ensures HasPending(Apply(t, MergeLatest(items)), id) <==> !Confirms(t, MergeLatest(items), id)
    ensures Confirms(t, MergeLatest(items), id) ==> HasConfirmed(Apply(t, MergeLatest(items)), id)
  {
    if Mentions(items, id) {
      MergeConfirms(t.value.messages, items, id);
    }
    MergeKeepsPending(t.value.messages, items, id);
  }

  lemma CopySettles(t: Option<ThreadState>, action: ThreadAction, id: MessageId)
    requires ThreadOk(t) && HasPending(t, id) && (action.Upsert? || action.Confirm?)
    ensures HasPending(Apply(t, action), id) <==> !Confirms(t, action, id)
    ensures Confirms(t, action, id) ==> HasConfirmed(Apply(t, action), id)
  {
    ApplyKeepsThreadOk(t, action);
    ConfirmedMeansNotPending(Apply(t, action), id);
    var s := t.value.messages;
    var copy := if action.Upsert? then action.message else MergeSendEcho(FindById(s, action.echo.id), action.echo);
    ReplaceKeepsPending(s, copy, id);
  }

  lemma LocalActionKeepsPending(t: Option<ThreadState>, action: ThreadAction, id: MessageId)
    requires HasPending(t, id)
    requires action.MarkSynced? || action.MarkFailed? || action.Patch? || action.React?
    ensures HasPending(Apply(t, action), id)
  {
    var s := t.value.messages;
    var row :| row in s && row.id == id && row.sendState != None;
    match action
    case MarkFailed(other) => MapKeepsPending(s, other, FailIfSending, row);
    case Patch(other, patch) => MapKeepsPending(s, other, m => ApplyPatch(m, patch), row);
    case React(other, reaction, add) => MapKeepsPending(s, other, m => ApplyReaction(m, reaction, add), row);
    case _ =>
  }

  lemma ReplaceKeepsPending(s: seq<Message>, m: Message, id: MessageId)
    requires IsWindow(s)
    ensures m in ReplaceMessage(s, m)
    ensures (exists x | x in s :: x.id == id && x.sendState != None) && m.id != id ==>
      exists x | x in ReplaceMessage(s, m) :: x.id == id && x.sendState != None
  {
    ReplaceMessageIsWindow(s, m);
    forall x | x in s && x.id != m.id ensures x in ReplaceMessage(s, m) {
    }
  }

  lemma MapKeepsPending(s: seq<Message>, other: MessageId, update: Message -> Message, row: Message)
    requires row in s && row.sendState != None
    requires row.id == other ==> update(row).id == row.id && update(row).sendState != None
    ensures exists x | x in MapMessage(s, other, update) :: x.id == row.id && x.sendState != None
  {
    MapMessageRows(s, other, update, if row.id == other then update(row) else row);
  }

  lemma MergeConfirms(existing: seq<Message>, items: seq<Message>, id: MessageId)
    requires IsWindow(existing) && Mentions(items, id)
    ensures exists x | x in MergeMessages(existing, items) :: x.id == id && x.sendState == None
  {
    MergeMessagesRows(existing, items);
    assert id in Ids(items);
    assert id in Ids(MergeMessages(existing, items));
  }

  lemma PageSettles(t: Option<ThreadState>, page: MessagesPage, mode: PageMode, now: int, id: MessageId)
    requires ThreadOk(t) && HasPending(t, id)
    ensures HasPending(Apply(t, SetPage(page, mode, now)), id) <==>
      !(Mentions(page.items, id) || IsDisjointJump(t, SetPage(page, mode, now)))
    ensures Mentions(page.items, id) ==> HasConfirmed(Apply(t, SetPage(page, mode, now)), id)
  {
    var s := t.value.messages;
    PendingKeepsWindow(s);
    MergeSettles(s, page.items, id);
    MergeSettles([], page.items, id);
    MergeSettles(Pending(s), page.items, id);
  }

  lemma MergeSettles(existing: seq<Message>, items: seq<Message>, id: MessageId)
    requires IsWindow(existing)
    ensures HoldsPending(MergeMessages(existing, items), id) <==> !Mentions(items, id) && HoldsPending(existing, id)
    ensures Mentions(items, id) ==> exists x | x in MergeMessages(existing, items) :: x.id == id && x.sendState == None
  {
    MergeKeepsPending(existing, items, id);
    if Mentions(items, id) {
      MergeConfirms(existing, items, id);
    }
  }

  lemma PageKeepsConfirmed(current: ThreadState, page: MessagesPage, mode: PageMode, now: int, id: MessageId)
    requires ThreadOk(Some(current)) && !HasPending(Some(current), id)
    ensures !HasPending(Some(ApplyPage(current, page, mode, now)), id)
  {
    PendingKeepsWindow(current.messages);
    MergeKeepsPending(current.messages, page.items, id);
    MergeKeepsPending([], page.items, id);
    MergeKeepsPending(Pending(current.messages), page.items, id);
  }

  lemma MapKeepsConfirmed(s: seq<Message>, other: MessageId, update: Message -> Message, id: MessageId)
    requires forall x | x in s :: x.id == id ==> x.sendState == None
    requires forall m: Message :: update(m).id == m.id
    requires forall m: Message :: m.sendState == None && other == id ==> update(m).sendState == None
    ensures forall x | x in MapMessage(s, other, update) :: x.id == id ==> x.sendState == None
  {
    var r := MapMessage(s, other, update);
    forall x | x in r && x.id == id ensures x.sendState == None {
      var i :| 0 <= i < |r| && r[i] == x;
      assert s[i] in s;
    }
  }

  /**
   * A row that is not unconfirmed (a server copy, or no row at all) only
   * becomes so through a retry of that very row or a local upsert of its id;
   * in particular a late request error leaves a confirmed row alone.
   */
  lemma ConfirmedRowNeverFails(t: Option<ThreadState>, action: ThreadAction, id: MessageId)
    requires ThreadOk(t) && !HasPending(t, id)
    requires action != Patch(id, SetSending)
    requires action.Upsert? ==> action.message.id != id || action.message.sendState == None
    ensures !HasPending(Apply(t, action), id)
    ensures action == MarkFailed(id) ==> Apply(t, action) == t
  {
    var s := OrEmpty(t).messages;
    assert forall x :: x in s && x.id == id ==> x.sendState == None;
    match action
    case SetPage(page, mode, now) => PageKeepsConfirmed(OrEmpty(t), page, mode, now, id);
    case MergeLatest(items) => MergeKeepsPending(s, items, id);
    case MarkSynced(now) =>
    case Upsert(m) => ReplaceMessageIsWindow(s, m);
    case Confirm(echo) => ReplaceMessageIsWindow(s, MergeSendEcho(FindById(s, echo.id), echo));
    case MarkFailed(other) =>
      MapKeepsConfirmed(s, other, FailIfSending, id);
      if other == id {
        assert MapMessage(s, id, FailIfSending) == s;
      }
    case Patch(other, patch) => MapKeepsConfirmed(s, other, m => ApplyPatch(m, patch), id);
    case Remove(other) =>
    case React(other, reaction, add) => MapKeepsConfirmed(s, other, m => ApplyReaction(m, reaction, add), id);
  }

  // ---------------------------------------------------------------------
  // Single-action laws
  // ---------------------------------------------------------------------

  /** `clampOptimisticSentAt`. */
  function ClampOptimisticSentAt(now: int, newestLoaded: Option<Message>): int {
    if newestLoaded == None then now
    else if now > newestLoaded.value.sentAt + 1 then now else newestLoaded.value.sentAt + 1
  }

  function NewestOf(s: seq<Message>): Option<Message> {
    if s == [] then None else Some(s[0])
  }

  /** A clamped send always lands at the top of the thread, whatever the device clock says. */
  lemma ClampedSendLandsOnTop(s: seq<Message>, m: Message, now: int)
    requires IsWindow(s)
    requires m.sentAt == ClampOptimisticSentAt(now, NewestOf(s))
    ensures ReplaceMessage(s, m)[..1] == [m]
  {
    ReplaceMessageIsWindow(s, m);
    var r := ReplaceMessage(s, m);
    assert forall x :: x in s ==> x.sentAt < m.sentAt;
    assert m in r;
    var i :| 0 <= i < |r| && r[i] == m;
    assert r[0] in r;
  }

  /**
   * The echo confirms the row, but never loses a quote or metadata the device
   * already knew: a real quote or metadata of the echo is taken as it is, and an
   * empty or placeholder quote, or absent metadata, gives way to the local one.
   */
  lemma EchoKeepsWhatIsKnown(optimistic: Message, echo: Message)
    ensures var r := MergeSendEcho(Some(optimistic), echo);
      r == ToServerCopy(echo).(inReplyTo := r.inReplyTo, metadata := r.metadata) &&
      (echo.inReplyTo.Some? && !IsPlaceholder(echo.inReplyTo) ==> r.inReplyTo == echo.inReplyTo) &&
      (echo.inReplyTo == None || IsPlaceholder(echo.inReplyTo) ==>
        r.inReplyTo == if optimistic.inReplyTo.Some? then optimistic.inReplyTo else echo.inReplyTo) &&
      (r.metadata == if echo.metadata.Some? then echo.metadata else optimistic.metadata)
  {
  }

  /**
   * Adding the viewer's reaction and taking it back restores the summaries
   * exactly when the viewer had not reacted and the entry, if any, was not an
   * empty or negative count.
   */
  lemma ReactingThenUnreactingRestores(s: seq<Reaction>, reaction: JsString)
    ensures ToggleReaction(ToggleReaction(s, reaction, true), reaction, false) == s <==>
      var i := ReactionIndex(s, reaction);
      i == |s| || (!s[i].viewerReacted && s[i].count > 0)
  {
    var i := ReactionIndex(s, reaction);
    if i == |s| {
      FirstReactionGoesAway(s, reaction);
    } else if s[i].viewerReacted {
      UnreactingChanges(s, reaction);
    } else if s[i].count > 0 {
      CountedReactionGoesBack(s, reaction);
    } else {
      EmptyReactionIsLost(s, reaction);
    }
  }

  lemma FirstReactionGoesAway(s: seq<Reaction>, reaction: JsString)
    requires ReactionIndex(s, reaction) == |s|
    ensures ToggleReaction(ToggleReaction(s, reaction, true), reaction, false) == s
  {
    var added := ToggleReaction(s, reaction, true);
    ReactionIndexIs(added, reaction, |s|);
    assert added[..|s|] + added[|s|+1..] == s;
  }

  lemma CountedReactionGoesBack(s: seq<Reaction>, reaction: JsString)
    requires var i := ReactionIndex(s, reaction); i < |s| && !s[i].viewerReacted && s[i].count > 0
    ensures ToggleReaction(ToggleReaction(s, reaction, true), reaction, false) == s
  {
    var i := ReactionIndex(s, reaction);
    var added := ToggleReaction(s, reaction, true);
    ReactionIndexAfterAdd(s, reaction);
    assert added[i := added[i].(count := s[i].count, viewerReacted := false)] == s;
  }

  lemma EmptyReactionIsLost(s: seq<Reaction>, reaction: JsString)
    requires var i := ReactionIndex(s, reaction); i < |s| && !s[i].viewerReacted && s[i].count <= 0
    ensures ToggleReaction(ToggleReaction(s, reaction, true), reaction, false) != s
  {
    var i := ReactionIndex(s, reaction);
    ReactionIndexAfterAdd(s, reaction);
    var added := ToggleReaction(s, reaction, true);
    UnreactingNeverAdds(added, reaction);
    if s[i].count + 1 > 0 {
      assert |ToggleReaction(added, reaction, false)| < |s|;
    }
  }

  lemma UnreactingNeverAdds(s: seq<Reaction>, reaction: JsString)
    ensures |ToggleReaction(s, reaction, false)| <= |s|
  {
  }

  lemma UnreactingChanges(s: seq<Reaction>, reaction: JsString)
    requires var i := ReactionIndex(s, reaction); i < |s| && s[i].viewerReacted
    ensures ToggleReaction(s, reaction, false) != s
  {
    var i := ReactionIndex(s, reaction);
    var removed := ToggleReaction(s, reaction, false);
    assert |removed| == |s| ==> !removed[i].viewerReacted;
  }

  lemma {:induction false} ReactionIndexIs(s: seq<Reaction>, reaction: JsString, i: nat)
    requires i < |s| && s[i].reaction == reaction
    requires forall j :: 0 <= j < i ==> s[j].reaction != reaction
    ensures ReactionIndex(s, reaction) == i
  {
  }

  lemma {:induction false} ReactionIndexAfterAdd(s: seq<Reaction>, reaction: JsString)
    requires var i := ReactionIndex(s, reaction); i < |s| && !s[i].viewerReacted
    ensures var i := ReactionIndex(s, reaction);
      var added := ToggleReaction(s, reaction, true);
      if s[i].count + 1 > 0
      then |added| == |s| && ReactionIndex(added, reaction) == i && added[i].count == s[i].count + 1
      else added == s[..i] + s[i+1..]
  {
    var i := ReactionIndex(s, reaction);
    if s[i].count + 1 > 0 {
      ReactionIndexIs(ToggleReaction(s, reaction, true), reaction, i);
    }
  }
}
