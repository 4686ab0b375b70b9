/**
 * The Direct Cast store: its actions as a class that updates fields, each
 * proved against a value-level specification, and what every run keeps
 * (farcaster-audio/stores/messageStore.ts).
 */
module MessageStore {
  import opened JsStrings
  import opened Options
  import opened Messages
  import opened Threads
  import opened Inbox

  /** A conversation id, or `draft:<fid>` before the first send lands. */
  type ThreadKey = JsString

  datatype Segment = DefaultInbox | RequestInbox

  datatype StoreState = StoreState(
    conversations: map<ConversationId, Conversation>,
    defaultInbox: InboxSlice,
    requestInbox: InboxSlice,
    requestsCount: int,
    hasUnreadRequests: bool,
    unreadTotal: int,
    threads: map<ThreadKey, ThreadState>,
    replyTargets: map<ThreadKey, Option<Message>>,
    draftAliases: map<ThreadKey, ConversationId>)

  const INITIAL_STATE := StoreState(map[], EMPTY_SLICE, EMPTY_SLICE, 0, false, 0, map[], map[], map[])

  /** Any subset of a conversation's fields. */
  datatype ConversationPatch = ConversationPatch(
    id: Option<ConversationId>,
    unreadCount: Option<int>,
    unreadMentionsCount: Option<int>,
    manuallyMarkedUnread: Option<bool>,
    muted: Option<bool>,
    pinned: Option<bool>,
    lastReadAt: Option<int>,
    peerLastReadAt: Option<Option<int>>)

  datatype StoreAction =
    | SetInboxPage(segment: Segment, response: InboxResponse, mode: InboxPageMode, now: int)
    | RemoveFromInbox(segment: Segment, conversationId: ConversationId)
    | UpsertConversation(conversation: Conversation)
    | PatchConversation(conversationId: ConversationId, patch: ConversationPatch)
    | OnThread(key: ThreadKey, action: ThreadAction)
    | AdoptDraftThread(draftKey: ThreadKey, conversationId: ConversationId)
    | MarkReadLocal(conversationId: ConversationId, now: int)
    | ApplyPeerRead(conversationId: ConversationId, peerLastReadAt: Option<int>)
    | SetReplyTarget(key: ThreadKey, target: Option<Message>)
    | Reset

  // ---------------------------------------------------------------------
  // Value-level specification of each action
  // ---------------------------------------------------------------------

  function Slice(s: StoreState, segment: Segment): InboxSlice {
    if segment == DefaultInbox then s.defaultInbox else s.requestInbox
  }

  function WithSlice(s: StoreState, segment: Segment, slice: InboxSlice): StoreState {
    if segment == DefaultInbox then s.(defaultInbox := slice) else s.(requestInbox := slice)
  }

  function Recounted(s: StoreState): StoreState {
    s.(unreadTotal := UnreadTotal(s.defaultInbox.ids, s.conversations))
  }

  function UpsertAll(conversations: map<ConversationId, Conversation>, items: seq<Conversation>)
    : map<ConversationId, Conversation>
  {
    if items == [] then conversations
    else UpsertAll(conversations, items[..|items|-1])[items[|items|-1].id := items[|items|-1]]
  }

  function Given<T>(patched: Option<T>, current: T): T {
    if patched.Some? then patched.value else current
  }

  function PatchedConversation(c: Conversation, patch: ConversationPatch): Conversation {
    Conversation(Given(patch.id, c.id),
                 Given(patch.unreadCount, c.unreadCount),
                 Given(patch.unreadMentionsCount, c.unreadMentionsCount),
                 Given(patch.manuallyMarkedUnread, c.manuallyMarkedUnread),
                 Given(patch.muted, c.muted),
                 Given(patch.pinned, c.pinned),
                 Given(patch.lastReadAt, c.lastReadAt),
                 Given(patch.peerLastReadAt, c.peerLastReadAt))
  }

  function ReadConversation(c: Conversation, now: int): Conversation {
    c.(unreadCount := 0, unreadMentionsCount := 0, manuallyMarkedUnread := false, lastReadAt := now)
  }

  function ThreadAt(threads: map<ThreadKey, ThreadState>, key: ThreadKey): Option<ThreadState> {
    if key in threads then Some(threads[key]) else None
  }

  function StoreThread(threads: map<ThreadKey, ThreadState>, key: ThreadKey, t: Option<ThreadState>)
    : map<ThreadKey, ThreadState>
  {
    if t == None then threads else threads[key := t.value]
  }

  /** `{ ...m, conversation_id }` for each draft row. */
  function Moved(rows: seq<Message>, conversationId: ConversationId): (r: seq<Message>)
    ensures |r| == |rows|
    ensures forall i :: 0 <= i < |r| ==> r[i] == rows[i].(conversationId := conversationId)
  {
    seq(|rows|, i requires 0 <= i < |rows| => rows[i].(conversationId := conversationId))
  }

  function Adopted(s: StoreState, draftKey: ThreadKey, conversationId: ConversationId): StoreState {
    var aliased := s.(draftAliases := s.draftAliases[draftKey := conversationId]);
    if draftKey !in s.threads then aliased
    else
      var target := OrLocal(ThreadAt(s.threads, conversationId));
      var rows := Window(target.messages + Moved(s.threads[draftKey].messages, conversationId));
      aliased.(threads := (s.threads - {draftKey})[conversationId := target.(messages := rows)],
               replyTargets := s.replyTargets - {draftKey})
  }

  function Step(s: StoreState, action: StoreAction): StoreState {
    match action
    case SetInboxPage(segment, response, mode, now) =>
      Recounted(
        WithSlice(s, segment, ApplyInboxPage(Slice(s, segment), response, mode, now))
        .(conversations := UpsertAll(s.conversations, response.items),
          requestsCount := response.requestsCount,
          hasUnreadRequests := response.hasUnreadRequests))
    case RemoveFromInbox(segment, id) =>
      if id !in Slice(s, segment).ids then s
      else
        var slice := Slice(s, segment);
        Recounted(WithSlice(s, segment, slice.(ids := NotOnPage(slice.ids, [id]))))
    case UpsertConversation(c) =>
      Recounted(s.(conversations := s.conversations[c.id := c]))
    case PatchConversation(id, patch) =>
      if id !in s.conversations then s
      else Recounted(s.(conversations := s.conversations[id := PatchedConversation(s.conversations[id], patch)]))
    case OnThread(key, threadAction) =>
      s.(threads := StoreThread(s.threads, key, Apply(ThreadAt(s.threads, key), threadAction)))
    case AdoptDraftThread(draftKey, conversationId) => Adopted(s, draftKey, conversationId)
    case MarkReadLocal(id, now) =>
      if id !in s.conversations || !IsConversationUnread(s.conversations[id]) then s
      else Recounted(s.(conversations := s.conversations[id := ReadConversation(s.conversations[id], now)]))
    case ApplyPeerRead(id, at) =>
      if id !in s.conversations || s.conversations[id].peerLastReadAt == at then s
      else s.(conversations := s.conversations[id := s.conversations[id].(peerLastReadAt := at)])
    case SetReplyTarget(key, target) => s.(replyTargets := s.replyTargets[key := target])
    case Reset => INITIAL_STATE
  }

  function Run(s: StoreState, actions: seq<StoreAction>): StoreState {
    if actions == [] then s else Step(Run(s, actions[..|actions|-1]), actions[|actions|-1])
  }

  /** `resolveThreadKey`. */
  function ResolveThreadKey(s: StoreState, key: ThreadKey): ThreadKey {
    if key in s.draftAliases then s.draftAliases[key] else key
  }

  /** `setInboxPage`'s loop over the page's rows. */
  method UpsertRows(conversations: map<ConversationId, Conversation>, items: seq<Conversation>)
    returns (all: map<ConversationId, Conversation>)
    ensures all == UpsertAll(conversations, items)
  {
    all := conversations;
    for n := 0 to |items|
      invariant all == UpsertAll(conversations, items[..n])
    {
      assert items[..n+1][..n] == items[..n];
      all := all[items[n].id := items[n]];
    }
    assert items[..|items|] == items;
  }

  // ---------------------------------------------------------------------
  // The store itself
  // ---------------------------------------------------------------------

  class Store {
    var conversations: map<ConversationId, Conversation>
    var inbox: map<Segment, InboxSlice>
    var requestsCount: int
    var hasUnreadRequests: bool
    var unreadTotal: int
    var threads: map<ThreadKey, ThreadState>
    var replyTargets: map<ThreadKey, Option<Message>>
    var draftAliases: map<ThreadKey, ConversationId>

    predicate HasSegments()
      reads this
    {
      DefaultInbox in inbox && RequestInbox in inbox
    }

    function State(): StoreState
      reads this
      requires HasSegments()
    {
      StoreState(conversations, inbox[DefaultInbox], inbox[RequestInbox], requestsCount,
                 hasUnreadRequests, unreadTotal, threads, replyTargets, draftAliases)
    }

    /** Both inbox segments exist and the store is consistent. */
    predicate Valid()
      reads this
    {
      HasSegments() && Consistent(State())
    }

    constructor ()
      ensures Valid() && State() == INITIAL_STATE
    {
      conversations, threads, replyTargets, draftAliases := map[], map[], map[], map[];
      inbox := map[DefaultInbox := EMPTY_SLICE, RequestInbox := EMPTY_SLICE];
      requestsCount, hasUnreadRequests, unreadTotal := 0, false, 0;
    }

    method SetInboxPage(segment: Segment, response: InboxResponse, mode: InboxPageMode, now: int)
      requires Valid()
      modifies this
      ensures Valid() && State() == Step(old(State()), StoreAction.SetInboxPage(segment, response, mode, now))
    {
      StepKeepsConsistent(State(), StoreAction.SetInboxPage(segment, response, mode, now));
      StoreInboxPage(segment, response, mode, now);
    }

    method StoreInboxPage(segment: Segment, response: InboxResponse, mode: InboxPageMode, now: int)
      requires HasSegments()
      modifies this
      ensures HasSegments()
      ensures State() == Step(old(State()), StoreAction.SetInboxPage(segment, response, mode, now))
    {
      ghost var was := State();
      var all := UpsertRows(conversations, response.items);
      inbox := inbox[segment := ApplyInboxPage(inbox[segment], response, mode, now)];
      assert State() == WithSlice(was, segment, ApplyInboxPage(Slice(was, segment), response, mode, now));
      conversations := all;
      requestsCount, hasUnreadRequests := response.requestsCount, response.hasUnreadRequests;
      ghost var paged := State();
      unreadTotal := ComputeUnreadTotal(inbox[DefaultInbox].ids, conversations);
      assert State() == Recounted(paged);
    }

    method RemoveFromInbox(segment: Segment, id: ConversationId)
      requires Valid()
      modifies this
      ensures Valid() && State() == Step(old(State()), StoreAction.RemoveFromInbox(segment, id))
    {
      ghost var was := State();
      if id in inbox[segment].ids {
        inbox := inbox[segment := inbox[segment].(ids := NotOnPage(inbox[segment].ids, [id]))];
        unreadTotal := ComputeUnreadTotal(inbox[DefaultInbox].ids, conversations);
      }
      assert State() == Step(was, StoreAction.RemoveFromInbox(segment, id));
      StepKeepsConsistent(was, StoreAction.RemoveFromInbox(segment, id));
    }

    method UpsertConversation(c: Conversation)
      requires Valid()
      modifies this
      ensures Valid() && State() == Step(old(State()), StoreAction.UpsertConversation(c))
    {
      ghost var was := State();
      conversations := conversations[c.id := c];
      unreadTotal := ComputeUnreadTotal(inbox[DefaultInbox].ids, conversations);
      assert State() == Step(was, StoreAction.UpsertConversation(c));
      StepKeepsConsistent(was, StoreAction.UpsertConversation(c));
    }

    method PatchConversation(id: ConversationId, patch: ConversationPatch)
      requires Valid()
      modifies this
      ensures Valid() && State() == Step(old(State()), StoreAction.PatchConversation(id, patch))
    {
      ghost var was := State();
      if id in conversations {
        conversations := conversations[id := PatchedConversation(conversations[id], patch)];
        unreadTotal := ComputeUnreadTotal(inbox[DefaultInbox].ids, conversations);
      }
      assert State() == Step(was, StoreAction.PatchConversation(id, patch));
      StepKeepsConsistent(was, StoreAction.PatchConversation(id, patch));
    }

    /** Every action on one thread: pages, polls, sends, confirmations, patches, reactions. */
    method OnThread(key: ThreadKey, action: ThreadAction)
      requires Valid()
      modifies this
      ensures Valid() && State() == Step(old(State()), StoreAction.OnThread(key, action))
    {
      ghost var was := State();
      var next := Apply(ThreadAt(threads, key), action);
      if next.Some? {
        threads := threads[key := next.value];
      }
      assert State() == Step(was, StoreAction.OnThread(key, action));
      StepKeepsConsistent(was, StoreAction.OnThread(key, action));
    }

    method AdoptDraftThread(draftKey: ThreadKey, conversationId: ConversationId)
      requires Valid()
      modifies this
      ensures Valid() && State() == Step(old(State()), StoreAction.AdoptDraftThread(draftKey, conversationId))
    {
      StepKeepsConsistent(State(), StoreAction.AdoptDraftThread(draftKey, conversationId));
      RekeyDraft(draftKey, conversationId);
    }

    method RekeyDraft(draftKey: ThreadKey, conversationId: ConversationId)
      requires HasSegments()
      modifies this
      ensures HasSegments() && State() == Adopted(old(State()), draftKey, conversationId)
    {
      if draftKey in threads {
        var target := OrLocal(ThreadAt(threads, conversationId));
        var moved := Moved(threads[draftKey].messages, conversationId);
        var rows := MergeById(target.messages, moved);
        threads := threads - {draftKey};
        threads := threads[conversationId := target.(messages := rows)];
        replyTargets := replyTargets - {draftKey};
      }
      draftAliases := draftAliases[draftKey := conversationId];
    }

    method MarkReadLocal(id: ConversationId, now: int)
      requires Valid()
      modifies this
      ensures Valid() && State() == Step(old(State()), StoreAction.MarkReadLocal(id, now))
    {
      ghost var was := State();
      if id in conversations && IsConversationUnread(conversations[id]) {
        conversations := conversations[id := ReadConversation(conversations[id], now)];
        unreadTotal := ComputeUnreadTotal(inbox[DefaultInbox].ids, conversations);
      }
      assert State() == Step(was, StoreAction.MarkReadLocal(id, now));
      StepKeepsConsistent(was, StoreAction.MarkReadLocal(id, now));
    }

    method ApplyPeerRead(id: ConversationId, at: Option<int>)
      requires Valid()
      modifies this
      ensures Valid() && State() == Step(old(State()), StoreAction.ApplyPeerRead(id, at))
    {
      ghost var was := State();
      if id in conversations && conversations[id].peerLastReadAt != at {
        conversations := conversations[id := conversations[id].(peerLastReadAt := at)];
      }
      assert State() == Step(was, StoreAction.ApplyPeerRead(id, at));
      StepKeepsConsistent(was, StoreAction.ApplyPeerRead(id, at));
    }

    method SetReplyTarget(key: ThreadKey, target: Option<Message>)
      requires Valid()
      modifies this
      ensures Valid() && State() == Step(old(State()), StoreAction.SetReplyTarget(key, target))
    {
      ghost var was := State();
      replyTargets := replyTargets[key := target];
      assert State() == Step(was, StoreAction.SetReplyTarget(key, target));
      StepKeepsConsistent(was, StoreAction.SetReplyTarget(key, target));
    }

    method Reset()
      requires Valid()
      modifies this
      ensures Valid() && State() == Step(old(State()), StoreAction.Reset)
    {
      ghost var was := State();
      conversations, threads, replyTargets, draftAliases := map[], map[], map[], map[];
      inbox := map[DefaultInbox := EMPTY_SLICE, RequestInbox := EMPTY_SLICE];
      requestsCount, hasUnreadRequests, unreadTotal := 0, false, 0;
      assert State() == Step(was, StoreAction.Reset);
      StepKeepsConsistent(was, StoreAction.Reset);
    }
  }

  // ---------------------------------------------------------------------
  // What every run keeps
  // ---------------------------------------------------------------------

  predicate SliceOk(slice: InboxSlice, conversations: map<ConversationId, Conversation>) {
    Distinct(slice.ids) && forall id :: id in slice.ids ==> id in conversations
  }

  /** Inbox rows are distinct and known, and the stored badge is a fresh recount. */
  predicate InboxConsistent(s: StoreState) {
    SliceOk(s.defaultInbox, s.conversations) &&
    SliceOk(s.requestInbox, s.conversations) &&
    s.unreadTotal == UnreadTotal(s.defaultInbox.ids, s.conversations)
  }

  /** Every thread is strictly newest-first with one row per id, its flags matching its cursors. */
  predicate ThreadsConsistent(s: StoreState) {
    forall key :: key in s.threads ==> ThreadOk(Some(s.threads[key]))
  }

  predicate Consistent(s: StoreState) {
    InboxConsistent(s) && ThreadsConsistent(s)
  }

  lemma {:induction false} UpsertAllKeys(conversations: map<ConversationId, Conversation>, items: seq<Conversation>)
    ensures forall id :: id in UpsertAll(conversations, items) <==>
      id in conversations || id in ConversationIds(items)
  {
    if items != [] {
      UpsertAllKeys(conversations, items[..|items|-1]);
      assert ConversationIds(items) == ConversationIds(items[..|items|-1]) + [items[|items|-1].id];
    }
  }

  lemma InboxPageKeepsSliceOk(
    slice: InboxSlice, conversations: map<ConversationId, Conversation>,
    response: InboxResponse, mode: InboxPageMode, now: int)
    requires SliceOk(slice, conversations)
    ensures SliceOk(ApplyInboxPage(slice, response, mode, now), UpsertAll(conversations, response.items))
  {
    UpsertAllKeys(conversations, response.items);
    var pageIds := ConversationIds(response.items);
    NotOnPageKeepsOrder(slice.ids, pageIds);
    UniqueIdsAreDistinct(pageIds);
    UniqueIdsAreDistinct(slice.ids + pageIds);
    UniqueIdsAreDistinct(pageIds + NotOnPage(slice.ids, pageIds));
  }

  lemma InboxPageKeepsConsistent(
    s: StoreState, segment: Segment, response: InboxResponse, mode: InboxPageMode, now: int)
    requires InboxConsistent(s)
    ensures InboxConsistent(Step(s, SetInboxPage(segment, response, mode, now)))
  {
    UpsertAllKeys(s.conversations, response.items);
    InboxPageKeepsSliceOk(Slice(s, segment), s.conversations, response, mode, now);
  }

  lemma RemovalKeepsConsistent(s: StoreState, segment: Segment, id: ConversationId)
    requires InboxConsistent(s)
    ensures InboxConsistent(Step(s, RemoveFromInbox(segment, id)))
  {
    NotOnPageKeepsOrder(Slice(s, segment).ids, [id]);
  }

  lemma PeerReadKeepsConsistent(s: StoreState, id: ConversationId, at: Option<int>)
    requires InboxConsistent(s)
    ensures InboxConsistent(Step(s, ApplyPeerRead(id, at)))
  {
    if id in s.conversations {
      UnreadTotalIgnoresReadMarkers(s.defaultInbox.ids, s.conversations, id, at);
    }
  }

  lemma StepKeepsInboxConsistent(s: StoreState, action: StoreAction)
    requires InboxConsistent(s)
    ensures InboxConsistent(Step(s, action))
  {
    match action
    case SetInboxPage(segment, response, mode, now) => InboxPageKeepsConsistent(s, segment, response, mode, now);
    case RemoveFromInbox(segment, id) => RemovalKeepsConsistent(s, segment, id);
    case ApplyPeerRead(id, at) => PeerReadKeepsConsistent(s, id, at);
    case OnThread(key, threadAction) =>
      assert Step(s, action) == s.(threads := Step(s, action).threads);
    case AdoptDraftThread(draftKey, conversationId) =>
    case _ =>
  }

  lemma StepKeepsConsistent(s: StoreState, action: StoreAction)
    requires Consistent(s)
    ensures Consistent(Step(s, action))
  {
    StepKeepsInboxConsistent(s, action);
    StepKeepsThreadsConsistent(s, action);
  }

  lemma StepKeepsThreadsConsistent(s: StoreState, action: StoreAction)
    requires ThreadsConsistent(s)
    ensures ThreadsConsistent(Step(s, action))
  {
    if action.OnThread? {
      ApplyKeepsThreadOk(ThreadAt(s.threads, action.key), action.action);
    } else if action.AdoptDraftThread? {
      AdoptionKeepsThreadsConsistent(s, action.draftKey, action.conversationId);
    } else if !action.Reset? {
      InboxActionsLeaveThreads(s, action);
    }
  }

  lemma InboxActionsLeaveThreads(s: StoreState, action: StoreAction)
    requires !action.OnThread? && !action.AdoptDraftThread? && !action.Reset?
    ensures Step(s, action).threads == s.threads
    ensures Step(s, action).draftAliases == s.draftAliases
  {
    match action
    case SetInboxPage(segment, response, mode, now) => InboxPageLeavesThreads(s, segment, response, mode, now);
    case RemoveFromInbox(_, _) =>
    case UpsertConversation(_) =>
    case PatchConversation(_, _) =>
    case MarkReadLocal(_, _) =>
    case ApplyPeerRead(_, _) =>
    case SetReplyTarget(_, _) =>
  }

  lemma InboxPageLeavesThreads(
    s: StoreState, segment: Segment, response: InboxResponse, mode: InboxPageMode, now: int)
    ensures Step(s, SetInboxPage(segment, response, mode, now)).threads == s.threads
    ensures Step(s, SetInboxPage(segment, response, mode, now)).draftAliases == s.draftAliases
  {
  }

  lemma AdoptionKeepsThreadsConsistent(s: StoreState, draftKey: ThreadKey, conversationId: ConversationId)
    requires ThreadsConsistent(s)
    ensures ThreadsConsistent(Adopted(s, draftKey, conversationId))
  {
    if draftKey in s.threads {
      var target := OrLocal(ThreadAt(s.threads, conversationId));
      WindowIsSortedUnion(target.messages + Moved(s.threads[draftKey].messages, conversationId));
    }
  }

  /** After any actions from the initial state, in any order, the store is consistent. */
  lemma {:induction false} EveryReachableStoreIsConsistent(actions: seq<StoreAction>)
    ensures Consistent(Run(INITIAL_STATE, actions))
  {
    if actions != [] {
      EveryReachableStoreIsConsistent(actions[..|actions|-1]);
      StepKeepsConsistent(Run(INITIAL_STATE, actions[..|actions|-1]), actions[|actions|-1]);
    }
  }

  // ---------------------------------------------------------------------
  // Adopting a draft
  // ---------------------------------------------------------------------

  lemma MovedMembers(rows: seq<Message>, conversationId: ConversationId)
    ensures forall x :: x in Moved(rows, conversationId) <==>
      exists y | y in rows :: x == y.(conversationId := conversationId)
  {
    var moved := Moved(rows, conversationId);
    forall x ensures x in moved <==> exists y | y in rows :: x == y.(conversationId := conversationId) {
      if x in moved {
        var i :| 0 <= i < |moved| && moved[i] == x;
        assert rows[i] in rows;
      }
      if y :| y in rows && x == y.(conversationId := conversationId) {
        var i :| 0 <= i < |rows| && rows[i] == y;
        assert moved[i] == x;
      }
    }
  }

  lemma MovedById(rows: seq<Message>, conversationId: ConversationId, y: Message)
    requires DistinctIds(rows) && y in rows
    ensures y.id in ById(Moved(rows, conversationId))
    ensures ById(Moved(rows, conversationId))[y.id] == y.(conversationId := conversationId)
  {
    var moved := Moved(rows, conversationId);
    ByIdRows(moved);
    var i :| 0 <= i < |rows| && rows[i] == y;
    assert moved[i] in moved;
    var z := ById(moved)[y.id];
    var j :| 0 <= j < |moved| && moved[j] == z;
    assert rows[j].id == rows[i].id;
  }

  lemma MovedRows(rows: seq<Message>, conversationId: ConversationId)
    requires DistinctIds(rows)
    ensures forall x :: x in Moved(rows, conversationId) <==>
      exists y | y in rows :: x == y.(conversationId := conversationId)
    ensures ById(Moved(rows, conversationId)).Keys == Ids(rows)
    ensures forall y :: y in rows ==> ById(Moved(rows, conversationId))[y.id] == y.(conversationId := conversationId)
  {
    var moved := Moved(rows, conversationId);
    MovedMembers(rows, conversationId);
    ByIdRows(moved);
    forall y | y in rows ensures y.id in ById(moved) && ById(moved)[y.id] == y.(conversationId := conversationId) {
      MovedById(rows, conversationId, y);
    }
  }

  /**
   * Adoption re-keys the draft: its rows, send states included, are found
   * under the real id (winning over a copy already there), rows of the real
   * thread that share no id with the draft are untouched, every other thread
   * is untouched, and nothing stays under the draft key.
   */
  lemma AdoptionMovesEveryRow(s: StoreState, draftKey: ThreadKey, conversationId: ConversationId)
    requires ThreadsConsistent(s) && draftKey in s.threads && draftKey != conversationId
    ensures var after := Adopted(s, draftKey, conversationId);
      var draft := s.threads[draftKey].messages;
      var target := OrLocal(ThreadAt(s.threads, conversationId)).messages;
      after.threads.Keys == s.threads.Keys - {draftKey} + {conversationId} &&
      ResolveThreadKey(after, draftKey) == conversationId &&
      (forall key :: key in after.threads && key != conversationId ==> after.threads[key] == s.threads[key]) &&
      (forall x :: x in after.threads[conversationId].messages <==>
        (exists y | y in draft :: x == y.(conversationId := conversationId)) ||
        (x in target && x.id !in Ids(draft)))
  {
    var draft := s.threads[draftKey].messages;
    var target := OrLocal(ThreadAt(s.threads, conversationId)).messages;
    var moved := Moved(draft, conversationId);
    assert ThreadOk(Some(s.threads[draftKey]));
    MovedRows(draft, conversationId);
    ByIdOfConcat(target, moved);
    ByIdRows(target);
    WindowIsSortedUnion(target + moved);
    WindowOfWindowIsItself(target);
    WindowIsSortedUnion(target);
    forall x ensures x in Window(target + moved) <==> x in moved || (x in target && x.id !in Ids(draft)) {
      if x.id in Ids(draft) {
        var y :| y in draft && y.id == x.id;
        assert ById(moved)[y.id] == y.(conversationId := conversationId);
        if x in moved {
          var z :| z in draft && x == z.(conversationId := conversationId);
          assert ById(moved)[z.id] == x;
        }
      }
    }
  }

  /** Every draft row, unconfirmed ones with their very send state, is the real thread's row of its id. */
  lemma AdoptionKeepsPending(s: StoreState, draftKey: ThreadKey, conversationId: ConversationId, id: MessageId)
    requires ThreadsConsistent(s) && draftKey != conversationId
    requires HasPending(ThreadAt(s.threads, draftKey), id)
    ensures HasPending(ThreadAt(Adopted(s, draftKey, conversationId).threads, conversationId), id)
    ensures forall x, y ::
      x in s.threads[draftKey].messages && x.id == id &&
      y in Adopted(s, draftKey, conversationId).threads[conversationId].messages && y.id == id ==>
        y == x.(conversationId := conversationId) && y.sendState == x.sendState
  {
    AdoptionMovesEveryRow(s, draftKey, conversationId);
    assert ThreadOk(Some(s.threads[draftKey]));
    var rows := s.threads[draftKey].messages;
    var after := Adopted(s, draftKey, conversationId).threads[conversationId].messages;
    var row :| row in rows && row.id == id && row.sendState != None;
    assert row.(conversationId := conversationId) in after;
    forall x, y | x in rows && x.id == id && y in after && y.id == id
      ensures y == x.(conversationId := conversationId)
    {
      assert x.id in Ids(rows);
      var z :| z in rows && y == z.(conversationId := conversationId);
      OneRowPerId(rows, x, z);
    }
  }

  lemma OneRowPerId(rows: seq<Message>, x: Message, y: Message)
    requires DistinctIds(rows) && x in rows && y in rows && x.id == y.id
    ensures x == y
  {
    var i :| 0 <= i < |rows| && rows[i] == x;
    var j :| 0 <= j < |rows| && rows[j] == y;
  }
}
