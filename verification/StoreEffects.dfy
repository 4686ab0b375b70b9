/**
 * What each action of the store changes and what it leaves alone, and what it
 * does to the badge (farcaster-audio/stores/messageStore.ts).
 */
module StoreEffects {
  import opened JsStrings
  import opened Options
  import opened Messages
  import opened Threads
  import opened Inbox
  import opened MessageStore

  // ---------------------------------------------------------------------
  // The conversation table and the inbox
  // ---------------------------------------------------------------------

  predicate SameMessages(s: StoreState, t: StoreState) {
    t.threads == s.threads && t.replyTargets == s.replyTargets && t.draftAliases == s.draftAliases
  }

  predicate SameInbox(s: StoreState, t: StoreState) {
    t.conversations == s.conversations && t.defaultInbox == s.defaultInbox && t.requestInbox == s.requestInbox &&
    t.requestsCount == s.requestsCount && t.hasUnreadRequests == s.hasUnreadRequests && t.unreadTotal == s.unreadTotal
  }

  /** The last item of its id. */
  ghost predicate IsLastOf(items: seq<Conversation>, c: Conversation) {
    exists i :: 0 <= i < |items| && items[i] == c && forall j :: i < j < |items| ==> items[j].id != c.id
  }

  lemma {:induction false} UpsertAllKeepsTheLast(conversations: map<ConversationId, Conversation>,
                                                 items: seq<Conversation>, id: ConversationId)
    ensures var all := UpsertAll(conversations, items);
      (id in ConversationIds(items) ==> id in all && all[id].id == id && IsLastOf(items, all[id])) &&
      (id !in ConversationIds(items) ==>
        (id in all <==> id in conversations) && (id in all ==> all[id] == conversations[id]))
  {
    if items != [] {
      var front, last := items[..|items|-1], items[|items|-1];
      UpsertAllKeepsTheLast(conversations, front, id);
      assert ConversationIds(items) == ConversationIds(front) + [last.id];
      if id == last.id {
        assert items[|items|-1] == last;
      } else if id in ConversationIds(front) {
        var c := UpsertAll(conversations, front)[id];
        var i :| 0 <= i < |front| && front[i] == c && forall j :: i < j < |front| ==> front[j].id != c.id;
        assert items[i] == c;
      }
    }
  }

  /**
   * A page of one segment: every conversation on it is stored as the page has
   * it, all others stay; that segment's list takes the page in its mode, the
   * other segment stays; the request counters are the page's.
   */
  lemma InboxPageTakesEffect(s: StoreState, segment: Segment, response: InboxResponse, mode: InboxPageMode, now: int,
                             id: ConversationId)
    ensures var t := Step(s, SetInboxPage(segment, response, mode, now));
      SameMessages(s, t) && t.requestsCount == response.requestsCount &&
      t.hasUnreadRequests == response.hasUnreadRequests &&
      (segment == DefaultInbox ==>
        t.requestInbox == s.requestInbox && t.defaultInbox == ApplyInboxPage(s.defaultInbox, response, mode, now)) &&
      (segment == RequestInbox ==>
        t.defaultInbox == s.defaultInbox && t.requestInbox == ApplyInboxPage(s.requestInbox, response, mode, now)) &&
      (id in ConversationIds(response.items) ==>
        id in t.conversations && t.conversations[id].id == id && IsLastOf(response.items, t.conversations[id])) &&
      (id !in ConversationIds(response.items) ==>
        (id in t.conversations <==> id in s.conversations) &&
        (id in t.conversations ==> t.conversations[id] == s.conversations[id]))
  {
    UpsertAllKeepsTheLast(s.conversations, response.items, id);
  }

  /** A removed conversation leaves its segment's list and nothing else; the others keep their order. */
  lemma RemovalTakesEffect(s: StoreState, segment: Segment, id: ConversationId)
    requires InboxConsistent(s)
    ensures var t := Step(s, RemoveFromInbox(segment, id));
      var before, after := Slice(s, segment), Slice(t, segment);
      SameMessages(s, t) && t.conversations == s.conversations &&
      (segment == DefaultInbox ==> t.requestInbox == s.requestInbox) &&
      (segment == RequestInbox ==> t.defaultInbox == s.defaultInbox && t.unreadTotal == s.unreadTotal) &&
      after.cursor == before.cursor && after.hasMore == before.hasMore && after.loadedAt == before.loadedAt &&
      (forall x :: x in after.ids <==> x in before.ids && x != id) &&
      (forall x, y :: x != id && y != id ==> (Before(before.ids, x, y) <==> Before(after.ids, x, y)))
  {
    var ids := Slice(s, segment).ids;
    NotOnPageKeepsOrder(ids, [id]);
    if id !in ids {
      assert Step(s, RemoveFromInbox(segment, id)) == s;
    } else {
      assert Slice(Step(s, RemoveFromInbox(segment, id)), segment).ids == NotOnPage(ids, [id]);
    }
  }

  lemma UpsertTakesEffect(s: StoreState, c: Conversation)
    ensures var t := Step(s, UpsertConversation(c));
      SameMessages(s, t) && t.defaultInbox == s.defaultInbox && t.requestInbox == s.requestInbox &&
      c.id in t.conversations && t.conversations[c.id] == c &&
      forall id :: id != c.id ==>
        (id in t.conversations <==> id in s.conversations) &&
        (id in t.conversations ==> t.conversations[id] == s.conversations[id])
  {
  }

  /** A patch replaces exactly the given fields of a known conversation. */
  lemma PatchTakesEffect(s: StoreState, id: ConversationId, patch: ConversationPatch)
    ensures var t := Step(s, StoreAction.PatchConversation(id, patch));
      SameMessages(s, t) && t.defaultInbox == s.defaultInbox && t.requestInbox == s.requestInbox &&
      t.conversations.Keys == s.conversations.Keys &&
      (forall x :: x in s.conversations && x != id ==> t.conversations[x] == s.conversations[x]) &&
      (id in s.conversations ==>
        var c, d := s.conversations[id], t.conversations[id];
        d.id == (if patch.id.Some? then patch.id.value else c.id) &&
        d.unreadCount == (if patch.unreadCount.Some? then patch.unreadCount.value else c.unreadCount) &&
        d.unreadMentionsCount ==
          (if patch.unreadMentionsCount.Some? then patch.unreadMentionsCount.value else c.unreadMentionsCount) &&
        d.manuallyMarkedUnread ==
          (if patch.manuallyMarkedUnread.Some? then patch.manuallyMarkedUnread.value else c.manuallyMarkedUnread) &&
        d.muted == (if patch.muted.Some? then patch.muted.value else c.muted) &&
        d.pinned == (if patch.pinned.Some? then patch.pinned.value else c.pinned) &&
        d.lastReadAt == (if patch.lastReadAt.Some? then patch.lastReadAt.value else c.lastReadAt) &&
        d.peerLastReadAt == (if patch.peerLastReadAt.Some? then patch.peerLastReadAt.value else c.peerLastReadAt))
  {
  }

  // ---------------------------------------------------------------------
  // The badge
  // ---------------------------------------------------------------------

  /** What one conversation adds to the badge. */
  function Unread(c: Conversation): int {
    if c.muted then 0
    else if c.unreadCount > 0 then c.unreadCount
    else if c.manuallyMarkedUnread then 1
    else 0
  }

  lemma {:induction false} BadgeChangesByOne(ids: seq<ConversationId>, conversations: map<ConversationId, Conversation>,
                                             id: ConversationId, c: Conversation)
    requires Distinct(ids) && id in conversations
    ensures UnreadTotal(ids, conversations[id := c]) - UnreadTotal(ids, conversations)
      == if id in ids then Unread(c) - Unread(conversations[id]) else 0
  {
    if ids != [] {
      var front, last := ids[..|ids|-1], ids[|ids|-1];
      BadgeChangesByOne(front, conversations, id, c);
      assert ids == front + [last];
    }
  }

  /**
   * Any change of one conversation of the default inbox moves the badge by
   * exactly the change of what it adds: its unread count, or one if it is only
   * marked unread, and nothing if it is muted.
   */
  lemma BadgeFollowsTheConversation(s: StoreState, c: Conversation)
    requires InboxConsistent(s) && c.id in s.conversations
    ensures Step(s, UpsertConversation(c)).unreadTotal - s.unreadTotal
      == if c.id in s.defaultInbox.ids then Unread(c) - Unread(s.conversations[c.id]) else 0
  {
    BadgeChangesByOne(s.defaultInbox.ids, s.conversations, c.id, c);
  }

  lemma {:induction false} BadgeWithoutOne(ids: seq<ConversationId>, conversations: map<ConversationId, Conversation>,
                                           id: ConversationId)
    requires Distinct(ids) && id in conversations
    ensures UnreadTotal(NotOnPage(ids, [id]), conversations)
      == UnreadTotal(ids, conversations) - if id in ids then Unread(conversations[id]) else 0
  {
    if ids != [] {
      var front, last := ids[..|ids|-1], ids[|ids|-1];
      BadgeWithoutOne(front, conversations, id);
      NotOnPageOfAppend(front, last, [id]);
      assert ids == front + [last];
      TotalOfOneMore(front, last, conversations);
      TotalOfOneMore(NotOnPage(front, [id]), last, conversations);
      assert last !in front;
      assert id in ids <==> id in front || id == last;
    }
  }

  lemma TotalOfOneMore(ids: seq<ConversationId>, id: ConversationId, conversations: map<ConversationId, Conversation>)
    ensures UnreadTotal(ids + [id], conversations)
      == UnreadTotal(ids, conversations) + if id in conversations then Unread(conversations[id]) else 0
  {
    assert (ids + [id])[..|ids + [id]|-1] == ids;
  }

  /** Removing a conversation from the default inbox takes away what it added to the badge. */
  lemma RemovalLowersTheBadge(s: StoreState, id: ConversationId)
    requires InboxConsistent(s)
    ensures Step(s, RemoveFromInbox(DefaultInbox, id)).unreadTotal
      == s.unreadTotal - if id in s.defaultInbox.ids then Unread(s.conversations[id]) else 0
  {
    if id in s.defaultInbox.ids {
      BadgeWithoutOne(s.defaultInbox.ids, s.conversations, id);
    }
  }

  /**
   * Reading an unread conversation clears its counters and flag, stamps it, and
   * takes away what it added to the badge; one already read is left alone.
   */
  lemma ReadingTakesEffect(s: StoreState, id: ConversationId, now: int)
    requires InboxConsistent(s)
    ensures var t := Step(s, MarkReadLocal(id, now));
      SameMessages(s, t) &&
      if id in s.conversations && (s.conversations[id].unreadCount > 0 || s.conversations[id].manuallyMarkedUnread) then
        t.conversations == s.conversations[id := s.conversations[id].(
          unreadCount := 0, unreadMentionsCount := 0, manuallyMarkedUnread := false, lastReadAt := now)] &&
        t.defaultInbox == s.defaultInbox && t.requestInbox == s.requestInbox &&
        t.unreadTotal == s.unreadTotal - if id in s.defaultInbox.ids then Unread(s.conversations[id]) else 0
      else t == s
  {
    if id in s.conversations {
      BadgeChangesByOne(s.defaultInbox.ids, s.conversations, id, ReadConversation(s.conversations[id], now));
    }
  }

  lemma PeerReadTakesEffect(s: StoreState, id: ConversationId, at: Option<int>)
    ensures var t := Step(s, ApplyPeerRead(id, at));
      SameMessages(s, t) && t.unreadTotal == s.unreadTotal &&
      t == s.(conversations := t.conversations) &&
      (id !in s.conversations ==> t == s) &&
      (id in s.conversations ==>
        t.conversations == s.conversations[id := s.conversations[id].(peerLastReadAt := at)])
  {
    if id in s.conversations && s.conversations[id].peerLastReadAt == at {
      assert s.conversations[id := s.conversations[id].(peerLastReadAt := at)] == s.conversations;
    }
  }

  // ---------------------------------------------------------------------
  // Threads and drafts
  // ---------------------------------------------------------------------

  /** A thread action changes that thread by `Apply` and nothing else. */
  lemma ThreadActionTakesEffect(s: StoreState, key: ThreadKey, action: ThreadAction)
    ensures var t := Step(s, OnThread(key, action));
      SameInbox(s, t) && t.replyTargets == s.replyTargets && t.draftAliases == s.draftAliases &&
      ThreadAt(t.threads, key) == Apply(ThreadAt(s.threads, key), action) &&
      forall other :: other != key ==> ThreadAt(t.threads, other) == ThreadAt(s.threads, other)
  {
    if key !in s.threads && Apply(None, action) == None {
      assert ThreadAt(s.threads, key) == None;
    }
  }

  lemma ReplyTargetTakesEffect(s: StoreState, key: ThreadKey, target: Option<Message>)
    ensures var t := Step(s, SetReplyTarget(key, target));
      SameInbox(s, t) && t.threads == s.threads && t.draftAliases == s.draftAliases &&
      key in t.replyTargets && t.replyTargets[key] == target &&
      forall other :: other != key ==>
        (other in t.replyTargets <==> other in s.replyTargets) &&
        (other in t.replyTargets ==> t.replyTargets[other] == s.replyTargets[other])
  {
  }

  /** Adoption records the alias, drops the draft's reply target with its thread, and leaves the inbox alone. */
  lemma AdoptionTakesEffect(s: StoreState, draftKey: ThreadKey, conversationId: ConversationId)
    requires draftKey != conversationId
    ensures var t := Step(s, AdoptDraftThread(draftKey, conversationId));
      SameInbox(s, t) && t.draftAliases == s.draftAliases[draftKey := conversationId] &&
      draftKey !in t.threads &&
      (draftKey in s.threads ==> t.replyTargets == s.replyTargets - {draftKey}) &&
      (draftKey !in s.threads ==> t.threads == s.threads && t.replyTargets == s.replyTargets) &&
      (draftKey in s.threads ==>
        conversationId in t.threads &&
        t.threads[conversationId] ==
          (if conversationId in s.threads then s.threads[conversationId] else LOCAL_THREAD)
          .(messages := t.threads[conversationId].messages))
  {
  }

  /** Signing out forgets everything. */
  lemma ResetTakesEffect(s: StoreState)
    ensures var t := Step(s, Reset);
      t.conversations == map[] && t.defaultInbox.ids == [] && t.requestInbox.ids == [] &&
      t.defaultInbox.loadedAt == None && t.requestInbox.loadedAt == None && t.unreadTotal == 0 &&
      t.threads == map[] && t.replyTargets == map[] && t.draftAliases == map[]
  {
  }

  // ---------------------------------------------------------------------
  // Reactions
  // ---------------------------------------------------------------------

  function CountOf(s: seq<Reaction>, reaction: JsString): int {
    var i := ReactionIndex(s, reaction);
    if i < |s| then s[i].count else 0
  }

  predicate ViewerReacted(s: seq<Reaction>, reaction: JsString) {
    var i := ReactionIndex(s, reaction);
    i < |s| && s[i].viewerReacted
  }

  function OthersOf(s: seq<Reaction>, reaction: JsString): seq<Reaction> {
    if s == [] then []
    else if s[0].reaction == reaction then OthersOf(s[1..], reaction)
    else [s[0]] + OthersOf(s[1..], reaction)
  }

  predicate OneEntryEach(s: seq<Reaction>) {
    forall i, j :: 0 <= i < j < |s| ==> s[i].reaction != s[j].reaction
  }

  /**
   * Toggling the viewer's reaction: if it changes anything, the viewer's flag
   * is as asked, the count is one more or one less but not negative, and the
   * other reactions keep their entries and their order.
   */
  lemma ToggleTakesEffect(s: seq<Reaction>, reaction: JsString, add: bool)
    requires OneEntryEach(s)
    ensures var r := ToggleReaction(s, reaction, add);
      OneEntryEach(r) && OthersOf(r, reaction) == OthersOf(s, reaction) &&
      if ViewerReacted(s, reaction) == add || (!add && ReactionIndex(s, reaction) == |s|) then r == s
      else
        var count := CountOf(s, reaction) + (if add then 1 else -1);
        CountOf(r, reaction) == (if count < 0 then 0 else count) && (count > 0 ==> ViewerReacted(r, reaction) == add)
  {
    var i := ReactionIndex(s, reaction);
    var r := ToggleReaction(s, reaction, add);
    if i == |s| {
      if add {
        OthersOfSplit(s, [Reaction(reaction, 1, true)], reaction);
        ReactionIndexIs(r, reaction, |s|);
      }
    } else if r != s {
      if |r| < |s| {
        EntryTakenOut(s, reaction, i);
      } else {
        EntryReplaced(s, reaction, i, r[i]);
      }
    }
  }

  lemma EntryTakenOut(s: seq<Reaction>, reaction: JsString, i: nat)
    requires OneEntryEach(s) && i < |s| && s[i].reaction == reaction
    ensures var r := s[..i] + s[i+1..];
      OneEntryEach(r) && OthersOf(r, reaction) == OthersOf(s, reaction) && ReactionIndex(r, reaction) == |r|
  {
    var r := s[..i] + s[i+1..];
    assert s == s[..i] + ([s[i]] + s[i+1..]);
    OthersOfSplit(s[..i], [s[i]] + s[i+1..], reaction);
    OthersOfSplit([s[i]], s[i+1..], reaction);
    OthersOfSplit(s[..i], s[i+1..], reaction);
    assert forall j :: 0 <= j < |r| ==> r[j] == s[if j < i then j else j + 1];
    NoEntryLeft(r, reaction);
  }

  lemma EntryReplaced(s: seq<Reaction>, reaction: JsString, i: nat, entry: Reaction)
    requires OneEntryEach(s) && i < |s| && s[i].reaction == reaction == entry.reaction
    ensures var r := s[i := entry];
      OneEntryEach(r) && OthersOf(r, reaction) == OthersOf(s, reaction) && ReactionIndex(r, reaction) == i
  {
    var r := s[i := entry];
    assert s == s[..i] + ([s[i]] + s[i+1..]) && r == s[..i] + ([entry] + s[i+1..]);
    OthersOfSplit(s[..i], [s[i]] + s[i+1..], reaction);
    OthersOfSplit([s[i]], s[i+1..], reaction);
    OthersOfSplit(s[..i], [entry] + s[i+1..], reaction);
    OthersOfSplit([entry], s[i+1..], reaction);
    ReactionIndexIs(r, reaction, i);
  }

  lemma {:induction false} OthersOfSplit(a: seq<Reaction>, b: seq<Reaction>, reaction: JsString)
    ensures OthersOf(a + b, reaction) == OthersOf(a, reaction) + OthersOf(b, reaction)
  {
    if a == [] {
      assert a + b == b;
    } else {
      OthersOfSplit(a[1..], b, reaction);
      assert (a + b)[1..] == a[1..] + b;
    }
  }

  lemma NoEntryLeft(s: seq<Reaction>, reaction: JsString)
    requires forall i :: 0 <= i < |s| ==> s[i].reaction != reaction
    ensures ReactionIndex(s, reaction) == |s|
  {
  }
}
