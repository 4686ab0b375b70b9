/**
 * What each action on a thread does to its rows, and when a poll may not be
 * merged (farcaster-audio/stores/messageStore.ts, farcaster-audio/hooks/useConversation.ts).
 */
module ThreadEffects {
  import opened JsStrings
  import opened Options
  import opened Messages
  import opened Threads
  import opened MessageStore
  import opened Conversation

  /** The thread holds exactly this row under its id. */
  ghost predicate HoldsRow(t: Option<ThreadState>, row: Message) {
    t.Some? && forall x: Message | x.id == row.id :: x in t.value.messages <==> x == row
  }

  predicate HoldsNoRow(t: Option<ThreadState>, id: MessageId) {
    t.Some? ==> forall x | x in t.value.messages :: x.id != id
  }

  /** Rows of other ids are as before. */
  ghost predicate SameOtherRows(t: Option<ThreadState>, u: Option<ThreadState>, id: MessageId) {
    forall x: Message | x.id != id :: x in OrEmpty(t).messages <==> x in OrEmpty(u).messages
  }

  // ---------------------------------------------------------------------
  // One action on the row
  // ---------------------------------------------------------------------

  lemma UpsertShowsTheRow(t: Option<ThreadState>, m: Message)
    requires ThreadOk(t)
    ensures HoldsRow(Apply(t, Upsert(m)), m) && SameOtherRows(t, Apply(t, Upsert(m)), m.id)
  {
    ReplaceMessageIsWindow(OrLocal(t).messages, m);
  }

  /** The row of an id is unique, so an update of that id replaces exactly it. */
  lemma MapUpdatesTheRow(s: seq<Message>, row: Message, update: Message -> Message)
    requires DistinctIds(s) && row in s
    requires forall m: Message :: update(m).id == m.id
    ensures forall x: Message | x.id == row.id :: x in MapMessage(s, row.id, update) <==> x == update(row)
    ensures forall x: Message | x.id != row.id :: x in MapMessage(s, row.id, update) <==> x in s
  {
    forall x: Message | x.id == row.id ensures x in MapMessage(s, row.id, update) <==> x == update(row) {
      MapMessageRows(s, row.id, update, x);
      forall y | y in s && y.id == row.id ensures y == row {
        OneRowPerId(s, row, y);
      }
    }
    forall x: Message | x.id != row.id ensures x in MapMessage(s, row.id, update) <==> x in s {
      MapMessageRows(s, row.id, update, x);
    }
  }

  lemma ErrorFailsTheRow(t: Option<ThreadState>, row: Message)
    requires ThreadOk(t) && t.Some? && row in t.value.messages && row.sendState != None
    ensures HoldsRow(Apply(t, MarkFailed(row.id)), row.(sendState := Some(Failed)))
    ensures SameOtherRows(t, Apply(t, MarkFailed(row.id)), row.id)
  {
    assert FailIfSending(row) == row.(sendState := Some(Failed)) by {
      match row.sendState.value
      case Sending =>
      case Failed =>
    }
    MapUpdatesTheRow(t.value.messages, row, FailIfSending);
  }

  lemma RetryReopensTheRow(t: Option<ThreadState>, row: Message)
    requires ThreadOk(t) && t.Some? && row in t.value.messages
    ensures HoldsRow(Apply(t, Patch(row.id, SetSending)), row.(sendState := Some(Sending)))
    ensures SameOtherRows(t, Apply(t, Patch(row.id, SetSending)), row.id)
  {
    var reopen := (m: Message) => ApplyPatch(m, SetSending);
    MapUpdatesTheRow(t.value.messages, row, reopen);
    assert Apply(t, Patch(row.id, SetSending)).value.messages == MapMessage(t.value.messages, row.id, reopen);
  }

  lemma RemovalDropsTheRow(t: Option<ThreadState>, id: MessageId)
    ensures HoldsNoRow(Apply(t, Remove(id)), id) && SameOtherRows(t, Apply(t, Remove(id)), id)
  {
  }

  lemma EchoConfirmsTheRow(t: Option<ThreadState>, echo: Message)
    requires ThreadOk(t)
    ensures var row := MergeSendEcho(FindById(OrLocal(t).messages, echo.id), echo);
      row.id == echo.id && row.sendState == None && HoldsRow(Apply(t, Confirm(echo)), row)
    ensures SameOtherRows(t, Apply(t, Confirm(echo)), echo.id)
  {
    ReplaceMessageIsWindow(OrLocal(t).messages, MergeSendEcho(FindById(OrLocal(t).messages, echo.id), echo));
  }

  lemma DeletionMarksTheRow(t: Option<ThreadState>, row: Message, isDeleted: bool)
    requires ThreadOk(t) && t.Some? && row in t.value.messages
    ensures HoldsRow(Apply(t, Patch(row.id, SetDeleted(isDeleted))), row.(isDeleted := isDeleted))
    ensures SameOtherRows(t, Apply(t, Patch(row.id, SetDeleted(isDeleted))), row.id)
  {
    var mark := (m: Message) => ApplyPatch(m, SetDeleted(isDeleted));
    MapUpdatesTheRow(t.value.messages, row, mark);
    assert Apply(t, Patch(row.id, SetDeleted(isDeleted))).value.messages
      == MapMessage(t.value.messages, row.id, mark);
  }

  lemma ReactionTogglesOnTheRow(t: Option<ThreadState>, row: Message, reaction: JsString, add: bool)
    requires ThreadOk(t) && t.Some? && row in t.value.messages
    ensures HoldsRow(Apply(t, React(row.id, reaction, add)),
                     row.(reactions := ToggleReaction(row.reactions, reaction, add)))
    ensures SameOtherRows(t, Apply(t, React(row.id, reaction, add)), row.id)
  {
    var toggle := (m: Message) => ApplyReaction(m, reaction, add);
    MapUpdatesTheRow(t.value.messages, row, toggle);
    assert Apply(t, React(row.id, reaction, add)).value.messages == MapMessage(t.value.messages, row.id, toggle);
  }

  /** A row of an id the thread does not hold, or a thread that is not there, is not created by an update. */
  lemma UpdatesCreateNoRow(t: Option<ThreadState>, id: MessageId, patch: MessagePatch,
                           reaction: JsString, add: bool)
    requires HoldsNoRow(t, id)
    ensures Apply(t, MarkFailed(id)) == t && Apply(t, Patch(id, patch)) == t && Apply(t, React(id, reaction, add)) == t
  {
    if t.Some? {
      var s := t.value.messages;
      assert MapMessage(s, id, FailIfSending) == s;
      assert MapMessage(s, id, m => ApplyPatch(m, patch)) == s;
      assert MapMessage(s, id, m => ApplyReaction(m, reaction, add)) == s;
    }
  }

  /** Everything about the thread but its rows is as before. */
  predicate SamePaging(t: ThreadState, u: ThreadState) {
    t.olderCursor == u.olderCursor && t.hasOlder == u.hasOlder && t.newerCursor == u.newerCursor &&
    t.hasNewer == u.hasNewer && t.isDetached == u.isDetached && t.isLoaded == u.isLoaded && t.syncedAt == u.syncedAt
  }

  /**
   * Only pages and sync stamps move the paging state. A push or a send on a
   * missing thread creates one that counts as loaded, unsynced and without
   * cursors; nothing else but a page creates a thread, and nothing removes one.
   */
  lemma RowActionsKeepThePaging(t: Option<ThreadState>, action: ThreadAction)
    requires !action.SetPage? && !action.MarkSynced?
    ensures t.Some? ==> Apply(t, action).Some? && SamePaging(t.value, Apply(t, action).value)
    ensures t.None? && (action.Upsert? || action.Confirm?) ==>
      Apply(t, action).Some? && Apply(t, action).value.isLoaded && Apply(t, action).value.syncedAt == None &&
      Apply(t, action).value.olderCursor == None && Apply(t, action).value.newerCursor == None
    ensures t.None? && !(action.Upsert? || action.Confirm?) ==> Apply(t, action) == None
  {
  }

  /** A poll is merged, and a sync stamped, exactly into a loaded thread at the tail. */
  lemma PollsTouchTheTailOnly(t: Option<ThreadState>, items: seq<Message>, now: int)
    ensures var isAtTail := t.Some? && t.value.isLoaded && !t.value.isDetached;
      (!isAtTail ==> Apply(t, MergeLatest(items)) == t && Apply(t, MarkSynced(now)) == t) &&
      (isAtTail ==>
        Apply(t, MergeLatest(items)) == Some(t.value.(messages := MergeMessages(t.value.messages, items))) &&
        Apply(t, MarkSynced(now)) == Some(t.value.(syncedAt := Some(now))))
  {
  }

  /** Rows a page brings are the page's own messages without the send state; all others of the window stay. */
  lemma PageRowsAreThePages(existing: seq<Message>, items: seq<Message>, x: Message)
    requires IsWindow(existing)
    ensures x in MergeMessages(existing, items) ==>
      (exists m | m in items :: x == m.(sendState := None)) || (x in existing && !Mentions(items, x.id))
    ensures x in existing && !Mentions(items, x.id) ==> x in MergeMessages(existing, items)
    ensures Mentions(items, x.id) ==> exists y | y in MergeMessages(existing, items) :: y.id == x.id
  {
    MergeMessagesRows(existing, items);
    if Mentions(items, x.id) {
      assert x.id in Ids(items);
      assert x.id in Ids(MergeMessages(existing, items));
    }
  }

  /** A clock ahead of the newest row is taken as it is; otherwise the send goes one millisecond after that row. */
  lemma ClampedTime(now: int, newest: Message)
    ensures ClampOptimisticSentAt(now, None) == now
    ensures now > newest.sentAt ==> ClampOptimisticSentAt(now, Some(newest)) == now
    ensures now <= newest.sentAt ==> ClampOptimisticSentAt(now, Some(newest)) == newest.sentAt + 1
  {
  }

  /**
   * A loaded window at the tail is reloaded rather than merged exactly when it
   * was not synced within the last minute, or a poll with messages shares none
   * with it; any other thread never is.
   */
  lemma PollReloadsIff(thread: Option<ThreadState>, recent: seq<Message>, now: int)
    ensures ShouldReloadLatest(thread, recent, now) <==>
      thread.Some? && thread.value.isLoaded && !thread.value.isDetached &&
      (thread.value.syncedAt == None || now - thread.value.syncedAt.value > 60_000 ||
       (recent != [] && forall m, l :: m in recent && l in thread.value.messages ==> l.id != m.id))
  {
  }
}
