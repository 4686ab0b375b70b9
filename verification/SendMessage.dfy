/**
 * What every run of sends, retries, discards and deliveries guarantees
 * (farcaster-audio/hooks/useSendMessage.ts).
 */
module SendMessage {
  import opened Options
  import opened Messages
  import opened Threads
  import opened MessageStore
  import opened DraftQueue
  import opened SendSteps

  ghost predicate IsRun(worlds: seq<World>, steps: seq<Step>) {
    |worlds| == |steps| + 1 && worlds[0] == INITIAL &&
    forall n {:trigger steps[n]} :: 0 <= n < |steps| ==>
      Enabled(worlds[n], steps[n]) && worlds[n+1] == Next(worlds[n], steps[n])
  }

  lemma {:induction false} EveryRunKeepsInv(worlds: seq<World>, steps: seq<Step>, n: nat)
    requires IsRun(worlds, steps) && n < |worlds|
    ensures Inv(worlds[n])
  {
    if n == 0 {
      assert ThreadsConsistent(INITIAL_STATE);
    } else {
      EveryRunKeepsInv(worlds, steps, n - 1);
      StepKeepsInv(worlds[n-1], steps[n-1]);
    }
  }

  /**
   * In every interleaving of sends from drafts and into known conversations,
   * retries, discards, deliveries and other store writes: an unsettled send
   * has exactly one row, unconfirmed, under its live thread key; and a
   * confirmed send never turns pending or failed.
   */
  lemma NoSendIsLost(worlds: seq<World>, steps: seq<Step>, n: nat, id: MessageId)
    requires IsRun(worlds, steps) && n < |worlds|
    ensures var w := worlds[n];
      (id in w.unsettled ==>
        id in w.sentBy && LiveThread(w, id).Some? &&
        HasOneRow(LiveThread(w, id).value.messages, id) && HasPending(LiveThread(w, id), id)) &&
      (id in w.confirmed ==> id in w.sentBy && !HasPending(LiveThread(w, id), id))
  {
    EveryRunKeepsInv(worlds, steps, n);
    var w := worlds[n];
    assert RowOk(w, id);
    if id in w.unsettled {
      ThreadIsOk(w.store, LiveKey(w, id));
      var rows := LiveThread(w, id).value.messages;
      var x :| x in rows && x.id == id && x.sendState != None;
      var i :| 0 <= i < |rows| && rows[i] == x;
      assert IsOnlyRow(rows, id, i);
    }
  }

  ghost predicate IsOnlyRow(rows: seq<Message>, id: MessageId, i: int) {
    0 <= i < |rows| && rows[i].id == id && forall j :: 0 <= j < |rows| && rows[j].id == id ==> j == i
  }

  ghost predicate HasOneRow(rows: seq<Message>, id: MessageId) {
    exists i :: IsOnlyRow(rows, id, i)
  }

  // ---------------------------------------------------------------------
  // The order of deliveries
  // ---------------------------------------------------------------------

  /**
   * In every run the deliveries of one draft go one at a time, in the order
   * they were queued: a later one has not started, and does not start, before
   * every earlier one has settled.
   */
  lemma OneDeliveryAtATime(worlds: seq<World>, steps: seq<Step>, n: nat, i: nat, j: nat)
    requires IsRun(worlds, steps) && n < |worlds|
    requires i < j < |worlds[n].queues.jobs|
    requires worlds[n].queues.jobs[i].key == worlds[n].queues.jobs[j].key
    ensures var jobs := worlds[n].queues.jobs;
      (jobs[j].phase != Waiting ==> jobs[i].phase == Settled) &&
      !(jobs[i].phase.InFlight? && jobs[j].phase.InFlight?) &&
      (n < |steps| && steps[n].Start? && steps[n].job == j ==> jobs[i].phase == Settled)
  {
    EveryRunKeepsInv(worlds, steps, n);
    if n < |steps| && steps[n].Start? && steps[n].job == j {
      assert Enabled(worlds[n], steps[n]);
      StartsAfterEarlierSettled(worlds[n].queues, i, j);
    }
  }

  /**
   * In every run no queue wedges: whatever failed before, while a draft has an
   * unsettled delivery some delivery of it is in flight or can start.
   */
  lemma QueueNeverWedges(worlds: seq<World>, steps: seq<Step>, n: nat, k: nat) returns (i: nat)
    requires IsRun(worlds, steps) && n < |worlds|
    requires k < |worlds[n].queues.jobs| && worlds[n].queues.jobs[k].phase != Settled
    ensures var w := worlds[n];
      i <= k && w.queues.jobs[i].key == w.queues.jobs[k].key &&
      (w.queues.jobs[i].phase.InFlight? || (Enabled(w, Start(i, true)) && Enabled(w, Start(i, false))))
  {
    EveryRunKeepsInv(worlds, steps, n);
    i := FirstUnsettled(worlds[n].queues, k);
    FirstUnsettledGoesOn(worlds[n].queues, i);
  }

  lemma {:induction false} FirstUnsettled(q: Queues, k: nat) returns (i: nat)
    requires k < |q.jobs| && q.jobs[k].phase != Settled
    ensures i <= k && q.jobs[i].key == q.jobs[k].key && q.jobs[i].phase != Settled
    ensures forall j :: 0 <= j < i && q.jobs[j].key == q.jobs[k].key ==> q.jobs[j].phase == Settled
  {
    i := k;
    if j: nat :| j < k && q.jobs[j].key == q.jobs[k].key && q.jobs[j].phase != Settled {
      i := FirstUnsettled(q, j);
    }
  }

  /**
   * A draft's conversation is created at most once, however sends and retries
   * interleave, and once it exists every delivery in flight is addressed to it.
   */
  lemma ConversationIsCreatedOnce(worlds: seq<World>, steps: seq<Step>, n: nat, key: ThreadKey, i: nat)
    requires IsRun(worlds, steps) && n < |worlds|
    ensures var w := worlds[n];
      CreationsOf(w, key) <= 1 &&
      (CreationsOf(w, key) == 1 <==> key in w.store.draftAliases) &&
      (i < |w.queues.jobs| && w.queues.jobs[i].key == key && w.queues.jobs[i].phase.InFlight? ==>
        w.queues.jobs[i].phase.target ==
          if key in w.store.draftAliases then Some(w.store.draftAliases[key]) else None)
  {
    EveryRunKeepsInv(worlds, steps, n);
    var w := worlds[n];
    assert AliasOk(w, key);
    if i < |w.queues.jobs| {
      assert JobOk(w, i);
    }
  }

  /** The created id never changes: later deliveries all reach the same conversation. */
  lemma {:induction false} AliasNeverChanges(worlds: seq<World>, steps: seq<Step>, m: nat, n: nat, key: ThreadKey)
    requires IsRun(worlds, steps) && m <= n < |worlds|
    requires key in worlds[m].store.draftAliases
    ensures key in worlds[n].store.draftAliases
    ensures worlds[n].store.draftAliases[key] == worlds[m].store.draftAliases[key]
  {
    if m < n {
      AliasNeverChanges(worlds, steps, m, n - 1, key);
      EveryRunKeepsInv(worlds, steps, n - 1);
      StepKeepsAlias(worlds[n-1], steps[n-1], key);
    }
  }

  lemma StepKeepsAlias(w: World, step: Step, key: ThreadKey)
    requires Inv(w) && Enabled(w, step) && key in w.store.draftAliases
    ensures key in Next(w, step).store.draftAliases
    ensures Next(w, step).store.draftAliases[key] == w.store.draftAliases[key]
  {
    match step
    case Send(k, m) => OtherThreadsUntouched(w.store, ResolveThreadKey(w.store, k), Upsert(m));
    case SendDirect(k, m) => OtherThreadsUntouched(w.store, ResolveThreadKey(w.store, k), Upsert(m));
    case Retry(k, id) => OtherThreadsUntouched(w.store, ResolveThreadKey(w.store, k), Patch(id, SetSending));
    case Discard(k, id) => OtherThreadsUntouched(w.store, ResolveThreadKey(w.store, k), Remove(id));
    case Start(i, _) =>
      var job := w.queues.jobs[i];
      OtherThreadsUntouched(w.store, ResolveThreadKey(w.store, job.key), MarkFailed(job.id));
    case Succeed(i, echo) =>
      assert JobOk(w, i) && AliasOk(w, key);
      AliasesAfterDelivery(w, i, echo);
    case Fail(i) =>
      var job := w.queues.jobs[i];
      OtherThreadsUntouched(w.store, ResolveThreadKey(w.store, job.key), MarkFailed(job.id));
    case Release(i) =>
    case Elsewhere(action) => ElsewhereKeepsStore(w, action);
  }

  // ---------------------------------------------------------------------
  // Why a retry must see the current row
  // ---------------------------------------------------------------------

  /**
   * `retry` checks the row it was handed, not the store's: a request error
   * after it leaves the row failed whenever the thread holds that row at all,
   * one the store has since confirmed included.
   */
  lemma RetryThenErrorFailsTheRow(t: Option<ThreadState>, id: MessageId)
    requires ThreadOk(t)
    ensures HasFailed(Apply(Apply(t, Patch(id, SetSending)), MarkFailed(id)), id) <==>
      HasPending(t, id) || HasConfirmed(t, id)
  {
    if t.Some? {
      var s := t.value.messages;
      var reopened := MapMessage(s, id, m => ApplyPatch(m, SetSending));
      var after := MapMessage(reopened, id, FailIfSending);
      assert Apply(Apply(t, Patch(id, SetSending)), MarkFailed(id)).value.messages == after;
      assert forall i | 0 <= i < |s| ::
        after[i].id == s[i].id && (s[i].id == id ==> after[i].sendState == Some(Failed));
      if HasPending(t, id) || HasConfirmed(t, id) {
        var i :| 0 <= i < |s| && s[i].id == id;
        assert after[i] in after;
      }
      if HasFailed(Some(t.value.(messages := after)), id) {
        var i :| 0 <= i < |after| && after[i].id == id;
        assert s[i] in s;
      }
    }
  }

  /** Of a send the store has confirmed: a stale retry and an error fail it again exactly if its row is still there. */
  lemma StaleRetryFailsConfirmedIff(worlds: seq<World>, steps: seq<Step>, n: nat, id: MessageId)
    requires IsRun(worlds, steps) && n < |worlds| && id in worlds[n].confirmed
    ensures id in worlds[n].sentBy
    ensures var t := LiveThread(worlds[n], id);
      HasFailed(Apply(Apply(t, Patch(id, SetSending)), MarkFailed(id)), id) <==> HasConfirmed(t, id)
  {
    EveryRunKeepsInv(worlds, steps, n);
    NoSendIsLost(worlds, steps, n, id);
    ThreadIsOk(worlds[n].store, LiveKey(worlds[n], id));
    RetryThenErrorFailsTheRow(LiveThread(worlds[n], id), id);
  }

  /**
   * The row handed to `retry` was the store's failed row in `worlds[m]`; by
   * `worlds[n]` the store has confirmed it, and the retry and its error
   * leave it failed.
   */
  ghost predicate StaleRetryFails(worlds: seq<World>, steps: seq<Step>, m: nat, n: nat, id: MessageId) {
    IsRun(worlds, steps) && m <= n < |worlds| && id in worlds[m].sentBy && id in worlds[n].sentBy &&
    HasFailed(LiveThread(worlds[m], id), id) && id in worlds[n].confirmed &&
    HasFailed(Apply(Apply(LiveThread(worlds[n], id), Patch(id, SetSending)), MarkFailed(id)), id)
  }

  /**
   * Such a run exists for every conversation and message: a send, its error,
   * and then the server's copy after all.
   */
  lemma StaleRetryFailsAConfirmedSend(key: ThreadKey, m: Message)
    returns (worlds: seq<World>, steps: seq<Step>)
    requires !IsDraftKey(key) && m.sendState == Some(Sending)
    ensures StaleRetryFails(worlds, steps, 2, 3, m.id)
  {
    worlds, steps := SendErrorCopy(key, m);
    SendThenError(key, m);
    ErrorThenCopy(worlds[2], key, m);
    SentThenFailed(m);
    StaleRetryFailsConfirmedIff(worlds, steps, 3, m.id);
  }

  lemma SendErrorCopy(key: ThreadKey, m: Message) returns (worlds: seq<World>, steps: seq<Step>)
    requires !IsDraftKey(key) && m.sendState == Some(Sending)
    ensures |steps| == 3 && IsRun(worlds, steps)
    ensures worlds[2] == Next(Next(INITIAL, SendDirect(key, m)), Elsewhere(OnThread(key, MarkFailed(m.id))))
    ensures worlds[3] == Next(worlds[2], Elsewhere(OnThread(key, Confirm(m))))
  {
    worlds, steps := [INITIAL], [];
    worlds, steps := RunGoesOn(worlds, steps, SendDirect(key, m));
    worlds, steps := RunGoesOn(worlds, steps, Elsewhere(OnThread(key, MarkFailed(m.id))));
    worlds, steps := RunGoesOn(worlds, steps, Elsewhere(OnThread(key, Confirm(m))));
  }

  lemma RunGoesOn(worlds: seq<World>, steps: seq<Step>, step: Step)
    returns (longer: seq<World>, more: seq<Step>)
    requires IsRun(worlds, steps) && Enabled(worlds[|steps|], step)
    ensures longer == worlds + [Next(worlds[|steps|], step)] && more == steps + [step]
    ensures IsRun(longer, more)
  {
    longer, more := worlds + [Next(worlds[|steps|], step)], steps + [step];
  }

  lemma SendThenError(key: ThreadKey, m: Message)
    requires !IsDraftKey(key) && m.sendState == Some(Sending)
    ensures var failed := Next(Next(INITIAL, SendDirect(key, m)), Elsewhere(OnThread(key, MarkFailed(m.id))));
      m.id in failed.sentBy && LiveKey(failed, m.id) == key &&
      LiveThread(failed, m.id) == Apply(Apply(None, Upsert(m)), MarkFailed(m.id))
  {
    OtherThreadsUntouched(INITIAL.store, key, Upsert(m));
    OtherThreadsUntouched(Next(INITIAL, SendDirect(key, m)).store, key, MarkFailed(m.id));
  }

  lemma ErrorThenCopy(w: World, key: ThreadKey, m: Message)
    requires !IsDraftKey(key) && m.id in w.sentBy && LiveKey(w, m.id) == key
    ensures var next := Next(w, Elsewhere(OnThread(key, Confirm(m))));
      m.id in next.confirmed && m.id in next.sentBy &&
      LiveThread(next, m.id) == Apply(LiveThread(w, m.id), Confirm(m))
  {
    OtherThreadsUntouched(w.store, key, Confirm(m));
  }

  lemma SentThenFailed(m: Message)
    requires m.sendState == Some(Sending)
    ensures var t := Apply(Apply(None, Upsert(m)), MarkFailed(m.id));
      HasFailed(t, m.id) && HasConfirmed(Apply(t, Confirm(m)), m.id)
  {
    var sent := Apply(None, Upsert(m));
    var t := Apply(sent, MarkFailed(m.id));
    ApplyKeepsThreadOk(None, Upsert(m));
    ApplyKeepsThreadOk(sent, MarkFailed(m.id));
    ReplaceMessageIsWindow([], m);
    MapMessageRows(sent.value.messages, m.id, FailIfSending, FailIfSending(m));
    assert FailIfSending(m) in t.value.messages;
    PendingRowLeavesOnlyWhenSettled(t, Confirm(m), m.id);
  }
}
