/**
 * Optimistic sends, from a draft thread or into a known conversation:
 * delivery, adoption of the created conversation, retries and discards,
 * interleaved with everything else that writes to the store; and what each
 * such step keeps
 * (farcaster-audio/hooks/useSendMessage.ts, farcaster-audio/stores/messageStore.ts).
 */
module SendSteps {
  import opened JsStrings
  import opened Options
  import opened Messages
  import opened Threads
  import opened Inbox
  import opened MessageStore
  import opened DraftQueue

  /** `draft:` — no server conversation id starts like this. */
  const DRAFT_PREFIX: JsString := [100, 114, 97, 102, 116, 58]

  predicate IsDraftKey(key: ThreadKey) {
    DRAFT_PREFIX <= key
  }

  // ---------------------------------------------------------------------
  // Sending
  // ---------------------------------------------------------------------

  /**
   * `sentBy` remembers the thread key each send was issued under, a draft's or
   * a conversation's; `unsettled` are the sends
   * neither confirmed, discarded nor dropped by a disjoint jump; `confirmed`
   * the ones a server copy has reached; `creations` counts, per draft, the
   * conversation-creating requests that succeeded.
   */
  datatype World = World(
    store: StoreState,
    queues: Queues,
    sentBy: map<MessageId, ThreadKey>,
    unsettled: set<MessageId>,
    confirmed: set<MessageId>,
    creations: map<ThreadKey, nat>)

  datatype Step =
    | Send(key: ThreadKey, message: Message)
    | SendDirect(key: ConversationId, message: Message)
    | Retry(key: ThreadKey, id: MessageId)
    | Discard(key: ThreadKey, id: MessageId)
    | Start(job: nat, hasRecipient: bool)
    | Succeed(job: nat, echo: Message)
    | Fail(job: nat)
    | Release(job: nat)
    | Elsewhere(action: StoreAction)

  function LiveKey(w: World, id: MessageId): ThreadKey
    requires id in w.sentBy
  {
    ResolveThreadKey(w.store, w.sentBy[id])
  }

  function LiveThread(w: World, id: MessageId): Option<ThreadState>
    requires id in w.sentBy
  {
    ThreadAt(w.store.threads, LiveKey(w, id))
  }

  function OnLive(s: StoreState, key: ThreadKey, action: ThreadAction): StoreState {
    MessageStore.Step(s, OnThread(ResolveThreadKey(s, key), action))
  }

  function CreationsOf(w: World, key: ThreadKey): nat {
    if key in w.creations then w.creations[key] else 0
  }

  /** The sends this action on thread `key` takes out of `unsettled`. */
  predicate Settles(w: World, key: ThreadKey, action: ThreadAction, id: MessageId) {
    id in w.sentBy && LiveKey(w, id) == key &&
    var t := ThreadAt(w.store.threads, key);
    Confirms(t, action, id) || action == Remove(id) || IsDisjointJump(t, action)
  }

  predicate Reaches(w: World, key: ThreadKey, action: ThreadAction, id: MessageId) {
    id in w.sentBy && LiveKey(w, id) == key && Confirms(ThreadAt(w.store.threads, key), action, id)
  }

  /**
   * Page loads, polls, pushes and inbox changes; and, for a thread opened under
   * its conversation id, what `send` and `retry` do there: delivery skips the
   * queue, so its answer is a confirmation or a failure of the row at any later
   * time, and a retry or a discard acts on the row in place, whichever key the
   * send was issued under. A retry is of a row that is failed in the store.
   */
  predicate IsElsewhere(w: World, action: StoreAction) {
    match action
    case OnThread(key, threadAction) =>
      !IsDraftKey(key) &&
      (threadAction.Upsert? ==> threadAction.message.sendState == None) &&
      (threadAction.Patch? && threadAction.patch.SetSending? ==>
        HasFailed(ThreadAt(w.store.threads, key), threadAction.id))
    case AdoptDraftThread(_, _) => false
    case Reset => false
    case _ => true
  }

  predicate Enabled(w: World, step: Step) {
    match step
    case Send(key, m) => IsDraftKey(key) && m.sendState == Some(Sending) && m.id !in w.sentBy
    case SendDirect(key, m) => !IsDraftKey(key) && m.sendState == Some(Sending) && m.id !in w.sentBy
    case Retry(key, id) =>
      // From the draft's screen; the row the user taps shows the store's current state.
      IsDraftKey(key) && id in w.sentBy && w.sentBy[id] == key && HasFailed(LiveThread(w, id), id)
    case Discard(key, id) => IsDraftKey(key) && id in w.sentBy && w.sentBy[id] == key
    case Start(i, _) => CanStart(w.queues, i)
    case Succeed(i, echo) =>
      i < |w.queues.jobs| && w.queues.jobs[i].phase.InFlight? && echo.id == w.queues.jobs[i].id &&
      echo.conversationId != [] && !IsDraftKey(echo.conversationId)
    case Fail(i) => i < |w.queues.jobs| && w.queues.jobs[i].phase.InFlight?
    case Release(i) => i < |w.queues.jobs| && w.queues.jobs[i].phase == Settled
    case Elsewhere(action) => IsElsewhere(w, action)
  }

  /** `deliverNow` up to the request: an aliased draft addresses the real conversation. */
  function TargetOf(s: StoreState, key: ThreadKey): Option<ConversationId> {
    var live := ResolveThreadKey(s, key);
    if live != key && live != [] then Some(live) else None
  }

  function NextSend(w: World, key: ThreadKey, m: Message): World {
    w.(store := OnLive(w.store, key, Upsert(m)),
       queues := Enqueued(w.queues, key, m.id),
       sentBy := w.sentBy[m.id := key],
       unsettled := w.unsettled + {m.id})
  }

  /** `send` with a known conversation: the row, and a request that no queue holds. */
  function NextSendDirect(w: World, key: ConversationId, m: Message): World {
    w.(store := OnLive(w.store, key, Upsert(m)),
       sentBy := w.sentBy[m.id := key],
       unsettled := w.unsettled + {m.id})
  }

  function NextStart(w: World, i: nat, hasRecipient: bool): World
    requires i < |w.queues.jobs|
  {
    var job := w.queues.jobs[i];
    var target := TargetOf(w.store, job.key);
    if target == None && !hasRecipient then
      w.(store := OnLive(w.store, job.key, MarkFailed(job.id)), queues := WithPhase(w.queues, i, Settled))
    else
      w.(queues := WithPhase(w.queues, i, InFlight(target)))
  }

  function NextSucceed(w: World, i: nat, echo: Message): World
    requires i < |w.queues.jobs| && w.queues.jobs[i].phase.InFlight?
  {
    var job := w.queues.jobs[i];
    var settled := w.(queues := WithPhase(w.queues, i, Settled),
                      unsettled := w.unsettled - {echo.id},
                      confirmed := w.confirmed + {echo.id});
    if job.phase.target == None then
      settled.(store := MessageStore.Step(Adopted(w.store, job.key, echo.conversationId),
                                          OnThread(echo.conversationId, Confirm(echo))),
               creations := w.creations[job.key := CreationsOf(w, job.key) + 1])
    else
      settled.(store := OnLive(w.store, job.key, Confirm(echo)))
  }

  function NextElsewhere(w: World, action: StoreAction): World {
    var next := w.(store := MessageStore.Step(w.store, action));
    if action.OnThread? then
      next.(unsettled := (set id | id in w.unsettled && !Settles(w, action.key, action.action, id)),
            confirmed := w.confirmed + (set id | id in w.sentBy && Reaches(w, action.key, action.action, id)))
    else next
  }

  function Next(w: World, step: Step): World
    requires Enabled(w, step)
  {
    match step
    case Send(key, m) => NextSend(w, key, m)
    case SendDirect(key, m) => NextSendDirect(w, key, m)
    case Retry(key, id) =>
      w.(store := OnLive(w.store, key, Patch(id, SetSending)), queues := Enqueued(w.queues, key, id))
    case Discard(key, id) =>
      w.(store := OnLive(w.store, key, Remove(id)), unsettled := w.unsettled - {id})
    case Start(i, hasRecipient) => NextStart(w, i, hasRecipient)
    case Succeed(i, echo) => NextSucceed(w, i, echo)
    case Fail(i) =>
      var job := w.queues.jobs[i];
      w.(store := OnLive(w.store, job.key, MarkFailed(job.id)), queues := WithPhase(w.queues, i, Settled))
    case Release(i) => w.(queues := Released(w.queues, i))
    case Elsewhere(action) => NextElsewhere(w, action)
  }

  // ---------------------------------------------------------------------
  // The invariants
  // ---------------------------------------------------------------------

  ghost predicate AliasOk(w: World, key: ThreadKey) {
    (key in w.store.draftAliases ==>
      IsDraftKey(key) && !IsDraftKey(w.store.draftAliases[key]) && w.store.draftAliases[key] != []) &&
    CreationsOf(w, key) == if key in w.store.draftAliases then 1 else 0
  }

  /** Jobs belong to the draft that issued their send; a request in flight has the draft's current target. */
  ghost predicate JobOk(w: World, i: nat)
    requires i < |w.queues.jobs|
  {
    var job := w.queues.jobs[i];
    job.id in w.sentBy && w.sentBy[job.id] == job.key && IsDraftKey(job.key) &&
    (job.phase.InFlight? ==> job.phase.target == TargetOf(w.store, job.key))
  }

  ghost predicate OwnedBy(rows: seq<Message>, sentBy: map<MessageId, ThreadKey>, key: ThreadKey) {
    forall x :: x in rows ==> x.id in sentBy && sentBy[x.id] == key
  }

  /** Draft threads hold only their own sends, and none remains once the draft is adopted. */
  ghost predicate DraftOk(w: World, key: ThreadKey) {
    (key in w.store.draftAliases ==> key !in w.store.threads) &&
    (key in w.store.threads && IsDraftKey(key) ==> OwnedBy(w.store.threads[key].messages, w.sentBy, key))
  }

  /** An unsettled send has its pending row under the live key; a confirmed one is never pending. */
  ghost predicate RowOk(w: World, id: MessageId) {
    (id in w.unsettled ==> id in w.sentBy && HasPending(LiveThread(w, id), id)) &&
    (id in w.confirmed ==>
      id in w.sentBy && (IsDraftKey(w.sentBy[id]) ==> w.sentBy[id] in w.store.draftAliases) &&
      !HasPending(LiveThread(w, id), id))
  }

  ghost predicate Inv(w: World) {
    QueuesOk(w.queues) && ThreadsConsistent(w.store) &&
    (forall key :: AliasOk(w, key)) &&
    (forall i :: 0 <= i < |w.queues.jobs| ==> JobOk(w, i)) &&
    (forall key :: DraftOk(w, key)) &&
    (forall id :: RowOk(w, id))
  }

  const INITIAL := World(INITIAL_STATE, Queues([], map[]), map[], {}, {}, map[])

  // ---------------------------------------------------------------------
  // An action on one thread
  // ---------------------------------------------------------------------

  /** An action on thread `key` leaves aliases and every other thread alone. */
  lemma OtherThreadsUntouched(s: StoreState, key: ThreadKey, action: ThreadAction)
    ensures var next := MessageStore.Step(s, OnThread(key, action));
      next.draftAliases == s.draftAliases &&
      (forall other :: other != key ==> ThreadAt(next.threads, other) == ThreadAt(s.threads, other)) &&
      ThreadAt(next.threads, key) == Apply(ThreadAt(s.threads, key), action)
  {
    if key !in s.threads && Apply(None, action) == None {
      assert ThreadAt(s.threads, key) == None;
    }
  }

  lemma ThreadIsOk(s: StoreState, key: ThreadKey)
    requires ThreadsConsistent(s)
    ensures ThreadOk(ThreadAt(s.threads, key))
  {
  }

  lemma ReachedIsNotPending(t: Option<ThreadState>, action: ThreadAction, id: MessageId)
    requires ThreadOk(t) && Confirms(t, action, id)
    ensures !HasPending(Apply(t, action), id)
  {
    if HasPending(t, id) {
      PendingRowLeavesOnlyWhenSettled(t, action, id);
    } else {
      ConfirmedRowNeverFails(t, action, id);
    }
  }

  lemma LocalActionKeepsOwner(t: Option<ThreadState>, action: ThreadAction,
                              owner: map<MessageId, ThreadKey>, key: ThreadKey)
    requires ThreadOk(t) && OwnedBy(OrEmpty(t).messages, owner, key)
    requires match action
      case Upsert(m) => m.id in owner && owner[m.id] == key
      case MarkFailed(_) => true
      case Patch(_, _) => true
      case Remove(_) => true
      case _ => false
    ensures OwnedBy(OrEmpty(Apply(t, action)).messages, owner, key)
  {
    var s := OrEmpty(t).messages;
    match action
    case Upsert(m) => ReplaceMessageIsWindow(s, m);
    case MarkFailed(id) => MapKeepsOwner(s, id, FailIfSending, owner, key);
    case Patch(id, patch) => MapKeepsOwner(s, id, m => ApplyPatch(m, patch), owner, key);
    case Remove(id) =>
  }

  lemma MapKeepsOwner(s: seq<Message>, id: MessageId, update: Message -> Message,
                      owner: map<MessageId, ThreadKey>, key: ThreadKey)
    requires OwnedBy(s, owner, key)
    requires forall m: Message :: update(m).id == m.id
    ensures OwnedBy(MapMessage(s, id, update), owner, key)
  {
    var r := MapMessage(s, id, update);
    forall x | x in r ensures x.id in owner && owner[x.id] == key {
      var i :| 0 <= i < |r| && r[i] == x;
      assert s[i] in s;
    }
  }

  // ---------------------------------------------------------------------
  // Sends, retries, discards and failures
  // ---------------------------------------------------------------------

  /** A step that runs one local action on a draft's live thread, for one of the draft's own sends. */
  ghost predicate IsLocalStep(w: World, next: World, key: ThreadKey, action: ThreadAction, id: MessageId) {
    IsDraftKey(key) &&
    next.store == OnLive(w.store, key, action) &&
    next.confirmed == w.confirmed && next.creations == w.creations &&
    match action
    case Upsert(m) =>
      m.id == id && m.sendState != None && id !in w.sentBy &&
      next.sentBy == w.sentBy[id := key] && next.unsettled == w.unsettled + {id}
    case MarkFailed(i) => i == id && next.sentBy == w.sentBy && next.unsettled == w.unsettled
    case Patch(i, SetSending) =>
      i == id && id !in w.confirmed && next.sentBy == w.sentBy && next.unsettled == w.unsettled
    case Remove(i) => i == id && next.sentBy == w.sentBy && next.unsettled == w.unsettled - {id}
    case _ => false
  }

  lemma LocalStepKeepsRow(w: World, next: World, key: ThreadKey, action: ThreadAction, id: MessageId, x: MessageId)
    requires ThreadsConsistent(w.store) && IsLocalStep(w, next, key, action, id)
    requires RowOk(w, x)
    ensures RowOk(next, x)
  {
    var live := ResolveThreadKey(w.store, key);
    var t := ThreadAt(w.store.threads, live);
    ThreadIsOk(w.store, live);
    OtherThreadsUntouched(w.store, live, action);
    if action.Upsert? && x == id {
      ReplaceMessageIsWindow(OrLocal(t).messages, action.message);
      assert action.message in OrLocal(Apply(t, action)).messages;
      assert LiveThread(next, x) == Apply(t, action);
    } else if x in w.sentBy && LiveKey(w, x) == live {
      assert LiveThread(next, x) == Apply(t, action);
      if x in next.unsettled {
        PendingRowLeavesOnlyWhenSettled(t, action, x);
      }
      if x in next.confirmed {
        ConfirmedRowNeverFails(t, action, x);
      }
    } else if x in w.sentBy {
      assert LiveThread(next, x) == LiveThread(w, x);
    }
  }

  lemma LocalStepKeepsDraft(w: World, next: World, key: ThreadKey, action: ThreadAction, id: MessageId, k: ThreadKey)
    requires ThreadsConsistent(w.store) && IsLocalStep(w, next, key, action, id)
    requires AliasOk(w, key) && DraftOk(w, k) && DraftOk(w, key)
    requires AliasOk(w, k)
    ensures DraftOk(next, k)
  {
    var live := ResolveThreadKey(w.store, key);
    OtherThreadsUntouched(w.store, live, action);
    assert ThreadAt(next.store.threads, k) ==
      if k == live then Apply(ThreadAt(w.store.threads, live), action) else ThreadAt(w.store.threads, k);
    if k == live == key && key in next.store.threads {
      ThreadIsOk(w.store, key);
      assert OwnedBy(OrEmpty(ThreadAt(w.store.threads, key)).messages, next.sentBy, key);
      LocalActionKeepsOwner(ThreadAt(w.store.threads, key), action, next.sentBy, key);
    }
  }

  /** Everything but the queues, for a local step. */
  lemma LocalStepKeepsStore(w: World, next: World, key: ThreadKey, action: ThreadAction, id: MessageId)
    requires Inv(w) && IsLocalStep(w, next, key, action, id)
    ensures ThreadsConsistent(next.store) && next.store.draftAliases == w.store.draftAliases
    ensures (forall k :: AliasOk(next, k)) && (forall k :: DraftOk(next, k)) && (forall x :: RowOk(next, x))
  {
    var live := ResolveThreadKey(w.store, key);
    StepKeepsThreadsConsistent(w.store, OnThread(live, action));
    OtherThreadsUntouched(w.store, live, action);
    forall k ensures AliasOk(next, k) {
      assert AliasOk(w, k);
    }
    forall k ensures DraftOk(next, k) {
      assert AliasOk(w, key) && AliasOk(w, k) && DraftOk(w, key) && DraftOk(w, k);
      LocalStepKeepsDraft(w, next, key, action, id, k);
    }
    forall x ensures RowOk(next, x) {
      assert RowOk(w, x);
      LocalStepKeepsRow(w, next, key, action, id, x);
    }
  }

  lemma SendKeepsInv(w: World, key: ThreadKey, m: Message)
    requires Inv(w) && Enabled(w, Send(key, m))
    ensures Inv(Next(w, Send(key, m)))
  {
    var next := Next(w, Send(key, m));
    EnqueueKeepsQueuesOk(w.queues, key, m.id);
    LocalStepKeepsStore(w, next, key, Upsert(m), m.id);
    forall i | 0 <= i < |next.queues.jobs| ensures JobOk(next, i) {
      if i < |w.queues.jobs| { assert JobOk(w, i); }
    }
  }

  /** A send into a known conversation: its own row appears, no other is touched. */
  lemma SendDirectKeepsRow(w: World, key: ConversationId, m: Message, x: MessageId)
    requires ThreadsConsistent(w.store) && Enabled(w, SendDirect(key, m))
    requires AliasOk(w, key) && RowOk(w, x)
    ensures RowOk(NextSendDirect(w, key, m), x)
  {
    var next := NextSendDirect(w, key, m);
    var t := ThreadAt(w.store.threads, key);
    assert ResolveThreadKey(w.store, key) == key;
    ThreadIsOk(w.store, key);
    OtherThreadsUntouched(w.store, key, Upsert(m));
    if x == m.id {
      ReplaceMessageIsWindow(OrLocal(t).messages, m);
      assert m in OrLocal(Apply(t, Upsert(m))).messages;
      assert LiveThread(next, x) == Apply(t, Upsert(m));
    } else if x in w.sentBy && LiveKey(w, x) == key {
      assert LiveThread(next, x) == Apply(t, Upsert(m));
      if x in w.unsettled {
        PendingRowLeavesOnlyWhenSettled(t, Upsert(m), x);
      }
      if x in w.confirmed {
        ConfirmedRowNeverFails(t, Upsert(m), x);
      }
    } else if x in w.sentBy {
      assert LiveThread(next, x) == LiveThread(w, x);
    }
  }

  lemma SendDirectKeepsDraft(w: World, key: ConversationId, m: Message, k: ThreadKey)
    requires Enabled(w, SendDirect(key, m)) && AliasOk(w, key)
    requires AliasOk(w, k) && DraftOk(w, k)
    ensures AliasOk(NextSendDirect(w, key, m), k) && DraftOk(NextSendDirect(w, key, m), k)
  {
    var next := NextSendDirect(w, key, m);
    assert ResolveThreadKey(w.store, key) == key;
    OtherThreadsUntouched(w.store, key, Upsert(m));
    if k != key {
      assert ThreadAt(next.store.threads, k) == ThreadAt(w.store.threads, k);
    }
  }

  lemma SendDirectKeepsInv(w: World, key: ConversationId, m: Message)
    requires Inv(w) && Enabled(w, SendDirect(key, m))
    ensures Inv(Next(w, SendDirect(key, m)))
  {
    var next := NextSendDirect(w, key, m);
    assert AliasOk(w, key);
    assert ResolveThreadKey(w.store, key) == key;
    StepKeepsThreadsConsistent(w.store, OnThread(key, Upsert(m)));
    OtherThreadsUntouched(w.store, key, Upsert(m));
    forall k ensures AliasOk(next, k) && DraftOk(next, k) {
      assert AliasOk(w, k) && DraftOk(w, k);
      SendDirectKeepsDraft(w, key, m, k);
    }
    forall x ensures RowOk(next, x) {
      assert RowOk(w, x);
      SendDirectKeepsRow(w, key, m, x);
    }
    forall i | 0 <= i < |next.queues.jobs| ensures JobOk(next, i) {
      assert JobOk(w, i);
    }
  }

  lemma RetryKeepsInv(w: World, key: ThreadKey, id: MessageId)
    requires Inv(w) && Enabled(w, Retry(key, id))
    ensures Inv(Next(w, Retry(key, id)))
  {
    var next := Next(w, Retry(key, id));
    EnqueueKeepsQueuesOk(w.queues, key, id);
    assert RowOk(w, id) && HasPending(LiveThread(w, id), id);
    LocalStepKeepsStore(w, next, key, Patch(id, SetSending), id);
    forall i | 0 <= i < |next.queues.jobs| ensures JobOk(next, i) {
      if i < |w.queues.jobs| { assert JobOk(w, i); }
    }
  }

  lemma DiscardKeepsInv(w: World, key: ThreadKey, id: MessageId)
    requires Inv(w) && Enabled(w, Discard(key, id))
    ensures Inv(Next(w, Discard(key, id)))
  {
    var next := Next(w, Discard(key, id));
    assert RowOk(w, id);
    LocalStepKeepsStore(w, next, key, Remove(id), id);
    forall i | 0 <= i < |next.queues.jobs| ensures JobOk(next, i) {
      assert JobOk(w, i);
    }
  }

  lemma StartKeepsInv(w: World, i: nat, hasRecipient: bool)
    requires Inv(w) && Enabled(w, Start(i, hasRecipient))
    ensures Inv(Next(w, Start(i, hasRecipient)))
  {
    if TargetOf(w.store, w.queues.jobs[i].key) == None && !hasRecipient {
      RefusedStartKeepsInv(w, i);
    } else {
      DeliveryStartKeepsInv(w, i, hasRecipient);
    }
  }

  lemma RefusedStartKeepsInv(w: World, i: nat)
    requires Inv(w) && Enabled(w, Start(i, false)) && TargetOf(w.store, w.queues.jobs[i].key) == None
    ensures Inv(Next(w, Start(i, false)))
  {
    var next := Next(w, Start(i, false));
    var job := w.queues.jobs[i];
    assert JobOk(w, i);
    StartKeepsQueuesOk(w.queues, i, Settled);
    LocalStepKeepsStore(w, next, job.key, MarkFailed(job.id), job.id);
    forall j | 0 <= j < |next.queues.jobs| ensures JobOk(next, j) {
      assert JobOk(w, j);
    }
  }

  lemma DeliveryStartKeepsInv(w: World, i: nat, hasRecipient: bool)
    requires Inv(w) && Enabled(w, Start(i, hasRecipient))
    requires TargetOf(w.store, w.queues.jobs[i].key) != None || hasRecipient
    ensures Inv(Next(w, Start(i, hasRecipient)))
  {
    var next := Next(w, Start(i, hasRecipient));
    StartKeepsQueuesOk(w.queues, i, InFlight(TargetOf(w.store, w.queues.jobs[i].key)));
    SameStoreKeepsStore(w, next);
    forall j | 0 <= j < |next.queues.jobs| ensures JobOk(next, j) {
      assert JobOk(w, j);
    }
  }

  lemma SameStoreKeepsStore(w: World, next: World)
    requires Inv(w) && next == w.(queues := next.queues)
    ensures (forall k :: AliasOk(next, k)) && (forall k :: DraftOk(next, k)) && (forall x :: RowOk(next, x))
  {
    forall k ensures AliasOk(next, k) && DraftOk(next, k) {
      assert AliasOk(w, k) && DraftOk(w, k);
    }
    forall x ensures RowOk(next, x) {
      assert RowOk(w, x);
    }
  }

  lemma FailKeepsInv(w: World, i: nat)
    requires Inv(w) && Enabled(w, Fail(i))
    ensures Inv(Next(w, Fail(i)))
  {
    var next := Next(w, Fail(i));
    var job := w.queues.jobs[i];
    assert JobOk(w, i);
    SettleKeepsQueuesOk(w.queues, i);
    LocalStepKeepsStore(w, next, job.key, MarkFailed(job.id), job.id);
    forall j | 0 <= j < |next.queues.jobs| ensures JobOk(next, j) {
      assert JobOk(w, j);
    }
  }

  lemma ReleaseKeepsInv(w: World, i: nat)
    requires Inv(w) && Enabled(w, Release(i))
    ensures Inv(Next(w, Release(i)))
  {
    var next := Next(w, Release(i));
    ReleaseKeepsQueuesOk(w.queues, i);
    SameStoreKeepsStore(w, next);
    forall j | 0 <= j < |next.queues.jobs| ensures JobOk(next, j) {
      assert JobOk(w, j);
    }
  }

  // ---------------------------------------------------------------------
  // A delivery succeeds
  // ---------------------------------------------------------------------

  /** Adoption alone: the world between `adoptDraftThread` and `confirmSentMessage`. */
  ghost predicate IsAdoption(w: World, mid: World, key: ThreadKey, conversationId: ConversationId) {
    IsDraftKey(key) && !IsDraftKey(conversationId) && conversationId != [] && key !in w.store.draftAliases &&
    mid == AfterAdoption(w, key, conversationId)
  }

  lemma AdoptionKeepsRow(w: World, mid: World, key: ThreadKey, conversationId: ConversationId, x: MessageId)
    requires ThreadsConsistent(w.store) && IsAdoption(w, mid, key, conversationId)
    requires RowOk(w, x) && DraftOk(w, key)
    requires x in w.sentBy ==> AliasOk(w, w.sentBy[x])
    ensures RowOk(mid, x)
  {
    if x in w.sentBy {
      if key !in w.store.threads {
        assert w.sentBy[x] == key ==> LiveThread(w, x) == None;
      } else {
        AdoptionMovesEveryRow(w.store, key, conversationId);
        if w.sentBy[x] == key {
          if x in w.unsettled {
            AdoptionKeepsPending(w.store, key, conversationId, x);
          }
        } else if LiveKey(w, x) == conversationId {
          OthersRowSurvivesAdoption(w, key, conversationId, x);
        } else {
          assert ThreadAt(mid.store.threads, LiveKey(w, x)) == ThreadAt(w.store.threads, LiveKey(w, x));
        }
      }
    }
  }

  /** A send of another draft already living under the adopting conversation is not affected. */
  lemma OthersRowSurvivesAdoption(w: World, key: ThreadKey, conversationId: ConversationId, id: MessageId)
    requires ThreadsConsistent(w.store) && DraftOk(w, key)
    requires IsDraftKey(key) && !IsDraftKey(conversationId) && key in w.store.threads
    requires id in w.sentBy && w.sentBy[id] != key
    ensures HasPending(ThreadAt(Adopted(w.store, key, conversationId).threads, conversationId), id) <==>
      HasPending(ThreadAt(w.store.threads, conversationId), id)
  {
    AdoptionMovesEveryRow(w.store, key, conversationId);
    var draft := w.store.threads[key].messages;
    var target := OrLocal(ThreadAt(w.store.threads, conversationId)).messages;
    var after := Adopted(w.store, key, conversationId).threads[conversationId].messages;
    assert id !in Ids(draft);
    assert forall y :: y in draft ==> y.id != id;
    assert forall x: Message :: x.id == id ==> (x in after <==> x in target);
  }

  lemma AdoptionKeepsDraft(w: World, mid: World, key: ThreadKey, conversationId: ConversationId, k: ThreadKey)
    requires ThreadsConsistent(w.store) && IsAdoption(w, mid, key, conversationId)
    requires DraftOk(w, k) && AliasOk(w, k)
    ensures DraftOk(mid, k) && AliasOk(mid, k)
  {
  }

  lemma AdoptionKeepsStore(w: World, mid: World, key: ThreadKey, conversationId: ConversationId)
    requires Inv(w) && IsAdoption(w, mid, key, conversationId)
    ensures ThreadsConsistent(mid.store)
    ensures (forall k :: AliasOk(mid, k)) && (forall k :: DraftOk(mid, k)) && (forall x :: RowOk(mid, x))
  {
    StepKeepsThreadsConsistent(w.store, AdoptDraftThread(key, conversationId));
    forall k ensures AliasOk(mid, k) && DraftOk(mid, k) {
      assert AliasOk(w, k) && DraftOk(w, k);
      AdoptionKeepsDraft(w, mid, key, conversationId, k);
    }
    forall x ensures RowOk(mid, x) {
      assert RowOk(w, x) && DraftOk(w, key);
      assert x in w.sentBy ==> AliasOk(w, w.sentBy[x]);
      AdoptionKeepsRow(w, mid, key, conversationId, x);
    }
  }

  /** Confirming a send, or any action on a conversation's thread, given what it settles and reaches. */
  ghost predicate IsConversationStep(w: World, next: World, key: ThreadKey, action: ThreadAction) {
    !IsDraftKey(key) &&
    next.store == MessageStore.Step(w.store, OnThread(key, action)) &&
    next.sentBy == w.sentBy && next.creations == w.creations &&
    (action.Upsert? ==> action.message.sendState == None) &&
    (action.Patch? && action.patch.SetSending? ==> HasFailed(ThreadAt(w.store.threads, key), action.id)) &&
    (forall x :: x in next.unsettled ==> x in w.unsettled && !Settles(w, key, action, x)) &&
    (forall x :: x in next.confirmed ==> x in w.confirmed || Reaches(w, key, action, x))
  }

  lemma ConversationStepKeepsRow(w: World, next: World, key: ThreadKey, action: ThreadAction, x: MessageId)
    requires ThreadsConsistent(w.store) && IsConversationStep(w, next, key, action)
    requires RowOk(w, x)
    ensures RowOk(next, x)
  {
    var t := ThreadAt(w.store.threads, key);
    ThreadIsOk(w.store, key);
    OtherThreadsUntouched(w.store, key, action);
    if x in w.sentBy && LiveKey(w, x) == key {
      assert LiveThread(next, x) == Apply(t, action);
      if x in next.unsettled {
        PendingRowLeavesOnlyWhenSettled(t, action, x);
      }
      if x in next.confirmed {
        if Confirms(t, action, x) {
          ReachedIsNotPending(t, action, x);
        } else {
          ConfirmedRowNeverFails(t, action, x);
        }
      }
    } else if x in w.sentBy {
      assert LiveThread(next, x) == LiveThread(w, x);
    }
  }

  lemma ConversationStepKeepsStore(w: World, next: World, key: ThreadKey, action: ThreadAction)
    requires ThreadsConsistent(w.store) && IsConversationStep(w, next, key, action)
    requires (forall k :: AliasOk(w, k)) && (forall k :: DraftOk(w, k)) && (forall x :: RowOk(w, x))
    ensures ThreadsConsistent(next.store) && next.store.draftAliases == w.store.draftAliases
    ensures (forall k :: AliasOk(next, k)) && (forall k :: DraftOk(next, k)) && (forall x :: RowOk(next, x))
  {
    StepKeepsThreadsConsistent(w.store, OnThread(key, action));
    OtherThreadsUntouched(w.store, key, action);
    forall k ensures AliasOk(next, k) && DraftOk(next, k) {
      assert AliasOk(w, k) && DraftOk(w, k);
      if k != key {
        assert ThreadAt(next.store.threads, k) == ThreadAt(w.store.threads, k);
      }
    }
    forall x ensures RowOk(next, x) {
      assert RowOk(w, x);
      ConversationStepKeepsRow(w, next, key, action, x);
    }
  }

  ghost predicate StoreOk(w: World) {
    ThreadsConsistent(w.store) &&
    (forall k :: AliasOk(w, k)) && (forall k :: DraftOk(w, k)) && (forall x :: RowOk(w, x))
  }

  function AfterAdoption(w: World, key: ThreadKey, conversationId: ConversationId): World {
    w.(store := Adopted(w.store, key, conversationId),
       creations := w.creations[key := CreationsOf(w, key) + 1])
  }

  lemma ConfirmIsConversationStep(w: World, next: World, key: ThreadKey, echo: Message)
    requires !IsDraftKey(key) && echo.id in w.sentBy && LiveKey(w, echo.id) == key
    requires next.store == MessageStore.Step(w.store, OnThread(key, Confirm(echo)))
    requires next.sentBy == w.sentBy && next.creations == w.creations
    requires next.unsettled == w.unsettled - {echo.id} && next.confirmed == w.confirmed + {echo.id}
    ensures IsConversationStep(w, next, key, Confirm(echo))
  {
  }

  /** The request that created the conversation returns: adopt the draft, then confirm its row. */
  lemma CreationKeepsStore(w: World, i: nat, echo: Message)
    requires Inv(w) && Enabled(w, Succeed(i, echo)) && w.queues.jobs[i].phase.target == None
    ensures StoreOk(Next(w, Succeed(i, echo)))
  {
    var key := w.queues.jobs[i].key;
    assert JobOk(w, i) && AliasOk(w, key);
    var mid := AfterAdoption(w, key, echo.conversationId);
    AdoptionKeepsStore(w, mid, key, echo.conversationId);
    assert ResolveThreadKey(mid.store, key) == echo.conversationId;
    ConfirmIsConversationStep(mid, Next(w, Succeed(i, echo)), echo.conversationId, echo);
    ConversationStepKeepsStore(mid, Next(w, Succeed(i, echo)), echo.conversationId, Confirm(echo));
  }

  lemma AddressedDeliveryKeepsStore(w: World, i: nat, echo: Message)
    requires Inv(w) && Enabled(w, Succeed(i, echo)) && w.queues.jobs[i].phase.target != None
    ensures StoreOk(Next(w, Succeed(i, echo)))
  {
    var job := w.queues.jobs[i];
    assert JobOk(w, i) && AliasOk(w, job.key);
    var next := Next(w, Succeed(i, echo));
    var live := ResolveThreadKey(w.store, job.key);
    ConfirmIsConversationStep(w, next, live, echo);
    ConversationStepKeepsStore(w, next, live, Confirm(echo));
  }

  lemma AliasesAfterDelivery(w: World, i: nat, echo: Message)
    requires Inv(w) && Enabled(w, Succeed(i, echo))
    ensures var job := w.queues.jobs[i];
      Next(w, Succeed(i, echo)).store.draftAliases ==
        if job.phase.target == None then w.store.draftAliases[job.key := echo.conversationId]
        else w.store.draftAliases
  {
    var job := w.queues.jobs[i];
    if job.phase.target == None {
      OtherThreadsUntouched(Adopted(w.store, job.key, echo.conversationId), echo.conversationId, Confirm(echo));
    } else {
      OtherThreadsUntouched(w.store, ResolveThreadKey(w.store, job.key), Confirm(echo));
    }
  }

  lemma SucceedKeepsInv(w: World, i: nat, echo: Message)
    requires Inv(w) && Enabled(w, Succeed(i, echo))
    ensures Inv(Next(w, Succeed(i, echo)))
  {
    var next := Next(w, Succeed(i, echo));
    SettleKeepsQueuesOk(w.queues, i);
    if w.queues.jobs[i].phase.target == None {
      CreationKeepsStore(w, i, echo);
    } else {
      AddressedDeliveryKeepsStore(w, i, echo);
    }
    SucceedKeepsJobs(w, i, echo);
  }

  lemma SucceedKeepsJobs(w: World, i: nat, echo: Message)
    requires Inv(w) && Enabled(w, Succeed(i, echo))
    ensures var next := Next(w, Succeed(i, echo));
      forall j :: 0 <= j < |next.queues.jobs| ==> JobOk(next, j)
  {
    var next := Next(w, Succeed(i, echo));
    AliasesAfterDelivery(w, i, echo);
    OnlyOneInFlight(w.queues, i);
    forall j | 0 <= j < |next.queues.jobs| ensures JobOk(next, j) {
      assert JobOk(w, j);
    }
  }

  lemma OnlyOneInFlight(q: Queues, i: nat)
    requires QueuesOk(q) && i < |q.jobs| && q.jobs[i].phase.InFlight?
    ensures forall j :: 0 <= j < |q.jobs| && j != i && q.jobs[j].key == q.jobs[i].key ==> !q.jobs[j].phase.InFlight?
  {
  }

  lemma ElsewhereKeepsStore(w: World, action: StoreAction)
    requires Inv(w) && Enabled(w, Elsewhere(action))
    ensures var next := Next(w, Elsewhere(action));
      StoreOk(next) && next.store.draftAliases == w.store.draftAliases
  {
    var next := Next(w, Elsewhere(action));
    if action.OnThread? {
      assert IsConversationStep(w, next, action.key, action.action);
      ConversationStepKeepsStore(w, next, action.key, action.action);
    } else {
      InboxActionsLeaveThreads(w.store, action);
      SameThreadsKeepStore(w, next);
    }
  }

  lemma SameThreadsKeepStore(w: World, next: World)
    requires Inv(w)
    requires next.store.threads == w.store.threads && next.store.draftAliases == w.store.draftAliases
    requires next == w.(store := next.store)
    ensures StoreOk(next)
  {
    forall k ensures AliasOk(next, k) && DraftOk(next, k) {
      assert AliasOk(w, k) && DraftOk(w, k);
    }
    forall x ensures RowOk(next, x) {
      assert RowOk(w, x);
    }
  }

  lemma ElsewhereKeepsInv(w: World, action: StoreAction)
    requires Inv(w) && Enabled(w, Elsewhere(action))
    ensures Inv(Next(w, Elsewhere(action)))
  {
    var next := Next(w, Elsewhere(action));
    ElsewhereKeepsStore(w, action);
    forall j | 0 <= j < |next.queues.jobs| ensures JobOk(next, j) {
      assert JobOk(w, j);
    }
  }

  lemma StepKeepsInv(w: World, step: Step)
    requires Inv(w) && Enabled(w, step)
    ensures Inv(Next(w, step))
  {
    match step
    case Send(key, m) => SendKeepsInv(w, key, m);
    case SendDirect(key, m) => SendDirectKeepsInv(w, key, m);
    case Retry(key, id) => RetryKeepsInv(w, key, id);
    case Discard(key, id) => DiscardKeepsInv(w, key, id);
    case Start(i, hasRecipient) => StartKeepsInv(w, i, hasRecipient);
    case Succeed(i, echo) => SucceedKeepsInv(w, i, echo);
    case Fail(i) => FailKeepsInv(w, i);
    case Release(i) => ReleaseKeepsInv(w, i);
    case Elsewhere(action) => ElsewhereKeepsInv(w, action);
  }
}
