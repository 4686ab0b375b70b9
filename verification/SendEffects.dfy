/**
 * What each step of a send does to its row and its delivery, over every run
 * (farcaster-audio/hooks/useSendMessage.ts).
 */
module SendEffects {
  import opened Options
  import opened Messages
  import opened Threads
  import opened MessageStore
  import opened DraftQueue
  import opened SendSteps
  import opened SendMessage
  import opened ThreadEffects

  // ---------------------------------------------------------------------
  // Steps of a run
  // ---------------------------------------------------------------------

  lemma RunStep(worlds: seq<World>, steps: seq<Step>, n: nat)
    requires IsRun(worlds, steps) && n < |steps|
    ensures Inv(worlds[n]) && Inv(worlds[n+1])
    ensures Enabled(worlds[n], steps[n]) && worlds[n+1] == Next(worlds[n], steps[n])
  {
    EveryRunKeepsInv(worlds, steps, n);
    EveryRunKeepsInv(worlds, steps, n + 1);
  }

  /** The thread of a sent message before and after an action on its live key. */
  lemma ActionOnLiveThread(w: World, next: World, key: ThreadKey, action: ThreadAction, id: MessageId)
    requires next.store == OnLive(w.store, key, action)
    requires id in next.sentBy && next.sentBy[id] == key
    ensures LiveThread(next, id) == Apply(ThreadAt(w.store.threads, ResolveThreadKey(w.store, key)), action)
  {
    OtherThreadsUntouched(w.store, ResolveThreadKey(w.store, key), action);
  }

  /** A send shows its row, sending, and a draft's send queues one delivery behind the others. */
  lemma SendShowsItsRow(worlds: seq<World>, steps: seq<Step>, n: nat)
    requires IsRun(worlds, steps) && n < |steps| && (steps[n].Send? || steps[n].SendDirect?)
    ensures var w, next, m := worlds[n], worlds[n+1], steps[n].message;
      m.id in next.unsettled && m.id in next.sentBy && next.sentBy[m.id] == steps[n].key &&
      m.sendState == Some(Sending) && HoldsRow(LiveThread(next, m.id), m) &&
      if steps[n].Send? then
        |next.queues.jobs| == |w.queues.jobs| + 1 && next.queues.jobs[..|w.queues.jobs|] == w.queues.jobs &&
        next.queues.jobs[|w.queues.jobs|].id == m.id && next.queues.jobs[|w.queues.jobs|].key == steps[n].key &&
        next.queues.jobs[|w.queues.jobs|].phase == Waiting
      else next.queues == w.queues
  {
    RunStep(worlds, steps, n);
    var w, m, key := worlds[n], steps[n].message, steps[n].key;
    ThreadIsOk(w.store, ResolveThreadKey(w.store, key));
    UpsertShowsTheRow(ThreadAt(w.store.threads, ResolveThreadKey(w.store, key)), m);
    ActionOnLiveThread(w, worlds[n+1], key, Upsert(m), m.id);
  }

  /** A retry sets its failed row back to sending, changes nothing else of it, and queues a delivery again. */
  lemma RetryReopensItsRow(worlds: seq<World>, steps: seq<Step>, n: nat)
    requires IsRun(worlds, steps) && n < |steps| && steps[n].Retry?
    ensures var w, next, id := worlds[n], worlds[n+1], steps[n].id;
      id in w.sentBy && id in next.sentBy && HasFailed(LiveThread(w, id), id) &&
      (forall row | row in LiveThread(w, id).value.messages && row.id == id ::
        HoldsRow(LiveThread(next, id), row.(sendState := Some(Sending)))) &&
      |next.queues.jobs| == |w.queues.jobs| + 1 && next.queues.jobs[..|w.queues.jobs|] == w.queues.jobs &&
      next.queues.jobs[|w.queues.jobs|].id == id && next.queues.jobs[|w.queues.jobs|].key == steps[n].key &&
      next.queues.jobs[|w.queues.jobs|].phase == Waiting
  {
    RunStep(worlds, steps, n);
    var w, id, key := worlds[n], steps[n].id, steps[n].key;
    ThreadIsOk(w.store, LiveKey(w, id));
    ActionOnLiveThread(w, worlds[n+1], key, Patch(id, SetSending), id);
    forall row | row in LiveThread(w, id).value.messages && row.id == id
      ensures HoldsRow(LiveThread(worlds[n+1], id), row.(sendState := Some(Sending)))
    {
      RetryReopensTheRow(LiveThread(w, id), row);
    }
  }

  /** The delivery gives up: the request failed, or there is no conversation yet and no one to create it with. */
  predicate GivesUp(w: World, step: Step, i: nat) {
    i < |w.queues.jobs| &&
    (step == Fail(i) || (step == Start(i, false) && w.queues.jobs[i].key !in w.store.draftAliases))
  }

  /**
   * A delivery that gives up settles, so the next one may start; and if its
   * send is still unsettled, its row is now failed, otherwise unchanged, and
   * can be retried.
   */
  lemma FailedDeliveryIsRetriable(worlds: seq<World>, steps: seq<Step>, n: nat, i: nat)
    requires IsRun(worlds, steps) && n < |steps| && GivesUp(worlds[n], steps[n], i)
    ensures var w, next := worlds[n], worlds[n+1];
      var job := w.queues.jobs[i];
      next.unsettled == w.unsettled && next.queues == WithPhase(w.queues, i, Settled) &&
      (job.id in next.unsettled ==>
        job.id in w.sentBy && job.id in next.sentBy && LiveThread(w, job.id).Some? &&
        HasFailed(LiveThread(next, job.id), job.id) && Enabled(next, Retry(job.key, job.id)) &&
        forall row | row in LiveThread(w, job.id).value.messages && row.id == job.id ::
          HoldsRow(LiveThread(next, job.id), row.(sendState := Some(Failed))))
  {
    RunStep(worlds, steps, n);
    var w, next := worlds[n], worlds[n+1];
    var job := w.queues.jobs[i];
    assert JobOk(w, i) && AliasOk(w, job.key) && RowOk(w, job.id);
    if job.id in next.unsettled {
      ThreadIsOk(w.store, LiveKey(w, job.id));
      ActionOnLiveThread(w, next, job.key, MarkFailed(job.id), job.id);
      PendingRowFails(LiveThread(w, job.id), job.id);
    }
  }

  /** The error marks the one pending row of an id as failed. */
  lemma PendingRowFails(t: Option<ThreadState>, id: MessageId)
    requires ThreadOk(t) && HasPending(t, id)
    ensures var next := Apply(t, MarkFailed(id));
      HasFailed(next, id) &&
      forall row | row in t.value.messages && row.id == id :: HoldsRow(next, row.(sendState := Some(Failed)))
  {
    forall row | row in t.value.messages && row.id == id
      ensures HoldsRow(Apply(t, MarkFailed(id)), row.(sendState := Some(Failed)))
    {
      PendingRowIsTheOnlyOne(t, row);
      ErrorFailsTheRow(t, row);
    }
    var row :| row in t.value.messages && row.id == id;
    assert row.(sendState := Some(Failed)) in Apply(t, MarkFailed(id)).value.messages;
  }

  lemma PendingRowIsTheOnlyOne(t: Option<ThreadState>, row: Message)
    requires ThreadOk(t) && HasPending(t, row.id) && row in t.value.messages
    ensures row.sendState != None
  {
    var x :| x in t.value.messages && x.id == row.id && x.sendState != None;
    OneRowPerId(t.value.messages, x, row);
  }

  /** Any other start puts the request in flight, to the draft's conversation once there is one, and shows nothing. */
  lemma StartPutsItInFlight(worlds: seq<World>, steps: seq<Step>, n: nat)
    requires IsRun(worlds, steps) && n < |steps| && steps[n].Start? && !GivesUp(worlds[n], steps[n], steps[n].job)
    ensures var w, next, i := worlds[n], worlds[n+1], steps[n].job;
      i < |w.queues.jobs| && next.store == w.store && next.unsettled == w.unsettled &&
      next.queues == WithPhase(w.queues, i, InFlight(
        if w.queues.jobs[i].key in w.store.draftAliases then Some(w.store.draftAliases[w.queues.jobs[i].key])
        else None))
  {
    RunStep(worlds, steps, n);
    assert JobOk(worlds[n], steps[n].job) && AliasOk(worlds[n], worlds[n].queues.jobs[steps[n].job].key);
  }

  /**
   * A delivered send is confirmed by its echo: its row is a server copy under
   * the conversation the draft is known by from then on, the one the echo names
   * if this delivery created it.
   */
  lemma DeliveredSendIsConfirmed(worlds: seq<World>, steps: seq<Step>, n: nat)
    requires IsRun(worlds, steps) && n < |steps| && steps[n].Succeed?
    ensures var w, next, i, echo := worlds[n], worlds[n+1], steps[n].job, steps[n].echo;
      i < |w.queues.jobs| && next.queues == WithPhase(w.queues, i, Settled) &&
      var key := w.queues.jobs[i].key;
      key in next.store.draftAliases &&
      next.store.draftAliases[key]
        == (if key in w.store.draftAliases then w.store.draftAliases[key] else echo.conversationId) &&
      echo.id in next.sentBy && echo.id in next.confirmed && echo.id !in next.unsettled &&
      LiveKey(next, echo.id) == next.store.draftAliases[key] && HasConfirmed(LiveThread(next, echo.id), echo.id)
  {
    RunStep(worlds, steps, n);
    var w, next, i, echo := worlds[n], worlds[n+1], steps[n].job, steps[n].echo;
    var job := w.queues.jobs[i];
    assert JobOk(w, i) && AliasOk(w, job.key);
    if job.phase.target == None {
      var adopted := Adopted(w.store, job.key, echo.conversationId);
      AdoptionKeepsThreadsConsistent(w.store, job.key, echo.conversationId);
      EchoIsShown(adopted, echo.conversationId, echo);
      assert next.store.draftAliases == adopted.draftAliases by {
        OtherThreadsUntouched(adopted, echo.conversationId, Confirm(echo));
      }
    } else {
      var live := ResolveThreadKey(w.store, job.key);
      EchoIsShown(w.store, live, echo);
      OtherThreadsUntouched(w.store, live, Confirm(echo));
    }
  }

  lemma EchoIsShown(s: StoreState, key: ThreadKey, echo: Message)
    requires ThreadsConsistent(s)
    ensures HasConfirmed(ThreadAt(MessageStore.Step(s, OnThread(key, Confirm(echo))).threads, key), echo.id)
  {
    ThreadIsOk(s, key);
    var t := ThreadAt(s.threads, key);
    EchoConfirmsTheRow(t, echo);
    OtherThreadsUntouched(s, key, Confirm(echo));
    var row := MergeSendEcho(FindById(OrLocal(t).messages, echo.id), echo);
    assert row in Apply(t, Confirm(echo)).value.messages;
  }

  /** A discarded send has no row and is no longer waited for. */
  lemma DiscardDropsItsRow(worlds: seq<World>, steps: seq<Step>, n: nat)
    requires IsRun(worlds, steps) && n < |steps| && steps[n].Discard?
    ensures var w, next, id := worlds[n], worlds[n+1], steps[n].id;
      id in next.sentBy && HoldsNoRow(LiveThread(next, id), id) && id !in next.unsettled &&
      next.queues == w.queues
  {
    RunStep(worlds, steps, n);
    var w, id, key := worlds[n], steps[n].id, steps[n].key;
    ActionOnLiveThread(w, worlds[n+1], key, Remove(id), id);
    RemovalDropsTheRow(ThreadAt(w.store.threads, ResolveThreadKey(w.store, key)), id);
  }

  /** The queue forgets a settled delivery exactly while it is the last one of its draft; nothing else changes. */
  lemma ReleaseForgetsTheTail(worlds: seq<World>, steps: seq<Step>, n: nat)
    requires IsRun(worlds, steps) && n < |steps| && steps[n].Release?
    ensures var w, next, i := worlds[n], worlds[n+1], steps[n].job;
      i < |w.queues.jobs| && next == w.(queues := next.queues) && next.queues.jobs == w.queues.jobs &&
      var key := w.queues.jobs[i].key;
      if key in w.queues.tails && w.queues.tails[key] == i then next.queues.tails == w.queues.tails - {key}
      else next.queues.tails == w.queues.tails
  {
    RunStep(worlds, steps, n);
  }
}
