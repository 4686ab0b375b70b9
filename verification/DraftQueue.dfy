/**
 * The per-draft promise chain that sends are delivered through
 * (farcaster-audio/hooks/useSendMessage.ts).
 */
module DraftQueue {
  import opened Options
  import opened Messages
  import opened Inbox
  import opened MessageStore

  /** One delivery's progress; `InFlight` carries the conversation it was addressed to. */
  datatype Phase = Waiting | InFlight(target: Option<ConversationId>) | Settled

  /** `previous` is the job whose promise this one was chained on (`None`: `Promise.resolve()`). */
  datatype Job = Job(key: ThreadKey, id: MessageId, previous: Option<nat>, phase: Phase)

  /** `draftSendQueues` (`tails`), and every promise ever chained (`jobs`). */
  datatype Queues = Queues(jobs: seq<Job>, tails: map<ThreadKey, nat>)

  function Enqueued(q: Queues, key: ThreadKey, id: MessageId): Queues {
    var previous := if key in q.tails then Some(q.tails[key]) else None;
    Queues(q.jobs + [Job(key, id, previous, Waiting)], q.tails[key := |q.jobs|])
  }

  /** `tail.then(() => { if (get(key) === tail) delete(key) })`, once job `i` has settled. */
  function Released(q: Queues, i: nat): Queues
    requires i < |q.jobs|
  {
    var key := q.jobs[i].key;
    if key in q.tails && q.tails[key] == i then q.(tails := q.tails - {key}) else q
  }

  /** `previous.then(task, task)`: a job runs once its predecessor settled either way. */
  predicate CanStart(q: Queues, i: nat) {
    i < |q.jobs| && q.jobs[i].phase == Waiting &&
    (q.jobs[i].previous.Some? ==>
      q.jobs[i].previous.value < |q.jobs| && q.jobs[q.jobs[i].previous.value].phase == Settled)
  }

  function WithPhase(q: Queues, i: nat, phase: Phase): Queues
    requires i < |q.jobs|
  {
    q.(jobs := q.jobs[i := q.jobs[i].(phase := phase)])
  }

  /** The module-level map and its promise chains, updated in place. */
  class DraftSendQueues {
    var jobs: seq<Job>
    var tails: map<ThreadKey, nat>

    function Contents(): Queues
      reads this
    {
      Queues(jobs, tails)
    }

    constructor ()
      ensures Contents() == Queues([], map[])
    {
      jobs, tails := [], map[];
    }

    method Enqueue(key: ThreadKey, id: MessageId) returns (run: nat)
      modifies this
      ensures Contents() == Enqueued(old(Contents()), key, id)
      ensures run == |old(jobs)|
    {
      var previous := None;
      if key in tails {
        previous := Some(tails[key]);
      }
      run := |jobs|;
      jobs := jobs + [Job(key, id, previous, Waiting)];
      tails := tails[key := run];
    }

    method Release(i: nat)
      requires i < |jobs|
      modifies this
      ensures Contents() == Released(old(Contents()), i)
    {
      var key := jobs[i].key;
      if key in tails && tails[key] == i {
        tails := tails - {key};
      }
    }
  }

  /** Per key: started jobs only ever follow settled ones, and the tail is the last unsettled candidate. */
  ghost predicate QueuesOk(q: Queues) {
    (forall i, j :: 0 <= j < i < |q.jobs| && q.jobs[i].key == q.jobs[j].key && q.jobs[i].phase != Waiting
      ==> q.jobs[j].phase == Settled) &&
    (forall key :: key in q.tails ==> q.tails[key] < |q.jobs| && q.jobs[q.tails[key]].key == key) &&
    (forall key, j :: key in q.tails && q.tails[key] < j < |q.jobs| ==> q.jobs[j].key != key) &&
    (forall j :: 0 <= j < |q.jobs| && q.jobs[j].key !in q.tails ==> q.jobs[j].phase == Settled) &&
    (forall i :: 0 <= i < |q.jobs| ==> LinkOk(q, i))
  }

  /** A job hangs off the previous job of its key, or off nothing when all of those had settled. */
  ghost predicate LinkOk(q: Queues, i: nat)
    requires i < |q.jobs|
  {
    var job := q.jobs[i];
    match job.previous
    case None => forall j :: 0 <= j < i && q.jobs[j].key == job.key ==> q.jobs[j].phase == Settled
    case Some(p) =>
      p < i && q.jobs[p].key == job.key &&
      forall j :: p < j < i ==> q.jobs[j].key != job.key
  }

  lemma EnqueueKeepsQueuesOk(q: Queues, key: ThreadKey, id: MessageId)
    requires QueuesOk(q)
    ensures QueuesOk(Enqueued(q, key, id))
  {
    var next := Enqueued(q, key, id);
    forall i | 0 <= i < |next.jobs| ensures LinkOk(next, i) {
      if i < |q.jobs| {
        assert LinkOk(q, i);
      }
    }
  }

  lemma StartKeepsQueuesOk(q: Queues, i: nat, phase: Phase)
    requires QueuesOk(q) && CanStart(q, i) && phase != Waiting
    ensures QueuesOk(WithPhase(q, i, phase))
    ensures forall j :: 0 <= j < |q.jobs| && j != i && q.jobs[j].key == q.jobs[i].key ==> !q.jobs[j].phase.InFlight?
  {
    assert LinkOk(q, i);
    forall j | 0 <= j < i && q.jobs[j].key == q.jobs[i].key ensures q.jobs[j].phase == Settled {
      if q.jobs[i].previous.Some? && j < q.jobs[i].previous.value {
        assert q.jobs[q.jobs[i].previous.value].phase != Waiting;
      }
    }
    PhaseKeepsLinks(q, i, phase);
  }

  lemma SettleKeepsQueuesOk(q: Queues, i: nat)
    requires QueuesOk(q) && i < |q.jobs| && q.jobs[i].phase.InFlight?
    ensures QueuesOk(WithPhase(q, i, Settled))
  {
    PhaseKeepsLinks(q, i, Settled);
  }

  lemma PhaseKeepsLinks(q: Queues, i: nat, phase: Phase)
    requires QueuesOk(q) && i < |q.jobs| && q.jobs[i].phase != Settled
    ensures forall j :: 0 <= j < |q.jobs| ==> LinkOk(WithPhase(q, i, phase), j)
  {
    forall j | 0 <= j < |q.jobs| ensures LinkOk(WithPhase(q, i, phase), j) {
      assert LinkOk(q, j);
    }
  }

  lemma ReleaseKeepsQueuesOk(q: Queues, i: nat)
    requires QueuesOk(q) && i < |q.jobs| && q.jobs[i].phase == Settled
    ensures QueuesOk(Released(q, i))
  {
    var next := Released(q, i);
    forall j | 0 <= j < |next.jobs| ensures LinkOk(next, j) {
      assert LinkOk(q, j);
    }
  }

  /** A job can start only once every earlier job of its key has settled. */
  lemma StartsAfterEarlierSettled(q: Queues, i: nat, j: nat)
    requires QueuesOk(q) && CanStart(q, j)
    requires i < j && q.jobs[i].key == q.jobs[j].key
    ensures q.jobs[i].phase == Settled
  {
    assert LinkOk(q, j);
    if q.jobs[j].previous.Some? && i < q.jobs[j].previous.value {
      assert q.jobs[q.jobs[j].previous.value].phase != Waiting;
    }
  }

  /** The first unsettled job of a draft is in flight or may start. */
  lemma FirstUnsettledGoesOn(q: Queues, i: nat)
    requires QueuesOk(q) && i < |q.jobs| && q.jobs[i].phase != Settled
    requires forall j :: 0 <= j < i && q.jobs[j].key == q.jobs[i].key ==> q.jobs[j].phase == Settled
    ensures q.jobs[i].phase.InFlight? || CanStart(q, i)
  {
    assert LinkOk(q, i);
  }
}
