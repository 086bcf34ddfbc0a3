/** What consumers of the queue can rely on: what they are given, what an acknowledgement settles, and
    how long a delivery is theirs. */
module Deliveries {
  import opened Options
  import opened MessageQueue

  // ----- What is delivered is what came in -----

  /** The unchanging part of a message. */
  datatype Content = Content(payload: Payload, assignedNode: Option<Node>, maxRetries: int)

  /** What came in last under `id`, from a client or from another node. */
  function CameIn(events: seq<Event>, id: Id): Option<Content> {
    if events == [] then None
    else
      var before := CameIn(events[..|events| - 1], id);
      match events[|events| - 1]
      case Enqueued(i, payload, assignedNode) => if i == id then Some(Content(payload, assignedNode, 3)) else before
      case Replicated(m) => if m.id == id then Some(Content(m.payload, m.assignedNode, m.maxRetries)) else before
      case _ => before
  }

  predicate Has(m: Message, c: Content) {
    m.payload == c.payload && m.assignedNode == c.assignedNode && m.maxRetries == c.maxRetries
  }

  lemma ContentStep(q: Queue, e: Event, events: seq<Event>, id: Id)
    requires QueueInv(q) && Possible(q, e)
    requires id in q.current <==> CameIn(events, id).Some?
    requires id in q.current ==> Knows(q, id) && Has(MessageOf(q, id), CameIn(events, id).value)
    ensures var q', came := Next(q, e), CameIn(events + [e], id);
            && (id in q'.current <==> came.Some?)
            && (id in q'.current ==> Knows(q', id) && Has(MessageOf(q', id), came.value))
  {
    assert (events + [e])[..|events|] == events;
  }

  /** Over every run, the message under an identifier has the payload, the node and the retry limit
      that came in last for it. */
  lemma {:induction false} ContentAlways(events: seq<Event>, id: Id)
    requires After(events).Some?
    ensures var q := After(events).value.q;
            && (id in q.current <==> CameIn(events, id).Some?)
            && (id in q.current ==> Knows(q, id) && Has(MessageOf(q, id), CameIn(events, id).value))
  {
    hide QueueInv, Has, Next;
    if events != [] {
      var before, last := events[..|events| - 1], events[|events| - 1];
      ContentAlways(before, id);
      InvAlways(before);
      ContentStep(After(before).value.q, last, before, id);
      assert before + [last] == events;
    }
  }

  /** So a consumer is given the payload that came in last under the identifier at the head of the queue. */
  lemma DeliveredAsCameIn(events: seq<Event>)
    requires After(events).Some?
    ensures var q := After(events).value.q;
            if q.pending == [] then Delivered(q) == None
            else Delivered(q).Some? && Delivered(q).value.id == q.pending[0]
                 && CameIn(events, q.pending[0]).Some? && Has(Delivered(q).value, CameIn(events, q.pending[0]).value)
  {
    hide After;
    InvAlways(events);
    var q := After(events).value.q;
    if q.pending != [] { ContentAlways(events, q.pending[0]); }
  }

  // ----- Between two deliveries -----

  /** The event neither brings a new message under `id` nor delivers the one there is. */
  predicate Leaves(q: Queue, e: Event, id: Id) {
    match e
    case Enqueued(i, _, _) => i != id
    case Replicated(m) => m.id != id
    case Dequeued(_) => q.pending == [] || q.pending[0] != id
    case _ => true
  }

  ghost predicate LeavesFrom(events: seq<Event>, from: nat, id: Id) {
    forall j | from <= j < |events| :: After(events[..j]).Some? && Leaves(After(events[..j]).value.q, events[j], id)
  }

  /** A scan changes a message exactly if it has been processed for more than thirty seconds. */
  lemma VisitExactly(q: Queue, i: nat, now: real)
    requires i < |q.objects|
    ensures var m, q' := q.objects[i], Visit(q, i, now);
            if m.state == Processing && m.started.Some? && m.started.value != 0.0 && now > m.started.value + 30.0
            then q'.objects[i].retries == m.retries + 1
                 && (if m.retries + 1 < m.maxRetries
                     then q'.objects[i].state == Pending && q'.pending == q.pending + [m.id]
                     else q'.objects[i].state == DeadLetter && q'.pending == q.pending)
            else q' == q
  {
  }

  /** What is completed stays as it is. */
  lemma CompletedStep(q: Queue, e: Event, id: Id)
    requires QueueInv(q) && Possible(q, e) && Leaves(q, e, id) && id in q.current
    requires MessageOf(q, id).state == Completed
    ensures var q' := Next(q, e);
            && id in q'.current && q'.current[id] == q.current[id] && Knows(q', id)
            && MessageOf(q', id) == MessageOf(q, id)
  {
  }

  /** An acknowledgement completes a known message and changes nothing else. */
  lemma AckCompletes(q: Queue, id: Id)
    requires Knows(q, id)
    ensures var q' := Ack(q, id);
            && q'.current == q.current && q'.pending == q.pending && |q'.objects| == |q.objects|
            && q'.objects[q.current[id]] == q.objects[q.current[id]].(state := Completed)
            && forall i | 0 <= i < |q.objects| && i != q.current[id] :: q'.objects[i] == q.objects[i]
  {
  }

  /** The next event of a run, seen from the queue. */
  lemma NextQueue(events: seq<Event>)
    requires events != [] && After(events).Some?
    ensures var before, last := events[..|events| - 1], events[|events| - 1];
            && After(before).Some? && Possible(After(before).value.q, last)
            && After(events).value.q == Next(After(before).value.q, last)
  {
  }

  /** What was acknowledged stays completed: until it is delivered once more or replaced, no scan puts
      it back and nothing else changes it. */
  lemma {:induction false} AckedStays(events: seq<Event>, i: nat, id: Id)
    requires After(events).Some? && i < |events| && events[i] == Acked(id)
    requires After(events[..i]).Some? && id in After(events[..i]).value.q.current
    requires LeavesFrom(events, i + 1, id)
    ensures var q, q' := After(events[..i]).value.q, After(events).value.q;
            && Knows(q, id) && Knows(q', id) && q'.current[id] == q.current[id]
            && MessageOf(q', id) == MessageOf(q, id).(state := Completed)
  {
    hide After, Next, QueueInv, Ledger, Balanced, InOrder;
    var before := events[..|events| - 1];
    NextQueue(events);
    InvAlways(before);
    if i == |events| - 1 {
      KnowsCurrent(After(before).value.q, id);
      AckIs(After(before).value.q, id);
      AckCompletes(After(before).value.q, id);
    } else {
      assert before[..i] == events[..i] && before[i] == events[i];
      assert forall j | i + 1 <= j < |before| :: before[..j] == events[..j] && before[j] == events[j];
      AckedStays(before, i, id);
      CompletedStep(After(before).value.q, events[|events| - 1], id);
    }
  }

  lemma AckIs(q: Queue, id: Id)
    ensures Possible(q, Acked(id)) && Next(q, Acked(id)) == Ack(q, id)
  {
  }

  lemma KnowsCurrent(q: Queue, id: Id)
    requires QueueInv(q)
    ensures id in q.current ==> Knows(q, id)
  {
  }

  /** The message as it was delivered at `now`, or that and acknowledged. */
  predicate InHands(m: Message, given: Message, now: real) {
    m == given.(state := Processing, started := Some(now)) || m == given.(state := Completed, started := Some(now))
  }

  lemma InHandsStep(q: Queue, e: Event, id: Id, given: Message, now: real)
    requires QueueInv(q) && Possible(q, e) && Leaves(q, e, id) && id in q.current
    requires InHands(MessageOf(q, id), given, now) && (e.Visited? ==> e.now <= now + 30.0)
    ensures var q' := Next(q, e);
            && id in q'.current && q'.current[id] == q.current[id] && Knows(q', id)
            && InHands(MessageOf(q', id), given, now)
  {
  }

  lemma TakenInHands(q: Queue, now: real)
    requires QueueInv(q) && q.pending != []
    ensures var id, q' := q.pending[0], Dequeue(q, now);
            && Knows(q, id) && Knows(q', id) && q'.current == q.current && q'.pending == q.pending[1..]
            && InHands(MessageOf(q', id), MessageOf(q, id), now)
            && MessageOf(q', id).state == Processing
            && Delivered(q) == Some(MessageOf(q, id))
  {
  }

  /** A delivery is the consumer's for thirty seconds: until the message is delivered once more or
      replaced, and as long as no scan looks later than that, it is being processed since the
      delivery or completed, and is not put back. */
  lemma {:induction false} DeliveryIsKept(events: seq<Event>, i: nat, id: Id, now: real)
    requires After(events).Some? && i < |events| && events[i] == Dequeued(now) && After(events[..i]).Some?
    requires var q := After(events[..i]).value.q; q.pending != [] && q.pending[0] == id
    requires LeavesFrom(events, i + 1, id)
    requires forall j | i < j < |events| && events[j].Visited? :: events[j].now <= now + 30.0
    ensures var q, q' := After(events[..i]).value.q, After(events).value.q;
            && Knows(q, id) && Knows(q', id) && q'.current[id] == q.current[id]
            && InHands(MessageOf(q', id), MessageOf(q, id), now)
  {
    hide After, Next, QueueInv, Ledger, Balanced, InOrder;
    var before := events[..|events| - 1];
    NextQueue(events);
    InvAlways(before);
    if i == |events| - 1 {
      TakenInHands(After(before).value.q, now);
      DequeueIs(After(before).value.q, now);
    } else {
      assert before[..i] == events[..i] && before[i] == events[i];
      assert forall j | i + 1 <= j < |before| :: before[..j] == events[..j] && before[j] == events[j];
      DeliveryIsKept(before, i, id, now);
      InHandsStep(After(before).value.q, events[|events| - 1], id, MessageOf(After(events[..i]).value.q, id), now);
    }
  }

  lemma DequeueIs(q: Queue, now: real)
    requires Possible(q, Dequeued(now))
    ensures Next(q, Dequeued(now)) == Dequeue(q, now)
  {
  }
}
