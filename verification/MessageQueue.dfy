/** The queue of src/nodes/queue_node.py as a value, and what each handler makes of it between two
    suspension points. A message object that a replica has replaced under its identifier stays in
    `objects`: a timeout scan that began earlier may still visit it. */
module MessageQueue {
  import opened Options

  type Id = string
  type Payload = string
  type Node = string

  datatype MessageState = Pending | Processing | Completed | Failed | DeadLetter

  datatype Message = Message(
    id: Id, payload: Payload, assignedNode: Option<Node>,
    state: MessageState, retries: nat, maxRetries: int, started: Option<real>)

  /** `objects` are the message objects in the order in which they were made, `current` the index of
      the one that `messages` holds under an identifier. */
  datatype Queue = Queue(objects: seq<Message>, current: map<Id, nat>, pending: seq<Id>)

  const EMPTY := Queue([], map[], [])
  const MAX_RETRIES := 3
  const PROCESSING_TIMEOUT := 30.0

  function Fresh(id: Id, payload: Payload, assignedNode: Option<Node>): Message {
    Message(id, payload, assignedNode, Pending, 0, MAX_RETRIES, None)
  }

  /** `_handle_enqueue` with a fresh message and `_replicate_enqueue` with the one it received. */
  function Put(q: Queue, m: Message): Queue {
    Queue(q.objects + [m], q.current[m.id := |q.objects|],
          if m.state == Pending then q.pending + [m.id] else q.pending)
  }

  predicate Knows(q: Queue, id: Id) {
    id in q.current && q.current[id] < |q.objects|
  }

  function MessageOf(q: Queue, id: Id): Message
    requires Knows(q, id)
  {
    q.objects[q.current[id]]
  }

  function WithMessage(q: Queue, id: Id, m: Message): Queue
    requires Knows(q, id)
  {
    q.(objects := q.objects[q.current[id] := m])
  }

  function Taken(m: Message, now: real): Message {
    m.(state := Processing, started := Some(now))
  }

  /** `_handle_dequeue`: takes the head of the queue; nothing is delivered if there is none. */
  function Dequeue(q: Queue, now: real): Queue {
    if q.pending == [] then q
    else if !Knows(q, q.pending[0]) then q.(pending := q.pending[1..])
    else WithMessage(q, q.pending[0], Taken(MessageOf(q, q.pending[0]), now)).(pending := q.pending[1..])
  }

  function Delivered(q: Queue): Option<Message> {
    if q.pending == [] || !Knows(q, q.pending[0]) then None else Some(MessageOf(q, q.pending[0]))
  }

  function Ack(q: Queue, id: Id): Queue {
    if Knows(q, id) then WithMessage(q, id, MessageOf(q, id).(state := Completed)) else q
  }

  /** A start time of zero is falsy in the original and never times out. */
  predicate Overdue(m: Message, now: real) {
    m.state == Processing && m.started.Some? && m.started.value != 0.0 && now - m.started.value > PROCESSING_TIMEOUT
  }

  function Retried(m: Message): Message {
    if m.retries + 1 >= m.maxRetries then m.(retries := m.retries + 1, state := DeadLetter)
    else m.(retries := m.retries + 1, state := Pending, started := None)
  }

  predicate Requeues(m: Message, now: real) {
    Overdue(m, now) && m.retries + 1 < m.maxRetries
  }

  /** One turn of the timeout scan. */
  function Visit(q: Queue, i: nat, now: real): Queue
    requires i < |q.objects|
  {
    var m := q.objects[i];
    if Overdue(m, now)
    then Queue(q.objects[i := Retried(m)], q.current, if Requeues(m, now) then q.pending + [m.id] else q.pending)
    else q
  }

  // ----- Runs -----

  datatype Event =
    | Enqueued(id: Id, payload: Payload, assignedNode: Option<Node>)
    | Replicated(m: Message)
    | Dequeued(now: real)
    | Acked(id: Id)
    | Visited(i: nat, now: real)

  /** A message being processed has a start time that can run out. */
  predicate CanExpire(m: Message) {
    m.state == Processing ==> m.started.Some? && m.started.value != 0.0
  }

  /** Clocks do not read zero, replicas come from nodes that keep `CanExpire`, and a scan visits
      message objects. */
  predicate Possible(q: Queue, e: Event) {
    match e
    case Replicated(m) => CanExpire(m)
    case Dequeued(now) => now != 0.0
    case Visited(i, now) => i < |q.objects|
    case _ => true
  }

  function Next(q: Queue, e: Event): Queue
    requires Possible(q, e)
  {
    match e
    case Enqueued(id, payload, assignedNode) => Put(q, Fresh(id, payload, assignedNode))
    case Replicated(m) => Put(q, m)
    case Dequeued(now) => Dequeue(q, now)
    case Acked(id) => Ack(q, id)
    case Visited(i, now) => Visit(q, i, now)
  }

  /** One account for each message object: whether it entered the queue when it was made, and how
      often a scan has put it back. */
  datatype Account = Account(id: Id, maxRetries: int, entered: bool, requeues: nat)

  /** A queue and what has happened to it: the identifiers that were appended to the queue, those
      that were delivered, both in order, and the accounts. */
  datatype World = World(q: Queue, entered: seq<Id>, delivered: seq<Id>, accounts: seq<Account>)

  /** The identifier an event appends to the queue, if any. */
  function Appends(q: Queue, e: Event): seq<Id>
    requires Possible(q, e)
  {
    match e
    case Enqueued(id, payload, assignedNode) => [id]
    case Replicated(m) => if m.state == Pending then [m.id] else []
    case Visited(i, now) => if Requeues(q.objects[i], now) then [q.objects[i].id] else []
    case _ => []
  }

  function Opened(m: Message): Account {
    Account(m.id, m.maxRetries, m.state == Pending, 0)
  }

  function Do(w: World, e: Event): World
    requires Possible(w.q, e) && |w.accounts| == |w.q.objects|
  {
    World(Next(w.q, e),
          w.entered + Appends(w.q, e),
          if e.Dequeued? && Delivered(w.q).Some? then w.delivered + [Delivered(w.q).value.id] else w.delivered,
          match e
          case Enqueued(id, payload, assignedNode) => w.accounts + [Opened(Fresh(id, payload, assignedNode))]
          case Replicated(m) => w.accounts + [Opened(m)]
          case Visited(i, now) =>
            var account := w.accounts[i];
            if Requeues(w.q.objects[i], now) then w.accounts[i := account.(requeues := account.requeues + 1)]
            else w.accounts
          case _ => w.accounts)
  }

  ghost function After(events: seq<Event>): Option<World> {
    if events == [] then Some(World(EMPTY, [], [], []))
    else
      var before, last := After(events[..|events| - 1]), events[|events| - 1];
      if before.Some? && |before.value.accounts| == |before.value.q.objects| && Possible(before.value.q, last)
      then Some(Do(before.value, last)) else None
  }

  // ----- Sums over accounts -----

  function Sum(s: seq<Account>, f: Account -> nat): nat {
    if s == [] then 0 else Sum(s[..|s| - 1], f) + f(s[|s| - 1])
  }

  lemma SumSnoc(s: seq<Account>, a: Account, f: Account -> nat)
    ensures Sum(s + [a], f) == Sum(s, f) + f(a)
  {
    assert (s + [a])[..|s|] == s;
  }

  lemma {:induction false} SumUpdate(s: seq<Account>, i: nat, a: Account, f: Account -> nat)
    requires i < |s|
    ensures Sum(s[i := a], f) == Sum(s, f) - f(s[i]) + f(a)
  {
    var front := s[..|s| - 1];
    if i == |s| - 1 {
      assert s[i := a][..|s| - 1] == front;
    } else {
      SumUpdate(front, i, a, f);
      assert s[i := a][..|s| - 1] == front[i := a];
    }
  }

  lemma {:induction false} SumAtMost(s: seq<Account>, f: Account -> nat, g: Account -> nat)
    requires forall i | 0 <= i < |s| :: f(s[i]) <= g(s[i])
    ensures Sum(s, f) <= Sum(s, g)
  {
    if s != [] { SumAtMost(s[..|s| - 1], f, g); }
  }

  /** How often `id` came in, from outside or back from a scan. */
  function Entries(id: Id): Account -> nat {
    (a: Account) => if a.id == id then (if a.entered then 1 else 0) + a.requeues else 0
  }

  function AtLeastOne(n: int): nat {
    if n < 1 then 1 else n
  }

  /** How often it may be delivered. */
  function Budget(id: Id): Account -> nat {
    (a: Account) => if a.id == id then AtLeastOne(a.maxRetries) else 0
  }

  // ----- The invariant -----

  ghost predicate AccountOk(a: Account, m: Message) {
    && a.id == m.id && a.maxRetries == m.maxRetries
    && a.requeues <= m.retries && (a.requeues > 0 ==> a.requeues < a.maxRetries)
  }

  ghost predicate QueueInv(q: Queue) {
    && (forall id | id in q.current :: Knows(q, id) && MessageOf(q, id).id == id)
    && (forall i | 0 <= i < |q.pending| :: q.pending[i] in q.current)
    && (forall id | id in q.current :: MessageOf(q, id).state == Pending ==> id in q.pending)
    && (forall i | 0 <= i < |q.objects| :: CanExpire(q.objects[i]) && q.objects[i].id in q.current)
  }

  ghost predicate Ledger(w: World) {
    |w.accounts| == |w.q.objects|
    && forall i | 0 <= i < |w.accounts| :: AccountOk(w.accounts[i], w.q.objects[i])
  }

  function Count(s: seq<Id>, id: Id): nat {
    multiset(s)[id]
  }

  /** The accounts agree with what was appended. */
  ghost predicate Balanced(w: World, id: Id) {
    Count(w.entered, id) == Sum(w.accounts, Entries(id))
  }

  /** First in, first out, nothing lost: what was appended has been delivered in that order, or
      still waits. */
  ghost predicate InOrder(w: World) {
    w.entered == w.delivered + w.q.pending
  }

  lemma QueueKept(q: Queue, e: Event)
    requires QueueInv(q) && Possible(q, e)
    ensures QueueInv(Next(q, e))
  {
    var q' := Next(q, e);
    match e
    case Enqueued(id, payload, assignedNode) => PutKept(q, Fresh(id, payload, assignedNode));
    case Replicated(m) => PutKept(q, m);
    case Dequeued(now) => DequeueKept(q, now);
    case Acked(id) =>
    case Visited(i, now) => VisitKept(q, i, now);
  }

  lemma PutKept(q: Queue, m: Message)
    requires QueueInv(q) && CanExpire(m)
    ensures QueueInv(Put(q, m))
  {
    var q' := Put(q, m);
    assert q.pending <= q'.pending;
    assert forall id | id in q.pending :: id in q'.pending;
    if m.state == Pending { assert q'.pending[|q.pending|] == m.id; }
  }

  lemma DequeueKept(q: Queue, now: real)
    requires QueueInv(q) && now != 0.0
    ensures QueueInv(Dequeue(q, now))
  {
    if q.pending != [] {
      assert q.pending == [q.pending[0]] + q.pending[1..];
    }
  }

  lemma VisitKept(q: Queue, i: nat, now: real)
    requires QueueInv(q) && i < |q.objects|
    ensures QueueInv(Visit(q, i, now))
  {
    var q' := Visit(q, i, now);
    assert q.pending <= q'.pending;
    assert forall id | id in q.pending :: id in q'.pending;
    if Requeues(q.objects[i], now) { assert q'.pending[|q.pending|] == q.objects[i].id; }
  }

  lemma LedgerKept(w: World, e: Event)
    requires Ledger(w) && Possible(w.q, e)
    ensures Ledger(Do(w, e))
  {
  }

  lemma PutBalance(w: World, m: Message, e: Event, id: Id)
    requires |w.accounts| == |w.q.objects| && Balanced(w, id) && Possible(w.q, e)
    requires e == Replicated(m) || (e.Enqueued? && m == Fresh(e.id, e.payload, e.assignedNode))
    ensures Balanced(Do(w, e), id)
  {
    hide Sum;
    SumSnoc(w.accounts, Opened(m), Entries(id));
  }

  lemma VisitBalance(w: World, i: nat, now: real, id: Id)
    requires Ledger(w) && i < |w.q.objects| && Balanced(w, id)
    ensures Balanced(Do(w, Visited(i, now)), id)
  {
    hide Sum;
    if Requeues(w.q.objects[i], now) {
      assert AccountOk(w.accounts[i], w.q.objects[i]);
      SumUpdate(w.accounts, i, w.accounts[i].(requeues := w.accounts[i].requeues + 1), Entries(id));
    }
  }

  lemma BalanceKept(w: World, e: Event, id: Id)
    requires Ledger(w) && Possible(w.q, e) && Balanced(w, id)
    ensures Balanced(Do(w, e), id)
  {
    hide Put, Dequeue, Visit, Requeues, Sum;
    match e
    case Enqueued(n, payload, assignedNode) => PutBalance(w, Fresh(n, payload, assignedNode), e, id);
    case Replicated(m) => PutBalance(w, m, e, id);
    case Visited(i, now) => VisitBalance(w, i, now, id);
    case _ => assert w.entered + [] == w.entered;
  }

  lemma OnlyAppends(q: Queue, e: Event)
    requires Possible(q, e) && !e.Dequeued?
    ensures Next(q, e).pending == q.pending + Appends(q, e)
  {
    assert q.pending + [] == q.pending;
  }

  lemma TakesHead(q: Queue, now: real)
    requires QueueInv(q) && q.pending != []
    ensures Delivered(q).Some? && q.pending == [Delivered(q).value.id] + Dequeue(q, now).pending
  {
    var head := q.pending[0];
    assert MessageOf(q, head).id == head;
  }

  lemma Regroup(a: seq<Id>, b: seq<Id>, c: seq<Id>)
    ensures a + (b + c) == (a + b) + c && a + [] == a
  {
  }

  lemma OrderKept(w: World, e: Event)
    requires |w.accounts| == |w.q.objects| && QueueInv(w.q) && Possible(w.q, e) && InOrder(w)
    ensures InOrder(Do(w, e))
  {
    hide QueueInv, Dequeue, Requeues, Put, Visit, Ack;
    if !e.Dequeued? {
      OnlyAppends(w.q, e);
      Regroup(w.delivered, w.q.pending, Appends(w.q, e));
    } else {
      Regroup(w.entered, [], []);
      if w.q.pending != [] {
        TakesHead(w.q, e.now);
        Regroup(w.delivered, [Delivered(w.q).value.id], Dequeue(w.q, e.now).pending);
      } else {
        NothingTaken(w.q, e.now);
      }
    }
  }

  lemma NothingTaken(q: Queue, now: real)
    requires q.pending == []
    ensures Dequeue(q, now) == q && Delivered(q) == None
  {
  }

  ghost predicate WorldInv(w: World) {
    Ledger(w) && QueueInv(w.q) && InOrder(w) && forall id :: Balanced(w, id)
  }

  lemma {:induction false} InvAlways(events: seq<Event>)
    requires After(events).Some?
    ensures WorldInv(After(events).value)
  {
    hide QueueInv, Ledger, Balanced, InOrder;
    if events == [] {
      NothingYet();
    } else {
      var before, last := events[..|events| - 1], events[|events| - 1];
      InvAlways(before);
      var w := After(before).value;
      QueueKept(w.q, last);
      LedgerKept(w, last);
      OrderKept(w, last);
      forall id ensures Balanced(After(events).value, id) { BalanceKept(w, last, id); }
    }
  }

  lemma NothingYet()
    ensures WorldInv(World(EMPTY, [], [], []))
  {
  }

  // ----- What follows -----

  /** Conservation, over every interleaving: what was appended to the queue has been delivered in
      that order or still waits; and for each identifier, its deliveries and its occurrences in the
      queue are its enqueues, the pending replicas of it, and the times it was put back. */
  lemma NothingLost(events: seq<Event>, id: Id)
    requires After(events).Some?
    ensures var w := After(events).value;
            && w.entered == w.delivered + w.q.pending
            && Count(w.q.pending, id) + Count(w.delivered, id) == Sum(w.accounts, Entries(id))
  {
    InvAlways(events);
    assert Balanced(After(events).value, id);
  }

  /** A message that waits is in the queue; one that is being processed times out in the end: a
      scan late enough puts it back or, after its last retry, gives it up. */
  lemma NothingStuck(events: seq<Event>, id: Id, now: real)
    requires After(events).Some? && id in After(events).value.q.current
    ensures var q := After(events).value.q;
            && Knows(q, id)
            && var m := MessageOf(q, id);
               && (m.state == Pending ==> id in q.pending)
               && (m.state == Processing ==> m.started.Some?)
               && (m.state == Processing && now > m.started.value + PROCESSING_TIMEOUT ==>
                     var m' := MessageOf(Visit(q, q.current[id], now), id);
                     (m'.state == Pending && id in Visit(q, q.current[id], now).pending)
                     || (m'.state == DeadLetter && m'.retries >= m'.maxRetries))
  {
    InvAlways(events);
    var q := After(events).value.q;
    assert CanExpire(q.objects[q.current[id]]);
  }

  /** Deliveries are bounded by the retries that the message objects of an identifier allow, at
      least one for each, however late its acknowledgements come. */
  lemma DeliveriesBounded(events: seq<Event>, id: Id)
    requires After(events).Some?
    ensures var w := After(events).value; Count(w.delivered, id) <= Sum(w.accounts, Budget(id))
  {
    InvAlways(events);
    var w := After(events).value;
    assert Balanced(w, id);
    forall i | 0 <= i < |w.accounts| ensures Entries(id)(w.accounts[i]) <= Budget(id)(w.accounts[i]) {
      assert AccountOk(w.accounts[i], w.q.objects[i]);
    }
    SumAtMost(w.accounts, Entries(id), Budget(id));
  }

  lemma {:induction false} SumOfOne(s: seq<Account>, f: Account -> nat, k: nat)
    requires k < |s| && forall i | 0 <= i < |s| && i != k :: f(s[i]) == 0
    ensures Sum(s, f) == f(s[k])
  {
    if k == |s| - 1 {
      SumOfNone(s[..k], f);
    } else {
      SumOfOne(s[..|s| - 1], f, k);
    }
  }

  lemma {:induction false} SumOfNone(s: seq<Account>, f: Account -> nat)
    requires forall i | 0 <= i < |s| :: f(s[i]) == 0
    ensures Sum(s, f) == 0
  {
    if s != [] { SumOfNone(s[..|s| - 1], f); }
  }

  /** An identifier that came in once is delivered at most `max(1, max_retries)` times. */
  lemma EnqueuedOnceDeliveredBoundedly(events: seq<Event>, k: nat)
    requires After(events).Some?
    requires var w := After(events).value;
             && k < |w.accounts| && |w.accounts| == |w.q.objects|
             && forall i | 0 <= i < |w.q.objects| && i != k :: w.q.objects[i].id != w.q.objects[k].id
    ensures var w := After(events).value;
            Count(w.delivered, w.q.objects[k].id) <= AtLeastOne(w.q.objects[k].maxRetries)
  {
    var w := After(events).value;
    var id := w.q.objects[k].id;
    InvAlways(events);
    assert forall i | 0 <= i < |w.accounts| :: AccountOk(w.accounts[i], w.q.objects[i]);
    DeliveriesBounded(events, id);
    SumOfOne(w.accounts, Budget(id), k);
  }
}
