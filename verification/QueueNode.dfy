/** `QueueNode` of src/nodes/queue_node.py with its message objects; every handler is proved to do
    what `MessageQueue` says. */
module QueueNode {
  import opened Options
  import opened MessageQueue
  import HashRing

  class QueueMessage {
    const id: Id
    const payload: Payload
    const assignedNode: Option<Node>
    const maxRetries: int
    var state: MessageState
    var retries: nat
    var started: Option<real>

    constructor (m: Message)
      ensures View() == m
    {
      id, payload, assignedNode, maxRetries := m.id, m.payload, m.assignedNode, m.maxRetries;
      state, retries, started := m.state, m.retries, m.started;
    }

    ghost function View(): Message
      reads this
    {
      Message(id, payload, assignedNode, state, retries, maxRetries, started)
    }
  }

  function Lesser(a: nat, b: nat): nat {
    if a <= b then a else b
  }

  /** `m` goes once to each of the peers in `peers[:k]`, in their order: to the first `k`, or with a
      negative `k` to all but the last `-k`. */
  predicate CopiedTo(sent: seq<(Node, Message)>, peers: seq<Node>, k: int, m: Message) {
    && |sent| == (if k >= 0 then Lesser(k, |peers|) else |peers| - Lesser(-k, |peers|))
    && forall i | 0 <= i < |sent| :: sent[i] == (peers[i], m)
  }

  class QueueNode {
    const hashRing: HashRing.ConsistentHashRing
    const peers: seq<Node>
    const replicationFactor: int
    var messages: map<Id, QueueMessage>
    var pendingQueue: seq<Id>
    /** Every message object made so far, and where in that list the current ones are. */
    ghost var objects: seq<QueueMessage>
    ghost var current: map<Id, nat>

    constructor (hashRing: HashRing.ConsistentHashRing, peers: seq<Node>, replicationFactor: int)
      ensures Valid() && View() == EMPTY
      ensures this.hashRing == hashRing && this.peers == peers && this.replicationFactor == replicationFactor
    {
      this.hashRing, this.peers, this.replicationFactor := hashRing, peers, replicationFactor;
      messages, pendingQueue, objects, current := map[], [], [], map[];
    }

    ghost predicate Valid()
      reads this
    {
      && (forall i, j | 0 <= i < j < |objects| :: objects[i] != objects[j])
      && messages.Keys == current.Keys
      && forall id | id in messages :: current[id] < |objects| && messages[id] == objects[current[id]]
    }

    ghost function View(): Queue
      reads this, objects
    {
      Queue(seq(|objects|, i requires 0 <= i < |objects| reads this, objects => objects[i].View()),
            current, pendingQueue)
    }

    ghost function Contents(): seq<Message>
      reads this, objects
    {
      View().objects
    }

    /** But for `msg`, every message object is as it was when the contents were `before`. */
    ghost predicate OthersAre(msg: QueueMessage, before: seq<Message>)
      reads this, objects
    {
      |before| == |objects| && forall i | 0 <= i < |objects| && objects[i] != msg :: objects[i].View() == before[i]
    }

    method Store(m: Message) returns (msg: QueueMessage)
      requires Valid()
      modifies this
      ensures Valid() && View() == Put(old(View()), m) && fresh(msg) && msg.View() == m
      ensures messages == old(messages)[m.id := msg]
      ensures pendingQueue == if m.state == Pending then old(pendingQueue) + [m.id] else old(pendingQueue)
      ensures |objects| == |old(objects)| + 1 && objects[..|old(objects)|] == old(objects)
              && fresh(objects[|old(objects)|])
    {
      msg := new QueueMessage(m);
      objects, current := objects + [msg], current[m.id := |objects|];
      messages := messages[m.id := msg];
      if m.state == Pending {
        pendingQueue := pendingQueue + [msg.id];
      }
    }

    /** A fresh message is assigned to the owner of its partition key, whose hash is `h`, and copied to
        the first peers. */
    method HandleEnqueue(id: Id, payload: Payload, h: nat)
      returns (assignedNode: Option<Node>, sent: seq<(Node, Message)>)
      requires Valid() && hashRing.Valid()
      modifies this
      ensures Valid() && View() == Put(old(View()), Fresh(id, payload, assignedNode))
      ensures assignedNode == None <==> hashRing.ring == map[]
      ensures assignedNode.Some? ==> HashRing.Owns(hashRing.ring, h, assignedNode.value)
      ensures CopiedTo(sent, peers, replicationFactor - 1, Message(id, payload, assignedNode, Pending, 0, 3, None))
      ensures id in messages && fresh(messages[id])
      ensures messages[id].View() == Message(id, payload, assignedNode, Pending, 0, 3, None)
      ensures pendingQueue == old(pendingQueue) + [id] && messages == old(messages)[id := messages[id]]
    {
      assignedNode := hashRing.GetNode(h);
      var msg := Store(Fresh(id, payload, assignedNode));
      sent := Replicate(msg);
    }

    method Replicate(msg: QueueMessage) returns (sent: seq<(Node, Message)>)
      ensures CopiedTo(sent, peers, replicationFactor - 1, msg.View())
    {
      var k := replicationFactor - 1;
      var copies := if k >= 0 then Lesser(k, |peers|) else |peers| - Lesser(-k, |peers|);
      var m := Message(msg.id, msg.payload, msg.assignedNode, msg.state, msg.retries, msg.maxRetries, msg.started);
      sent := [];
      for i := 0 to copies
        invariant |sent| == i && forall k | 0 <= k < i :: sent[k] == (peers[k], m)
      {
        sent := sent + [(peers[i], m)];
      }
    }

    method ReplicateEnqueue(m: Message)
      requires Valid()
      modifies this
      ensures Valid() && View() == Put(old(View()), m)
      ensures m.id in messages && fresh(messages[m.id]) && messages[m.id].View() == m
      ensures pendingQueue == if m.state == Pending then old(pendingQueue) + [m.id] else old(pendingQueue)
      ensures messages == old(messages)[m.id := messages[m.id]]
    {
      var _ := Store(m);
    }

    method HandleDequeue(now: real) returns (message: Option<Message>)
      requires Valid()
      modifies this`pendingQueue, objects
      ensures Valid() && View() == Dequeue(old(View()), now)
      ensures pendingQueue == if old(pendingQueue) == [] then [] else old(pendingQueue)[1..]
      ensures message.Some? <==> old(pendingQueue) != [] && old(pendingQueue)[0] in messages
      ensures message.Some? ==>
                var msg := messages[old(pendingQueue)[0]];
                && message.value == msg.View() == old(msg.View()).(state := Processing, started := Some(now))
                && OthersAre(msg, old(Contents()))
      ensures message.None? ==> Contents() == old(Contents())
    {
      if pendingQueue == [] {
        return None;
      }
      var id := pendingQueue[0];
      pendingQueue := pendingQueue[1..];
      if id !in messages {
        return None;
      }
      var msg := messages[id];
      msg.state := Processing;
      msg.started := Some(now);
      message := Some(Message(msg.id, msg.payload, msg.assignedNode,
                              msg.state, msg.retries, msg.maxRetries, msg.started));
    }

    method HandleAck(id: Id) returns (found: bool)
      requires Valid()
      modifies objects
      ensures Valid() && View() == Ack(old(View()), id) && found == (id in messages)
      ensures found ==> messages[id].View() == old(messages[id].View()).(state := Completed)
                        && OthersAre(messages[id], old(Contents()))
      ensures !found ==> Contents() == old(Contents())
    {
      found := id in messages;
      if found {
        messages[id].state := Completed;
      }
    }

    /** One turn of the timeout scan, at a message object that may have been replaced meanwhile. */
    method CheckTimeout(msg: QueueMessage, ghost i: nat, now: real)
      requires Valid() && i < |objects| && objects[i] == msg
      modifies this`pendingQueue, msg
      ensures Valid() && View() == Visit(old(View()), i, now) && OthersAre(msg, old(Contents()))
      ensures var m := old(msg.View());
              if !(m.state == Processing && m.started.Some? && m.started.value != 0.0 && now > m.started.value + 30.0)
              then msg.View() == m && pendingQueue == old(pendingQueue)
              else if m.retries + 1 < m.maxRetries
              then msg.View() == m.(retries := m.retries + 1, state := Pending, started := None)
                   && pendingQueue == old(pendingQueue) + [m.id]
              else msg.View() == m.(retries := m.retries + 1, state := DeadLetter) && pendingQueue == old(pendingQueue)
    {
      if msg.state == Processing && msg.started.Some? && msg.started.value != 0.0
         && now - msg.started.value > PROCESSING_TIMEOUT
      {
        msg.retries := msg.retries + 1;
        if msg.retries >= msg.maxRetries {
          msg.state := DeadLetter;
        } else {
          msg.state := Pending;
          msg.started := None;
          pendingQueue := pendingQueue + [msg.id];
        }
      }
    }

    /** A whole pass of the timeout loop with no other handler in between: each current message is
        visited once, in the order of the dictionary. */
    method ScanTimeouts(now: real) returns (ghost order: seq<nat>)
      requires Valid()
      modifies this`pendingQueue, objects
      ensures Valid() && |order| == |current| && forall id | id in current :: current[id] in order
      ensures InRange(order, |objects|) && View() == VisitAll(old(View()), order, now)
    {
      hide Visit, VisitAll, InRange, VisitedBut;
      order := [];
      VisitNone(View(), now);
      var todo := messages.Keys;
      VisitedAtFirst(current);
      while todo != {}
        invariant Valid() && todo <= messages.Keys && VisitedBut(current, todo, order)
        invariant InRange(order, |objects|) && View() == VisitAll(old(View()), order, now)
        decreases todo
      {
        var id :| id in todo;
        VisitOneMore(old(View()), order, current[id], now);
        VisitedOneMore(current, todo, order, id);
        CheckTimeout(messages[id], current[id], now);
        order := order + [current[id]];
        todo := todo - {id};
      }
      VisitedAll(current, order);
    }
  }

  /** The current messages of all identifiers but those in `todo` have been visited, each once. */
  ghost predicate VisitedBut(current: map<Id, nat>, todo: set<Id>, order: seq<nat>) {
    |order| + |todo| == |current| && forall id | id in current && id !in todo :: current[id] in order
  }

  lemma VisitedAtFirst(current: map<Id, nat>)
    ensures VisitedBut(current, current.Keys, [])
  {
    assert |current.Keys| == |current|;
  }

  lemma VisitedOneMore(current: map<Id, nat>, todo: set<Id>, order: seq<nat>, id: Id)
    requires VisitedBut(current, todo, order) && id in todo && id in current
    ensures VisitedBut(current, todo - {id}, order + [current[id]])
  {
  }

  lemma VisitedAll(current: map<Id, nat>, order: seq<nat>)
    requires VisitedBut(current, {}, order)
    ensures |order| == |current| && forall id | id in current :: current[id] in order
  {
  }

  predicate InRange(order: seq<nat>, n: nat) {
    forall k | 0 <= k < |order| :: order[k] < n
  }

  function VisitAll(q: Queue, order: seq<nat>, now: real): (r: Queue)
    requires InRange(order, |q.objects|)
    ensures |r.objects| == |q.objects| && r.current == q.current
  {
    if order == [] then q else Visit(VisitAll(q, order[..|order| - 1], now), order[|order| - 1], now)
  }

  lemma VisitNone(q: Queue, now: real)
    ensures InRange([], |q.objects|) && VisitAll(q, [], now) == q
  {
  }

  lemma VisitOneMore(q: Queue, order: seq<nat>, i: nat, now: real)
    requires i < |q.objects| && InRange(order, |q.objects|)
    ensures InRange(order + [i], |q.objects|) && VisitAll(q, order + [i], now) == Visit(VisitAll(q, order, now), i, now)
  {
    assert (order + [i])[..|order|] == order;
  }
}
