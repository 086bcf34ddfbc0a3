/** What the cycles of the wait-for graph say about the locks. */
module Deadlocks {
  import opened Options
  import opened Commands
  import opened LockTable
  import opened LockSafety
  import opened Sequences
  import opened WaitGraph

  /** The clients in the list wait for one another in a ring of locks held now. */
  ghost predicate CircularWait(t: Table, ring: seq<Client>) {
    && ring != [] && Distinct(ring)
    && (forall i | 0 <= i < |ring| - 1 :: WaitsFor(t, ring[i], ring[i + 1]))
    && WaitsFor(t, ring[|ring| - 1], ring[0])
  }

  lemma CyclesAreReal(t: Table, ring: seq<Client>)
    requires EdgesReal(t) && SimpleCycle(t.waitFor, ring)
    ensures CircularWait(t, ring)
  {
    hide WaitsFor;
    forall i | 0 <= i < |ring| - 1 ensures WaitsFor(t, ring[i], ring[i + 1]) {
      assert ring[i + 1] in WaitsOf(t.waitFor, ring[i]);
    }
  }

  /** No false deadlock: after any run of commands and expiry passes, every simple cycle of the
      wait-for graph, and so every list a search of it reports, is a real circular wait. */
  lemma {:induction false} NoFalseDeadlock(lease: real, events: seq<Event>, ring: seq<Client>)
    requires SimpleCycle(After(lease, EMPTY, events).waitFor, ring)
    ensures CircularWait(After(lease, EMPTY, events), ring)
  {
    hide SimpleCycle, CircularWait, EdgesReal;
    EdgesAlwaysReal(lease, events);
    CyclesAreReal(After(lease, EMPTY, events), ring);
  }

  // ----- When every wait is in the graph -----

  /** Every wait of one client on another is an edge. */
  ghost predicate EdgesComplete(t: Table) {
    forall w, h | w != h && WaitsFor(t, w, h) :: h in WaitsOf(t.waitFor, w)
  }

  /** The clients whose edges an event removes. */
  function Dropped(t: Table, e: Event): set<Client> {
    match e
    case Commit(Acquire(r, client, mode, _), _) => if Queues(LockOf(t, r), mode) then {} else {client}
    case Commit(Release(r, client), _) => if r in t.locks then Released(t.locks[r], {client}) else {}
    case Commit(Other, _) => {}
    case Sweep(now, _) => SweptClients(t, now, t.locks.Keys)
  }

  /** No client that loses its edges still waits for another, or is still waited for, afterwards. */
  ghost predicate DropsNoWait(lease: real, t: Table, e: Event) {
    forall w, h | w != h && WaitsFor(Next(lease, t, e), w, h) :: w !in Dropped(t, e) && h !in Dropped(t, e)
  }

  /** An event changes edges only by dropping clients, and by the one wait that it queues. */
  lemma EdgesAfter(lease: real, t: Table, e: Event, w: Client, h: Client)
    ensures w in Dropped(t, e) || h in Dropped(t, e) ==> h !in WaitsOf(Next(lease, t, e).waitFor, w)
    ensures w !in Dropped(t, e) && h !in Dropped(t, e) && h in WaitsOf(t.waitFor, w) ==>
              h in WaitsOf(Next(lease, t, e).waitFor, w)
  {
  }

  lemma VacatedWait(lock: Lock, gone: set<Client>, expiry: real, w: Client, h: Client)
    requires Queued(Vacated(lock, gone, expiry), w) && h in Vacated(lock, gone, expiry).holders
    requires h !in Released(lock, gone)
    ensures Queued(lock, w) && h in lock.holders
  {
  }

  lemma AcquiredWait(lock: Lock, client: Client, mode: Mode, asked: real, now: real, w: Client, h: Client)
    requires var lock' := Acquired(lock, client, mode, asked, now); Queued(lock', w) && h in lock'.holders
    requires !Queues(lock, mode) ==> h != client
    ensures h in lock.holders && (Queued(lock, w) || (Queues(lock, mode) && w == client))
  {
    var lock' := Acquired(lock, client, mode, asked, now);
    var i :| 0 <= i < |lock'.waiting| && lock'.waiting[i].client == w;
    if i < |lock.waiting| { assert lock.waiting[i].client == w; }
  }

  lemma SweptMember(t: Table, now: real, r: Resource, h: Client)
    ensures r in t.locks && Lapsed(t.locks[r], now) && h in Released(t.locks[r], t.locks[r].holders) ==>
              h in SweptClients(t, now, t.locks.Keys)
  {
  }

  /** A wait between clients that keep their edges was there before, or is the one being queued. */
  lemma WaitWasThere(lease: real, t: Table, e: Event, w: Client, h: Client)
    requires w != h && WaitsFor(Next(lease, t, e), w, h) && w !in Dropped(t, e) && h !in Dropped(t, e)
    ensures WaitsFor(t, w, h) || h in WaitsOf(Next(lease, t, e).waitFor, w)
  {
    hide Queued, Acquired, Vacated, Released, Lapsed, Queues, SweptClients, RemoveClients;
    var t' := Next(lease, t, e);
    var r :| r in t'.locks && Queued(t'.locks[r], w) && h in t'.locks[r].holders;
    NobodyWaits(h);
    match e
    case Commit(Acquire(q, client, mode, asked), now) =>
      if q == r { AcquiredWait(LockOf(t, r), client, mode, LeaseOf(lease, asked), now, w, h); }
    case Commit(Release(q, client), now) =>
      if q == r && r in t.locks { VacatedWait(t.locks[r], {client}, now + lease, w, h); }
    case Commit(Other, _) =>
    case Sweep(now, clock) =>
      SweptMember(t, now, r, h);
      if Lapsed(t.locks[r], now) { VacatedWait(t.locks[r], t.locks[r].holders, clock(r) + lease, w, h); }
  }

  lemma NobodyWaits(h: Client)
    ensures h !in UNUSED.holders
  {
  }

  /** Exactly when an event keeps every wait in the graph: if it drops no client that still waits
      for another or is waited for. */
  lemma EdgesStayCompleteExactly(lease: real, t: Table, e: Event)
    requires EdgesComplete(t)
    ensures EdgesComplete(Next(lease, t, e)) <==> DropsNoWait(lease, t, e)
  {
    hide WaitsFor, Next, Dropped, WaitsOf;
    var t' := Next(lease, t, e);
    forall w, h | w != h && WaitsFor(t', w, h)
      ensures h in WaitsOf(t'.waitFor, w) <==> w !in Dropped(t, e) && h !in Dropped(t, e)
    {
      EdgesAfter(lease, t, e, w, h);
      if w !in Dropped(t, e) && h !in Dropped(t, e) { WaitWasThere(lease, t, e, w, h); }
    }
  }

  /** Over a run, no event drops a client that still waits or is waited for. */
  ghost predicate NeverDropsWait(lease: real, events: seq<Event>) {
    |events| == 0 ||
    var before, last := events[..|events| - 1], events[|events| - 1];
    NeverDropsWait(lease, before) && DropsNoWait(lease, After(lease, EMPTY, before), last)
  }

  ghost predicate CompleteThroughout(lease: real, events: seq<Event>) {
    forall m | 0 <= m <= |events| :: EdgesComplete(After(lease, EMPTY, events[..m]))
  }

  /** The graph holds every wait throughout a run exactly if no event of the run drops one. */
  lemma {:induction false} CompleteThroughoutExactly(lease: real, events: seq<Event>)
    ensures CompleteThroughout(lease, events) <==> NeverDropsWait(lease, events)
  {
    hide EdgesComplete, DropsNoWait, Next;
    if |events| == 0 {
      CompleteAtFirst(lease, events[..0]);
    } else {
      var before, last := events[..|events| - 1], events[|events| - 1];
      CompleteThroughoutExactly(lease, before);
      assert forall m | 0 <= m <= |before| :: before[..m] == events[..m];
      assert events[..|events|] == events;
      if EdgesComplete(After(lease, EMPTY, before)) {
        EdgesStayCompleteExactly(lease, After(lease, EMPTY, before), last);
      }
      assert CompleteThroughout(lease, events) ==> EdgesComplete(After(lease, EMPTY, events[..|before|]));
      assert CompleteThroughout(lease, before) ==> EdgesComplete(After(lease, EMPTY, before[..|before|]));
      assert before[..|before|] == before;
      forall m | 0 <= m <= |events|
        ensures CompleteThroughout(lease, before) && EdgesComplete(After(lease, EMPTY, events)) ==>
                  EdgesComplete(After(lease, EMPTY, events[..m]))
      {
        if m < |events| { assert events[..m] == before[..m]; }
      }
    }
  }

  lemma CompleteAtFirst(lease: real, events: seq<Event>)
    requires |events| == 0
    ensures EdgesComplete(After(lease, EMPTY, events))
  {
  }

  /** With every wait in the graph, the rings of two or more clients that wait for one another are
      exactly its simple cycles of that length. */
  lemma CircularWaitsAreCycles(t: Table, ring: seq<Client>)
    requires EdgesReal(t) && EdgesComplete(t) && |ring| >= 2
    ensures CircularWait(t, ring) <==> SimpleCycle(t.waitFor, ring)
  {
    hide WaitsFor, WaitsOf;
    if CircularWait(t, ring) {
      forall i | 0 <= i < |ring| - 1 ensures ring[i + 1] in WaitsOf(t.waitFor, ring[i]) {
        assert ring[i] != ring[i + 1] && WaitsFor(t, ring[i], ring[i + 1]);
      }
      assert ring[|ring| - 1] != ring[0];
    }
    if SimpleCycle(t.waitFor, ring) { CyclesAreReal(t, ring); }
  }

  /** Every deadlock is noticed if no wait was dropped: a search reports some list, and the closing
      edge of one of the reported lists lies on the ring. */
  lemma DeadlocksNoticed(
    lease: real, events: seq<Event>, ring: seq<Client>, cycles: seq<seq<Client>>, parent: map<Client, Client>)
    requires NeverDropsWait(lease, events) && SearchResult(After(lease, EMPTY, events).waitFor, cycles, parent)
    requires |ring| >= 2 && CircularWait(After(lease, EMPTY, events), ring)
    ensures cycles != [] && exists e :: e in Closing(cycles) && UsesEdge(ring, e)
  {
    hide NeverDropsWait, EdgesComplete, EdgesReal, CircularWait, After, SearchResult, SimpleCycle, Closing, UsesEdge;
    var t := After(lease, EMPTY, events);
    EdgesAlwaysReal(lease, events);
    CompleteThroughoutExactly(lease, events);
    assert events[..|events|] == events;
    assert EdgesComplete(t);
    CircularWaitsAreCycles(t, ring);
    SomethingReported(t.waitFor, cycles, parent, ring);
  }

  // ----- Runs that leave a deadlock out of the graph -----

  /** Two clients that hold one resource each and ask for the other's; then the first releases what
      it does not hold. */
  function Quarrel(a: Client, b: Client, p: Resource, q: Resource): seq<Event> {
    [Commit(Acquire(p, a, Exclusive, Some(1.0)), 1.0), Commit(Acquire(q, b, Exclusive, Some(1.0)), 1.0),
     Commit(Acquire(q, a, Exclusive, Some(1.0)), 1.0), Commit(Acquire(p, b, Exclusive, Some(1.0)), 1.0),
     Commit(Release(q, a), 1.0)]
  }

  lemma AfterLast(lease: real, events: seq<Event>, some: seq<Event>, e: Event)
    requires events == some + [e]
    ensures After(lease, EMPTY, events) == Next(lease, After(lease, EMPTY, some), e)
  {
    assert events[..|events| - 1] == some;
  }

  lemma AfterNone(lease: real)
    ensures After(lease, EMPTY, []) == EMPTY
  {
  }

  lemma NothingHeld()
    ensures EMPTY == Table(map[], map[])
  {
  }

  lemma FirstHold(t: Table, r: Resource, client: Client)
    requires r !in t.locks && t.waitFor == map[]
    ensures DoAcquire(t, r, client, Exclusive, 1.0, 1.0)
         == Table(t.locks[r := Lock(Some(Exclusive), {client}, [], 1, 2.0)], map[])
  {
  }

  lemma QueueUp(t: Table, r: Resource, holder: Client, client: Client)
    requires r in t.locks && t.locks[r].lockType == Some(Exclusive) && t.locks[r].holders == {holder}
    requires client !in t.waitFor
    ensures DoAcquire(t, r, client, Exclusive, 1.0, 1.0)
         == Table(t.locks[r := t.locks[r].(waiting := t.locks[r].waiting + [Request(client, Exclusive, 1.0)])],
                  t.waitFor[client := {holder} - {client}])
  {
    assert Acquired(t.locks[r], client, Exclusive, 1.0, 1.0)
        == t.locks[r].(waiting := t.locks[r].waiting + [Request(client, Exclusive, 1.0)]);
    assert WaitsOf(t.waitFor, client) + ({holder} - {client}) == {holder} - {client};
  }

  lemma ReleaseElsewhere(t: Table, r: Resource, holder: Client, client: Client)
    requires r in t.locks && t.locks[r].holders == {holder} && client != holder
    requires t.waitFor == map[client := {holder}, holder := {client}]
    ensures DoRelease(t, r, client, 2.0) == Table(t.locks, map[holder := {}])
  {
    assert {holder} - {client} == {holder} && {client} - {client} == {};
    assert Vacated(t.locks[r], {client}, 2.0) == t.locks[r];
    assert Released(t.locks[r], {client}) == {client};
    assert t.locks[r := t.locks[r]] == t.locks;
  }

  lemma BothWait(a: Client, b: Client, p: Resource, q: Resource)
    requires a != b && p != q
    ensures After(1.0, EMPTY, Quarrel(a, b, p, q)[..4])
         == Table(map[p := Lock(Some(Exclusive), {a}, [Request(b, Exclusive, 1.0)], 1, 2.0),
                      q := Lock(Some(Exclusive), {b}, [Request(a, Exclusive, 1.0)], 1, 2.0)],
                  map[a := {b}, b := {a}])
  {
    hide DoAcquire, DoRelease, After, EMPTY;
    var events := Quarrel(a, b, p, q);
    AfterNone(1.0);
    AfterLast(1.0, events[..1], [], events[0]);
    AfterLast(1.0, events[..2], events[..1], events[1]);
    AfterLast(1.0, events[..3], events[..2], events[2]);
    AfterLast(1.0, events[..4], events[..3], events[3]);
    var heldP, heldQ := Lock(Some(Exclusive), {a}, [], 1, 2.0), Lock(Some(Exclusive), {b}, [], 1, 2.0);
    var t2 := Table(map[p := heldP, q := heldQ], map[]);
    var t3 := Table(map[p := heldP, q := heldQ.(waiting := [Request(a, Exclusive, 1.0)])], map[a := {b}]);
    assert {b} - {a} == {b} && {a} - {b} == {a};
    assert [] + [Request(a, Exclusive, 1.0)] == [Request(a, Exclusive, 1.0)];
    assert [] + [Request(b, Exclusive, 1.0)] == [Request(b, Exclusive, 1.0)];
    NothingHeld();
    FirstHold(EMPTY, p, a);
    FirstHold(Table(map[p := heldP], map[]), q, b);
    QueueUp(t2, q, b, a);
    QueueUp(t3, p, a, b);
    assert After(1.0, EMPTY, events[..1]) == Table(map[p := heldP], map[]);
    assert After(1.0, EMPTY, events[..2]) == t2;
    assert After(1.0, EMPTY, events[..3]) == t3;
  }

  /** The condition can fail: a deadlock can leave no cycle in the graph, because releasing any
      resource drops the edges of a client for every resource it still waits for. */
  lemma DeadlockUnseen(a: Client, b: Client, p: Resource, q: Resource)
    requires a != b && p != q
    ensures var t := After(1.0, EMPTY, Quarrel(a, b, p, q));
            CircularWait(t, [a, b]) && Acyclic(t.waitFor)
  {
    hide DoAcquire, DoRelease, After, CircularWait, Acyclic, EMPTY;
    var events := Quarrel(a, b, p, q);
    BothWait(a, b, p, q);
    AfterLast(1.0, events, events[..4], events[4]);
    var t4 := After(1.0, EMPTY, events[..4]);
    ReleaseElsewhere(t4, q, b, a);
    assert After(1.0, EMPTY, events) == Table(t4.locks, map[b := {}]);
    RingOfTwo(After(1.0, EMPTY, events), a, b, q, p);
    DeadEnd(map[b := {}], b, a);
  }

  /** A client that holds `q` and a second one queue for `p`; its holder leaves, the first in line is
      promoted, and then asks for `q`. */
  function Succession(a: Client, b: Client, c: Client, p: Resource, q: Resource): seq<Event> {
    [Commit(Acquire(q, c, Exclusive, Some(1.0)), 1.0), Commit(Acquire(p, a, Exclusive, Some(1.0)), 1.0),
     Commit(Acquire(p, b, Exclusive, Some(1.0)), 1.0), Commit(Acquire(p, c, Exclusive, Some(1.0)), 1.0),
     Commit(Release(p, a), 1.0), Commit(Acquire(q, b, Exclusive, Some(1.0)), 1.0)]
  }

  lemma PromoteFirst(t: Table, r: Resource, a: Client, first: Request, second: Request)
    requires r in t.locks && t.locks[r] == Lock(Some(Exclusive), {a}, [first, second], 1, 2.0)
    requires first.mode == Exclusive
    requires a != first.client && a != second.client && first.client != second.client
    requires t.waitFor == map[first.client := {a}, second.client := {a}]
    ensures DoRelease(t, r, a, 2.0)
         == Table(t.locks[r := Lock(Some(Exclusive), {first.client}, [second], 2, 2.0)], map[second.client := {}])
  {
    var lock := t.locks[r];
    assert lock.holders - {a} == {};
    assert Served(lock, {a}) == [first] && lock.waiting[1..] == [second];
    assert Clients([first]) == {first.client};
    assert Released(lock, {a}) == {a, first.client};
    assert {a} - {a, first.client} == {};
  }

  lemma BothQueue(a: Client, b: Client, c: Client, p: Resource, q: Resource)
    requires a != b && b != c && a != c && p != q
    ensures After(1.0, EMPTY, Succession(a, b, c, p, q)[..4])
         == Table(map[q := Lock(Some(Exclusive), {c}, [], 1, 2.0),
                      p := Lock(Some(Exclusive), {a},
                                [Request(b, Exclusive, 1.0), Request(c, Exclusive, 1.0)], 1, 2.0)],
                  map[b := {a}, c := {a}])
  {
    hide DoAcquire, DoRelease, After, EMPTY;
    var events := Succession(a, b, c, p, q);
    AfterNone(1.0);
    AfterLast(1.0, events[..1], [], events[0]);
    AfterLast(1.0, events[..2], events[..1], events[1]);
    AfterLast(1.0, events[..3], events[..2], events[2]);
    AfterLast(1.0, events[..4], events[..3], events[3]);
    var first, second := Request(b, Exclusive, 1.0), Request(c, Exclusive, 1.0);
    var heldQ, heldP := Lock(Some(Exclusive), {c}, [], 1, 2.0), Lock(Some(Exclusive), {a}, [], 1, 2.0);
    var t2 := Table(map[q := heldQ, p := heldP], map[]);
    var t3 := Table(map[q := heldQ, p := heldP.(waiting := [first])], map[b := {a}]);
    assert {a} - {b} == {a} && {a} - {c} == {a};
    assert [] + [first] == [first] && [first] + [second] == [first, second];
    NothingHeld();
    FirstHold(EMPTY, q, c);
    FirstHold(Table(map[q := heldQ], map[]), p, a);
    QueueUp(t2, p, a, b);
    QueueUp(t3, p, a, c);
    assert After(1.0, EMPTY, events[..1]) == Table(map[q := heldQ], map[]);
    assert After(1.0, EMPTY, events[..2]) == t2;
    assert After(1.0, EMPTY, events[..3]) == t3;
  }

  /** The commoner cause: a promotion drops the waits on the holder that left, and adds none on the
      one that comes. */
  lemma PromotionHidesDeadlock(a: Client, b: Client, c: Client, p: Resource, q: Resource)
    requires a != b && b != c && a != c && p != q
    ensures var t := After(1.0, EMPTY, Succession(a, b, c, p, q));
            CircularWait(t, [b, c]) && Acyclic(t.waitFor)
  {
    hide DoAcquire, DoRelease, After, CircularWait, Acyclic, EMPTY;
    var events := Succession(a, b, c, p, q);
    BothQueue(a, b, c, p, q);
    AfterLast(1.0, events[..5], events[..4], events[4]);
    AfterLast(1.0, events, events[..5], events[5]);
    var second := Request(c, Exclusive, 1.0);
    var t4 := After(1.0, EMPTY, events[..4]);
    var t5 := Table(t4.locks[p := Lock(Some(Exclusive), {b}, [second], 2, 2.0)], map[c := {}]);
    assert {c} - {b} == {c};
    PromoteFirst(t4, p, a, Request(b, Exclusive, 1.0), second);
    QueueUp(t5, q, c, b);
    RingOfTwo(After(1.0, EMPTY, events), b, c, q, p);
    DeadEnd(map[c := {}, b := {c}], c, b);
  }

  lemma RingOfTwo(t: Table, b: Client, c: Client, p: Resource, q: Resource)
    requires b != c && p in t.locks && q in t.locks && c in t.locks[p].holders && b in t.locks[q].holders
    requires |t.locks[p].waiting| > 0 && t.locks[p].waiting[0].client == b
    requires |t.locks[q].waiting| > 0 && t.locks[q].waiting[0].client == c
    ensures CircularWait(t, [b, c])
  {
    assert WaitsFor(t, b, c) by { assert Queued(t.locks[p], b); }
    assert WaitsFor(t, c, b) by { assert Queued(t.locks[q], c); }
  }

  /** A graph in which one client waits for nobody and at most one waits for it has no cycle. */
  lemma DeadEnd(g: WaitFor, end: Client, other: Client)
    requires end != other && (g == map[end := {}] || g == map[end := {}, other := {end}])
    ensures Acyclic(g)
  {
    forall s: seq<Client> ensures !ClosedWalk(g, s) {
      assert Walk(g, s) && |s| > 1 ==> s[0 + 1] in WaitsOf(g, s[0]);
    }
  }

  /** A client that queues behind itself waits for ever, but its own edge is never added. */
  lemma SelfWaitUnseen(a: Client, p: Resource)
    ensures var e := Commit(Acquire(p, a, Exclusive, Some(1.0)), 1.0);
            var t := After(1.0, EMPTY, [e, e]);
            CircularWait(t, [a]) && a in t.waitFor && t.waitFor[a] == {}
  {
    hide DoAcquire, After;
    var e := Commit(Acquire(p, a, Exclusive, Some(1.0)), 1.0);
    AfterNone(1.0);
    AfterLast(1.0, [e], [], e);
    AfterLast(1.0, [e, e], [e], e);
    var held := Lock(Some(Exclusive), {a}, [], 1, 2.0);
    FirstHold(EMPTY, p, a);
    var t1 := Table(map[p := held], map[]);
    assert After(1.0, EMPTY, [e]) == t1;
    QueueUp(t1, p, a, a);
    var t := After(1.0, EMPTY, [e, e]);
    assert t.locks[p].waiting[0].client == a && a in t.locks[p].holders;
    assert WaitsFor(t, a, a) by { assert Queued(t.locks[p], a); }
  }
}
