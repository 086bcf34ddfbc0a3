/** What every run of the lock table keeps: one holder per exclusive lock, no lost wakeup, no
    edge in the wait-for graph without a real wait, grants in queue order, fencing tokens. */
module LockSafety {
  import opened Options
  import opened Commands
  import opened LockTable

  // ----- The table invariant -----

  /** An exclusive lock has one holder; a queue means a holder; the head of the queue conflicts
      with the mode in which the lock is held. */
  predicate LockInv(lock: Lock) {
    && (lock.holders != {} ==> lock.lockType.Some?)
    && (lock.lockType == Some(Exclusive) ==> |lock.holders| <= 1)
    && (lock.waiting != [] ==> lock.holders != {})
    && (lock.waiting != [] && lock.lockType == Some(Shared) ==> lock.waiting[0].mode == Exclusive)
  }

  lemma VacatedInv(lock: Lock, gone: set<Client>, expiry: real)
    requires LockInv(lock)
    ensures LockInv(Vacated(lock, gone, expiry))
  {
    var served := Served(lock, gone);
    if served == [] {
      assert lock.holders - gone <= lock.holders;
      if |lock.holders| == 1 {
        var h :| h in lock.holders;
        assert |lock.holders - {h}| == 0;
        assert lock.holders - gone == {h} || lock.holders - gone == {};
      }
    } else {
      assert served[0].client in Clients(served);
      if served[0].mode == Exclusive {
        assert Clients(served) == {served[0].client};
      }
    }
  }

  lemma LockNextInv(lease: real, lock: Lock, r: Resource, e: Event)
    requires LockInv(lock)
    ensures LockInv(LockNext(lease, lock, r, e))
  {
    match e
    case Commit(Release(resource, client), now) => VacatedInv(lock, {client}, now + lease);
    case Sweep(now, clock) => VacatedInv(lock, lock.holders, clock(r) + lease);
    case _ =>
  }

  lemma {:induction false} LockAfterInv(lease: real, lock: Lock, r: Resource, events: seq<Event>)
    requires LockInv(lock)
    ensures LockInv(LockAfter(lease, lock, r, events))
  {
    if |events| > 0 {
      LockAfterInv(lease, lock, r, events[..|events| - 1]);
      LockNextInv(lease, LockAfter(lease, lock, r, events[..|events| - 1]), r, events[|events| - 1]);
    }
  }

  /** From empty tables, over every run of commands and expiry passes. */
  lemma TableInvAlways(lease: real, events: seq<Event>, r: Resource)
    ensures LockInv(LockOf(After(lease, EMPTY, events), r))
  {
    LocksStandAlone(lease, EMPTY, events, r);
    LockAfterInv(lease, UNUSED, r, events);
  }

  // ----- No false deadlock -----

  predicate Queued(lock: Lock, client: Client) {
    exists i | 0 <= i < |lock.waiting| :: lock.waiting[i].client == client
  }

  /** `w` is queued on a resource that `h` holds. */
  predicate WaitsFor(t: Table, w: Client, h: Client) {
    exists r | r in t.locks :: Queued(t.locks[r], w) && h in t.locks[r].holders
  }

  ghost predicate EdgesReal(t: Table) {
    forall w, h | w in t.waitFor && h in t.waitFor[w] :: w != h && WaitsFor(t, w, h)
  }

  lemma AcquireReal(t: Table, r: Resource, client: Client, mode: Mode, lease: real, now: real)
    requires EdgesReal(t)
    ensures EdgesReal(DoAcquire(t, r, client, mode, lease, now))
  {
    var t' := DoAcquire(t, r, client, mode, lease, now);
    var lock, lock' := LockOf(t, r), LockOf(t', r);
    assert lock.waiting <= lock'.waiting && lock.holders <= lock'.holders;
    forall w, h | w in t'.waitFor && h in t'.waitFor[w] ensures w != h && WaitsFor(t', w, h) {
      if h in WaitsOf(t.waitFor, w) {
        var q :| q in t.locks && Queued(t.locks[q], w) && h in t.locks[q].holders;
        var i :| 0 <= i < |t.locks[q].waiting| && t.locks[q].waiting[i].client == w;
        assert t'.locks[q].waiting[i].client == w;
        assert Queued(t'.locks[q], w) && h in t'.locks[q].holders;
      } else {
        assert w == client && h in lock.holders;
        assert lock'.waiting[|lock.waiting|].client == w;
        assert Queued(t'.locks[r], w) && h in t'.locks[r].holders;
      }
    }
  }

  /** Who keeps holding a lock that some holders leave keeps its waiters too. */
  lemma VacatedKeeps(lock: Lock, gone: set<Client>, expiry: real, w: Client, h: Client)
    requires Queued(lock, w) && h in lock.holders && h !in gone
    ensures Queued(Vacated(lock, gone, expiry), w) && h in Vacated(lock, gone, expiry).holders
  {
    assert h in lock.holders - gone;
  }

  lemma ReleaseReal(t: Table, r: Resource, client: Client, expiry: real)
    requires EdgesReal(t)
    ensures EdgesReal(DoRelease(t, r, client, expiry))
  {
    var t' := DoRelease(t, r, client, expiry);
    if r in t.locks {
      forall w, h | w in t'.waitFor && h in t'.waitFor[w] ensures w != h && WaitsFor(t', w, h) {
        var q :| q in t.locks && Queued(t.locks[q], w) && h in t.locks[q].holders;
        if q == r { VacatedKeeps(t.locks[r], {client}, expiry, w, h); }
        assert Queued(t'.locks[q], w) && h in t'.locks[q].holders;
      }
    }
  }

  lemma SweptHolders(t: Table, now: real, r: Resource, h: Client)
    ensures r in t.locks && Lapsed(t.locks[r], now) && h in t.locks[r].holders ==>
              h in SweptClients(t, now, t.locks.Keys)
  {
    if r in t.locks && Lapsed(t.locks[r], now) && h in t.locks[r].holders {
      assert h in Released(t.locks[r], t.locks[r].holders);
    }
  }

  lemma SweepReal(lease: real, t: Table, now: real, clock: Resource -> real)
    requires EdgesReal(t)
    ensures EdgesReal(SweepLeases(lease, t, now, clock))
  {
    var t' := SweepLeases(lease, t, now, clock);
    forall w, h | w in t'.waitFor && h in t'.waitFor[w] ensures w != h && WaitsFor(t', w, h) {
      var q :| q in t.locks && Queued(t.locks[q], w) && h in t.locks[q].holders;
      SweptHolders(t, now, q, h);
      assert Queued(t'.locks[q], w) && h in t'.locks[q].holders;
    }
  }

  lemma NextReal(lease: real, t: Table, e: Event)
    requires EdgesReal(t)
    ensures EdgesReal(Next(lease, t, e))
  {
    hide EdgesReal;
    match e
    case Commit(Acquire(r, client, mode, asked), now) => AcquireReal(t, r, client, mode, LeaseOf(lease, asked), now);
    case Commit(Release(r, client), now) => ReleaseReal(t, r, client, now + lease);
    case Commit(Other, _) =>
    case Sweep(now, clock) => SweepReal(lease, t, now, clock);
  }

  /** Over every run, an edge of the wait-for graph means a wait on a lock that is held now. */
  lemma {:induction false} EdgesAlwaysReal(lease: real, events: seq<Event>)
    ensures EdgesReal(After(lease, EMPTY, events))
  {
    if |events| > 0 {
      EdgesAlwaysReal(lease, events[..|events| - 1]);
      NextReal(lease, After(lease, EMPTY, events[..|events| - 1]), events[|events| - 1]);
    }
  }

  /** What holds of the table between any two events. */
  ghost predicate TableInv(t: Table) {
    EdgesReal(t) && forall r :: LockInv(LockOf(t, r))
  }

  lemma NextInv(lease: real, t: Table, e: Event)
    requires TableInv(t)
    ensures TableInv(Next(lease, t, e))
  {
    hide EdgesReal, LockInv;
    NextReal(lease, t, e);
    forall r ensures LockInv(LockOf(Next(lease, t, e), r)) {
      LockNextInv(lease, LockOf(t, r), r, e);
      OneEvent(lease, t, e, r);
    }
  }

  lemma OneEvent(lease: real, t: Table, e: Event, r: Resource)
    ensures LockOf(Next(lease, t, e), r) == LockNext(lease, LockOf(t, r), r, e)
  {
  }

  // ----- Replicas agree -----

  /** Equal but for what a local clock decides: time stamps and lease expiry. */
  predicate SameRequests(a: seq<Request>, b: seq<Request>) {
    |a| == |b| && forall i | 0 <= i < |a| :: a[i].client == b[i].client && a[i].mode == b[i].mode
  }

  predicate SameLock(a: Lock, b: Lock) {
    a.lockType == b.lockType && a.holders == b.holders && a.token == b.token && SameRequests(a.waiting, b.waiting)
  }

  predicate SameTable(a: Table, b: Table) {
    && a.locks.Keys == b.locks.Keys
    && (forall r | r in a.locks :: SameLock(a.locks[r], b.locks[r]))
    && a.waitFor == b.waitFor
  }

  lemma {:induction false} SameRun(a: seq<Request>, b: seq<Request>)
    requires SameRequests(a, b)
    ensures SharedRun(a) == SharedRun(b)
  {
    if a != [] && a[0].mode == Shared {
      SameRun(a[1..], b[1..]);
    }
  }

  lemma SameClients(a: seq<Request>, b: seq<Request>)
    requires SameRequests(a, b)
    ensures Clients(a) == Clients(b)
  {
    assert forall i | 0 <= i < |a| :: a[i].client == b[i].client;
  }

  lemma SameVacated(a: Lock, b: Lock, gone: set<Client>, expiryA: real, expiryB: real)
    requires SameLock(a, b)
    ensures SameLock(Vacated(a, gone, expiryA), Vacated(b, gone, expiryB))
    ensures Released(a, gone) == Released(b, gone)
  {
    SameRun(a.waiting, b.waiting);
    SameClients(Served(a, gone), Served(b, gone));
  }

  lemma SameApply(leaseA: real, leaseB: real, a: Table, b: Table, command: Command, nowA: real, nowB: real)
    requires SameTable(a, b)
    ensures SameTable(Apply(leaseA, a, command, nowA), Apply(leaseB, b, command, nowB))
  {
    match command
    case Acquire(r, client, mode, asked) => assert SameLock(LockOf(a, r), LockOf(b, r));
    case Release(r, client) =>
      if r in a.locks { SameVacated(a.locks[r], b.locks[r], {client}, nowA + leaseA, nowB + leaseB); }
    case Other =>
  }

  /** The table of a replica that has applied `commands`, the i-th when its clock showed `clock(i)`. */
  ghost function Replay(lease: real, clock: nat -> real, commands: seq<Command>): Table {
    if commands == [] then EMPTY
    else
      var n := |commands| - 1;
      Apply(lease, Replay(lease, clock, commands[..n]), commands[n], clock(n))
  }

  function CommandsOf(events: seq<Event>): seq<Command> {
    if |events| == 0 then []
    else
      var last := events[|events| - 1];
      CommandsOf(events[..|events| - 1]) + if last.Commit? then [last.command] else []
  }

  predicate NothingLapsed(t: Table, now: real) {
    forall r | r in t.locks :: !Lapsed(t.locks[r], now)
  }

  /** The expiry loop ran, but found no lease to end. */
  ghost predicate NoLeaseEnds(lease: real, events: seq<Event>) {
    |events| == 0 ||
    var before, last := events[..|events| - 1], events[|events| - 1];
    NoLeaseEnds(lease, before) && (last.Sweep? ==> NothingLapsed(After(lease, EMPTY, before), last.now))
  }

  /** A pass of the expiry loop keeps a replica in step with the others exactly if no lease has run out. */
  lemma SweepKeepsAgreementExactly(lease: real, t: Table, now: real, clock: Resource -> real)
    ensures SameTable(t, SweepLeases(lease, t, now, clock)) <==> NothingLapsed(t, now)
  {
    var t' := SweepLeases(lease, t, now, clock);
    if NothingLapsed(t, now) {
      assert SweptClients(t, now, t.locks.Keys) == {};
      assert forall w | w in t.waitFor :: t.waitFor[w] - {} == t.waitFor[w];
    } else {
      var r :| r in t.locks && Lapsed(t.locks[r], now);
      assert t'.locks[r] == Vacated(t.locks[r], t.locks[r].holders, clock(r) + lease);
      assert t.locks[r].holders - t.locks[r].holders == {};
      assert t'.locks[r].token != t.locks[r].token || t'.locks[r].holders != t.locks[r].holders;
    }
  }

  /** The table of a replica is, but for times, what its commands alone would have made of it. */
  ghost predicate AgreesNow(leaseA: real, leaseB: real, clock: nat -> real, events: seq<Event>) {
    SameTable(After(leaseA, EMPTY, events), Replay(leaseB, clock, CommandsOf(events)))
  }

  ghost predicate AgreesThroughout(leaseA: real, leaseB: real, clock: nat -> real, events: seq<Event>) {
    forall m | 0 <= m <= |events| :: AgreesNow(leaseA, leaseB, clock, events[..m])
  }

  lemma OneMoreAgrees(leaseA: real, leaseB: real, clock: nat -> real, events: seq<Event>)
    requires |events| > 0 && AgreesNow(leaseA, leaseB, clock, events[..|events| - 1])
    ensures var before, last := events[..|events| - 1], events[|events| - 1];
            AgreesNow(leaseA, leaseB, clock, events)
            <==> (last.Sweep? ==> NothingLapsed(After(leaseA, EMPTY, before), last.now))
  {
    hide Apply, SweepLeases, NothingLapsed, SameLock;
    var before, last := events[..|events| - 1], events[|events| - 1];
    var t, commands := After(leaseA, EMPTY, before), CommandsOf(before);
    match last
    case Commit(command, now) =>
      SameApply(leaseA, leaseB, t, Replay(leaseB, clock, commands), command, now, clock(|commands|));
      assert CommandsOf(events)[..|commands|] == commands;
    case Sweep(now, sweepClock) =>
      var swept := SweepLeases(leaseA, t, now, sweepClock);
      SweepKeepsAgreementExactly(leaseA, t, now, sweepClock);
      SameTableEither(t, swept, Replay(leaseB, clock, commands));
      assert CommandsOf(events) == commands;
  }

  lemma SameTableEither(t: Table, u: Table, r: Table)
    requires SameTable(t, r)
    ensures SameTable(u, r) <==> SameTable(t, u)
  {
  }

  /** A replica stays in step with its commands throughout a run, whatever the clocks, exactly if the
      expiry loop never ends a lease. */
  lemma {:induction false} AgreesExactly(leaseA: real, leaseB: real, clock: nat -> real, events: seq<Event>)
    ensures AgreesThroughout(leaseA, leaseB, clock, events) <==> NoLeaseEnds(leaseA, events)
  {
    hide AgreesNow, NothingLapsed, After;
    if |events| == 0 {
      AgreesAtFirst(leaseA, leaseB, clock, events[..0]);
    } else {
      var before := events[..|events| - 1];
      AgreesExactly(leaseA, leaseB, clock, before);
      assert forall m | 0 <= m <= |before| :: before[..m] == events[..m];
      assert events[..|events|] == events && before[..|before|] == before;
      ThroughoutOneMore(leaseA, leaseB, clock, events);
      if AgreesNow(leaseA, leaseB, clock, before) { OneMoreAgrees(leaseA, leaseB, clock, events); }
      AgreesAtEnd(leaseA, leaseB, clock, before);
    }
  }

  lemma ThroughoutOneMore(leaseA: real, leaseB: real, clock: nat -> real, events: seq<Event>)
    requires |events| > 0
    ensures AgreesThroughout(leaseA, leaseB, clock, events)
       <==> AgreesThroughout(leaseA, leaseB, clock, events[..|events| - 1]) && AgreesNow(leaseA, leaseB, clock, events)
  {
    hide AgreesNow;
    var before := events[..|events| - 1];
    assert events[..|events|] == events;
    if AgreesThroughout(leaseA, leaseB, clock, events) {
      forall m | 0 <= m <= |before| ensures AgreesNow(leaseA, leaseB, clock, before[..m]) {
        assert before[..m] == events[..m];
      }
    }
    if AgreesThroughout(leaseA, leaseB, clock, before) && AgreesNow(leaseA, leaseB, clock, events) {
      forall m | 0 <= m <= |events| ensures AgreesNow(leaseA, leaseB, clock, events[..m]) {
        if m < |events| { assert before[..m] == events[..m]; }
      }
    }
  }

  lemma AgreesAtEnd(leaseA: real, leaseB: real, clock: nat -> real, events: seq<Event>)
    ensures AgreesThroughout(leaseA, leaseB, clock, events) ==> AgreesNow(leaseA, leaseB, clock, events)
  {
    hide AgreesNow;
    assert events[..|events|] == events;
  }

  lemma AgreesAtFirst(leaseA: real, leaseB: real, clock: nat -> real, events: seq<Event>)
    requires |events| == 0
    ensures AgreesNow(leaseA, leaseB, clock, events)
  {
  }

  /** Two replicas that have applied the same commands, each by its own clock and its own lease
      timeout, agree on everything but times as long as no lease has run out at either. */
  lemma {:induction false} ReplicasAgree(leaseA: real, leaseB: real, eventsA: seq<Event>, eventsB: seq<Event>)
    requires CommandsOf(eventsA) == CommandsOf(eventsB)
    requires NoLeaseEnds(leaseA, eventsA) && NoLeaseEnds(leaseB, eventsB)
    ensures SameTable(After(leaseA, EMPTY, eventsA), After(leaseB, EMPTY, eventsB))
  {
    hide After, NoLeaseEnds, CommandsOf, Replay;
    AgreesExactly(leaseA, leaseA, _ => 0.0, eventsA);
    AgreesExactly(leaseB, leaseA, _ => 0.0, eventsB);
    AgreesAtEnd(leaseA, leaseA, _ => 0.0, eventsA);
    AgreesAtEnd(leaseB, leaseA, _ => 0.0, eventsB);
  }

  /** Lease expiry is a local decision: two replicas that have applied the same two commands can
      name different exclusive holders of one resource. */
  lemma ExpiryMakesReplicasDisagree()
    ensures exists lease: real, eventsA: seq<Event>, eventsB: seq<Event>, r: Resource ::
              && CommandsOf(eventsA) == CommandsOf(eventsB)
              && var a, b := LockOf(After(lease, EMPTY, eventsA), r), LockOf(After(lease, EMPTY, eventsB), r);
                 HeldExclusively(a) && HeldExclusively(b) && a.holders != b.holders
  {
    var r, a, b := "r", "a", "b";
    assert a[0] != b[0];
    var first := Commit(Acquire(r, a, Exclusive, Some(1.0)), 1.0);
    var second := Commit(Acquire(r, b, Exclusive, Some(1.0)), 1.0);
    var eventsA, eventsB := [first, second], [first, second, Sweep(3.0, _ => 3.0)];
    TwoContenders(r, a, b, first, second, eventsB[2]);
    assert CommandsOf(eventsA) == CommandsOf(eventsB);
  }

  lemma TwoContenders(r: Resource, a: Client, b: Client, first: Event, second: Event, sweep: Event)
    requires a != b
    requires first == Commit(Acquire(r, a, Exclusive, Some(1.0)), 1.0)
    requires second == Commit(Acquire(r, b, Exclusive, Some(1.0)), 1.0)
    requires sweep == Sweep(3.0, _ => 3.0)
    ensures CommandsOf([first, second]) == CommandsOf([first, second, sweep])
    ensures var one := LockOf(After(1.0, EMPTY, [first, second]), r);
            var two := LockOf(After(1.0, EMPTY, [first, second, sweep]), r);
            one.lockType == two.lockType == Some(Exclusive) && one.holders == {a} && two.holders == {b}
  {
    var eventsA, eventsB := [first, second], [first, second, sweep];
    assert [first][..0] == [] && eventsA[..1] == [first] && eventsB[..2] == eventsA;
    assert CommandsOf(eventsB) == CommandsOf(eventsA) + [];
    LocksStandAlone(1.0, EMPTY, eventsA, r);
    LocksStandAlone(1.0, EMPTY, eventsB, r);
    StartOf(1.0, UNUSED, r, [first][..0]);
    assert LockAfter(1.0, UNUSED, r, [first]) == LockNext(1.0, UNUSED, r, first)
        == Lock(Some(Exclusive), {a}, [], 1, 2.0);
    var two := LockAfter(1.0, UNUSED, r, eventsA);
    assert two == Lock(Some(Exclusive), {a}, [Request(b, Exclusive, 1.0)], 1, 2.0);
    var three := Swept(two, 3.0, 4.0);
    assert two.holders - two.holders == {};
    assert Served(two, two.holders) == two.waiting[..1] == two.waiting;
  }

  // ----- Grants in queue order, fencing -----

  /** The request an event appends to the queue of `r`. */
  function Enqueued(lock: Lock, r: Resource, e: Event): seq<Request> {
    match e
    case Commit(Acquire(resource, client, mode, _), now) =>
      if resource == r && Queues(lock, mode) then [Request(client, mode, now)] else []
    case _ => []
  }

  /** The requests an event takes from the head of the queue of `r` and grants. */
  function Granted(lock: Lock, r: Resource, e: Event): seq<Request> {
    match e
    case Commit(Release(resource, client), _) => if resource == r then Served(lock, {client}) else []
    case Sweep(now, _) => if Lapsed(lock, now) then Served(lock, lock.holders) else []
    case _ => []
  }

  ghost function EverQueued(lease: real, lock: Lock, r: Resource, events: seq<Event>): seq<Request> {
    if |events| == 0 then lock.waiting
    else
      var before := events[..|events| - 1];
      EverQueued(lease, lock, r, before) + Enqueued(LockAfter(lease, lock, r, before), r, events[|events| - 1])
  }

  ghost function EverGranted(lease: real, lock: Lock, r: Resource, events: seq<Event>): seq<Request> {
    if |events| == 0 then []
    else
      var before := events[..|events| - 1];
      EverGranted(lease, lock, r, before) + Granted(LockAfter(lease, lock, r, before), r, events[|events| - 1])
  }

  /** One event either appends to the queue or grants its head, and a grant makes holders. */
  lemma QueueStep(lease: real, lock: Lock, r: Resource, e: Event)
    requires LockInv(lock)
    ensures var lock' := LockNext(lease, lock, r, e);
            && lock.waiting + Enqueued(lock, r, e) == Granted(lock, r, e) + lock'.waiting
            && (forall q | q in Granted(lock, r, e) :: q.client in lock'.holders && lock'.lockType == Some(q.mode))
            && lock.token <= lock'.token <= lock.token + 1
            && (Granted(lock, r, e) != [] ==> lock'.token == lock.token + 1)
            && (lock'.token > lock.token ==> lock.waiting == [] || Granted(lock, r, e) != [])
  {
  }

  lemma Splice<T>(a: seq<T>, b: seq<T>, c: seq<T>, d: seq<T>, e: seq<T>)
    requires b + c == d + e
    ensures (a + b) + c == (a + d) + e
  {
    assert (a + b) + c == a + (b + c) && (a + d) + e == a + (d + e);
  }

  /** First in, first out: whatever was ever queued has been granted in that order, or still waits. */
  lemma {:induction false} GrantsInOrder(lease: real, lock: Lock, r: Resource, events: seq<Event>)
    requires LockInv(lock)
    ensures EverQueued(lease, lock, r, events)
         == EverGranted(lease, lock, r, events) + LockAfter(lease, lock, r, events).waiting
  {
    hide LockInv, LockNext, Enqueued, Granted;
    if |events| > 0 {
      var before, last := events[..|events| - 1], events[|events| - 1];
      GrantsInOrder(lease, lock, r, before);
      LockAfterInv(lease, lock, r, before);
      var mid := LockAfter(lease, lock, r, before);
      QueueStep(lease, mid, r, last);
      Splice(EverGranted(lease, lock, r, before), mid.waiting, Enqueued(mid, r, last),
             Granted(mid, r, last), LockAfter(lease, lock, r, events).waiting);
    }
  }

  lemma {:induction false} TokensNeverDecrease(lease: real, lock: Lock, r: Resource, events: seq<Event>, early: nat)
    requires LockInv(lock) && early <= |events|
    ensures LockAfter(lease, lock, r, events[..early]).token <= LockAfter(lease, lock, r, events).token
  {
    if early < |events| {
      var before := events[..|events| - 1];
      TokensNeverDecrease(lease, lock, r, before, early);
      assert before[..early] == events[..early];
      LockAfterInv(lease, lock, r, before);
      QueueStep(lease, LockAfter(lease, lock, r, before), r, events[|events| - 1]);
    } else {
      assert events[..early] == events;
    }
  }

  /** While a request waits, every new token comes with a grant from the queue. */
  lemma {:induction false} TokensCountGrants(lease: real, lock: Lock, r: Resource, events: seq<Event>)
    requires LockInv(lock)
    ensures |EverGranted(lease, lock, r, events)| >= |lock.waiting|
         || LockAfter(lease, lock, r, events).token - lock.token <= |EverGranted(lease, lock, r, events)|
  {
    if |events| > 0 {
      var before := events[..|events| - 1];
      TokensCountGrants(lease, lock, r, before);
      GrantsInOrder(lease, lock, r, before);
      QueuedStays(lease, lock, r, before);
      LockAfterInv(lease, lock, r, before);
      QueueStep(lease, LockAfter(lease, lock, r, before), r, events[|events| - 1]);
    }
  }

  lemma {:induction false} QueuedStays(lease: real, lock: Lock, r: Resource, events: seq<Event>)
    ensures lock.waiting <= EverQueued(lease, lock, r, events)
  {
    if |events| > 0 {
      QueuedStays(lease, lock, r, events[..|events| - 1]);
    }
  }

  /** A request at position `k` of the queue holds the lock after at most `k + 1` new tokens,
      however many shared requests join past it: once the token has grown that much, there was an
      event that granted this very request, and it was among the first `k + 1` tokens. */
  lemma {:induction false} WaiterServed(lease: real, lock: Lock, r: Resource, events: seq<Event>, k: nat)
      returns (moment: nat)
    requires LockInv(lock) && k < |lock.waiting|
    requires LockAfter(lease, lock, r, events).token >= lock.token + k + 1
    ensures moment < |events|
    ensures GrantedAt(lease, lock, r, events, k, moment)
  {
    TokensCountGrants(lease, lock, r, events);
    moment := GrantMoment(lease, lock, r, events, k);
  }

  ghost predicate GrantedAt(lease: real, lock: Lock, r: Resource, events: seq<Event>, k: nat, moment: nat)
    requires k < |lock.waiting| && moment < |events|
  {
    var done := |EverGranted(lease, lock, r, events[..moment])|;
    var batch := Granted(LockAfter(lease, lock, r, events[..moment]), r, events[moment]);
    var after := LockAfter(lease, lock, r, events[..moment + 1]);
    && done <= k < done + |batch| && batch[k - done] == lock.waiting[k]
    && lock.waiting[k].client in after.holders && after.lockType == Some(lock.waiting[k].mode)
    && after.token <= lock.token + k + 1
  }

  lemma {:induction false} GrantMoment(lease: real, lock: Lock, r: Resource, events: seq<Event>, k: nat)
      returns (moment: nat)
    requires LockInv(lock) && k < |lock.waiting|
    requires |EverGranted(lease, lock, r, events)| > k
    ensures moment < |events|
    ensures GrantedAt(lease, lock, r, events, k, moment)
  {
    hide LockInv, LockNext, Enqueued, Granted;
    var before := events[..|events| - 1];
    if |EverGranted(lease, lock, r, before)| > k {
      moment := GrantMoment(lease, lock, r, before, k);
      assert before[..moment] == events[..moment] && before[..moment + 1] == events[..moment + 1];
    } else {
      moment := |events| - 1;
      assert events[..moment + 1] == events;
      TokensCountGrants(lease, lock, r, before);
      LockAfterInv(lease, lock, r, before);
      QueueStep(lease, LockAfter(lease, lock, r, before), r, events[moment]);
      QueuedStays(lease, lock, r, events);
      GrantsInOrder(lease, lock, r, events);
      assert EverGranted(lease, lock, r, events)[k] == EverQueued(lease, lock, r, events)[k] == lock.waiting[k];
    }
  }

  predicate HeldExclusively(lock: Lock) {
    lock.lockType == Some(Exclusive) && lock.holders != {}
  }

  lemma {:induction false} LockAfterSplit(lease: real, lock: Lock, r: Resource, events: seq<Event>, m: nat)
    requires m <= |events|
    ensures LockAfter(lease, LockAfter(lease, lock, r, events[..m]), r, events[m..])
            == LockAfter(lease, lock, r, events)
  {
    if m == |events| {
      assert events[..m] == events;
    } else {
      var before := events[..|events| - 1];
      LockAfterSplit(lease, lock, r, before, m);
      assert before[..m] == events[..m] && before[m..] == events[m..][..|events| - m - 1];
    }
  }

  /** Without a new token an exclusive lock can only lose its holder. */
  lemma {:induction false} ExclusiveOnlyShrinks(lease: real, lock: Lock, r: Resource, events: seq<Event>)
    requires LockInv(lock) && lock.lockType == Some(Exclusive)
    requires LockAfter(lease, lock, r, events).token == lock.token
    ensures var end := LockAfter(lease, lock, r, events);
            end.lockType == Some(Exclusive) && end.holders <= lock.holders
  {
    if |events| > 0 {
      var before := events[..|events| - 1];
      assert events[..0] == [] && before[..0] == [];
      TokensNeverDecrease(lease, lock, r, before, 0);
      assert events[..|before|] == before;
      TokensNeverDecrease(lease, lock, r, events, |before|);
      ExclusiveOnlyShrinks(lease, lock, r, before);
      LockAfterInv(lease, lock, r, before);
    }
  }

  /** No two exclusive tenures share a fencing token: if a lock is exclusively held at two moments
      under the same token, one client has held it, exclusively, all the while. */
  lemma OneTenurePerToken(lease: real, lock: Lock, r: Resource, events: seq<Event>, m: nat)
    requires LockInv(lock) && m <= |events|
    requires HeldExclusively(lock) && HeldExclusively(LockAfter(lease, lock, r, events))
    requires LockAfter(lease, lock, r, events).token == lock.token
    ensures var mid := LockAfter(lease, lock, r, events[..m]);
            HeldExclusively(mid) && |lock.holders| == 1 && mid.holders == lock.holders
  {
    hide LockAfter, LockNext;
    var mid, end := LockAfter(lease, lock, r, events[..m]), LockAfter(lease, lock, r, events);
    LockAfterSplit(lease, lock, r, events, m);
    LockAfterInv(lease, lock, r, events[..m]);
    TokensNeverDecrease(lease, lock, r, events, m);
    TokensNeverDecrease(lease, lock, r, events[..m], 0);
    StartOf(lease, lock, r, events[..m][..0]);
    ExclusiveOnlyShrinks(lease, lock, r, events[..m]);
    ExclusiveOnlyShrinks(lease, mid, r, events[m..]);
    var h :| h in end.holders;
    assert h in lock.holders && h in mid.holders;
    assert |lock.holders - {h}| == 0;
  }

  lemma StartOf(lease: real, lock: Lock, r: Resource, events: seq<Event>)
    requires |events| == 0
    ensures LockAfter(lease, lock, r, events) == lock
  {
  }

  // ----- Leases -----

  /** The client does not give the resource back, and every expiry pass begins by `until`. */
  predicate Undisturbed(r: Resource, client: Client, until: real, events: seq<Event>) {
    forall i | 0 <= i < |events| ::
      match events[i]
      case Commit(Release(resource, c), _) => resource != r || c != client
      case Sweep(now, _) => now <= until
      case _ => true
  }

  /** A lease is honoured: a holder keeps the lock until it releases it or an expiry pass begins
      after the end of its lease, whoever else joins, queues or leaves meanwhile. */
  lemma {:induction false} LeaseHonoured(
    lease: real, lock: Lock, r: Resource, events: seq<Event>, client: Client, until: real)
    requires client in lock.holders && lock.leaseExpiry >= until && Undisturbed(r, client, until, events)
    ensures client in LockAfter(lease, lock, r, events).holders
    ensures LockAfter(lease, lock, r, events).leaseExpiry >= until
  {
    if |events| > 0 {
      var before, last := events[..|events| - 1], events[|events| - 1];
      LeaseHonoured(lease, lock, r, before, client, until);
      HolderStays(lease, LockAfter(lease, lock, r, before), r, last, client, until);
    }
  }

  lemma HolderStays(lease: real, lock: Lock, r: Resource, e: Event, client: Client, until: real)
    requires client in lock.holders && lock.leaseExpiry >= until && Undisturbed(r, client, until, [e])
    ensures client in LockNext(lease, lock, r, e).holders && LockNext(lease, lock, r, e).leaseExpiry >= until
  {
    assert [e][0] == e;
    match e
    case Commit(Release(resource, c), now) =>
      assert resource == r ==> client in lock.holders - {c};
    case _ =>
  }

  /** Who is granted the lock at `now` holds it until it releases it or an expiry pass begins after
      the lease it asked for, or without one the default lease, has run out. */
  lemma GrantHonoured(
    lease: real, lock: Lock, r: Resource, client: Client, mode: Mode, asked: Option<real>, now: real,
    events: seq<Event>)
    requires !Queues(lock, mode)
    requires Undisturbed(r, client, now + if asked.Some? then asked.value else lease, events)
    ensures var granted := LockNext(lease, lock, r, Commit(Acquire(r, client, mode, asked), now));
            client in LockAfter(lease, granted, r, events).holders
  {
    var granted := LockNext(lease, lock, r, Commit(Acquire(r, client, mode, asked), now));
    LeaseHonoured(lease, granted, r, events, client, now + if asked.Some? then asked.value else lease);
  }

  /** Who is granted the lock from the queue holds it for the default lease. */
  lemma PromotionHonoured(lease: real, lock: Lock, r: Resource, e: Event, q: Request, events: seq<Event>)
    requires q in Granted(lock, r, e)
    requires Undisturbed(r, q.client, lease + if e.Commit? then e.now else e.clock(r), events)
    ensures q.client in LockAfter(lease, LockNext(lease, lock, r, e), r, events).holders
  {
    var start := if e.Commit? then e.now else e.clock(r);
    LeaseHonoured(lease, LockNext(lease, lock, r, e), r, events, q.client, lease + start);
  }
}
