/** `LockManagerNode` of src/nodes/lock_manager.py as an object that updates its lock records and
    its detector in place; every method is proved to do what `LockTable` says. */
module LockManager {
  import opened Options
  import opened Commands
  import opened LockTable
  import opened Deadlocks
  import LockSafety
  import opened LockEffects
  import opened Detector
  import opened WaitGraph

  /** `LockState`. */
  class LockState {
    var lockType: Option<Mode>
    var holders: set<Client>
    var waiting: seq<Request>
    var token: nat
    var leaseExpiry: real

    constructor ()
      ensures View() == UNUSED
    {
      lockType, holders, waiting, token, leaseExpiry := None, {}, [], 0, 0.0;
    }

    ghost function View(): Lock
      reads this
    {
      Lock(lockType, holders, waiting, token, leaseExpiry)
    }
  }

  /** Promoting one more request of a queue. */
  lemma PromoteOneMore(g: WaitFor, queue: seq<Request>, n: nat)
    requires n < |queue|
    ensures Clients(queue[..n + 1]) == Clients(queue[..n]) + {queue[n].client}
    ensures RemoveClients(RemoveClients(g, Clients(queue[..n])), {queue[n].client})
         == RemoveClients(g, Clients(queue[..n + 1]))
  {
    var some, more := queue[..n], queue[..n + 1];
    forall c ensures c in Clients(more) <==> c in Clients(some) + {queue[n].client} {
      if c in Clients(some) {
        var i :| 0 <= i < n && some[i].client == c;
        assert more[i].client == c;
      }
      assert more[n].client == queue[n].client;
    }
    assert Clients(more) == Clients(some) + {queue[n].client};
    RemoveInTurn(g, Clients(some), {queue[n].client});
  }

  lemma SameButOne(t: Table, t': Table, r: Resource)
    requires t'.locks.Keys == t.locks.Keys + {r}
    requires forall q | q in t'.locks && q != r :: t'.locks[q] == t.locks[q]
    ensures t' == Table(t.locks[r := t'.locks[r]], t'.waitFor)
  {
  }

  lemma RemoveNobody(g: WaitFor)
    ensures RemoveClients(g, {}) == g
  {
    assert forall w | w in g :: g[w] - {} == g[w];
  }

  /** A lock whose holders leave one by one is left as if they had left at once. */
  lemma LeaveInTurn(lock: Lock, left: set<Client>, h: Client, expiry: real)
    requires h in left && left <= lock.holders
    ensures var now := lock.(holders := left);
            && (left != {h} ==> Vacated(now, {h}, expiry) == lock.(holders := left - {h}) && Released(now, {h}) == {h})
            && (left == {h} ==> Vacated(now, {h}, expiry) == Vacated(lock, lock.holders, expiry)
                                && lock.holders - left + Released(now, {h}) == Released(lock, lock.holders))
  {
    if left == {h} {
      assert left - {h} == {} && lock.holders - lock.holders == {};
    } else {
      assert left - {h} != {};
    }
  }

  /** The table while the holders of `r` leave, when only those in `left` are still there. */
  function Leaving(t: Table, r: Resource, left: set<Client>): Table
    requires r in t.locks
  {
    Table(t.locks[r := t.locks[r].(holders := left)], RemoveClients(t.waitFor, t.locks[r].holders - left))
  }

  lemma LeavingNext(lease: real, t: Table, now: real, clock: Resource -> real, r: Resource, left: set<Client>,
          h: Client)
    requires r in t.locks && Lapsed(t.locks[r], now) && h in left && left <= t.locks[r].holders
    ensures LockTable.DoRelease(Leaving(t, r, left), r, h, clock(r) + lease)
         == if left == {h} then SweptAt(lease, t, now, clock, r) else Leaving(t, r, left - {h})
  {
    hide RemoveClients, Vacated, Released, Lapsed;
    var lock := t.locks[r];
    var gone := Released(lock.(holders := left), {h});
    LeaveInTurn(lock, left, h, clock(r) + lease);
    RemoveInTurn(t.waitFor, lock.holders - left, gone);
    if left != {h} {
      assert lock.holders - left + {h} == lock.holders - (left - {h});
    }
  }

  lemma LeavingStart(t: Table, r: Resource)
    requires r in t.locks
    ensures Leaving(t, r, t.locks[r].holders) == t
  {
    assert t.locks[r].holders - t.locks[r].holders == {};
    RemoveNobody(t.waitFor);
  }

  /** The table when the expiry loop has passed the resources in `done`. */
  ghost function SweptSome(lease: real, t: Table, now: real, clock: Resource -> real, done: set<Resource>): Table {
    Table(map r | r in t.locks :: if r in done then Swept(t.locks[r], now, clock(r) + lease) else t.locks[r],
          RemoveClients(t.waitFor, SweptClients(t, now, done)))
  }

  /** What the expiry loop does at one resource. */
  function SweptAt(lease: real, t: Table, now: real, clock: Resource -> real, r: Resource): Table
    requires r in t.locks
  {
    if Lapsed(t.locks[r], now)
    then Table(t.locks[r := Vacated(t.locks[r], t.locks[r].holders, clock(r) + lease)],
               RemoveClients(t.waitFor, Released(t.locks[r], t.locks[r].holders)))
    else t
  }

  lemma SweepOneMore(lease: real, t: Table, now: real, clock: Resource -> real, done: set<Resource>, r: Resource)
    requires r in t.locks && r !in done
    ensures r in SweptSome(lease, t, now, clock, done).locks
    ensures SweptAt(lease, SweptSome(lease, t, now, clock, done), now, clock, r)
         == SweptSome(lease, t, now, clock, done + {r})
  {
    hide RemoveClients, Lapsed, Vacated, Released;
    var some := SweptClients(t, now, done);
    var more := SweptClients(t, now, done + {r});
    if Lapsed(t.locks[r], now) {
      assert more == some + Released(t.locks[r], t.locks[r].holders);
      RemoveInTurn(t.waitFor, some, Released(t.locks[r], t.locks[r].holders));
    } else {
      assert more == some;
    }
  }

  lemma SweepNone(lease: real, t: Table, now: real, clock: Resource -> real)
    ensures SweptSome(lease, t, now, clock, {}) == t
  {
    assert SweptClients(t, now, {}) == {};
    RemoveNobody(t.waitFor);
  }

  lemma SweepAll(lease: real, t: Table, now: real, clock: Resource -> real)
    ensures SweptSome(lease, t, now, clock, t.locks.Keys) == SweepLeases(lease, t, now, clock)
  {
  }

  class LockManager {
    var locks: map<Resource, LockState>
    const detector: DeadlockDetector
    const leaseTimeout: real

    constructor (leaseTimeout: real)
      ensures Valid() && Table() == EMPTY && fresh(detector) && this.leaseTimeout == leaseTimeout
    {
      locks := map[];
      detector := new DeadlockDetector();
      this.leaseTimeout := leaseTimeout;
    }

    /** Each resource has its own record. */
    ghost predicate Separate()
      reads this
    {
      forall r, q | r in locks && q in locks && r != q :: locks[r] != locks[q]
    }

    ghost function Table(): Table
      reads this, detector, locks.Values
    {
      LockTable.Table(map r | r in locks :: locks[r].View(), detector.waitFor)
    }

    ghost predicate Valid()
      reads this, detector, locks.Values
    {
      Separate() && LockSafety.TableInv(Table())
    }

    /** The record of a resource, made on first use. */
    method RecordOf(resource: Resource) returns (lock: LockState)
      requires Separate()
      modifies this`locks
      ensures Separate() && fresh(locks.Values - old(locks.Values))
      ensures locks.Keys == old(locks).Keys + {resource} && locks[resource] == lock
      ensures lock.View() == LockOf(old(Table()), resource)
      ensures forall r | r in old(locks) :: locks[r] == old(locks)[r]
    {
      if resource !in locks {
        var state := new LockState();
        locks := locks[resource := state];
      }
      lock := locks[resource];
    }

    /** Grants a free lock, joins a shared one, or queues. */
    method Grant(lock: LockState, client: Client, mode: Mode, lease: real, now: real)
      modifies lock, detector
      ensures lock.View() == Acquired(old(lock.View()), client, mode, lease, now)
      ensures detector.waitFor == if Queues(old(lock.View()), mode)
                                  then LockTable.AddWait(old(detector.waitFor), client, old(lock.holders))
                                  else RemoveClients(old(detector.waitFor), {client})
    {
      if lock.holders == {} {
        lock.lockType := Some(mode);
        lock.holders := lock.holders + {client};
        lock.token := lock.token + 1;
        lock.leaseExpiry := now + lease;
        detector.RemoveClient(client);
      } else if mode == Shared && lock.lockType == Some(Shared) {
        lock.holders := lock.holders + {client};
        lock.leaseExpiry := Later(lock.leaseExpiry, now + lease);
        detector.RemoveClient(client);
      } else {
        lock.waiting := lock.waiting + [Request(client, mode, now)];
        detector.AddWait(client, lock.holders);
      }
    }

    method DoAcquire(resource: Resource, client: Client, mode: Mode, lease: real, now: real)
      requires Separate()
      modifies this, detector, locks.Values
      ensures Separate() && fresh(locks.Values - old(locks.Values))
      ensures Table() == LockTable.DoAcquire(old(Table()), resource, client, mode, lease, now)
      ensures resource in locks
      ensures AskedFor(LockOf(old(Table()), resource), locks[resource].View(), client, mode, lease, now)
    {
      hide RemoveClients, LockTable.AddWait, Acquired, Queues;
      ghost var before := Table();
      var lock := RecordOf(resource);
      Grant(lock, client, mode, lease, now);
      assert forall r | r in locks && r != resource :: r in before.locks && locks[r].View() == before.locks[r];
      SameButOne(before, Table(), resource);
      AcquiredExactly(LockOf(before, resource), client, mode, lease, now);
    }

    /** Grants the head of the queue of a free lock, and with a shared head every shared request
        behind it up to the next exclusive one. */
    method Promote(lock: LockState, now: real)
      requires lock.holders == {} && lock.waiting != []
      modifies lock, detector
      ensures var queue, n := old(lock.waiting), Batch(old(lock.waiting));
              && lock.View() == Lock(Some(queue[0].mode), Clients(queue[..n]), queue[n..],
                                     old(lock.token) + 1, now + leaseTimeout)
              && detector.waitFor == RemoveClients(old(detector.waitFor), Clients(queue[..n]))
    {
      ghost var queue, graph := lock.waiting, detector.waitFor;
      ghost var n := 1;
      assert Clients(queue[..0]) == {};
      RemoveNobody(graph);
      PromoteOneMore(graph, queue, 0);
      var next := lock.waiting[0];
      lock.waiting := lock.waiting[1..];
      lock.lockType := Some(next.mode);
      lock.holders := lock.holders + {next.client};
      lock.token := lock.token + 1;
      lock.leaseExpiry := now + leaseTimeout;
      detector.RemoveClient(next.client);
      if next.mode == Shared {
        while lock.waiting != [] && lock.waiting[0].mode == Shared
          invariant 1 <= n <= SharedRun(queue) && lock.waiting == queue[n..]
          invariant lock.lockType == Some(Shared) && lock.holders == Clients(queue[..n])
          invariant lock.token == old(lock.token) + 1 && lock.leaseExpiry == now + leaseTimeout
          invariant detector.waitFor == RemoveClients(graph, Clients(queue[..n]))
          decreases |lock.waiting|
        {
          PromoteOneMore(graph, queue, n);
          var sw := lock.waiting[0];
          lock.waiting := lock.waiting[1..];
          lock.holders := lock.holders + {sw.client};
          detector.RemoveClient(sw.client);
          n := n + 1;
        }
      }
    }

    method DoRelease(resource: Resource, client: Client, now: real)
      requires Separate()
      modifies detector, locks.Values
      ensures Table() == LockTable.DoRelease(old(Table()), resource, client, now + leaseTimeout)
      ensures resource in locks ==>
                LeftBy(old(locks[resource].View()), locks[resource].View(), {client}, now + leaseTimeout)
    {
      hide RemoveClients, LeftBy;
      if resource !in locks {
        return;
      }
      ghost var before := Table();
      var lock := locks[resource];
      lock.holders := lock.holders - {client};
      detector.RemoveClient(client);
      if lock.holders == {} && lock.waiting != [] {
        Promote(lock, now);
        RemoveInTurn(old(detector.waitFor), {client}, Clients(Served(old(lock.View()), {client})));
      } else {
        assert {client} + Clients([]) == {client};
      }
      assert lock.View() == Vacated(before.locks[resource], {client}, now + leaseTimeout);
      VacatedExactly(before.locks[resource], {client}, now + leaseTimeout);
      SameButOne(before, Table(), resource);
    }

    /** One turn of the expiry loop: the holders of a lapsed lock leave one after the other. */
    method ExpireLease(resource: Resource, now: real, clock: Resource -> real)
      requires Separate() && resource in locks
      modifies detector, locks.Values
      ensures Table() == SweptAt(leaseTimeout, old(Table()), now, clock, resource)
      ensures resource in locks && var lock, lock' := old(locks[resource].View()), locks[resource].View();
                if RunOut(lock, now) then LeftBy(lock, lock', lock.holders, clock(resource) + leaseTimeout)
                else lock' == lock
    {
      hide LeftBy, RunOut, Vacated, Released, RemoveClients;
      var lock := locks[resource];
      ghost var before, was := Table(), lock.View();
      SweptExactly(was, now, clock(resource) + leaseTimeout);
      if lock.holders != {} && lock.leaseExpiry > 0.0 && now > lock.leaseExpiry {
        var todo := lock.holders;
        LeavingStart(before, resource);
        while todo != {}
          invariant Separate() && todo <= was.holders
          invariant Table() == if todo == {} then SweptAt(leaseTimeout, before, now, clock, resource)
                               else Leaving(before, resource, todo)
          decreases todo
        {
          var holder :| holder in todo;
          LeavingNext(leaseTimeout, before, now, clock, resource, todo, holder);
          DoRelease(resource, holder, clock(resource));
          todo := todo - {holder};
        }
      }
    }

    method ExpireLeases(now: real, clock: Resource -> real)
      requires Valid()
      modifies detector, locks.Values
      ensures Valid() && Table() == SweepLeases(leaseTimeout, old(Table()), now, clock)
      ensures PassEffect(leaseTimeout, old(Table()), now, clock, Table())
    {
      hide PassEffect;
      ghost var before := Table();
      var todo := locks.Keys;
      assert locks.Keys - todo == {};
      SweepNone(leaseTimeout, before, now, clock);
      while todo != {}
        invariant Separate() && todo <= locks.Keys
        invariant Table() == SweptSome(leaseTimeout, before, now, clock, locks.Keys - todo)
        decreases todo
      {
        var resource :| resource in todo;
        SweepOneMore(leaseTimeout, before, now, clock, locks.Keys - todo, resource);
        assert locks.Keys - todo + {resource} == locks.Keys - (todo - {resource});
        ExpireLease(resource, now, clock);
        todo := todo - {resource};
      }
      assert locks.Keys - todo == before.locks.Keys;
      SweepAll(leaseTimeout, before, now, clock);
      LockSafety.NextInv(leaseTimeout, before, Sweep(now, clock));
      PassExactly(leaseTimeout, before, now, clock);
    }

    /** The commit callback. */
    method ApplyLockCommand(command: Command, now: real)
      requires Valid()
      modifies this, detector, locks.Values
      ensures Valid() && fresh(locks.Values - old(locks.Values))
      ensures Table() == Apply(leaseTimeout, old(Table()), command, now)
      ensures forall r ::
                EventEffect(leaseTimeout, LockOf(old(Table()), r), r, Commit(command, now), LockOf(Table(), r))
    {
      hide EventEffect;
      LockSafety.NextInv(leaseTimeout, Table(), Commit(command, now));
      forall r ensures EventEffect(leaseTimeout, LockOf(Table(), r), r, Commit(command, now),
                                   LockOf(Apply(leaseTimeout, Table(), command, now), r)) {
        EventExactly(leaseTimeout, Table(), Commit(command, now), r);
      }
      match command
      case Acquire(resource, client, mode, asked) =>
        DoAcquire(resource, client, mode, if asked.Some? then asked.value else leaseTimeout, now);
      case Release(resource, client) => DoRelease(resource, client, now);
      case Other =>
    }

    /** The lists that the deadlock endpoint returns are exactly the tree cycles of a search of the
        graph. No false deadlock: each of them is a ring of clients that wait for one another on locks
        held now. No missed deadlock while the graph holds every wait: whenever two or more clients wait
        in a ring, some list is returned. */
    method HandleDeadlocks() returns (cycles: seq<seq<Client>>, ghost parent: map<Client, Client>)
      requires Valid()
      ensures SearchResult(Table().waitFor, cycles, parent)
      ensures forall ring | ring in cycles :: CircularWait(Table(), ring)
      ensures EdgesComplete(Table()) && (exists ring :: |ring| >= 2 && CircularWait(Table(), ring)) ==> cycles != []
    {
      hide SearchResult, SimpleCycle, CircularWait, EdgesComplete, LockSafety.EdgesReal, LockSafety.LockInv;
      ghost var first;
      cycles, parent, first := detector.DetectCycles();
      forall ring | ring in cycles ensures CircularWait(Table(), ring) {
        ReportedIsSimple(detector.waitFor, cycles, parent, ring);
        CyclesAreReal(Table(), ring);
      }
      if ring :| EdgesComplete(Table()) && |ring| >= 2 && CircularWait(Table(), ring) {
        CircularWaitsAreCycles(Table(), ring);
        SomethingReported(detector.waitFor, cycles, parent, ring);
      }
    }
  }
}
