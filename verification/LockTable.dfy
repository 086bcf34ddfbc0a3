/** The lock table and the wait-for graph of src/nodes/lock_manager.py as values, and what each
    operation makes of them. Clock readings are parameters. */
module LockTable {
  import opened Options
  import opened Commands

  datatype Request = Request(client: Client, mode: Mode, timestamp: real)

  datatype Lock = Lock(
    lockType: Option<Mode>, holders: set<Client>, waiting: seq<Request>, token: nat, leaseExpiry: real)

  const UNUSED := Lock(None, {}, [], 0, 0.0)

  /** Client to the clients it waits for. */
  type WaitFor = map<Client, set<Client>>

  datatype Table = Table(locks: map<Resource, Lock>, waitFor: WaitFor)

  const EMPTY := Table(map[], map[])

  /** What happens to a table: a committed command, applied when the clock shows `now`, or a pass of
      the lease expiry loop that began at `now` and reads `clock(r)` while it releases `r`. */
  datatype Event =
    | Commit(command: Command, now: real)
    | Sweep(now: real, clock: Resource -> real)

  // ----- The wait-for graph -----

  function WaitsOf(g: WaitFor, client: Client): set<Client> {
    if client in g then g[client] else {}
  }

  function AddWait(g: WaitFor, waiter: Client, holders: set<Client>): WaitFor {
    g[waiter := WaitsOf(g, waiter) + (holders - {waiter})]
  }

  function RemoveClients(g: WaitFor, gone: set<Client>): WaitFor {
    map w | w in g && w !in gone :: g[w] - gone
  }

  lemma RemoveInTurn(g: WaitFor, first: set<Client>, second: set<Client>)
    ensures RemoveClients(RemoveClients(g, first), second) == RemoveClients(g, first + second)
  {
    assert forall w | w in g :: g[w] - first - second == g[w] - (first + second);
  }

  // ----- One lock -----

  function LockOf(t: Table, r: Resource): Lock {
    if r in t.locks then t.locks[r] else UNUSED
  }

  function Clients(requests: seq<Request>): set<Client> {
    set i | 0 <= i < |requests| :: requests[i].client
  }

  function Later(a: real, b: real): real {
    if a < b then b else a
  }

  predicate Joins(lock: Lock, mode: Mode) {
    mode == Shared && lock.lockType == Some(Shared)
  }

  predicate Queues(lock: Lock, mode: Mode) {
    lock.holders != {} && !Joins(lock, mode)
  }

  function Acquired(lock: Lock, client: Client, mode: Mode, lease: real, now: real): Lock {
    if Queues(lock, mode) then lock.(waiting := lock.waiting + [Request(client, mode, now)])
    else if lock.holders == {} then
      lock.(lockType := Some(mode), holders := {client}, token := lock.token + 1, leaseExpiry := now + lease)
    else lock.(holders := lock.holders + {client}, leaseExpiry := Later(lock.leaseExpiry, now + lease))
  }

  function SharedRun(waiting: seq<Request>): (n: nat)
    ensures n <= |waiting|
    ensures forall i | 0 <= i < n :: waiting[i].mode == Shared
    ensures n < |waiting| ==> waiting[n].mode != Shared
  {
    if waiting == [] || waiting[0].mode != Shared then 0
    else
      var n := 1 + SharedRun(waiting[1..]);
      assert forall i | 1 <= i < n :: waiting[i] == waiting[1..][i - 1] && waiting[i].mode == Shared;
      n
  }

  /** How many requests at the head of the queue are granted together. */
  function Batch(waiting: seq<Request>): (n: nat)
    ensures n <= |waiting|
    ensures waiting != [] ==> 1 <= n
  {
    if waiting != [] && waiting[0].mode == Exclusive then 1 else SharedRun(waiting)
  }

  /** The requests that are granted when the holders in `gone` leave. */
  function Served(lock: Lock, gone: set<Client>): seq<Request> {
    if lock.holders - gone == {} then lock.waiting[..Batch(lock.waiting)] else []
  }

  /** The lock once the holders in `gone` have left it and the head of the queue, if it is then
      free, has been granted. */
  function Vacated(lock: Lock, gone: set<Client>, expiry: real): Lock {
    var served := Served(lock, gone);
    if served == [] then lock.(holders := lock.holders - gone)
    else Lock(Some(served[0].mode), Clients(served), lock.waiting[|served|..], lock.token + 1, expiry)
  }

  /** The clients whose edges go when the holders in `gone` leave. */
  function Released(lock: Lock, gone: set<Client>): set<Client> {
    gone + Clients(Served(lock, gone))
  }

  predicate Lapsed(lock: Lock, now: real) {
    lock.holders != {} && lock.leaseExpiry > 0.0 && now > lock.leaseExpiry
  }

  // ----- The table -----

  function DoAcquire(t: Table, r: Resource, client: Client, mode: Mode, lease: real, now: real): Table {
    var lock := LockOf(t, r);
    Table(t.locks[r := Acquired(lock, client, mode, lease, now)],
          if Queues(lock, mode) then AddWait(t.waitFor, client, lock.holders)
          else RemoveClients(t.waitFor, {client}))
  }

  function DoRelease(t: Table, r: Resource, client: Client, expiry: real): Table {
    if r !in t.locks then t
    else Table(t.locks[r := Vacated(t.locks[r], {client}, expiry)],
               RemoveClients(t.waitFor, Released(t.locks[r], {client})))
  }

  function LeaseOf(lease: real, asked: Option<real>): real {
    if asked.Some? then asked.value else lease
  }

  function Apply(lease: real, t: Table, command: Command, now: real): Table {
    match command
    case Acquire(r, client, mode, asked) => DoAcquire(t, r, client, mode, LeaseOf(lease, asked), now)
    case Release(r, client) => DoRelease(t, r, client, now + lease)
    case Other => t
  }

  function Swept(lock: Lock, now: real, expiry: real): Lock {
    if Lapsed(lock, now) then Vacated(lock, lock.holders, expiry) else lock
  }

  /** The clients whose edges go when the lapsed locks among `resources` are released. */
  function SweptClients(t: Table, now: real, resources: set<Resource>): set<Client> {
    set r, c | r in resources && r in t.locks && Lapsed(t.locks[r], now)
        && c in Released(t.locks[r], t.locks[r].holders) :: c
  }

  /** A pass of the expiry loop, whatever the order of the resources and of their holders. */
  function SweepLeases(lease: real, t: Table, now: real, clock: Resource -> real): Table {
    Table(map r | r in t.locks :: Swept(t.locks[r], now, clock(r) + lease),
          RemoveClients(t.waitFor, SweptClients(t, now, t.locks.Keys)))
  }

  function Next(lease: real, t: Table, e: Event): Table {
    match e
    case Commit(command, now) => Apply(lease, t, command, now)
    case Sweep(now, clock) => SweepLeases(lease, t, now, clock)
  }

  ghost function After(lease: real, t: Table, events: seq<Event>): Table {
    if |events| == 0 then t else Next(lease, After(lease, t, events[..|events| - 1]), events[|events| - 1])
  }

  // ----- One lock across a run -----

  function LockNext(lease: real, lock: Lock, r: Resource, e: Event): Lock {
    match e
    case Commit(Acquire(resource, client, mode, asked), now) =>
      if resource == r then Acquired(lock, client, mode, LeaseOf(lease, asked), now) else lock
    case Commit(Release(resource, client), now) =>
      if resource == r then Vacated(lock, {client}, now + lease) else lock
    case Commit(Other, _) => lock
    case Sweep(now, clock) => Swept(lock, now, clock(r) + lease)
  }

  ghost function LockAfter(lease: real, lock: Lock, r: Resource, events: seq<Event>): Lock {
    if |events| == 0 then lock
    else LockNext(lease, LockAfter(lease, lock, r, events[..|events| - 1]), r, events[|events| - 1])
  }

  /** The locks of a table do not influence one another. */
  lemma {:induction false} LocksStandAlone(lease: real, t: Table, events: seq<Event>, r: Resource)
    ensures LockOf(After(lease, t, events), r) == LockAfter(lease, LockOf(t, r), r, events)
  {
    if |events| > 0 {
      LocksStandAlone(lease, t, events[..|events| - 1], r);
    }
  }
}
