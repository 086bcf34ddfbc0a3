/** What becomes of one lock, field by field, when it is asked for, released, or passed by the expiry
    loop; and that leases end. */
module LockEffects {
  import opened Options
  import opened Commands
  import opened LockTable
  import opened LockSafety

  // ----- Field by field -----

  /** The first `n` requests are those that a free lock is granted to: the head alone if it is
      exclusive, and otherwise all shared requests up to the next exclusive one. */
  predicate HeadBatch(queue: seq<Request>, n: nat) {
    && 1 <= n <= |queue|
    && (queue[0].mode == Exclusive ==> n == 1)
    && (queue[0].mode == Shared ==>
          (forall i | 0 <= i < n :: queue[i].mode == Shared) && (n < |queue| ==> queue[n].mode == Exclusive))
  }

  /** The clients of the first `n` requests hold the lock now, under a new token. */
  ghost predicate HandedOver(lock: Lock, lock': Lock, n: nat, expiry: real) {
    && HeadBatch(lock.waiting, n)
    && lock'.lockType == Some(lock.waiting[0].mode) && lock'.waiting == lock.waiting[n..]
    && lock'.token == lock.token + 1 && lock'.leaseExpiry == expiry
    && (forall c :: c in lock'.holders <==> exists i | 0 <= i < n :: lock.waiting[i].client == c)
  }

  /** The holders in `gone` have left. A lock that others still hold, or that nobody waits for, is
      otherwise as it was; any other goes to the head of its queue. */
  ghost predicate LeftBy(lock: Lock, lock': Lock, gone: set<Client>, expiry: real) {
    if (exists c :: c in lock.holders && c !in gone) || lock.waiting == []
    then lock' == lock.(holders := lock'.holders) && forall c :: c in lock'.holders <==> c in lock.holders && c !in gone
    else exists n :: HandedOver(lock, lock', n, expiry)
  }

  lemma VacatedExactly(lock: Lock, gone: set<Client>, expiry: real)
    ensures LeftBy(lock, Vacated(lock, gone, expiry), gone, expiry)
  {
    if (exists c :: c in lock.holders && c !in gone) || lock.waiting == [] {
      if c :| c in lock.holders && c !in gone { assert c in lock.holders - gone; }
    } else {
      var n, lock' := Batch(lock.waiting), Vacated(lock, gone, expiry);
      var served := lock.waiting[..n];
      assert lock.holders - gone == {} && Served(lock, gone) == served;
      assert HeadBatch(lock.waiting, n);
      forall c ensures c in lock'.holders <==> exists i | 0 <= i < n :: lock.waiting[i].client == c {
        if i :| 0 <= i < n && lock.waiting[i].client == c { assert served[i].client == c; }
        if i :| 0 <= i < |served| && served[i].client == c { assert lock.waiting[i].client == c; }
      }
      assert HandedOver(lock, lock', n, expiry);
    }
  }

  /** Which lease has run out when a pass of the expiry loop begins at `now`. */
  predicate RunOut(lock: Lock, now: real) {
    (exists c :: c in lock.holders) && 0.0 < lock.leaseExpiry < now
  }

  /** A pass makes all holders of a lock whose lease has run out leave, whether or not anybody waits,
      and leaves every other lock alone. */
  lemma SweptExactly(lock: Lock, now: real, expiry: real)
    ensures var lock' := Swept(lock, now, expiry);
            if RunOut(lock, now) then LeftBy(lock, lock', lock.holders, expiry) else lock' == lock
  {
    hide Vacated, LeftBy;
    VacatedExactly(lock, lock.holders, expiry);
    if lock.holders != {} { var c :| c in lock.holders; }
  }

  /** A free lock is granted under a new token, a shared one is joined and its lease at most prolonged,
      and any other request goes to the end of the queue. */
  ghost predicate AskedFor(lock: Lock, lock': Lock, client: Client, mode: Mode, lease: real, now: real) {
    if !(exists c :: c in lock.holders) then
      lock' == Lock(Some(mode), {client}, lock.waiting, lock.token + 1, now + lease)
    else if mode == Shared && lock.lockType == Some(Shared) then
      lock' == lock.(holders := lock.holders + {client},
                     leaseExpiry := if lock.leaseExpiry < now + lease then now + lease else lock.leaseExpiry)
    else lock' == lock.(waiting := lock.waiting + [Request(client, mode, now)])
  }

  lemma AcquiredExactly(lock: Lock, client: Client, mode: Mode, lease: real, now: real)
    ensures AskedFor(lock, Acquired(lock, client, mode, lease, now), client, mode, lease, now)
  {
    if lock.holders != {} { var c :| c in lock.holders; }
  }

  /** What an event does to the lock of `r`: a command for another resource, or none, does nothing. */
  ghost predicate EventEffect(lease: real, lock: Lock, r: Resource, e: Event, lock': Lock) {
    match e
    case Commit(Acquire(resource, client, mode, asked), now) =>
      if resource == r
      then AskedFor(lock, lock', client, mode, if asked.Some? then asked.value else lease, now)
      else lock' == lock
    case Commit(Release(resource, client), now) =>
      if resource == r then LeftBy(lock, lock', {client}, now + lease) else lock' == lock
    case Commit(Other, _) => lock' == lock
    case Sweep(now, clock) =>
      if RunOut(lock, now) then LeftBy(lock, lock', lock.holders, clock(r) + lease) else lock' == lock
  }

  /** Every event, at every table, has exactly that effect on each lock. */
  lemma EventExactly(lease: real, t: Table, e: Event, r: Resource)
    ensures EventEffect(lease, LockOf(t, r), r, e, LockOf(Next(lease, t, e), r))
  {
    hide Vacated, Acquired, Swept, LeftBy, AskedFor, Next;
    OneEvent(lease, t, e, r);
    var lock := LockOf(t, r);
    match e
    case Commit(Acquire(_, client, mode, asked), now) =>
      AcquiredExactly(lock, client, mode, if asked.Some? then asked.value else lease, now);
    case Commit(Release(_, client), now) => VacatedExactly(lock, {client}, now + lease);
    case Commit(Other, _) =>
    case Sweep(now, clock) => SweptExactly(lock, now, clock(r) + lease);
  }

  /** What a pass that begins at `now` makes of every lock. */
  ghost predicate PassEffect(lease: real, t: Table, now: real, clock: Resource -> real, t': Table) {
    forall r :: var lock, lock' := LockOf(t, r), LockOf(t', r);
      if RunOut(lock, now) then LeftBy(lock, lock', lock.holders, clock(r) + lease) else lock' == lock
  }

  lemma PassExactly(lease: real, t: Table, now: real, clock: Resource -> real)
    ensures PassEffect(lease, t, now, clock, SweepLeases(lease, t, now, clock))
  {
    hide RunOut, LeftBy, SweepLeases;
    var t' := SweepLeases(lease, t, now, clock);
    forall r ensures EventEffect(lease, LockOf(t, r), r, Sweep(now, clock), LockOf(t', r)) {
      EventExactly(lease, t, Sweep(now, clock), r);
    }
  }

  // ----- Leases end -----

  /** The clients that an event makes holders of `r`. */
  ghost function GrantedBy(lock: Lock, r: Resource, e: Event): set<Client> {
    match e
    case Commit(Acquire(resource, client, mode, _), _) =>
      if resource == r && !Queues(lock, mode) then {client} else {}
    case _ => Clients(Granted(lock, r, e))
  }

  /** When the lease that an event gives on `r` runs out, if it gives one. */
  ghost function LeaseGiven(lease: real, lock: Lock, r: Resource, e: Event): Option<real> {
    if GrantedBy(lock, r, e) == {} then None
    else
      match e
      case Commit(Acquire(_, _, _, asked), now) => Some(now + if asked.Some? then asked.value else lease)
      case Commit(_, now) => Some(now + lease)
      case Sweep(_, clock) => Some(clock(r) + lease)
  }

  predicate Within(x: real, until: real) {
    0.0 < x <= until
  }

  /** The lease of the present holders, and each that is given later, ends by `until`. */
  ghost predicate LeasesEndBy(lease: real, lock: Lock, r: Resource, events: seq<Event>, until: real) {
    && (lock.holders != {} ==> Within(lock.leaseExpiry, until))
    && forall j | 0 <= j < |events| ::
         match LeaseGiven(lease, LockAfter(lease, lock, r, events[..j]), r, events[j])
         case None => true
         case Some(x) => Within(x, until)
  }

  ghost predicate NotGranted(lease: real, lock: Lock, r: Resource, events: seq<Event>, client: Client, from: nat) {
    forall j | from <= j < |events| :: client !in GrantedBy(LockAfter(lease, lock, r, events[..j]), r, events[j])
  }

  lemma HeldOrGranted(lease: real, lock: Lock, r: Resource, e: Event)
    ensures var lock' := LockNext(lease, lock, r, e);
            && lock'.holders <= lock.holders + GrantedBy(lock, r, e)
            && (lock'.holders != {} ==>
                  || (lock.holders != {} && lock'.leaseExpiry == lock.leaseExpiry)
                  || LeaseGiven(lease, lock, r, e) == Some(lock'.leaseExpiry))
  {
  }

  /** While all leases end by `until`, so does the present one. */
  lemma {:induction false} PresentLeaseEndsBy(lease: real, lock: Lock, r: Resource, events: seq<Event>, until: real)
    requires LeasesEndBy(lease, lock, r, events, until)
    ensures var lock' := LockAfter(lease, lock, r, events);
            lock'.holders != {} ==> Within(lock'.leaseExpiry, until)
  {
    hide LockNext, LeaseGiven, GrantedBy, Within;
    if |events| > 0 {
      var before, last := events[..|events| - 1], events[|events| - 1];
      assert forall j | 0 <= j <= |before| :: before[..j] == events[..j];
      assert forall j | 0 <= j < |before| :: before[j] == events[j];
      PresentLeaseEndsBy(lease, lock, r, before, until);
      HeldOrGranted(lease, LockAfter(lease, lock, r, before), r, last);
    }
  }

  /** Who is not granted the lock does not come to hold it. */
  lemma {:induction false} NotGrantedNotHeld(
    lease: real, lock: Lock, r: Resource, events: seq<Event>, client: Client, from: nat)
    requires from <= |events| && client !in LockAfter(lease, lock, r, events[..from]).holders
    requires NotGranted(lease, lock, r, events, client, from)
    ensures client !in LockAfter(lease, lock, r, events).holders
  {
    hide LockNext, GrantedBy;
    if from == |events| {
      assert events[..from] == events;
    } else {
      var before := events[..|events| - 1];
      assert forall j | 0 <= j <= |before| :: before[..j] == events[..j];
      assert forall j | 0 <= j < |before| :: before[j] == events[j];
      NotGrantedNotHeld(lease, lock, r, before, client, from);
      HeldOrGranted(lease, LockAfter(lease, lock, r, before), r, events[|events| - 1]);
    }
  }

  /** Leases end: once the expiry loop has begun a pass after all leases given on `r` have run out, a
      client holds `r` only if that pass or a later event has granted it. */
  lemma LeaseEnds(
    lease: real, lock: Lock, r: Resource, events: seq<Event>, client: Client, pass: nat, until: real)
    requires pass < |events| && events[pass].Sweep? && events[pass].now > until
    requires LeasesEndBy(lease, lock, r, events[..pass], until)
    requires NotGranted(lease, lock, r, events, client, pass)
    ensures client !in LockAfter(lease, lock, r, events).holders
  {
    hide LockAfter, LockNext, LeasesEndBy, GrantedBy;
    PresentLeaseEndsBy(lease, lock, r, events[..pass], until);
    PassFrees(lease, lock, r, events, client, pass);
    NotGrantedNotHeld(lease, lock, r, events, client, pass + 1);
  }

  /** A pass frees a lock whose lease has run out, but for those it grants the lock to. */
  lemma PassFrees(lease: real, lock: Lock, r: Resource, events: seq<Event>, client: Client, pass: nat)
    requires pass < |events| && events[pass].Sweep?
    requires var mid := LockAfter(lease, lock, r, events[..pass]);
             && (mid.holders != {} ==> 0.0 < mid.leaseExpiry < events[pass].now)
             && client !in GrantedBy(mid, r, events[pass])
    ensures client !in LockAfter(lease, lock, r, events[..pass + 1]).holders
  {
    assert events[..pass + 1][..pass] == events[..pass];
  }
}
