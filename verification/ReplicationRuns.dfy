/** Runs of many replicators over a network that loses, duplicates and reorders. `asked` records
    what clients asked for, `past`, `known` and `seen` causal history; no node reads them. */
module ReplicationRuns {
  import opened Options
  import opened VectorClocks
  import opened Replication

  /** The `number`-th write of `origin`. */
  datatype WriteId = WriteId(origin: NodeId, number: nat)

  /** What a client asked a node to write, and what the clock of the node showed. */
  datatype Request = Request(key: Key, value: Value, now: real)

  /** `asked[w]` is the request that write `w` answers, `written[w]` its entry and `past[w]` the writes
      its author knew of; `known[n]` are the writes `n` knows of, directly or through others; `seen[n]`
      those whose entry `n` has itself written or received. */
  datatype World = World(
    nodes: map<NodeId, Node>, net: set<Entry>, asked: map<WriteId, Request>,
    written: map<WriteId, Entry>, past: map<WriteId, set<WriteId>>,
    known: map<NodeId, set<WriteId>>, seen: map<NodeId, set<WriteId>>)

  datatype Step =
    | Put(n: NodeId, key: Key, value: Value, now: real)
    | Deliver(n: NodeId, entry: Entry, now: real)

  function IdOf(e: Entry): WriteId {
    WriteId(e.origin, Get(e.clock, e.origin))
  }

  function Initial(ids: set<NodeId>): World {
    World(map n | n in ids :: BLANK, {}, map[], map[], map[], map n | n in ids :: {}, map n | n in ids :: {})
  }

  predicate Enabled(w: World, step: Step) {
    && step.n in w.nodes && step.n in w.known && step.n in w.seen
    && (step.Deliver? ==> step.entry in w.net && IdOf(step.entry) in w.past)
  }

  ghost function Do(w: World, step: Step): World
    requires Enabled(w, step)
  {
    var s := w.nodes[step.n];
    match step
    case Put(n, key, value, now) =>
      var e := Written(n, s, key, value, now);
      World(w.nodes[n := Write(n, s, key, value, now)], w.net + {e}, w.asked[IdOf(e) := Request(key, value, now)],
            w.written[IdOf(e) := e], w.past[IdOf(e) := w.known[n]],
            w.known[n := w.known[n] + {IdOf(e)}], w.seen[n := w.seen[n] + {IdOf(e)}])
    case Deliver(n, e, now) =>
      World(w.nodes[n := Receive(s, e, now)], w.net, w.asked, w.written, w.past,
            w.known[n := w.known[n] + w.past[IdOf(e)] + {IdOf(e)}], w.seen[n := w.seen[n] + {IdOf(e)}])
  }

  ghost function After(ids: set<NodeId>, steps: seq<Step>): Option<World> {
    if steps == [] then Some(Initial(ids))
    else
      var before, last := After(ids, steps[..|steps| - 1]), steps[|steps| - 1];
      if before.Some? && Enabled(before.value, last) then Some(Do(before.value, last)) else None
  }

  // ----- Clocks are causal histories -----

  /** The writes a clock counts. */
  function Counted(c: Clock): set<WriteId> {
    set k, i | k in c && 1 <= i <= c[k] :: WriteId(k, i)
  }

  lemma CountedGet(c: Clock, id: WriteId)
    ensures id in Counted(c) <==> 1 <= id.number <= Get(c, id.origin)
  {
  }

  lemma CountedLeq(a: Clock, b: Clock)
    ensures Leq(a, b) <==> Counted(a) <= Counted(b)
  {
    hide Counted;
    if Leq(a, b) {
      forall id | id in Counted(a) ensures id in Counted(b) { CountedGet(a, id); CountedGet(b, id); }
    }
    if Counted(a) <= Counted(b) {
      forall k ensures Get(a, k) <= Get(b, k) {
        if Get(a, k) > 0 {
          CountedGet(a, WriteId(k, Get(a, k)));
          CountedGet(b, WriteId(k, Get(a, k)));
        }
      }
    }
  }

  lemma CountedIncremented(c: Clock, k: NodeId)
    ensures Counted(Incremented(c, k)) == Counted(c) + {WriteId(k, Get(c, k) + 1)}
  {
    hide Counted;
    forall id ensures id in Counted(Incremented(c, k)) <==> id in Counted(c) || id == WriteId(k, Get(c, k) + 1) {
      CountedGet(c, id);
      CountedGet(Incremented(c, k), id);
    }
  }

  lemma CountedMerged(a: Clock, b: Clock)
    ensures Counted(Merged(a, b)) == Counted(a) + Counted(b)
  {
    hide Counted, Merged;
    MergedGet(a, b);
    forall id ensures id in Counted(Merged(a, b)) <==> id in Counted(a) || id in Counted(b) {
      CountedGet(a, id);
      CountedGet(b, id);
      CountedGet(Merged(a, b), id);
    }
  }

  /** A set of writes that holds the past of each of its members, all of them real. */
  ghost predicate Closed(w: World, ids: set<WriteId>) {
    forall v | v in ids :: v in w.past && w.past[v] <= ids
  }

  ghost predicate NodeExact(w: World, n: NodeId)
    requires n in w.nodes && n in w.known
  {
    w.known[n] == Counted(w.nodes[n].clock) && Closed(w, w.known[n])
  }

  ghost predicate WriteExact(w: World, id: WriteId)
    requires id in w.written && id in w.past
  {
    && IdOf(w.written[id]) == id
    && id !in w.past[id] && w.past[id] + {id} == Counted(w.written[id].clock)
    && Closed(w, w.past[id])
    && id.origin in w.known && id in w.known[id.origin]
  }

  ghost predicate CausalInv(w: World) {
    && w.nodes.Keys == w.known.Keys == w.seen.Keys && w.written.Keys == w.past.Keys
    && (forall n | n in w.nodes :: NodeExact(w, n))
    && (forall id | id in w.written :: WriteExact(w, id))
    && (forall e | e in w.net :: IdOf(e) in w.written && w.written[IdOf(e)] == e)
  }

  /** What a step leaves alone, and the one write and one node it changes. */
  ghost predicate PutEffect(w: World, n: NodeId, id: WriteId, e: Entry, w': World)
    requires n in w.nodes && n in w.known
  {
    && e.origin == n && e.clock == Incremented(w.nodes[n].clock, n) && id == IdOf(e)
    && n in w'.nodes && w'.nodes == w.nodes[n := w'.nodes[n]] && w'.nodes[n].clock == e.clock
    && w'.net == w.net + {e}
    && w'.written == w.written[id := e] && w'.past == w.past[id := w.known[n]]
    && w'.known == w.known[n := w.known[n] + {id}]
    && w'.seen.Keys == w.seen.Keys + {n}
  }

  lemma PutHasEffect(w: World, step: Step)
    requires step.Put? && Enabled(w, step)
    ensures var e := Written(step.n, w.nodes[step.n], step.key, step.value, step.now);
            PutEffect(w, step.n, IdOf(e), e, Do(w, step))
  {
  }

  lemma PutExact(w: World, n: NodeId, id: WriteId, e: Entry, w': World)
    requires CausalInv(w) && n in w.nodes && PutEffect(w, n, id, e, w')
    ensures id !in w.written && n in w'.known && NodeExact(w', n) && WriteExact(w', id)
  {
    hide Counted, Get, Incremented, Closed;
    FreshId(w, n, e);
    CountedIncremented(w.nodes[n].clock, n);
    assert NodeExact(w, n);
    StillClosed(w, w', w.known[n], id);
    OneMoreClosed(w', w.known[n], id);
  }

  lemma PutNode(w: World, w': World, id: WriteId, m: NodeId)
    requires id !in w.past && forall v | v in w.past :: v in w'.past && w'.past[v] == w.past[v]
    requires m in w.nodes && m in w.known && NodeExact(w, m)
    requires m in w'.nodes && m in w'.known && w'.nodes[m] == w.nodes[m] && w'.known[m] == w.known[m]
    ensures NodeExact(w', m)
  {
    StillClosed(w, w', w.known[m], id);
  }

  lemma PutWrite(w: World, w': World, id: WriteId, v: WriteId)
    requires id !in w.past && forall u | u in w.past :: u in w'.past && w'.past[u] == w.past[u]
    requires v in w.written && v in w.past && WriteExact(w, v)
    requires v in w'.written && w'.written[v] == w.written[v]
    requires v.origin in w'.known && w.known[v.origin] <= w'.known[v.origin]
    ensures WriteExact(w', v)
  {
    StillClosed(w, w', w.past[v], id);
  }

  lemma PutCausal(w: World, n: NodeId, id: WriteId, e: Entry, w': World)
    requires CausalInv(w) && n in w.nodes && PutEffect(w, n, id, e, w')
    ensures CausalInv(w')
  {
    hide Incremented, IdOf, NodeExact, WriteExact;
    PutExact(w, n, id, e, w');
    forall m | m in w'.nodes ensures NodeExact(w', m) {
      if m != n { PutNode(w, w', id, m); }
    }
    forall v | v in w'.written ensures WriteExact(w', v) {
      if v != id {
        OriginKnown(w, v);
        PutWrite(w, w', id, v);
      }
    }
  }

  lemma OwnIsKnown(w: World, id: WriteId)
    requires CausalInv(w)
    ensures id in w.written ==> id.origin in w.known && id in w.known[id.origin]
  {
    assert id in w.written ==> WriteExact(w, id);
  }

  /** The number of a write is new, because a node knows all its own writes. */
  lemma FreshId(w: World, n: NodeId, e: Entry)
    requires CausalInv(w) && n in w.nodes && e.clock == Incremented(w.nodes[n].clock, n) && e.origin == n
    ensures IdOf(e) == WriteId(n, Get(w.nodes[n].clock, n) + 1)
    ensures IdOf(e) !in w.known[n] && IdOf(e) !in w.written
  {
    hide Counted;
    assert NodeExact(w, n);
    CountedGet(w.nodes[n].clock, IdOf(e));
    OwnIsKnown(w, IdOf(e));
  }

  lemma StillClosed(w: World, w': World, ids: set<WriteId>, id: WriteId)
    requires Closed(w, ids) && id !in w.past
    requires forall v | v in w.past :: v in w'.past && w'.past[v] == w.past[v]
    ensures Closed(w', ids) && id !in ids
  {
  }

  lemma OneMoreClosed(w: World, ids: set<WriteId>, id: WriteId)
    requires id in w.past
    ensures Closed(w, ids) && w.past[id] <= ids ==> Closed(w, ids + {id})
  {
  }

  lemma UnionClosed(w: World, a: set<WriteId>, b: set<WriteId>)
    requires Closed(w, a) && Closed(w, b)
    ensures Closed(w, a + b)
  {
  }

  ghost predicate DeliverEffect(w: World, n: NodeId, e: Entry, w': World)
    requires n in w.nodes && n in w.known && IdOf(e) in w.past
  {
    && n in w'.nodes && w'.nodes == w.nodes[n := w'.nodes[n]]
    && w'.nodes[n].clock == Merged(w.nodes[n].clock, e.clock)
    && w'.net == w.net && w'.written == w.written && w'.past == w.past
    && w'.known == w.known[n := w.known[n] + w.past[IdOf(e)] + {IdOf(e)}]
    && w'.seen.Keys == w.seen.Keys + {n}
  }

  lemma DeliverHasEffect(w: World, step: Step)
    requires step.Deliver? && Enabled(w, step)
    ensures DeliverEffect(w, step.n, step.entry, Do(w, step))
  {
    hide Beats, Verdict, Merged;
  }

  lemma DeliverExact(w: World, n: NodeId, e: Entry, w': World)
    requires CausalInv(w) && e in w.net && n in w.nodes && IdOf(e) in w.past && DeliverEffect(w, n, e, w')
    ensures n in w'.nodes && n in w'.known && NodeExact(w', n)
  {
    hide Counted, Get, Merged, IdOf, Closed;
    var id := IdOf(e);
    assert w.written[id] == e && WriteExact(w, id) && NodeExact(w, n);
    CountedMerged(w.nodes[n].clock, e.clock);
    assert w.known[n] + w.past[id] + {id} == w.known[n] + (w.past[id] + {id});
    OneMoreClosed(w, w.past[id], id);
    UnionClosed(w, w.known[n], w.past[id] + {id});
    SameClosed(w, w', w.known[n] + (w.past[id] + {id}));
  }

  lemma SameClosed(w: World, w': World, ids: set<WriteId>)
    requires w'.past == w.past
    ensures Closed(w', ids) == Closed(w, ids)
  {
  }

  lemma SameNode(w: World, w': World, m: NodeId)
    requires w'.past == w.past && m in w.nodes && m in w.known && NodeExact(w, m)
    requires m in w'.nodes && m in w'.known && w'.nodes[m] == w.nodes[m] && w'.known[m] == w.known[m]
    ensures NodeExact(w', m)
  {
    SameClosed(w, w', w.known[m]);
  }

  lemma SameWrite(w: World, w': World, v: WriteId)
    requires w'.past == w.past && w'.written == w.written && v in w.written && v in w.past && WriteExact(w, v)
    requires v.origin in w'.known && w.known[v.origin] <= w'.known[v.origin]
    ensures WriteExact(w', v)
  {
    SameClosed(w, w', w.past[v]);
  }

  lemma OriginKnown(w: World, v: WriteId)
    requires v in w.written && v in w.past && WriteExact(w, v)
    ensures v.origin in w.known
  {
  }

  lemma DeliverCausal(w: World, n: NodeId, e: Entry, w': World)
    requires CausalInv(w) && e in w.net && n in w.nodes && IdOf(e) in w.past && DeliverEffect(w, n, e, w')
    ensures CausalInv(w')
  {
    hide Merged, IdOf, NodeExact, WriteExact;
    DeliverExact(w, n, e, w');
    forall m | m in w'.nodes ensures NodeExact(w', m) {
      if m != n { SameNode(w, w', m); }
    }
    forall v | v in w'.written ensures WriteExact(w', v) {
      OriginKnown(w, v);
      SameWrite(w, w', v);
    }
  }

  lemma StepCausal(w: World, step: Step)
    requires CausalInv(w) && Enabled(w, step)
    ensures CausalInv(Do(w, step))
  {
    hide CausalInv, Do, PutEffect, DeliverEffect;
    if step.Put? {
      var e := Written(step.n, w.nodes[step.n], step.key, step.value, step.now);
      PutHasEffect(w, step);
      PutCausal(w, step.n, IdOf(e), e, Do(w, step));
    } else {
      DeliverHasEffect(w, step);
      DeliverCausal(w, step.n, step.entry, Do(w, step));
    }
  }

  lemma {:induction false} CausalAlways(ids: set<NodeId>, steps: seq<Step>)
    requires After(ids, steps).Some?
    ensures CausalInv(After(ids, steps).value)
  {
    hide CausalInv, Do;
    if steps == [] {
      InitialCausal(ids);
    } else {
      var before, last := steps[..|steps| - 1], steps[|steps| - 1];
      CausalAlways(ids, before);
      StepCausal(After(ids, before).value, last);
    }
  }

  lemma InitialCausal(ids: set<NodeId>)
    ensures CausalInv(Initial(ids))
  {
    assert Counted(map[]) == {};
  }

  /** Vector clocks are exact: distinct writes have distinct clocks, and one is ahead of another
      exactly if the other write is in its causal past. */
  lemma ClocksAreExact(ids: set<NodeId>, steps: seq<Step>, v: WriteId, u: WriteId)
    requires After(ids, steps).Some?
    requires var w := After(ids, steps).value; v in w.written && u in w.written && v != u
    ensures var w := After(ids, steps).value;
            && v in w.past && u in w.past
            && !Same(w.written[v].clock, w.written[u].clock)
            && (Ahead(w.written[u].clock, w.written[v].clock) <==> v in w.past[u])
            && (Concurrent(w.written[u].clock, w.written[v].clock) <==> v !in w.past[u] && u !in w.past[v])
  {
    hide After, Do;
    CausalAlways(ids, steps);
    PairExact(After(ids, steps).value, v, u);
  }

  lemma PairExact(w: World, v: WriteId, u: WriteId)
    requires CausalInv(w) && v in w.written && u in w.written && v != u
    ensures !Same(w.written[v].clock, w.written[u].clock)
    ensures Ahead(w.written[u].clock, w.written[v].clock) <==> v in w.past[u]
    ensures Concurrent(w.written[u].clock, w.written[v].clock) <==> v !in w.past[u] && u !in w.past[v]
  {
    hide Counted;
    var a, b := w.written[v].clock, w.written[u].clock;
    assert WriteExact(w, v) && WriteExact(w, u);
    CountedLeq(a, b);
    CountedLeq(b, a);
    ExactlyOne(a, b);
    assert v in Counted(a) && u in Counted(b);
  }

  // ----- Convergence -----

  /** Writes to one key carry distinct time stamps that respect causality, and none is zero. */
  ghost predicate Timely(w: World) {
    && (forall v | v in w.written :: w.written[v].timestamp != 0.0)
    && (forall v, u | v in w.written && u in w.written && v != u && w.written[v].key == w.written[u].key ::
          TimelyPair(w.written[v], w.written[u]))
  }

  ghost predicate TimelyPair(a: Entry, b: Entry) {
    a.timestamp != b.timestamp && (Ahead(b.clock, a.clock) ==> b.timestamp > a.timestamp)
  }

  /** `e` is, of the entries for `key` among the writes `ids`, the one with the greatest time stamp. */
  ghost predicate Latest(w: World, ids: set<WriteId>, key: Key, e: Entry) {
    && e.key == key && IdOf(e) in ids && IdOf(e) in w.written && w.written[IdOf(e)] == e
    && forall v | v in ids && v in w.written && w.written[v].key == key :: w.written[v].timestamp <= e.timestamp
  }

  ghost predicate NoneFor(w: World, ids: set<WriteId>, key: Key) {
    forall v | v in ids && v in w.written :: w.written[v].key != key
  }

  ghost predicate StoresLatest(w: World, n: NodeId, key: Key)
    requires n in w.nodes && n in w.seen
  {
    match StoredAt(w.nodes[n], key)
    case None => NoneFor(w, w.seen[n], key)
    case Some(e) => Latest(w, w.seen[n], key, e)
  }

  ghost predicate StoreInv(w: World) {
    && w.nodes.Keys == w.known.Keys == w.seen.Keys
    && (forall n | n in w.nodes :: w.seen[n] <= w.known[n])
    && (forall n, key | n in w.nodes :: StoresLatest(w, n, key))
  }

  ghost predicate PutStores(w: World, n: NodeId, id: WriteId, e: Entry, w': World)
    requires n in w.nodes && n in w.seen
  {
    && w'.seen == w.seen[n := w.seen[n] + {id}]
    && n in w'.nodes && w'.nodes[n].store == w.nodes[n].store[e.key := Stored(e, Pending)]
  }

  lemma PutHasStored(w: World, step: Step)
    requires step.Put? && Enabled(w, step)
    ensures var e := Written(step.n, w.nodes[step.n], step.key, step.value, step.now);
            PutStores(w, step.n, IdOf(e), e, Do(w, step))
  {
  }

  /** The unconditional local write is consistent with last-writer-wins. */
  lemma PutIsLatest(w: World, n: NodeId, id: WriteId, e: Entry, w': World)
    requires CausalInv(w) && CausalInv(w') && n in w.nodes && n in w.seen && w.seen[n] <= w.known[n]
    requires PutEffect(w, n, id, e, w') && id !in w.written && Timely(w')
    ensures Latest(w', w.seen[n] + {id}, e.key, e)
  {
    hide IdOf, Incremented, NodeExact, WriteExact, TimelyPair, Timely;
    KnownIsWritten(w, n);
    forall v | v in w.seen[n] + {id} && v in w'.written && w'.written[v].key == e.key
      ensures w'.written[v].timestamp <= e.timestamp
    {
      if v != id {
        PairExact(w', v, id);
        AheadIsLater(w', v, id);
      }
    }
  }

  lemma PutLatest(w: World, n: NodeId, id: WriteId, e: Entry, w': World)
    requires CausalInv(w) && CausalInv(w') && StoreInv(w) && n in w.nodes
    requires PutEffect(w, n, id, e, w') && PutStores(w, n, id, e, w') && id !in w.written && Timely(w')
    ensures StoreInv(w')
  {
    hide IdOf, Incremented, CausalInv, Timely;
    PutIsLatest(w, n, id, e, w');
    forall m, key | m in w'.nodes ensures StoresLatest(w', m, key) {
      assert StoresLatest(w, m, key);
      KnownIsWritten(w, m);
    }
  }

  lemma KnownIsWritten(w: World, n: NodeId)
    requires CausalInv(w) && n in w.nodes
    ensures w.known[n] <= w.written.Keys
  {
    assert NodeExact(w, n);
  }

  lemma AheadIsLater(w: World, v: WriteId, u: WriteId)
    requires Timely(w) && v in w.written && u in w.written && v != u && w.written[v].key == w.written[u].key
    ensures w.written[v].timestamp != w.written[u].timestamp
    ensures Ahead(w.written[u].clock, w.written[v].clock) ==> w.written[v].timestamp < w.written[u].timestamp
    ensures Ahead(w.written[v].clock, w.written[u].clock) ==> w.written[u].timestamp < w.written[v].timestamp
  {
    assert TimelyPair(w.written[v], w.written[u]) && TimelyPair(w.written[u], w.written[v]);
  }

  ghost predicate DeliverStores(w: World, n: NodeId, e: Entry, w': World)
    requires n in w.nodes && n in w.seen
  {
    && w'.seen == w.seen[n := w.seen[n] + {IdOf(e)}]
    && n in w'.nodes
    && (forall key | key != e.key :: StoredAt(w'.nodes[n], key) == StoredAt(w.nodes[n], key))
    && var existing := StoredAt(w.nodes[n], e.key);
       StoredAt(w'.nodes[n], e.key) == if existing == None || Beats(e, existing.value) then Some(e) else existing
  }

  lemma DeliverHasStored(w: World, step: Step)
    requires step.Deliver? && Enabled(w, step) && step.entry.timestamp != 0.0
    ensures DeliverStores(w, step.n, step.entry, Do(w, step))
  {
    hide Beats, Verdict, Merged;
  }

  /** For timely writes, beating is having the later time stamp. */
  lemma BeatsIsLater(w: World, a: Entry, b: Entry)
    requires CausalInv(w) && Timely(w) && a.key == b.key
    requires IdOf(a) in w.written && w.written[IdOf(a)] == a && IdOf(b) in w.written && w.written[IdOf(b)] == b
    ensures Beats(a, b) <==> a.timestamp > b.timestamp
  {
    hide Concurrent, Ahead, Same, CausalInv, Timely, IdOf;
    ExactlyOne(a.clock, b.clock);
    ExactlyOne(b.clock, a.clock);
    if IdOf(a) == IdOf(b) {
      ClockNotAheadOfItself(a.clock);
    } else {
      PairExact(w, IdOf(a), IdOf(b));
      AheadIsLater(w, IdOf(a), IdOf(b));
    }
  }

  lemma ClockNotAheadOfItself(c: Clock)
    ensures !Ahead(c, c) && !Concurrent(c, c)
  {
  }

  lemma DeliverHere(w: World, n: NodeId, e: Entry, w': World)
    requires CausalInv(w) && n in w.nodes && n in w.seen && StoresLatest(w, n, e.key) && e in w.net && Timely(w)
    requires n in w.known && IdOf(e) in w.past && DeliverEffect(w, n, e, w') && DeliverStores(w, n, e, w')
    ensures StoresLatest(w', n, e.key)
  {
    hide IdOf, Merged, NodeExact, WriteExact, Timely, Beats;
    if StoredAt(w.nodes[n], e.key).Some? {
      BeatsIsLater(w, e, StoredAt(w.nodes[n], e.key).value);
    }
  }

  lemma DeliverLatest(w: World, n: NodeId, e: Entry, w': World)
    requires CausalInv(w) && StoreInv(w) && n in w.nodes && e in w.net && Timely(w)
    requires IdOf(e) in w.past && DeliverEffect(w, n, e, w') && DeliverStores(w, n, e, w')
    ensures StoreInv(w')
  {
    hide IdOf, Merged, NodeExact, WriteExact, Timely, Beats;
    DeliverHere(w, n, e, w');
    forall m, key | m in w'.nodes ensures StoresLatest(w', m, key) {
      assert StoresLatest(w, m, key);
    }
  }

  lemma {:induction false} StoreAlways(ids: set<NodeId>, steps: seq<Step>)
    requires After(ids, steps).Some? && Timely(After(ids, steps).value)
    ensures StoreInv(After(ids, steps).value)
  {
    hide CausalInv, StoreInv, Do, Timely;
    CausalAlways(ids, steps);
    if steps == [] {
      InitialStores(ids);
    } else {
      var before, last := steps[..|steps| - 1], steps[|steps| - 1];
      var w := After(ids, before).value;
      CausalAlways(ids, before);
      TimelyBefore(w, last);
      StoreAlways(ids, before);
      StepStores(w, last);
    }
  }

  lemma InitialStores(ids: set<NodeId>)
    ensures StoreInv(Initial(ids))
  {
  }

  lemma TimelyBefore(w: World, step: Step)
    requires CausalInv(w) && Enabled(w, step) && Timely(Do(w, step))
    ensures Timely(w)
  {
    hide CausalInv, TimelyPair, NodeExact, WriteExact, Receive;
    var w' := Do(w, step);
    if step.Put? {
      FreshId(w, step.n, Written(step.n, w.nodes[step.n], step.key, step.value, step.now));
    }
    assert forall v | v in w.written :: v in w'.written && w'.written[v] == w.written[v];
  }

  lemma StepStores(w: World, step: Step)
    requires CausalInv(w) && StoreInv(w) && Enabled(w, step) && Timely(w) && Timely(Do(w, step))
    ensures StoreInv(Do(w, step))
  {
    hide StoreInv, Do, PutEffect, DeliverEffect, PutStores, DeliverStores, NodeExact, WriteExact, TimelyPair;
    StepCausal(w, step);
    if step.Put? {
      var e := Written(step.n, w.nodes[step.n], step.key, step.value, step.now);
      FreshId(w, step.n, e);
      PutHasEffect(w, step);
      PutHasStored(w, step);
      PutLatest(w, step.n, IdOf(e), e, Do(w, step));
    } else {
      assert w.written[IdOf(step.entry)] == step.entry;
      DeliverHasEffect(w, step);
      DeliverHasStored(w, step);
      DeliverLatest(w, step.n, step.entry, Do(w, step));
    }
  }

  /** The entry a node stores for a key is the latest of all entries for it that the node has
      written or received, and it stores none exactly if there are none. */
  lemma StoredIsLatest(ids: set<NodeId>, steps: seq<Step>, n: NodeId, key: Key)
    requires After(ids, steps).Some? && Timely(After(ids, steps).value) && n in After(ids, steps).value.nodes
    ensures var w := After(ids, steps).value; n in w.seen && StoresLatest(w, n, key)
  {
    StoreAlways(ids, steps);
  }

  /** The writes to `key` that `n` has seen. */
  ghost function SeenFor(w: World, n: NodeId, key: Key): set<WriteId>
    requires n in w.seen
  {
    set v | v in w.seen[n] && v in w.written && w.written[v].key == key
  }

  /** Nodes that have seen the same writes to a key, in whatever order and however often, store the
      same entry for it. */
  lemma NodesConverge(ids: set<NodeId>, steps: seq<Step>, m: NodeId, n: NodeId, key: Key)
    requires After(ids, steps).Some? && Timely(After(ids, steps).value)
    requires var w := After(ids, steps).value;
             m in w.nodes && n in w.nodes && m in w.seen && n in w.seen && SeenFor(w, m, key) == SeenFor(w, n, key)
    ensures var w := After(ids, steps).value; StoredAt(w.nodes[m], key) == StoredAt(w.nodes[n], key)
  {
    hide After, TimelyPair, IdOf;
    StoredIsLatest(ids, steps, m, key);
    StoredIsLatest(ids, steps, n, key);
    SameSeenSameStored(After(ids, steps).value, m, n, key);
  }

  lemma SameSeenSameStored(w: World, m: NodeId, n: NodeId, key: Key)
    requires m in w.nodes && n in w.nodes && m in w.seen && n in w.seen && SeenFor(w, m, key) == SeenFor(w, n, key)
    requires Timely(w) && StoresLatest(w, m, key) && StoresLatest(w, n, key)
    ensures StoredAt(w.nodes[m], key) == StoredAt(w.nodes[n], key)
  {
    hide TimelyPair, IdOf;
    assert forall v :: v in SeenFor(w, m, key) <==> v in SeenFor(w, n, key);
    var a, b := StoredAt(w.nodes[m], key), StoredAt(w.nodes[n], key);
    if a.Some? { assert IdOf(a.value) in SeenFor(w, m, key); }
    if b.Some? { assert IdOf(b.value) in SeenFor(w, n, key); }
    if a.Some? && b.Some? && IdOf(a.value) != IdOf(b.value) {
      AheadIsLater(w, IdOf(a.value), IdOf(b.value));
    }
  }
}
