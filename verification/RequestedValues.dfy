/** What replicators store is what clients asked them to write. */
module RequestedValues {
  import opened Options
  import opened VectorClocks
  import opened Replication
  import opened ReplicationRuns

  ghost predicate Carries(e: Entry, ask: Request) {
    e.key == ask.key && e.value == ask.value && e.timestamp == ask.now
  }

  ghost predicate WritesCarry(w: World) {
    w.asked.Keys == w.written.Keys && forall id | id in w.written :: Carries(w.written[id], w.asked[id])
  }

  /** A stored entry is one that was written, but for a time stamp of zero that was replaced on arrival. */
  ghost predicate StoresWritten(w: World, key: Key, e: Entry) {
    && e.key == key && IdOf(e) in w.written
    && var sent := w.written[IdOf(e)];
       e == sent.(timestamp := e.timestamp) && (sent.timestamp != 0.0 ==> e == sent)
  }

  ghost predicate NodeStoresWritten(w: World, n: NodeId)
    requires n in w.nodes
  {
    forall key | key in w.nodes[n].store :: StoresWritten(w, key, w.nodes[n].store[key].entry)
  }

  ghost predicate AllStoreWritten(w: World) {
    forall n | n in w.nodes :: NodeStoresWritten(w, n)
  }

  lemma WritesCarryStep(w: World, step: Step)
    requires Enabled(w, step) && WritesCarry(w)
    ensures WritesCarry(Do(w, step))
  {
    hide Receive;
  }

  lemma StillWritten(w: World, w': World, n: NodeId)
    requires n in w.nodes && n in w'.nodes && w'.nodes[n].store == w.nodes[n].store && NodeStoresWritten(w, n)
    requires forall id | id in w.written :: id in w'.written && w'.written[id] == w.written[id]
    ensures NodeStoresWritten(w', n)
  {
    forall key | key in w'.nodes[n].store ensures StoresWritten(w', key, w'.nodes[n].store[key].entry) {
      assert StoresWritten(w, key, w.nodes[n].store[key].entry);
    }
  }

  lemma PutStoresWritten(w: World, step: Step)
    requires step.Put? && Enabled(w, step) && CausalInv(w) && AllStoreWritten(w)
    ensures AllStoreWritten(Do(w, step))
  {
    hide CausalInv, NodeStoresWritten;
    var w', e := Do(w, step), Written(step.n, w.nodes[step.n], step.key, step.value, step.now);
    FreshNumber(w, step.n, e);
    forall n | n in w'.nodes ensures NodeStoresWritten(w', n) {
      if n != step.n { StillWritten(w, w', n); } else { PutHere(w, step); }
    }
  }

  lemma FreshNumber(w: World, n: NodeId, e: Entry)
    requires CausalInv(w) && n in w.nodes && e.clock == Incremented(w.nodes[n].clock, n) && e.origin == n
    ensures IdOf(e) !in w.written
  {
    FreshId(w, n, e);
  }

  lemma PutHere(w: World, step: Step)
    requires step.Put? && Enabled(w, step) && NodeStoresWritten(w, step.n)
    requires IdOf(Written(step.n, w.nodes[step.n], step.key, step.value, step.now)) !in w.written
    ensures NodeStoresWritten(Do(w, step), step.n)
  {
    hide IdOf;
    var w', n := Do(w, step), step.n;
    forall key | key in w'.nodes[n].store ensures StoresWritten(w', key, w'.nodes[n].store[key].entry) {
      if key != step.key { assert StoresWritten(w, key, w.nodes[n].store[key].entry); }
    }
  }

  lemma DeliverStoresWritten(w: World, step: Step)
    requires step.Deliver? && Enabled(w, step) && CausalInv(w) && AllStoreWritten(w)
    ensures AllStoreWritten(Do(w, step))
  {
    hide NodeExact, WriteExact, NodeStoresWritten, Receive;
    var w' := Do(w, step);
    forall n | n in w'.nodes ensures NodeStoresWritten(w', n) {
      if n != step.n { StillWritten(w, w', n); } else { DeliverHere(w, step); }
    }
  }

  lemma DeliverHere(w: World, step: Step)
    requires step.Deliver? && Enabled(w, step) && NodeStoresWritten(w, step.n)
    requires IdOf(step.entry) in w.written && w.written[IdOf(step.entry)] == step.entry
    ensures NodeStoresWritten(Do(w, step), step.n)
  {
    hide Beats, Verdict, Merged;
    var w', n := Do(w, step), step.n;
    forall key | key in w'.nodes[n].store ensures StoresWritten(w', key, w'.nodes[n].store[key].entry) {
      if w'.nodes[n].store[key].entry != Arrived(step.entry, step.now) {
        assert StoresWritten(w, key, w.nodes[n].store[key].entry);
      }
    }
  }

  lemma {:induction false} WrittenAlways(ids: set<NodeId>, steps: seq<Step>)
    requires After(ids, steps).Some?
    ensures var w := After(ids, steps).value; WritesCarry(w) && AllStoreWritten(w)
  {
    hide CausalInv, Do, WritesCarry, AllStoreWritten;
    if steps == [] {
      InitialWritten(ids);
    } else {
      var before, last := steps[..|steps| - 1], steps[|steps| - 1];
      var w := After(ids, before).value;
      WrittenAlways(ids, before);
      CausalAlways(ids, before);
      WritesCarryStep(w, last);
      if last.Put? { PutStoresWritten(w, last); } else { DeliverStoresWritten(w, last); }
    }
  }

  lemma InitialWritten(ids: set<NodeId>)
    ensures WritesCarry(Initial(ids)) && AllStoreWritten(Initial(ids))
  {
  }

  /** Over every run, each entry that was written, is in flight or is stored answers a request for its
      key and carries the value of that request; its time stamp is the one of the request, unless that
      is zero and the entry came from elsewhere. */
  lemma ValuesWereAsked(ids: set<NodeId>, steps: seq<Step>)
    requires After(ids, steps).Some?
    ensures var w := After(ids, steps).value;
            && w.asked.Keys == w.written.Keys
            && (forall id | id in w.written :: Carries(w.written[id], w.asked[id]))
            && (forall e | e in w.net :: IdOf(e) in w.asked && Carries(e, w.asked[IdOf(e)]))
            && forall n, key | n in w.nodes && key in w.nodes[n].store ::
                 var e := w.nodes[n].store[key].entry;
                 && IdOf(e) in w.asked && key == e.key == w.asked[IdOf(e)].key && e.value == w.asked[IdOf(e)].value
                 && (w.asked[IdOf(e)].now != 0.0 ==> e.timestamp == w.asked[IdOf(e)].now)
  {
    hide NodeExact, WriteExact, IdOf, Do;
    WrittenAlways(ids, steps);
    CausalAlways(ids, steps);
    var w := After(ids, steps).value;
    forall n, key | n in w.nodes && key in w.nodes[n].store
      ensures StoresWritten(w, key, w.nodes[n].store[key].entry)
    {
      assert NodeStoresWritten(w, n);
    }
  }

  /** Under `Timely`, reading `key` at `n` gives the value that was asked for last, by time stamp, of all
      writes to `key` that `n` has made or received; and nothing exactly if there is none. */
  lemma ReadsLatestRequest(ids: set<NodeId>, steps: seq<Step>, n: NodeId, key: Key)
    requires After(ids, steps).Some? && Timely(After(ids, steps).value) && n in After(ids, steps).value.nodes
    ensures var w := After(ids, steps).value;
            && n in w.seen && w.seen[n] <= w.asked.Keys
            && match StoredAt(w.nodes[n], key)
               case None => forall v | v in w.seen[n] :: w.asked[v].key != key
               case Some(e) =>
                 && IdOf(e) in w.seen[n] && w.asked[IdOf(e)].key == key && e.value == w.asked[IdOf(e)].value
                 && forall v | v in w.seen[n] && w.asked[v].key == key :: w.asked[v].now <= w.asked[IdOf(e)].now
  {
    hide After, TimelyPair, IdOf, StoredAt;
    WrittenAlways(ids, steps);
    StoredIsLatest(ids, steps, n, key);
    SeenIsWritten(ids, steps, n);
    assert StoresLatest(After(ids, steps).value, n, key);
  }

  lemma SeenIsWritten(ids: set<NodeId>, steps: seq<Step>, n: NodeId)
    requires After(ids, steps).Some? && Timely(After(ids, steps).value) && n in After(ids, steps).value.nodes
    ensures var w := After(ids, steps).value; n in w.seen && w.seen[n] <= w.written.Keys
  {
    hide After, TimelyPair;
    StoreAlways(ids, steps);
    CausalAlways(ids, steps);
    KnownIsWritten(After(ids, steps).value, n);
  }
}
