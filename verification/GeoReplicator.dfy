/** `Replicator` of src/geo/replicator.py as an object with mutable entries and clocks; its two
    operations are proved to do what `Replication` says. */
module GeoReplicator {
  import opened Options
  import opened VectorClocks
  import opened Replication

  /** `ReplicatedEntry`. Its clock is a copy that nothing updates, so it is a value here. */
  class ReplicatedEntry {
    const key: Key
    const value: Value
    const vectorClock: Clock
    const origin: NodeId
    const timestamp: real
    var status: Status

    constructor (key: Key, value: Value, vectorClock: Clock, origin: NodeId, stamp: Option<real>, now: real)
      ensures this.key == key && this.value == value && this.vectorClock == vectorClock && this.origin == origin
      ensures timestamp == (if stamp == None || stamp == Some(0.0) then now else stamp.value) && status == Pending
    {
      this.key, this.value, this.vectorClock, this.origin := key, value, vectorClock, origin;
      timestamp := if stamp == None || stamp == Some(0.0) then now else stamp.value;
      status := Pending;
    }

    ghost function Body(): Entry {
      Entry(key, value, vectorClock, origin, timestamp)
    }

    ghost function View(): Stored
      reads this
    {
      Stored(Body(), status)
    }
  }

  lemma WriteIs(me: NodeId, s: Node, key: Key, value: Value, now: real)
    ensures var entry := Written(me, s, key, value, now);
            Replication.Write(me, s, key, value, now) == Node(entry.clock, s.store[key := Stored(entry, Pending)])
  {
  }

  lemma ReceiveIs(s: Node, sent: Entry, now: real)
    ensures var entry := Arrived(sent, now);
            var existing := if entry.key in s.store then Some(s.store[entry.key].entry) else None;
            && existing == StoredAt(s, sent.key)
            && Receive(s, sent, now)
            == Node(Merged(s.clock, entry.clock),
                    if existing == None || Beats(entry, existing.value)
                    then s.store[entry.key := Stored(entry, Verdict(entry, existing))] else s.store)
  {
  }

  /** How an arriving entry fares, by the two comparisons of clocks. */
  lemma Fares(entry: Entry, existing: Entry)
    ensures Verdict(entry, None) == Replicated
    ensures Verdict(entry, Some(existing)) ==
              if Concurrent(entry.clock, existing.clock) then Conflict
              else if Ahead(entry.clock, existing.clock) then Replicated else Pending
    ensures Beats(entry, existing) <==>
              if Concurrent(entry.clock, existing.clock) then entry.timestamp > existing.timestamp
              else Ahead(entry.clock, existing.clock)
  {
    NeverBoth(entry.clock, existing.clock);
  }

  class Replicator {
    const nodeId: NodeId
    const vectorClock: VectorClock
    var dataStore: map<Key, ReplicatedEntry>
    var pending: seq<ReplicatedEntry>

    constructor (nodeId: NodeId)
      ensures this.nodeId == nodeId && View() == BLANK && pending == [] && fresh(vectorClock)
    {
      this.nodeId := nodeId;
      vectorClock := new VectorClock(map[]);
      dataStore, pending := map[], [];
    }

    ghost function Shelf(): map<Key, Stored>
      reads this`dataStore, dataStore.Values
    {
      map k | k in dataStore :: dataStore[k].View()
    }

    ghost function View(): Node
      reads this`dataStore, vectorClock, dataStore.Values
    {
      Node(vectorClock.clock, Shelf())
    }

    method Keep(entry: ReplicatedEntry)
      modifies this`dataStore
      ensures dataStore == old(dataStore)[entry.key := entry]
      ensures Shelf() == old(Shelf())[entry.key := entry.View()]
    {
      dataStore := dataStore[entry.key := entry];
    }

    /** Stores the entry, queues it for replication and returns the message for the peers. */
    method Write(key: Key, value: Value, now: real) returns (message: Entry)
      modifies this, vectorClock
      ensures fresh(dataStore.Values - old(dataStore.Values))
      ensures message == Written(nodeId, old(View()), key, value, now)
      ensures View() == Replication.Write(nodeId, old(View()), key, value, now)
      ensures key in dataStore && pending == old(pending) + [dataStore[key]]
      ensures message.key == key && message.value == value && message.origin == nodeId && message.timestamp == now
      ensures message.clock == vectorClock.clock && dataStore[key].View() == Stored(message, Pending)
      ensures forall k | k != key :: (k in dataStore <==> k in old(dataStore)) &&
                                     (k in dataStore ==> dataStore[k] == old(dataStore)[k])
    {
      hide Incremented, Replication.Write;
      WriteIs(nodeId, View(), key, value, now);
      vectorClock.Increment(nodeId);
      var entry := new ReplicatedEntry(key, value, vectorClock.clock, nodeId, None, now);
      assert Shelf() == old(Shelf());
      Keep(entry);
      pending := pending + [entry];
      message := Entry(entry.key, entry.value, entry.vectorClock, entry.origin, entry.timestamp);
    }

    /** Sets an arriving entry, not stored yet, against the stored one. */
    method Resolve(entry: ReplicatedEntry)
      requires entry !in dataStore.Values && entry.status == Pending
      modifies this`dataStore, entry`status
      ensures dataStore.Values <= old(dataStore.Values) + {entry}
      ensures var existing := if entry.key in old(Shelf()) then Some(old(Shelf())[entry.key].entry) else None;
              && entry.status == Verdict(entry.Body(), existing)
              && Shelf() == if existing == None || Beats(entry.Body(), existing.value)
                            then old(Shelf())[entry.key := entry.View()] else old(Shelf())
    {
      hide Concurrent, Ahead, Verdict, Beats;
      Fares(entry.Body(), entry.Body());
      if entry.key in dataStore {
        var existing := dataStore[entry.key];
        Fares(entry.Body(), existing.Body());
        assert old(Shelf())[entry.key].entry == existing.Body();
        var clock := new VectorClock(entry.vectorClock);
        var concurrent := clock.IsConcurrent(existing.vectorClock);
        if concurrent {
          entry.status := Conflict;
          assert Shelf() == old(Shelf());
          if entry.timestamp > existing.timestamp {
            Keep(entry);
          }
        } else {
          var dominates := clock.Dominates(existing.vectorClock);
          if dominates {
            entry.status := Replicated;
            assert Shelf() == old(Shelf());
            Keep(entry);
          }
        }
      } else {
        entry.status := Replicated;
        assert Shelf() == old(Shelf());
        Keep(entry);
      }
    }

    method HandleReplicate(data: Entry, now: real) returns (status: Status)
      modifies this`dataStore, vectorClock
      ensures fresh(dataStore.Values - old(dataStore.Values))
      ensures View() == Receive(old(View()), data, now)
      ensures status == Verdict(Arrived(data, now), StoredAt(old(View()), data.key))
    {
      hide Beats, Verdict, Merged, Receive, StoredAt;
      ReceiveIs(View(), data, now);
      var entry := new ReplicatedEntry(data.key, data.value, data.clock, data.origin, Some(data.timestamp), now);
      assert entry.Body() == Arrived(data, now) && Shelf() == old(Shelf());
      Resolve(entry);
      vectorClock.Merge(entry.vectorClock);
      status := entry.status;
    }
  }

  lemma NeverBoth(a: Clock, b: Clock)
    ensures !(Concurrent(a, b) && Ahead(a, b))
  {
  }
}
