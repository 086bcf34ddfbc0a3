/** The entries of src/geo/replicator.py, what a node does with its own write and with an entry it
    receives, and what becomes of one key when entries arrive in different orders. */
module Replication {
  import opened Options
  import opened VectorClocks

  type Key = string
  type Value = string

  datatype Entry = Entry(key: Key, value: Value, clock: Clock, origin: NodeId, timestamp: real)
  datatype Status = Pending | Replicated | Conflict
  datatype Stored = Stored(entry: Entry, status: Status)
  datatype Node = Node(clock: Clock, store: map<Key, Stored>)

  const BLANK := Node(map[], map[])

  /** `write`: the node's own counter goes up and its entry replaces whatever it stored. */
  function Written(me: NodeId, s: Node, key: Key, value: Value, now: real): Entry {
    Entry(key, value, Incremented(s.clock, me), me, now)
  }

  function Write(me: NodeId, s: Node, key: Key, value: Value, now: real): Node {
    var entry := Written(me, s, key, value, now);
    Node(entry.clock, s.store[key := Stored(entry, Pending)])
  }

  /** A time stamp of zero is falsy in the original: the receiver stamps the entry itself. */
  function Arrived(sent: Entry, now: real): Entry {
    if sent.timestamp == 0.0 then sent.(timestamp := now) else sent
  }

  /** What becomes of an arriving entry against the stored one: `Pending` means it is ignored. */
  ghost function Verdict(entry: Entry, existing: Option<Entry>): Status {
    if existing == None then Replicated
    else if Concurrent(entry.clock, existing.value.clock) then Conflict
    else if Ahead(entry.clock, existing.value.clock) then Replicated
    else Pending
  }

  /** The arriving entry takes the place of the stored one. */
  ghost predicate Beats(entry: Entry, existing: Entry) {
    Ahead(entry.clock, existing.clock)
    || (Concurrent(entry.clock, existing.clock) && entry.timestamp > existing.timestamp)
  }

  function StoredAt(s: Node, key: Key): Option<Entry> {
    if key in s.store then Some(s.store[key].entry) else None
  }

  /** `handle_replicate`. */
  ghost function Receive(s: Node, sent: Entry, now: real): Node {
    var entry := Arrived(sent, now);
    var existing := StoredAt(s, entry.key);
    Node(Merged(s.clock, entry.clock),
         if existing == None || Beats(entry, existing.value)
         then s.store[entry.key := Stored(entry, Verdict(entry, existing))] else s.store)
  }

  // ----- One key, several orders of arrival -----

  /** The entry left after `arrivals`, all for one key, reach a node that stores nothing for it. */
  ghost function Survivor(arrivals: seq<Entry>): Option<Entry> {
    if arrivals == [] then None
    else
      var before, last := Survivor(arrivals[..|arrivals| - 1]), arrivals[|arrivals| - 1];
      if before == None || Beats(last, before.value) then Some(last) else before
  }

  ghost predicate Arrivals(entries: set<Entry>, arrivals: seq<Entry>) {
    (forall e :: e in entries <==> e in arrivals) && forall i, j | 0 <= i < j < |arrivals| :: arrivals[i] != arrivals[j]
  }

  ghost predicate BeatsAll(winner: Entry, entries: set<Entry>) {
    winner in entries && forall e | e in entries && e != winner :: Beats(winner, e)
  }

  lemma BeatsIsOneSided(a: Entry, b: Entry)
    ensures !(Beats(a, b) && Beats(b, a))
  {
  }

  /** Once the entry that beats all others has arrived, it stays. */
  lemma {:induction false} WinnerStays(winner: Entry, entries: set<Entry>, arrivals: seq<Entry>)
    requires BeatsAll(winner, entries) && forall e | e in arrivals :: e in entries
    ensures winner in arrivals ==> Survivor(arrivals) == Some(winner)
    ensures arrivals != [] ==> Survivor(arrivals).Some? && Survivor(arrivals).value in arrivals
  {
    hide Beats;
    if arrivals != [] {
      var before, last := arrivals[..|arrivals| - 1], arrivals[|arrivals| - 1];
      WinnerStays(winner, entries, before);
      BeatsIsOneSided(last, winner);
      if winner in arrivals && winner !in before {
        assert last == winner;
      }
    }
  }

  lemma SurvivorOfTwo(a: Entry, b: Entry)
    ensures Survivor([a]) == Some(a)
    ensures Survivor([a, b]) == Some(if Beats(b, a) then b else a)
  {
    hide Beats;
    assert [a, b][..1] == [a] && [a][..0] == [];
  }

  /** What survives is never brought back once it has been replaced. */
  lemma {:induction false} ReplacedIsGone(arrivals: seq<Entry>, k: nat, x: Entry)
    requires k <= |arrivals| && x !in arrivals[k..]
    requires Survivor(arrivals[..k]) != Some(x)
    ensures Survivor(arrivals) != Some(x)
  {
    hide Beats;
    if k == |arrivals| {
      assert arrivals[..k] == arrivals;
    } else {
      var before := arrivals[..|arrivals| - 1];
      assert before[..k] == arrivals[..k] && before[k..] == arrivals[k..][..|arrivals| - 1 - k];
      assert forall e | e in before[k..] :: e in arrivals[k..];
      ReplacedIsGone(before, k, x);
      assert arrivals[|arrivals| - 1] == arrivals[k..][|arrivals| - 1 - k];
    }
  }

  lemma {:induction false} SomeArrivals(entries: set<Entry>) returns (arrivals: seq<Entry>)
    ensures Arrivals(entries, arrivals)
  {
    if entries == {} {
      arrivals := [];
    } else {
      var e :| e in entries;
      var rest := SomeArrivals(entries - {e});
      arrivals := [e] + rest;
    }
  }

  ghost predicate OrderDoesNotMatter(entries: set<Entry>) {
    forall p, q | Arrivals(entries, p) && Arrivals(entries, q) :: Survivor(p) == Survivor(q)
  }

  /** If the order of arrival does not matter, what survives beats everything else. */
  lemma SurvivorBeats(entries: set<Entry>, x: Entry, e: Entry)
    requires OrderDoesNotMatter(entries) && x in entries && e in entries && x != e
    requires forall p | Arrivals(entries, p) :: Survivor(p) == Some(x)
    ensures Beats(x, e)
  {
    hide Beats;
    var rest := SomeArrivals(entries - {x, e});
    var p := [e, x] + rest;
    assert Arrivals(entries, p);
    SurvivorOfTwo(e, x);
    assert p[..2] == [e, x] && p[2..] == rest;
    if !Beats(x, e) {
      ReplacedIsGone(p, 2, x);
    }
  }

  /** Nodes that store nothing for a key and receive the same entries for it, each once, in
      whatever orders, end up with the same entry exactly if one entry beats all the others. */
  lemma ConvergesExactly(entries: set<Entry>)
    requires entries != {}
    ensures OrderDoesNotMatter(entries) <==> exists winner :: BeatsAll(winner, entries)
  {
    hide Beats;
    if winner :| BeatsAll(winner, entries) {
      forall p | Arrivals(entries, p) ensures Survivor(p) == Some(winner) {
        WinnerStays(winner, entries, p);
      }
    } else if OrderDoesNotMatter(entries) {
      var p := SomeArrivals(entries);
      FirstSurvives(entries, p);
      var x := Survivor(p).value;
      forall e | e in entries && e != x ensures Beats(x, e) {
        SurvivorBeats(entries, x, e);
      }
      assert BeatsAll(x, entries);
    }
  }

  lemma {:induction false} FirstSurvives(entries: set<Entry>, p: seq<Entry>)
    requires p != [] && forall e | e in p :: e in entries
    ensures Survivor(p).Some? && Survivor(p).value in entries
  {
    hide Beats;
    var before := p[..|p| - 1];
    if before != [] {
      FirstSurvives(entries, before);
    }
  }

  /** Two entries: their order matters exactly if they are concurrent with equal time stamps, or
      are different entries under the same clock. */
  lemma PairConvergesExactly(a: Entry, b: Entry)
    requires a != b
    ensures Survivor([a, b]) == Survivor([b, a])
       <==> !(Same(a.clock, b.clock) || (Concurrent(a.clock, b.clock) && a.timestamp == b.timestamp))
  {
    SurvivorOfTwo(a, b);
    SurvivorOfTwo(b, a);
    ExactlyOne(a.clock, b.clock);
  }

  /** The arrivals at one node, one after the other. */
  ghost function ReceiveAll(s: Node, arrivals: seq<Entry>, clock: nat -> real): Node {
    if arrivals == [] then s
    else
      var n := |arrivals| - 1;
      Receive(ReceiveAll(s, arrivals[..n], clock), arrivals[n], clock(n))
  }

  /** What a node stores after receiving entries for one key, none stamped zero, is the survivor. */
  lemma {:induction false} ReceivingKeepsSurvivor(s: Node, key: Key, arrivals: seq<Entry>, clock: nat -> real)
    requires StoredAt(s, key) == None && forall e | e in arrivals :: e.key == key && e.timestamp != 0.0
    ensures StoredAt(ReceiveAll(s, arrivals, clock), key) == Survivor(arrivals)
  {
    hide Beats, Verdict, Merged;
    if arrivals != [] {
      var n := |arrivals| - 1;
      assert arrivals[n] in arrivals && forall e | e in arrivals[..n] :: e in arrivals;
      ReceivingKeepsSurvivor(s, key, arrivals[..n], clock);
    }
  }

  // ----- Where convergence ends -----

  /** A clock that runs slow against causality: `w` is written after `v` was received, but stamped
      earlier, and the stamp of a concurrent `u` lies between. What survives depends on the order. */
  lemma SlowClockDiverges(v: Entry, u: Entry, w: Entry)
    requires Ahead(w.clock, v.clock) && Concurrent(u.clock, v.clock) && Concurrent(u.clock, w.clock)
    requires w.timestamp < u.timestamp < v.timestamp
    ensures Survivor([v, w, u]) == Some(u) && Survivor([u, v, w]) == Some(w)
    ensures !OrderDoesNotMatter({u, v, w})
  {
    SurvivorOfTwo(v, w);
    SurvivorOfTwo(u, v);
    assert [v, w, u][..2] == [v, w] && [u, v, w][..2] == [u, v];
    assert Arrivals({u, v, w}, [v, w, u]) && Arrivals({u, v, w}, [u, v, w]);
  }

  /** Three nodes and three writes of one key, of which the first two give a tie and all three a
      slow clock. */
  lemma DivergenceHappens(a: NodeId, b: NodeId, c: NodeId, key: Key)
    requires a != b && b != c && a != c
    ensures var v, w := Entry(key, "v", map[a := 1], a, 3.0), Entry(key, "w", map[a := 1, b := 1], b, 1.0);
            var u, tie := Entry(key, "u", map[c := 1], c, 2.0), Entry(key, "t", map[c := 1], c, 3.0);
            Survivor([v, w, u]) != Survivor([u, v, w]) && Survivor([v, tie]) != Survivor([tie, v])
  {
    var v, w := Entry(key, "v", map[a := 1], a, 3.0), Entry(key, "w", map[a := 1, b := 1], b, 1.0);
    var u, tie := Entry(key, "u", map[c := 1], c, 2.0), Entry(key, "t", map[c := 1], c, 3.0);
    assert Get(v.clock, a) == 1 && Get(v.clock, b) == 0 && Get(v.clock, c) == 0;
    assert Get(w.clock, a) == 1 && Get(w.clock, b) == 1 && Get(w.clock, c) == 0;
    assert Get(u.clock, a) == 0 && Get(u.clock, b) == 0 && Get(u.clock, c) == 1;
    assert u != w && v != tie;
    SlowClockDiverges(v, u, w);
    PairConvergesExactly(v, tie);
  }
}
