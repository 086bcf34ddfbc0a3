/** The invalidation protocol of src/nodes/cache_node.py over many caches. A transaction on a key
    sends one message to every other node, and no two transactions on one key overlap; those on
    different keys interleave freely, and every cache evicts when it is full. `last` records the
    value last written to a key since its last invalidation; no node reads it. */
module Coherence {
  import opened Options
  import opened Lru

  type NodeId = nat

  // ----- One node -----

  /** The line of a key, if it counts. */
  function Copy(c: Cache, key: Key): Option<Line> {
    if key in c.lines && c.lines[key].state != Invalid then Some(c.lines[key]) else None
  }

  /** `_process_remote_read`: a modified line becomes shared. */
  function Served(c: Cache, key: Key): Cache {
    var looked := Get(c, key);
    if Copy(c, key).Some? && c.lines[key].state in {Modified, Exclusive}
    then looked.(lines := c.lines[key := c.lines[key].(state := Shared)])
    else looked
  }

  /** The end of `cache_read`, when some node had the value. */
  function ReadBack(c: Cache, size: nat, key: Key, found: Value): Cache {
    if found == Null then c else Put(c, size, key, Line(found, Shared))
  }

  /** The end of `cache_write`. */
  function WrittenTo(c: Cache, size: nat, key: Key, value: Value): Cache {
    Put(Get(c, key), size, key, Line(value, Modified))
  }

  // ----- Many nodes -----

  /** A transaction that waits for the nodes in `waiting` to handle its message; `answers` are the
      values of the nodes that had one. */
  datatype Transaction =
    | Reading(n: NodeId, waiting: set<NodeId>, answers: map<NodeId, Value>)
    | Writing(n: NodeId, waiting: set<NodeId>, value: Value)
    | Clearing(n: NodeId, waiting: set<NodeId>)

  datatype World = World(
    caches: map<NodeId, Cache>, sizes: map<NodeId, nat>, open: map<Key, Transaction>, last: map<Key, Value>)

  datatype Step =
    | BeginRead(n: NodeId, key: Key)
    | ServeRead(p: NodeId, key: Key)
    | EndRead(key: Key, found: Value)
    | BeginWrite(n: NodeId, key: Key, value: Value)
    | BeginClear(n: NodeId, key: Key)
    | Invalidate(p: NodeId, key: Key)
    | EndWrite(key: Key)
    | EndClear(key: Key)

  function Initial(sizes: map<NodeId, nat>): World {
    World(map n | n in sizes :: EMPTY, sizes, map[], map[])
  }

  function Others(w: World, n: NodeId): set<NodeId> {
    w.caches.Keys - {n}
  }

  predicate Hits(w: World, step: Step) {
    step.BeginRead? && step.n in w.caches && Copy(w.caches[step.n], step.key).Some?
  }

  /** The node whose cache a step uses. */
  function Actor(w: World, step: Step): NodeId
    requires step.EndRead? || step.EndWrite? || step.EndClear? ==> step.key in w.open
  {
    match step
    case BeginRead(n, _) => n
    case BeginWrite(n, _, _) => n
    case BeginClear(n, _) => n
    case ServeRead(p, _) => p
    case Invalidate(p, _) => p
    case _ => w.open[step.key].n
  }

  predicate Enabled(w: World, step: Step) {
    && (match step
        case BeginRead(_, key) => key !in w.open
        case BeginWrite(_, key, _) => key !in w.open
        case BeginClear(_, key) => key !in w.open
        case ServeRead(p, key) => key in w.open && w.open[key].Reading? && p in w.open[key].waiting
        case Invalidate(p, key) => key in w.open && !w.open[key].Reading? && p in w.open[key].waiting
        case EndRead(key, found) =>
          && key in w.open && w.open[key].Reading? && w.open[key].waiting == {}
          && if w.open[key].answers == map[] then found == Null else found in w.open[key].answers.Values
        case EndWrite(key) => key in w.open && w.open[key].Writing? && w.open[key].waiting == {}
        case EndClear(key) => key in w.open && w.open[key].Clearing? && w.open[key].waiting == {})
    && Actor(w, step) in w.caches && Actor(w, step) in w.sizes
  }

  function CacheAfter(w: World, step: Step): Cache
    requires Enabled(w, step)
  {
    var n := Actor(w, step);
    var c, size := w.caches[n], w.sizes[n];
    match step
    case BeginRead(_, key) => Get(c, key)
    case BeginWrite(_, _, _) => c
    case BeginClear(_, _) => c
    case ServeRead(_, key) => Served(c, key)
    case Invalidate(_, key) => Invalidated(c, key)
    case EndRead(key, found) => ReadBack(c, size, key, found)
    case EndWrite(key) => WrittenTo(c, size, key, w.open[key].value)
    case EndClear(key) => Invalidated(c, key)
  }

  function OpenAfter(w: World, step: Step): map<Key, Transaction>
    requires Enabled(w, step)
  {
    match step
    case BeginRead(n, key) => if Hits(w, step) then w.open else w.open[key := Reading(n, Others(w, n), map[])]
    case BeginWrite(n, key, value) => w.open[key := Writing(n, Others(w, n), value)]
    case BeginClear(n, key) => w.open[key := Clearing(n, Others(w, n))]
    case ServeRead(p, key) =>
      var t, copy := w.open[key], Copy(w.caches[p], key);
      w.open[key := Reading(t.n, t.waiting - {p}, if copy.Some? then t.answers[p := copy.value.value] else t.answers)]
    case Invalidate(p, key) => w.open[key := w.open[key].(waiting := w.open[key].waiting - {p})]
    case _ => w.open - {step.key}
  }

  function Do(w: World, step: Step): World
    requires Enabled(w, step)
  {
    World(w.caches[Actor(w, step) := CacheAfter(w, step)], w.sizes, OpenAfter(w, step),
          if step.EndWrite? then w.last[step.key := w.open[step.key].value]
          else if step.EndClear? then w.last - {step.key}
          else w.last)
  }

  ghost function After(sizes: map<NodeId, nat>, steps: seq<Step>): Option<World> {
    if steps == [] then Some(Initial(sizes))
    else
      var before, step := After(sizes, steps[..|steps| - 1]), steps[|steps| - 1];
      if before.Some? && Enabled(before.value, step) then Some(Do(before.value, step)) else None
  }

  /** What the caller of `cache_read` gets: `Null` is a miss. */
  function Answer(w: World, step: Step): Value
    requires Enabled(w, step)
  {
    match step
    case BeginRead(n, key) => if Hits(w, step) then Copy(w.caches[n], key).value.value else Null
    case EndRead(_, found) => found
    case _ => Null
  }

  // ----- The invariant -----

  function CopyAt(w: World, n: NodeId, key: Key): Option<Line> {
    if n in w.caches then Copy(w.caches[n], key) else None
  }

  predicate Owned(copy: Option<Line>) {
    copy.Some? && copy.value.state == Modified
  }

  /** Every copy is the value last written, and a modified copy is the only one. */
  ghost predicate Coherent(w: World, key: Key) {
    && (forall n :: CopyAt(w, n, key).Some? ==>
          && key in w.last && CopyAt(w, n, key).value.value == w.last[key]
          && CopyAt(w, n, key).value.state != Exclusive)
    && (forall m, n | m != n && Owned(CopyAt(w, m, key)) :: CopyAt(w, n, key) == None)
  }

  /** What a transaction in flight has achieved at the nodes it no longer waits for. */
  ghost predicate Underway(w: World, key: Key, t: Transaction) {
    match t
    case Reading(n, waiting, answers) =>
      && (forall p | p != n && p !in waiting :: !Owned(CopyAt(w, p, key)))
      && CopyAt(w, n, key) == None
      && (forall p | p in answers :: key in w.last && answers[p] == w.last[key])
    case Writing(n, waiting, _) => forall p | p != n && p !in waiting :: CopyAt(w, p, key) == None
    case Clearing(n, waiting) => forall p | p != n && p !in waiting :: CopyAt(w, p, key) == None
  }

  ghost predicate KeyInv(w: World, key: Key) {
    Coherent(w, key) && (key in w.open ==> Underway(w, key, w.open[key]))
  }

  ghost predicate Inv(w: World) {
    forall key :: KeyInv(w, key)
  }

  // ----- What a node's step does to its copies -----

  /** Copies of other keys stay or are evicted. */
  ghost predicate Spares(c: Cache, c': Cache, key: Key) {
    forall k | k != key :: Copy(c', k) == Copy(c, k) || Copy(c', k) == None
  }

  lemma PutCopies(c: Cache, size: nat, key: Key, line: Line)
    requires line.state != Invalid
    ensures Spares(c, Put(c, size, key, line), key)
    ensures Copy(Put(c, size, key, line), key) == Some(line) || Copy(Put(c, size, key, line), key) == None
  {
    hide Newest, Touched;
  }

  lemma GetCopies(c: Cache, key: Key, k: Key)
    ensures Copy(Get(c, key), k) == Copy(c, k)
  {
    hide Touched;
  }

  lemma ServedCopies(c: Cache, key: Key)
    ensures Spares(c, Served(c, key), key) && !Owned(Copy(Served(c, key), key))
    ensures Copy(c, key) == None ==> Copy(Served(c, key), key) == None
    ensures Copy(c, key).Some? ==>
              Copy(Served(c, key), key).Some? && Copy(Served(c, key), key).value.value == Copy(c, key).value.value
              && Copy(Served(c, key), key).value.state != Exclusive
  {
    hide Touched;
  }

  lemma InvalidatedCopies(c: Cache, key: Key)
    ensures Spares(c, Invalidated(c, key), key) && Copy(Invalidated(c, key), key) == None
  {
  }

  /** A step changes the copies of the actor alone, and those of other keys only by eviction. */
  lemma OtherKeys(w: World, step: Step, k: Key)
    requires Enabled(w, step) && KeyInv(w, k) && k != step.key
    ensures KeyInv(Do(w, step), k)
  {
    hide Get, Put, Served, Invalidated, ReadBack, WrittenTo, Copy, Owned, OpenAfter;
    var n := Actor(w, step);
    SparesOthers(w, step, k);
    SameOpen(w, step, k);
    FewerCopies(w, Do(w, step), k);
  }

  lemma SparesOthers(w: World, step: Step, k: Key)
    requires Enabled(w, step) && k != step.key
    ensures var c, c' := w.caches[Actor(w, step)], CacheAfter(w, step);
            Copy(c', k) == Copy(c, k) || Copy(c', k) == None
  {
    hide Get, Put, Served, Invalidated, Copy;
    var n := Actor(w, step);
    var c, size, key := w.caches[n], w.sizes[n], step.key;
    GetCopies(c, key, k);
    ServedCopies(c, key);
    InvalidatedCopies(c, key);
    match step
    case EndRead(_, found) => if found != Null { PutCopies(c, size, key, Line(found, Shared)); }
    case EndWrite(_) => PutCopies(Get(c, key), size, key, Line(w.open[key].value, Modified));
    case _ =>
  }

  lemma SameOpen(w: World, step: Step, k: Key)
    requires Enabled(w, step) && k != step.key
    ensures (k in OpenAfter(w, step) <==> k in w.open) && (k in w.open ==> OpenAfter(w, step)[k] == w.open[k])
  {
    hide Copy;
  }

  lemma FewerCopies(w: World, w': World, k: Key)
    requires KeyInv(w, k)
    requires forall n :: CopyAt(w', n, k) == CopyAt(w, n, k) || CopyAt(w', n, k) == None
    requires (k in w'.open <==> k in w.open) && (k in w.open ==> w'.open[k] == w.open[k])
    requires (k in w'.last <==> k in w.last) && (k in w.last ==> w'.last[k] == w.last[k])
    ensures KeyInv(w', k)
  {
    hide CopyAt;
  }

  // ----- The key a step is about -----

  lemma OtherNodes(w: World, step: Step)
    requires Enabled(w, step)
    ensures var w' := Do(w, step);
            && (forall m | m != Actor(w, step) :: CopyAt(w', m, step.key) == CopyAt(w, m, step.key))
            && CopyAt(w', Actor(w, step), step.key) == Copy(CacheAfter(w, step), step.key)
  {
    hide Copy, CacheAfter;
  }

  lemma BeginKeeps(w: World, step: Step)
    requires Enabled(w, step) && KeyInv(w, step.key) && (step.BeginRead? || step.BeginWrite? || step.BeginClear?)
    ensures KeyInv(Do(w, step), step.key)
  {
    hide Get, Copy, Owned, CacheAfter;
    var n := Actor(w, step);
    OtherNodes(w, step);
    BeginCopies(w, step);
    assert forall m :: CopyAt(Do(w, step), m, step.key) == CopyAt(w, m, step.key);
    NobodyElse(w, n, step.key);
  }

  lemma BeginCopies(w: World, step: Step)
    requires Enabled(w, step) && (step.BeginRead? || step.BeginWrite? || step.BeginClear?)
    ensures Copy(CacheAfter(w, step), step.key) == CopyAt(w, Actor(w, step), step.key)
  {
    GetCopies(w.caches[Actor(w, step)], step.key, step.key);
  }

  lemma NobodyElse(w: World, n: NodeId, key: Key)
    ensures forall p | p != n && p !in Others(w, n) :: CopyAt(w, p, key) == None && !Owned(CopyAt(w, p, key))
  {
  }

  lemma ServeKeeps(w: World, step: Step)
    requires Enabled(w, step) && KeyInv(w, step.key) && step.ServeRead?
    ensures KeyInv(Do(w, step), step.key)
  {
    hide Served, Copy, CacheAfter, CopyAt;
    var w', p, key := Do(w, step), step.p, step.key;
    OtherNodes(w, step);
    ServedCopies(w.caches[p], key);
    ServedIs(w, step);
    CopyHere(w, p, key);
    ServedCoherent(w, w', p, key);
    ServedUnderway(w, w', p, key, w.open[key], w'.open[key]);
  }

  lemma CopyHere(w: World, n: NodeId, key: Key)
    requires n in w.caches
    ensures CopyAt(w, n, key) == Copy(w.caches[n], key)
  {
  }

  /** One copy is served: it keeps its value and is not modified afterwards. */
  ghost predicate ServedOnly(w: World, w': World, p: NodeId, key: Key) {
    && (forall m | m != p :: CopyAt(w', m, key) == CopyAt(w, m, key))
    && w'.last == w.last && !Owned(CopyAt(w', p, key))
    && (CopyAt(w, p, key) == None <==> CopyAt(w', p, key) == None)
    && (CopyAt(w, p, key).Some? ==>
          CopyAt(w', p, key).value.value == CopyAt(w, p, key).value.value
          && CopyAt(w', p, key).value.state != Exclusive)
  }

  lemma ServedCoherent(w: World, w': World, p: NodeId, key: Key)
    requires Coherent(w, key) && ServedOnly(w, w', p, key)
    ensures Coherent(w', key)
  {
    hide CopyAt;
  }

  lemma ServedUnderway(w: World, w': World, p: NodeId, key: Key, t: Transaction, t': Transaction)
    requires Coherent(w, key) && ServedOnly(w, w', p, key) && Underway(w, key, t) && t.Reading?
    requires var copy := CopyAt(w, p, key);
             t' == Reading(t.n, t.waiting - {p}, if copy.Some? then t.answers[p := copy.value.value] else t.answers)
    ensures Underway(w', key, t')
  {
    hide CopyAt, Owned;
    forall q | q != t'.n && q !in t'.waiting ensures !Owned(CopyAt(w', q, key)) {
      if q != p { assert q !in t.waiting && CopyAt(w', q, key) == CopyAt(w, q, key); }
    }
  }

  lemma ServedIs(w: World, step: Step)
    requires Enabled(w, step) && step.ServeRead?
    ensures CacheAfter(w, step) == Served(w.caches[step.p], step.key)
  {
  }

  lemma InvalidateKeeps(w: World, step: Step)
    requires Enabled(w, step) && KeyInv(w, step.key) && step.Invalidate?
    ensures KeyInv(Do(w, step), step.key)
  {
    hide Copy, Invalidated, CacheAfter;
    OtherNodes(w, step);
    InvalidatedCopies(w.caches[step.p], step.key);
    InvalidatedIs(w, step);
  }

  lemma InvalidatedIs(w: World, step: Step)
    requires Enabled(w, step) && (step.Invalidate? || step.EndClear?)
    ensures CacheAfter(w, step) == Invalidated(w.caches[Actor(w, step)], step.key)
  {
  }

  lemma EndReadKeeps(w: World, step: Step)
    requires Enabled(w, step) && KeyInv(w, step.key) && step.EndRead?
    ensures KeyInv(Do(w, step), step.key)
  {
    hide Copy, Put, CacheAfter;
    var t := w.open[step.key];
    OtherNodes(w, step);
    EndReadCopies(w, step);
    if step.found != Null {
      var p :| p in t.answers && t.answers[p] == step.found;
    }
  }

  lemma EndReadCopies(w: World, step: Step)
    requires Enabled(w, step) && step.EndRead?
    ensures var before, after := CopyAt(w, Actor(w, step), step.key), Copy(CacheAfter(w, step), step.key);
            if step.found == Null then after == before else after == None || after == Some(Line(step.found, Shared))
  {
    hide Put;
    if step.found != Null {
      PutCopies(w.caches[Actor(w, step)], w.sizes[Actor(w, step)], step.key, Line(step.found, Shared));
    }
  }

  lemma EndWriteKeeps(w: World, step: Step)
    requires Enabled(w, step) && KeyInv(w, step.key) && step.EndWrite?
    ensures KeyInv(Do(w, step), step.key)
  {
    hide Copy, Put, Get, CacheAfter;
    OtherNodes(w, step);
    EndWriteCopies(w, step);
  }

  lemma EndWriteCopies(w: World, step: Step)
    requires Enabled(w, step) && step.EndWrite?
    ensures var after := Copy(CacheAfter(w, step), step.key);
            after == None || after == Some(Line(w.open[step.key].value, Modified))
  {
    hide Put, Get;
    var n := Actor(w, step);
    PutCopies(Get(w.caches[n], step.key), w.sizes[n], step.key, Line(w.open[step.key].value, Modified));
  }

  lemma EndClearKeeps(w: World, step: Step)
    requires Enabled(w, step) && KeyInv(w, step.key) && step.EndClear?
    ensures KeyInv(Do(w, step), step.key)
  {
    hide Copy, Invalidated, CacheAfter;
    OtherNodes(w, step);
    InvalidatedIs(w, step);
    InvalidatedCopies(w.caches[Actor(w, step)], step.key);
  }

  lemma StepKeeps(w: World, step: Step)
    requires Enabled(w, step) && Inv(w)
    ensures Inv(Do(w, step))
  {
    hide Do, KeyInv, Enabled;
    assert KeyInv(w, step.key);
    match step {
      case BeginRead(_, _) => BeginKeeps(w, step);
      case BeginWrite(_, _, _) => BeginKeeps(w, step);
      case BeginClear(_, _) => BeginKeeps(w, step);
      case ServeRead(_, _) => ServeKeeps(w, step);
      case Invalidate(_, _) => InvalidateKeeps(w, step);
      case EndRead(_, _) => EndReadKeeps(w, step);
      case EndWrite(_) => EndWriteKeeps(w, step);
      case EndClear(_) => EndClearKeeps(w, step);
    }
    forall k ensures KeyInv(Do(w, step), k) {
      if k != step.key {
        assert KeyInv(w, k);
        OtherKeys(w, step, k);
      }
    }
  }

  lemma {:induction false} InvAlways(sizes: map<NodeId, nat>, steps: seq<Step>)
    requires After(sizes, steps).Some?
    ensures Inv(After(sizes, steps).value)
  {
    hide Inv, Do, Enabled;
    if steps == [] {
      InitialInv(sizes);
    } else {
      InvAlways(sizes, steps[..|steps| - 1]);
      StepKeeps(After(sizes, steps[..|steps| - 1]).value, steps[|steps| - 1]);
    }
  }

  lemma InitialInv(sizes: map<NodeId, nat>)
    ensures Inv(Initial(sizes))
  {
  }

  // ----- A lossy register per key -----

  /** Over every run, all copies of a key that count hold the value last written to it since its
      last invalidation, and a modified copy is the only one. */
  lemma CopiesCoherent(sizes: map<NodeId, nat>, steps: seq<Step>, key: Key)
    requires After(sizes, steps).Some?
    ensures Coherent(After(sizes, steps).value, key)
  {
    hide Coherent, Underway;
    InvAlways(sizes, steps);
    assert KeyInv(After(sizes, steps).value, key);
  }

  /** A read returns the value last written since the last invalidation, or misses. */
  lemma ReadsReturnTheLastWrite(sizes: map<NodeId, nat>, steps: seq<Step>, step: Step)
    requires After(sizes, steps).Some? && Enabled(After(sizes, steps).value, step)
    ensures var w := After(sizes, steps).value;
            Answer(w, step) != Null ==> step.key in w.last && Answer(w, step) == w.last[step.key]
  {
    hide Copy;
    InvAlways(sizes, steps);
    var w := After(sizes, steps).value;
    assert KeyInv(w, step.key);
    match step
    case BeginRead(n, key) => assert CopyAt(w, n, key) == Copy(w.caches[n], key);
    case EndRead(key, found) =>
      if found != Null {
        var p :| p in w.open[key].answers && w.open[key].answers[p] == found;
      }
    case _ =>
  }

  // ----- No cache outgrows its size -----

  ghost predicate Fits(w: World) {
    forall n | n in w.caches :: n in w.sizes && WellFormed(w.caches[n], w.sizes[n])
  }

  lemma LinesReplaced(c: Cache, d: Cache, size: nat)
    requires WellFormed(c, size) && d.order == c.order && d.lines.Keys == c.lines.Keys
    ensures WellFormed(d, size)
  {
    assert forall k :: k in c.lines <==> k in d.lines;
  }

  lemma CacheFits(w: World, step: Step)
    requires Enabled(w, step) && WellFormed(w.caches[Actor(w, step)], w.sizes[Actor(w, step)])
    ensures WellFormed(CacheAfter(w, step), w.sizes[Actor(w, step)])
  {
    hide WellFormed, Put, Touched;
    var n, key := Actor(w, step), step.key;
    var c, size := w.caches[n], w.sizes[n];
    GetKeeps(c, size, key);
    match step
    case ServeRead(_, _) => LinesReplaced(Get(c, key), Served(c, key), size);
    case Invalidate(_, _) => LinesReplaced(c, Invalidated(c, key), size);
    case EndClear(_) => LinesReplaced(c, Invalidated(c, key), size);
    case EndRead(_, found) => if found != Null { PutKeeps(c, size, key, Line(found, Shared)); }
    case EndWrite(_) => PutKeeps(Get(c, key), size, key, Line(w.open[key].value, Modified));
    case _ =>
  }

  /** Over every run, every cache holds at most as many lines as its size allows. */
  lemma {:induction false} CachesFit(sizes: map<NodeId, nat>, steps: seq<Step>)
    requires After(sizes, steps).Some?
    ensures Fits(After(sizes, steps).value)
  {
    hide Enabled, CacheAfter, WellFormed;
    if steps == [] {
      EmptyFits(sizes);
    } else {
      var w, step := After(sizes, steps[..|steps| - 1]).value, steps[|steps| - 1];
      CachesFit(sizes, steps[..|steps| - 1]);
      ActorKnown(w, step);
      CacheFits(w, step);
    }
  }

  lemma ActorKnown(w: World, step: Step)
    requires Enabled(w, step)
    ensures Actor(w, step) in w.caches
  {
  }

  lemma EmptyFits(sizes: map<NodeId, nat>)
    ensures Fits(Initial(sizes))
  {
  }
}
