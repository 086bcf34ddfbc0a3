/** `ConsistentHashRing` of src/nodes/queue_node.py. The MD5 hash is an arbitrary function: `vnode`
    gives the position of the i-th virtual node of a node, and keys are given by their hash. */
module HashRing {
  import opened Options
  import opened Sequences

  type Node = string
  type Ring = map<nat, Node>
  type Placement = (Node, nat) -> nat

  // ----- Sorted keys and filters -----

  predicate Increasing(s: seq<nat>) {
    forall i, j | 0 <= i < j < |s| :: s[i] < s[j]
  }

  /** `keys` lists the positions of the ring in order. */
  ghost predicate Lists(keys: seq<nat>, positions: set<nat>) {
    Increasing(keys) && forall k :: k in keys <==> k in positions
  }

  function Filter<T(!new)>(s: seq<T>, keep: T -> bool): seq<T> {
    if s == [] then []
    else Filter(s[..|s| - 1], keep) + if keep(s[|s| - 1]) then [s[|s| - 1]] else []
  }

  lemma {:induction false} FilterMembers<T(!new)>(s: seq<T>, keep: T -> bool)
    ensures forall x :: x in Filter(s, keep) <==> x in s && keep(x)
  {
    if s != [] {
      FilterMembers(s[..|s| - 1], keep);
      assert s == s[..|s| - 1] + [s[|s| - 1]];
    }
  }

  lemma {:induction false} FilterIncreasing(s: seq<nat>, keep: nat -> bool)
    requires Increasing(s)
    ensures Increasing(Filter(s, keep))
  {
    if s != [] {
      var front := s[..|s| - 1];
      FilterIncreasing(front, keep);
      FilterMembers(front, keep);
      assert forall i | 0 <= i < |Filter(front, keep)| :: Filter(front, keep)[i] in front;
    }
  }

  lemma {:induction false} FilterTwice<T(!new)>(s: seq<T>, p: T -> bool, q: T -> bool)
    ensures Filter(Filter(s, p), q) == Filter(Filter(s, q), p)
  {
    if s != [] {
      var front, last := s[..|s| - 1], s[|s| - 1];
      FilterTwice(front, p, q);
      FilterSnoc(Filter(front, p), last, q);
      FilterSnoc(Filter(front, q), last, p);
    }
  }

  lemma FilterSnoc<T(!new)>(s: seq<T>, x: T, keep: T -> bool)
    ensures Filter(s + [x], keep) == Filter(s, keep) + if keep(x) then [x] else []
    ensures Filter(s + [], keep) == Filter(s, keep)
  {
    assert (s + [x])[..|s|] == s && s + [] == s;
  }

  lemma {:induction false} FilterConcat<T(!new)>(s: seq<T>, t: seq<T>, keep: T -> bool)
    ensures Filter(s + t, keep) == Filter(s, keep) + Filter(t, keep)
  {
    if t == [] {
      assert s + t == s;
    } else {
      var front, last := t[..|t| - 1], t[|t| - 1];
      FilterConcat(s, front, keep);
      assert s + t == (s + front) + [last];
      FilterSnoc(s + front, last, keep);
    }
  }

  /** There is one way to list a set in order. */
  lemma {:induction false} ListedOneWay(a: seq<nat>, b: seq<nat>, positions: set<nat>)
    requires Lists(a, positions) && Lists(b, positions)
    ensures a == b
  {
    if a != [] || b != [] {
      assert a != [] ==> a[0] in b;
      assert b != [] ==> b[0] in a;
      var x, y := a[|a| - 1], b[|b| - 1];
      assert x in b && y in a;
      assert x == y;
      DropLast(a, positions);
      DropLast(b, positions);
      ListedOneWay(a[..|a| - 1], b[..|b| - 1], positions - {x});
      assert a == a[..|a| - 1] + [x] && b == b[..|b| - 1] + [x];
    }
  }

  lemma DropLast(a: seq<nat>, positions: set<nat>)
    requires Lists(a, positions) && a != []
    ensures Lists(a[..|a| - 1], positions - {a[|a| - 1]})
  {
    assert a == a[..|a| - 1] + [a[|a| - 1]];
  }

  // ----- Who owns a key -----

  /** `k` is the first position at or after `h`, going round from the last position to the first. */
  predicate IsSuccessor(positions: set<nat>, h: nat, k: nat) {
    k in positions
    && (forall j | j in positions :: (k >= h && j >= h ==> k <= j) && (k < h ==> j < h && k <= j))
  }

  predicate Owns(ring: Ring, h: nat, node: Node) {
    exists k | k in ring :: IsSuccessor(ring.Keys, h, k) && ring[k] == node
  }

  lemma OneSuccessor(positions: set<nat>, h: nat, k: nat, j: nat)
    requires IsSuccessor(positions, h, k) && IsSuccessor(positions, h, j)
    ensures k == j
  {
  }

  function Positions(vnode: Placement, replicas: nat, node: Node): set<nat> {
    set i | 0 <= i < replicas :: vnode(node, i)
  }

  function Added(ring: Ring, positions: set<nat>, node: Node): Ring {
    ring + map k | k in positions :: node
  }

  function Removed(ring: Ring, positions: set<nat>): Ring {
    ring - positions
  }

  /** A new node takes keys, and no key moves between the others, even if hashes collide. */
  lemma AddMovesKeysOnlyToTheNewNode(ring: Ring, positions: set<nat>, node: Node, h: nat, before: Node, after: Node)
    requires Owns(ring, h, before) && Owns(Added(ring, positions, node), h, after)
    ensures after == before || after == node
  {
    var k :| k in ring && IsSuccessor(ring.Keys, h, k) && ring[k] == before;
    var j :| j in Added(ring, positions, node) && IsSuccessor(Added(ring, positions, node).Keys, h, j)
             && Added(ring, positions, node)[j] == after;
    if j !in positions {
      OneSuccessor(ring.Keys, h, k, j);
    }
  }

  /** Without collisions a leaving node gives up its own keys and no other key moves. */
  lemma RemoveMovesOnlyItsKeys(ring: Ring, positions: set<nat>, node: Node, h: nat, before: Node, after: Node)
    requires forall k | k in positions && k in ring :: ring[k] == node
    requires Owns(ring, h, before) && Owns(Removed(ring, positions), h, after)
    ensures after == before || before == node
  {
    var k :| k in ring && IsSuccessor(ring.Keys, h, k) && ring[k] == before;
    var j :| j in Removed(ring, positions) && IsSuccessor(Removed(ring, positions).Keys, h, j) && ring[j] == after;
    if before != node {
      OneSuccessor(Removed(ring, positions).Keys, h, k, j);
    }
  }

  /** Going round from `h` past positions that are gone is going round from its old successor. */
  lemma SuccessorOfSuccessor(positions: set<nat>, left: set<nat>, h: nat, k: nat, j: nat)
    requires left <= positions && IsSuccessor(positions, h, k) && IsSuccessor(left, h, j)
    ensures IsSuccessor(left, k, j)
  {
  }

  /** Every key keeps its owner, or was the leaving node's. */
  ghost predicate OnlyItsKeysMove(ring: Ring, positions: set<nat>, node: Node) {
    forall h, before, after | Owns(ring, h, before) && Owns(Removed(ring, positions), h, after) ::
      after == before || before == node
  }

  /** Where a leaving node takes a position that another node has overwritten, the next position left
      is that other node's as well. */
  ghost predicate ForeignPositionsStay(ring: Ring, positions: set<nat>, node: Node) {
    forall k, after | k in positions && k in ring && ring[k] != node && Owns(Removed(ring, positions), k, after) ::
      after == ring[k]
  }

  /** Removing a node moves no key between the others exactly if that holds of each position it takes
      and no longer owns; without collisions there is no such position. */
  lemma RemoveMovesOnlyItsKeysExactly(ring: Ring, positions: set<nat>, node: Node)
    ensures OnlyItsKeysMove(ring, positions, node) <==> ForeignPositionsStay(ring, positions, node)
  {
    var left := Removed(ring, positions);
    if OnlyItsKeysMove(ring, positions, node) {
      forall k, after | k in positions && k in ring && ring[k] != node && Owns(left, k, after)
        ensures after == ring[k]
      {
        assert IsSuccessor(ring.Keys, k, k);
        assert Owns(ring, k, ring[k]);
      }
    }
    if ForeignPositionsStay(ring, positions, node) {
      forall h, before, after | Owns(ring, h, before) && Owns(left, h, after)
        ensures after == before || before == node
      {
        var k :| k in ring && IsSuccessor(ring.Keys, h, k) && ring[k] == before;
        var j :| j in left && IsSuccessor(left.Keys, h, j) && left[j] == after;
        if k in positions {
          SuccessorOfSuccessor(ring.Keys, left.Keys, h, k, j);
          assert Owns(left, k, after);
        } else {
          OneSuccessor(left.Keys, h, k, j);
        }
      }
    }
  }

  /** The ring after three nodes with one position each have been added in turn. */
  function ThreeAdded(vnode: Placement, a: Node, b: Node, c: Node): Ring {
    Added(Added(Added(map[], Positions(vnode, 1, a), a), Positions(vnode, 1, b), b), Positions(vnode, 1, c), c)
  }

  /** Collisions do move foreign keys: `b` overwrites the one position of `a`, and when `a` leaves,
      the keys up to that position go from `b` to `c`. */
  lemma CollisionMovesForeignKeys(vnode: Placement, a: Node, b: Node, c: Node)
    requires a != b && b != c && a != c
    requires vnode(a, 0) == vnode(b, 0) < vnode(c, 0)
    ensures var ring := ThreeAdded(vnode, a, b, c);
            var h := vnode(a, 0);
            Owns(ring, h, b) && Owns(Removed(ring, Positions(vnode, 1, a)), h, c)
  {
    hide Positions, Added, Removed;
    var h, k := vnode(a, 0), vnode(c, 0);
    OnePosition(vnode, a);
    OnePosition(vnode, b);
    OnePosition(vnode, c);
    AddedOne(map[], h, a);
    AddedOne(map[h := a], h, b);
    AddedOne(map[h := b], k, c);
    RemovedOne(map[h := b, k := c], h);
    var none: Ring := map[];
    assert none[h := a] == map[h := a] && map[h := a][h := b] == map[h := b];
    assert map[h := b][k := c] == map[h := b, k := c];
    var ring, left := ThreeAdded(vnode, a, b, c), Removed(ThreeAdded(vnode, a, b, c), Positions(vnode, 1, a));
    assert ring == map[h := b, k := c];
    assert left == map[k := c];
    assert IsSuccessor(ring.Keys, h, h) && IsSuccessor(left.Keys, h, k);
  }

  lemma OnePosition(vnode: Placement, node: Node)
    ensures Positions(vnode, 1, node) == {vnode(node, 0)}
  {
    PositionsOneMore(vnode, 0, node);
  }

  lemma AddedOne(ring: Ring, k: nat, node: Node)
    ensures Added(ring, {k}, node) == ring[k := node]
  {
  }

  lemma RemovedOne(ring: Ring, k: nat)
    ensures Removed(ring, {k}) == ring - {k}
  {
  }

  /** Such a placement exists. */
  lemma CollisionsHappen(a: Node, b: Node, c: Node)
    requires a != b && b != c && a != c
    ensures exists vnode: Placement :: vnode(a, 0) == vnode(b, 0) < vnode(c, 0)
  {
    var vnode: Placement := (node, i) => if node == c then 2 else 1;
    assert vnode(a, 0) == vnode(b, 0) < vnode(c, 0);
  }

  /** Adding a node and removing it again restores the ring exactly if the node brought no
      position that the ring already had. */
  lemma RoundTripExactly(ring: Ring, positions: set<nat>, node: Node)
    ensures Removed(Added(ring, positions, node), positions) == ring <==> positions !! ring.Keys
  {
    if positions !! ring.Keys {
      assert Removed(Added(ring, positions, node), positions) == ring;
    } else {
      var k :| k in positions && k in ring;
      assert k !in Removed(Added(ring, positions, node), positions);
    }
  }

  // ----- Replica lists -----

  function AtOrAfter(h: nat): nat -> bool { k => k >= h }
  function Before(h: nat): nat -> bool { k => k < h }
  function OtherThan(node: Node): Node -> bool { n => n != node }
  function On(positions: set<nat>): nat -> bool { k => k in positions }

  /** The positions in the order in which they are met from `h` on. */
  function Clockwise(keys: seq<nat>, h: nat): seq<nat> {
    Filter(keys, AtOrAfter(h)) + Filter(keys, Before(h))
  }

  function Owners(ring: Ring, keys: seq<nat>): seq<Node>
    requires forall k | k in keys :: k in ring
  {
    seq(|keys|, i requires 0 <= i < |keys| => ring[keys[i]])
  }

  /** Each member where it first occurs. */
  function Firsts(s: seq<Node>): seq<Node> {
    if s == [] then []
    else
      var front, last := Firsts(s[..|s| - 1]), s[|s| - 1];
      if last in front then front else front + [last]
  }

  function AtMost(s: seq<Node>, count: int): seq<Node> {
    if count < 0 then [] else if count < |s| then s[..count] else s
  }

  lemma ClockwiseMembers(keys: seq<nat>, h: nat)
    ensures forall k :: k in Clockwise(keys, h) <==> k in keys
  {
    FilterMembers(keys, AtOrAfter(h));
    FilterMembers(keys, Before(h));
  }

  /** The owners met clockwise from `h`, each once, and the first `count` of them; a count below
      one works like one. */
  ghost function NodesForKey(ring: Ring, keys: seq<nat>, h: nat, count: int): seq<Node>
    requires Lists(keys, ring.Keys)
  {
    ClockwiseMembers(keys, h);
    AtMost(Firsts(Owners(ring, Clockwise(keys, h))), if count < 1 then 1 else count)
  }

  lemma {:induction false} FirstsAreDistinct(s: seq<Node>)
    ensures Distinct(Firsts(s)) && forall n :: n in Firsts(s) <==> n in s
    ensures s != [] ==> Firsts(s) != [] && Firsts(s)[0] == s[0]
  {
    if s != [] {
      var front := s[..|s| - 1];
      FirstsAreDistinct(front);
      assert s == front + [s[|s| - 1]];
    }
  }

  lemma DistinctCount(s: seq<Node>, nodes: set<Node>)
    requires Distinct(s) && forall n :: n in s <==> n in nodes
    ensures |s| == |nodes|
    decreases |s|
  {
    if s == [] {
      assert nodes == {};
    } else {
      var front, last := s[..|s| - 1], s[|s| - 1];
      assert s == front + [last];
      assert last in nodes && last !in front;
      DistinctCount(front, nodes - {last});
    }
  }

  /** The list holds `min(count, owners)` different owners and begins with the owner of the key. */
  lemma ReplicasAreDistinct(ring: Ring, keys: seq<nat>, h: nat, count: int)
    requires Lists(keys, ring.Keys) && ring != map[]
    ensures var list := NodesForKey(ring, keys, h, count);
            && Distinct(list) && (forall n | n in list :: n in ring.Values)
            && |list| == (if count < 1 then 1 else if count < |ring.Values| then count else |ring.Values|)
            && list != [] && Owns(ring, h, list[0])
  {
    ClockwiseMembers(keys, h);
    var met := Clockwise(keys, h);
    var owners := Owners(ring, met);
    FirstsAreDistinct(owners);
    forall n ensures n in Firsts(owners) <==> n in ring.Values {
      if n in ring.Values {
        var k :| k in ring && ring[k] == n;
        assert k in keys && k in met;
        var i :| 0 <= i < |met| && met[i] == k;
        assert owners[i] == n;
      }
    }
    DistinctCount(Firsts(owners), ring.Values);
    var k :| k in ring;
    assert k in keys && k in met;
    ClockwiseStarts(keys, h, ring.Keys);
    assert Owns(ring, h, owners[0]);
  }

  lemma ClockwiseStarts(keys: seq<nat>, h: nat, positions: set<nat>)
    requires Lists(keys, positions) && keys != []
    ensures Clockwise(keys, h) != [] && IsSuccessor(positions, h, Clockwise(keys, h)[0])
  {
    var late, early := Filter(keys, AtOrAfter(h)), Filter(keys, Before(h));
    FilterMembers(keys, AtOrAfter(h));
    FilterMembers(keys, Before(h));
    FilterIncreasing(keys, AtOrAfter(h));
    FilterIncreasing(keys, Before(h));
    assert keys[0] in late || keys[0] in early;
    var first := Clockwise(keys, h)[0];
    assert first in keys;
    forall j | j in positions ensures (first >= h && j >= h ==> first <= j) && (first < h ==> j < h && first <= j) {
      assert j in keys;
      if j >= h { assert j in late; } else { assert j in early; }
    }
  }

  /** The positions met before the node came are those met afterwards, without its own. */
  lemma ClockwiseWithout(keys: seq<nat>, more: seq<nat>, positions: set<nat>, arrived: set<nat>, h: nat)
    requires Lists(keys, positions) && Lists(more, positions + arrived)
    ensures Clockwise(keys, h) == Filter(Clockwise(more, h), On(positions))
  {
    FilterMembers(more, On(positions));
    FilterIncreasing(more, On(positions));
    ListedOneWay(Filter(more, On(positions)), keys, positions);
    FilterTwice(more, On(positions), AtOrAfter(h));
    FilterTwice(more, On(positions), Before(h));
    FilterConcat(Filter(more, AtOrAfter(h)), Filter(more, Before(h)), On(positions));
  }

  lemma OwnersSnoc(ring: Ring, keys: seq<nat>, k: nat)
    requires (forall j | j in keys :: j in ring) && k in ring
    ensures Owners(ring, keys + [k]) == Owners(ring, keys) + [ring[k]]
  {
  }

  lemma {:induction false} OwnersWithout(ring: Ring, positions: set<nat>, node: Node, met: seq<nat>)
    requires node !in ring.Values && positions !! ring.Keys
    requires forall k | k in met :: k in Added(ring, positions, node)
    ensures forall k | k in Filter(met, On(ring.Keys)) :: k in ring
    ensures Owners(ring, Filter(met, On(ring.Keys)))
            == Filter(Owners(Added(ring, positions, node), met), OtherThan(node))
  {
    hide Filter, Owners;
    FilterMembers(met, On(ring.Keys));
    var ring' := Added(ring, positions, node);
    if met == [] {
      NothingOwned(ring, ring', On(ring.Keys), OtherThan(node));
    } else {
      var front, last := met[..|met| - 1], met[|met| - 1];
      OwnersWithout(ring, positions, node, front);
      assert met == front + [last];
      assert last in met;
      OwnersSnoc(ring', front, last);
      FilterSnoc(Owners(ring', front), ring'[last], OtherThan(node));
      FilterSnoc(front, last, On(ring.Keys));
      if last in ring {
        assert ring[last] in ring.Values;
        OwnersSnoc(ring, Filter(front, On(ring.Keys)), last);
      } else {
        assert ring'[last] == node;
        assert Filter(met, On(ring.Keys)) == Filter(front, On(ring.Keys));
      }
    }
  }

  lemma NothingOwned(ring: Ring, more: Ring, p: nat -> bool, q: Node -> bool)
    ensures Filter<nat>([], p) == [] && Owners(ring, []) == [] && Filter(Owners(more, []), q) == []
  {
  }

  lemma {:induction false} FirstsWithout(s: seq<Node>, node: Node)
    ensures Firsts(Filter(s, OtherThan(node))) == Filter(Firsts(s), OtherThan(node))
  {
    hide Firsts, Filter;
    if s == [] {
      NothingLeft(OtherThan(node));
    } else {
      var front, last := s[..|s| - 1], s[|s| - 1];
      FirstsWithout(front, node);
      FilterMembers(Firsts(front), OtherThan(node));
      assert s == front + [last];
      FirstsSnoc(front, last);
      FirstsSnoc(Filter(front, OtherThan(node)), last);
      FilterSnoc(front, last, OtherThan(node));
      FilterSnoc(Firsts(front), last, OtherThan(node));
    }
  }

  lemma NothingLeft(keep: Node -> bool)
    ensures Filter([], keep) == [] && Firsts([]) == []
  {
  }

  lemma FirstsSnoc(s: seq<Node>, x: Node)
    ensures Firsts(s + [x]) == if x in Firsts(s) then Firsts(s) else Firsts(s) + [x]
    ensures Firsts(s + []) == Firsts(s)
  {
    assert (s + [x])[..|s|] == s && s + [] == s;
  }

  lemma AtMostWithout(s: seq<Node>, node: Node, count: nat)
    ensures Filter(AtMost(s, count), OtherThan(node)) <= AtMost(Filter(s, OtherThan(node)), count)
  {
    if count < |s| {
      assert s == s[..count] + s[count..];
      FilterConcat(s[..count], s[count..], OtherThan(node));
      FilterShorter(s[..count], OtherThan(node));
    } else {
      FilterShorter(s, OtherThan(node));
    }
  }

  lemma {:induction false} FilterShorter<T(!new)>(s: seq<T>, keep: T -> bool)
    ensures |Filter(s, keep)| <= |s|
  {
    if s != [] { FilterShorter(s[..|s| - 1], keep); }
  }

  /** Replica lists change minimally: after a node comes with positions of its own, the new list
      without it is a prefix of the old list. */
  lemma ReplicasChangeMinimally(
    ring: Ring, positions: set<nat>, node: Node, keys: seq<nat>, more: seq<nat>, h: nat, count: int)
    requires node !in ring.Values && positions !! ring.Keys
    requires Lists(keys, ring.Keys) && Lists(more, Added(ring, positions, node).Keys)
    ensures Filter(NodesForKey(Added(ring, positions, node), more, h, count), OtherThan(node))
         <= NodesForKey(ring, keys, h, count)
  {
    hide Filter, Clockwise, Firsts, AtMost, Owners;
    var ring' := Added(ring, positions, node);
    assert ring'.Keys == ring.Keys + positions;
    ClockwiseMembers(keys, h);
    ClockwiseMembers(more, h);
    ClockwiseWithout(keys, more, ring.Keys, positions, h);
    OwnersWithout(ring, positions, node, Clockwise(more, h));
    FirstsWithout(Owners(ring', Clockwise(more, h)), node);
    AtMostWithout(Firsts(Owners(ring', Clockwise(more, h))), node, if count < 1 then 1 else count);
  }

  // ----- The object -----

  lemma AppendLargest(keys: seq<nat>, positions: set<nat>, k: nat)
    requires Lists(keys, positions) && forall j | j in keys :: j < k
    ensures Lists(keys + [k], positions + {k})
  {
    assert forall i | 0 <= i < |keys| :: keys[i] in keys;
    assert forall j :: j in keys + [k] <==> j in keys || j == k;
  }

  /** Python's `sorted` on a set of positions. */
  method Sorted(positions: set<nat>) returns (keys: seq<nat>)
    ensures Lists(keys, positions)
  {
    keys := [];
    var todo := positions;
    while todo != {}
      invariant todo <= positions && Lists(keys, positions - todo)
      invariant forall k, j | k in keys && j in todo :: k < j
      decreases todo
    {
      var least := Least(todo);
      AppendLargest(keys, positions - todo, least);
      assert positions - (todo - {least}) == positions - todo + {least};
      keys := keys + [least];
      todo := todo - {least};
    }
    assert positions - todo == positions;
  }

  method Least(positions: set<nat>) returns (least: nat)
    requires positions != {}
    ensures least in positions && forall k | k in positions :: least <= k
  {
    least :| least in positions;
    var todo := positions - {least};
    while todo != {}
      invariant todo <= positions && least in positions
      invariant forall k | k in positions && k !in todo :: least <= k
      decreases todo
    {
      var k :| k in todo;
      if k < least { least := k; }
      todo := todo - {k};
    }
  }

  lemma PositionsOneMore(vnode: Placement, i: nat, node: Node)
    ensures Positions(vnode, i + 1, node) == Positions(vnode, i, node) + {vnode(node, i)}
    ensures Positions(vnode, 0, node) == {}
  {
  }

  lemma AddedOneMore(ring: Ring, positions: set<nat>, node: Node, k: nat)
    ensures Added(ring, positions + {k}, node) == Added(ring, positions, node)[k := node]
    ensures Added(ring, {}, node) == ring
  {
  }

  lemma RemovedOneMore(ring: Ring, positions: set<nat>, k: nat)
    ensures Removed(ring, positions + {k}) == Removed(ring, positions) - {k}
    ensures Removed(ring, {}) == ring
  {
  }

  /** Every position of a node that comes is its own, and all others are as before. */
  lemma AddedExactly(ring: Ring, vnode: Placement, replicas: nat, node: Node)
    ensures var added := Added(ring, Positions(vnode, replicas, node), node);
            && (forall i | 0 <= i < replicas :: vnode(node, i) in added && added[vnode(node, i)] == node)
            && forall k | forall i | 0 <= i < replicas :: vnode(node, i) != k ::
                 (k in added <==> k in ring) && (k in added ==> added[k] == ring[k])
  {
  }

  /** No position of a node that leaves is taken, and all others are as before. */
  lemma RemovedExactly(ring: Ring, vnode: Placement, replicas: nat, node: Node)
    ensures var removed := Removed(ring, Positions(vnode, replicas, node));
            && (forall k :: k in removed <==> k in ring && forall i | 0 <= i < replicas :: vnode(node, i) != k)
            && forall k | k in removed :: removed[k] == ring[k]
  {
  }

  class ConsistentHashRing {
    const replicas: nat
    const vnode: Placement
    var ring: Ring
    var sortedKeys: seq<nat>
    var nodes: set<Node>

    constructor (replicas: nat, vnode: Placement)
      ensures Valid() && ring == map[] && nodes == {} && this.replicas == replicas && this.vnode == vnode
    {
      this.replicas, this.vnode := replicas, vnode;
      ring, sortedKeys, nodes := map[], [], {};
    }

    ghost predicate Valid()
      reads this
    {
      Lists(sortedKeys, ring.Keys)
    }

    method AddNode(node: Node)
      requires Valid()
      modifies this
      ensures Valid() && nodes == old(nodes) + {node}
      ensures ring == Added(old(ring), Positions(vnode, replicas, node), node)
      ensures forall i | 0 <= i < replicas :: vnode(node, i) in ring && ring[vnode(node, i)] == node
      ensures forall k | forall i | 0 <= i < replicas :: vnode(node, i) != k ::
                (k in ring <==> k in old(ring)) && (k in ring ==> ring[k] == old(ring)[k])
    {
      hide Positions, Added;
      nodes := nodes + {node};
      PositionsOneMore(vnode, 0, node);
      AddedOneMore(ring, {}, node, 0);
      for i := 0 to replicas
        invariant nodes == old(nodes) + {node}
        invariant ring == Added(old(ring), Positions(vnode, i, node), node)
      {
        PositionsOneMore(vnode, i, node);
        AddedOneMore(old(ring), Positions(vnode, i, node), node, vnode(node, i));
        ring := ring[vnode(node, i) := node];
      }
      AddedExactly(old(ring), vnode, replicas, node);
      sortedKeys := Sorted(ring.Keys);
    }

    method RemoveNode(node: Node)
      requires Valid()
      modifies this
      ensures Valid() && nodes == old(nodes) - {node}
      ensures ring == Removed(old(ring), Positions(vnode, replicas, node))
      ensures forall k :: k in ring <==> k in old(ring) && forall i | 0 <= i < replicas :: vnode(node, i) != k
      ensures forall k | k in ring :: ring[k] == old(ring)[k]
    {
      hide Positions, Removed;
      nodes := nodes - {node};
      PositionsOneMore(vnode, 0, node);
      RemovedOneMore(ring, {}, 0);
      for i := 0 to replicas
        invariant nodes == old(nodes) - {node}
        invariant ring == Removed(old(ring), Positions(vnode, i, node))
      {
        PositionsOneMore(vnode, i, node);
        RemovedOneMore(old(ring), Positions(vnode, i, node), vnode(node, i));
        ring := ring - {vnode(node, i)};
      }
      RemovedExactly(old(ring), vnode, replicas, node);
      sortedKeys := Sorted(ring.Keys);
    }

    /** The owner of the first position at or after the hash, going round. */
    method GetNode(h: nat) returns (owner: Option<Node>)
      requires Valid()
      ensures owner == None <==> ring == map[]
      ensures owner.Some? ==> Owns(ring, h, owner.value)
    {
      if ring == map[] {
        return None;
      }
      for i := 0 to |sortedKeys|
        invariant forall j | 0 <= j < i :: sortedKeys[j] < h
      {
        var k := sortedKeys[i];
        if k >= h {
          assert k in sortedKeys;
          forall j | j in ring ensures j >= h ==> k <= j {
            assert j in sortedKeys;
          }
          assert IsSuccessor(ring.Keys, h, k);
          return Some(ring[k]);
        }
      }
      var some :| some in ring;
      assert some in sortedKeys;
      var k := sortedKeys[0];
      assert k in sortedKeys;
      forall j | j in ring ensures j < h && k <= j {
        assert j in sortedKeys;
      }
      assert IsSuccessor(ring.Keys, h, k);
      return Some(ring[k]);
    }

    /** Where the walk round the ring begins. */
    method StartIndex(h: nat) returns (idx: nat)
      requires Valid()
      ensures idx <= |sortedKeys| && Clockwise(sortedKeys, h) == sortedKeys[idx..] + sortedKeys[..idx]
    {
      hide Clockwise;
      idx := 0;
      for i := 0 to |sortedKeys|
        invariant idx == 0 && forall j | 0 <= j < i :: sortedKeys[j] < h
      {
        if sortedKeys[i] >= h {
          idx := i;
          break;
        }
      }
      ClockwiseIsRotation(sortedKeys, h, idx);
    }

    method GetNodesForKey(h: nat, count: int) returns (result: seq<Node>)
      requires Valid()
      ensures result == NodesForKey(ring, sortedKeys, h, count)
    {
      hide Clockwise, Firsts, NodesForKey, Owners, AtMost, Increasing;
      if ring == map[] {
        NoKeys(ring, sortedKeys, h, count);
        return [];
      }
      var idx := StartIndex(h);
      NodesAre(ring, sortedKeys, h, count);
      ghost var owners := Owners(ring, Clockwise(sortedKeys, h));
      FirstsOfNone(owners);
      result := [];
      var seen: set<Node> := {};
      for i := 0 to |sortedKeys|
        invariant result == Firsts(owners[..i]) && (i == 0 || |result| < count)
        invariant forall n :: n in seen <==> n in result
      {
        RotationAt(sortedKeys, idx, i);
        OwnerAt(ring, Clockwise(sortedKeys, h), i);
        var at := sortedKeys[(idx + i) % |sortedKeys|];
        var node := ring[at];
        FirstsNext(owners, i, node);
        if node !in seen {
          seen := seen + {node};
          result := result + [node];
        }
        if |result| >= count {
          FirstsEnough(owners, i + 1, count);
          return;
        }
      }
      assert owners[..|sortedKeys|] == owners;
      AllOfThem(Firsts(owners), count);
    }
  }

  lemma WrapOnce(at: nat, length: nat)
    requires at < 2 * length
    ensures at % length == if at < length then at else at - length
  {
  }

  lemma RotationAt(keys: seq<nat>, idx: nat, i: nat)
    requires idx <= |keys| && i < |keys|
    ensures (keys[idx..] + keys[..idx])[i] == keys[(idx + i) % |keys|]
    ensures keys[(idx + i) % |keys|] in keys
  {
    WrapOnce(idx + i, |keys|);
  }

  lemma FirstsNext(owners: seq<Node>, i: nat, node: Node)
    requires i < |owners| && owners[i] == node
    ensures var firsts := Firsts(owners[..i]);
            Firsts(owners[..i + 1]) == if node in firsts then firsts else firsts + [node]
  {
    FirstsSnoc(owners[..i], node);
    assert owners[..i + 1] == owners[..i] + [node];
  }

  lemma FirstsEnough(owners: seq<Node>, k: nat, count: int)
    requires k <= |owners| && |Firsts(owners[..k])| == if count < 1 then 1 else count
    ensures AtMost(Firsts(owners), if count < 1 then 1 else count) == Firsts(owners[..k])
  {
    FirstsPrefix(owners, k);
  }

  lemma NodesAre(ring: Ring, keys: seq<nat>, h: nat, count: int)
    requires Lists(keys, ring.Keys)
    ensures forall k | k in Clockwise(keys, h) :: k in ring
    ensures var owners := Owners(ring, Clockwise(keys, h));
            && |owners| == |Clockwise(keys, h)|
            && NodesForKey(ring, keys, h, count) == AtMost(Firsts(owners), if count < 1 then 1 else count)
  {
    ClockwiseMembers(keys, h);
  }

  lemma OwnerAt(ring: Ring, met: seq<nat>, i: nat)
    requires (forall k | k in met :: k in ring) && i < |met|
    ensures met[i] in met && |Owners(ring, met)| == |met| && Owners(ring, met)[i] == ring[met[i]]
  {
  }

  lemma AllOfThem(s: seq<Node>, count: int)
    ensures |s| <= count ==> AtMost(s, count) == s
  {
  }

  lemma FirstsOfNone(s: seq<Node>)
    ensures Firsts(s[..0]) == []
  {
  }

  lemma HasMember(s: seq<nat>)
    ensures s != [] ==> exists k :: k in s
  {
    if s != [] { assert s[0] in s; }
  }

  lemma NoKeys(ring: Ring, keys: seq<nat>, h: nat, count: int)
    requires Lists(keys, ring.Keys) && ring == map[]
    ensures NodesForKey(ring, keys, h, count) == []
  {
    ClockwiseMembers(keys, h);
    HasMember(keys);
  }

  /** In a sorted list everything before the first position at or after `h` is before `h`. */
  lemma SortedSplit(keys: seq<nat>, h: nat, idx: nat)
    requires Increasing(keys) && idx <= |keys|
    requires (idx > 0 ==> keys[idx - 1] < h) && (idx < |keys| ==> keys[idx] >= h)
    ensures forall i | 0 <= i < idx :: keys[i] < h
    ensures forall i | idx <= i < |keys| :: keys[i] >= h
  {
    forall i | 0 <= i < idx ensures keys[i] < h { assert keys[i] <= keys[idx - 1]; }
    forall i | idx <= i < |keys| ensures keys[i] >= h { assert keys[idx] <= keys[i]; }
  }

  lemma AllLate(s: seq<nat>, h: nat)
    requires forall i | 0 <= i < |s| :: s[i] >= h
    ensures Filter(s, AtOrAfter(h)) == s && Filter(s, Before(h)) == []
  {
    FilterAll(s, AtOrAfter(h));
    FilterNone(s, Before(h));
  }

  lemma AllEarly(s: seq<nat>, h: nat)
    requires forall i | 0 <= i < |s| :: s[i] < h
    ensures Filter(s, AtOrAfter(h)) == [] && Filter(s, Before(h)) == s
  {
    FilterNone(s, AtOrAfter(h));
    FilterAll(s, Before(h));
  }

  lemma ClockwiseFromSplit(keys: seq<nat>, h: nat, idx: nat)
    requires Increasing(keys) && idx <= |keys|
    requires (idx > 0 ==> keys[idx - 1] < h) && (idx < |keys| ==> keys[idx] >= h)
    ensures Clockwise(keys, h) == keys[idx..] + keys[..idx]
  {
    hide Filter, AtOrAfter, Before, Increasing;
    SortedSplit(keys, h, idx);
    AllLate(keys[idx..], h);
    AllEarly(keys[..idx], h);
    assert keys == keys[..idx] + keys[idx..];
    FilterConcat(keys[..idx], keys[idx..], AtOrAfter(h));
    FilterConcat(keys[..idx], keys[idx..], Before(h));
  }

  /** The loop's index arithmetic: from the first position at or after `h`, or from the start. */
  lemma ClockwiseIsRotation(keys: seq<nat>, h: nat, idx: nat)
    requires Increasing(keys) && idx <= |keys|
    requires idx == 0 ==> keys == [] || keys[0] >= h || keys[|keys| - 1] < h
    requires idx > 0 ==> idx < |keys| && keys[idx] >= h && keys[idx - 1] < h
    ensures Clockwise(keys, h) == keys[idx..] + keys[..idx]
  {
    hide Clockwise, Increasing;
    if idx > 0 || keys == [] || keys[0] >= h {
      ClockwiseFromSplit(keys, h, idx);
    } else {
      ClockwiseFromSplit(keys, h, |keys|);
      assert keys[|keys|..] + keys[..|keys|] == keys == keys[0..] + keys[..0];
    }
  }

  lemma {:induction false} FilterAll(s: seq<nat>, keep: nat -> bool)
    requires forall i | 0 <= i < |s| :: keep(s[i])
    ensures Filter(s, keep) == s
  {
    if s != [] { FilterAll(s[..|s| - 1], keep); }
  }

  lemma {:induction false} FilterNone(s: seq<nat>, keep: nat -> bool)
    requires forall i | 0 <= i < |s| :: !keep(s[i])
    ensures Filter(s, keep) == []
  {
    if s != [] { FilterNone(s[..|s| - 1], keep); }
  }

  lemma {:induction false} FirstsPrefix(s: seq<Node>, k: nat)
    requires k <= |s|
    ensures Firsts(s[..k]) <= Firsts(s)
  {
    if k == |s| {
      assert s[..k] == s;
    } else {
      FirstsPrefix(s[..|s| - 1], k);
      assert s[..|s| - 1][..k] == s[..k];
    }
  }
}
