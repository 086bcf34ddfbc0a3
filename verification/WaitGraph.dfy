/** The wait-for graph of src/nodes/lock_manager.py: its walks and cycles, and the theory that says
    what the lists reported by a depth-first search are worth. */
module WaitGraph {
  import opened Commands
  import opened LockTable
  import opened Sequences

  type Edge = (Client, Client)

  // ----- Walks, cycles -----

  predicate Walk(g: WaitFor, s: seq<Client>) {
    forall i | 0 <= i < |s| - 1 :: s[i + 1] in WaitsOf(g, s[i])
  }

  /** A walk whose last client waits for its first; clients may repeat. */
  predicate ClosedWalk(g: WaitFor, s: seq<Client>) {
    s != [] && Walk(g, s) && s[0] in WaitsOf(g, s[|s| - 1])
  }

  predicate SimpleCycle(g: WaitFor, s: seq<Client>) {
    ClosedWalk(g, s) && Distinct(s)
  }

  ghost predicate Acyclic(g: WaitFor) {
    forall s: seq<Client> :: !ClosedWalk(g, s)
  }

  predicate UsesEdge(s: seq<Client>, e: Edge) {
    s != [] && ((exists i | 0 <= i < |s| - 1 :: (s[i], s[i + 1]) == e) || (s[|s| - 1], s[0]) == e)
  }

  /** The edge that closes each reported list: from its last client to its first. */
  function Closing(cycles: seq<seq<Client>>): set<Edge> {
    set i | 0 <= i < |cycles| && cycles[i] != [] :: (cycles[i][|cycles[i]| - 1], cycles[i][0])
  }

  function Without(g: WaitFor, edges: set<Edge>): WaitFor {
    map u | u in g :: set v | v in g[u] && (u, v) !in edges
  }

  // ----- Finish orders -----

  /** `order` lists every client that waits, and every edge either is in `closing` or leads to a
      client earlier in the order. */
  ghost predicate FinishOrder(g: WaitFor, order: seq<Client>, closing: set<Edge>) {
    && (forall u | u in g :: u in order)
    && Settled(g, order, closing)
  }

  ghost predicate Settled(g: WaitFor, order: seq<Client>, closing: set<Edge>) {
    && Distinct(order)
    && forall k | 0 <= k < |order| :: SettledAt(g, order, closing, k)
  }

  predicate SettledAt(g: WaitFor, order: seq<Client>, closing: set<Edge>, k: nat)
    requires k < |order|
  {
    forall v | v in WaitsOf(g, order[k]) :: (order[k], v) in closing || v in order[..k]
  }

  function Place(order: seq<Client>, c: Client): (k: nat)
    requires c in order
    ensures k < |order| && order[k] == c
    ensures c !in order[..k]
  {
    if order[0] == c then 0
    else
      var k := 1 + Place(order[1..], c);
      assert forall i | 1 <= i < k :: order[i] == order[1..][..k - 1][i - 1];
      k
  }

  lemma EdgeGoesBack(g: WaitFor, order: seq<Client>, closing: set<Edge>, u: Client, v: Client)
    requires FinishOrder(g, order, closing) && v in WaitsOf(g, u) && (u, v) !in closing
    ensures u in order && v in order && Place(order, v) < Place(order, u)
  {
    var k := Place(order, u);
    assert SettledAt(g, order, closing, k);
    var i :| 0 <= i < k && order[..k][i] == v;
    assert forall j | 0 <= j < Place(order, v) :: order[..Place(order, v)][j] == order[j] && order[j] != v;
  }

  /** Along a walk that uses no closing edge the place in the order falls at every step. */
  lemma {:induction false} WalkGoesBack(g: WaitFor, order: seq<Client>, closing: set<Edge>, s: seq<Client>, k: nat)
    requires FinishOrder(g, order, closing) && Walk(g, s) && k < |s| && s[0] in order
    requires forall i | 0 <= i < |s| - 1 :: (s[i], s[i + 1]) !in closing
    ensures s[k] in order && Place(order, s[k]) <= Place(order, s[0]) - k
  {
    if k > 0 {
      WalkGoesBack(g, order, closing, s, k - 1);
      assert s[k - 1 + 1] in WaitsOf(g, s[k - 1]) && (s[k - 1], s[k - 1 + 1]) !in closing;
      EdgeGoesBack(g, order, closing, s[k - 1], s[k]);
    }
  }

  /** Every closed walk uses the closing edge of some reported list. */
  lemma EveryCycleIsBroken(g: WaitFor, order: seq<Client>, closing: set<Edge>, s: seq<Client>) returns (e: Edge)
    requires FinishOrder(g, order, closing) && ClosedWalk(g, s)
    ensures e in closing && UsesEdge(s, e)
  {
    e := (s[|s| - 1], s[0]);
    if e !in closing {
      if i :| 0 <= i < |s| - 1 && (s[i], s[i + 1]) in closing {
        e := (s[i], s[i + 1]);
      } else {
        EdgeGoesBack(g, order, closing, s[|s| - 1], s[0]);
        WalkGoesBack(g, order, closing, s, |s| - 1);
        assert false;
      }
    }
  }

  lemma UnclosedWalk(g: WaitFor, closing: set<Edge>, s: seq<Client>)
    requires ClosedWalk(Without(g, closing), s)
    ensures ClosedWalk(g, s)
    ensures forall e | UsesEdge(s, e) :: e !in closing
  {
  }

  lemma NothingClosedLeft(g: WaitFor, order: seq<Client>, closing: set<Edge>)
    requires FinishOrder(g, order, closing)
    ensures Acyclic(Without(g, closing))
  {
    forall s: seq<Client> ensures !ClosedWalk(Without(g, closing), s) {
      if ClosedWalk(Without(g, closing), s) {
        UnclosedWalk(g, closing, s);
        var e := EveryCycleIsBroken(g, order, closing, s);
      }
    }
  }

  // ----- What a search returns -----

  /** Each list follows tree edges: a client after the first was entered from the one before it. */
  predicate FollowsTree(parent: map<Client, Client>, s: seq<Client>) {
    forall i | 0 < i < |s| :: s[i] in parent && parent[s[i]] == s[i - 1]
  }

  predicate TreePath(g: WaitFor, parent: map<Client, Client>, s: seq<Client>) {
    Walk(g, s) && Distinct(s) && FollowsTree(parent, s)
  }

  predicate AllReal(g: WaitFor, parent: map<Client, Client>, cycles: seq<seq<Client>>) {
    forall i | 0 <= i < |cycles| :: SimpleCycle(g, cycles[i]) && FollowsTree(parent, cycles[i])
  }

  /** Every simple cycle that follows the tree to one of the clients in `done` is listed. */
  ghost predicate Listed(g: WaitFor, parent: map<Client, Client>, cycles: seq<seq<Client>>, done: seq<Client>) {
    forall s: seq<Client> | SimpleCycle(g, s) && FollowsTree(parent, s) && s[|s| - 1] in done :: s in cycles
  }

  /** What is reported: exactly the simple cycles that follow the search tree but for their closing edge. */
  ghost predicate ReportsTreeCycles(g: WaitFor, cycles: seq<seq<Client>>, parent: map<Client, Client>) {
    forall s: seq<Client> :: s in cycles <==> SimpleCycle(g, s) && FollowsTree(parent, s)
  }

  ghost predicate SearchResult(g: WaitFor, cycles: seq<seq<Client>>, parent: map<Client, Client>) {
    && ReportsTreeCycles(g, cycles, parent)
    && (forall s: seq<Client> | ClosedWalk(g, s) :: exists e :: e in Closing(cycles) && UsesEdge(s, e))
    && Acyclic(Without(g, Closing(cycles)))
    && (cycles == [] <==> Acyclic(g))
  }

  lemma SearchDone(g: WaitFor, cycles: seq<seq<Client>>, parent: map<Client, Client>, order: seq<Client>)
    requires AllReal(g, parent, cycles) && Listed(g, parent, cycles, order)
    requires FinishOrder(g, order, Closing(cycles))
    ensures SearchResult(g, cycles, parent)
  {
    hide ClosedWalk, Closing, UsesEdge, Without, FinishOrder, FollowsTree, Listed, Acyclic;
    ListedAll(g, cycles, parent, order);
    forall s: seq<Client> | ClosedWalk(g, s) ensures exists e :: e in Closing(cycles) && UsesEdge(s, e) {
      var e := EveryCycleIsBroken(g, order, Closing(cycles), s);
    }
    NothingClosedLeft(g, order, Closing(cycles));
    NothingToClose();
    NothingReported(g, cycles, parent);
  }

  lemma ListedAll(g: WaitFor, cycles: seq<seq<Client>>, parent: map<Client, Client>, order: seq<Client>)
    requires AllReal(g, parent, cycles) && Listed(g, parent, cycles, order)
    requires FinishOrder(g, order, Closing(cycles))
    ensures ReportsTreeCycles(g, cycles, parent)
  {
    hide FollowsTree, Closing, Settled;
    forall s: seq<Client> | SimpleCycle(g, s) && FollowsTree(parent, s) ensures s in cycles {
      assert s[|s| - 1] in g;
    }
  }

  lemma NothingReported(g: WaitFor, cycles: seq<seq<Client>>, parent: map<Client, Client>)
    requires AllReal(g, parent, cycles)
    requires cycles == [] ==> forall s: seq<Client> :: !ClosedWalk(g, s)
    ensures cycles == [] <==> Acyclic(g)
  {
    hide ClosedWalk, FollowsTree;
    assert cycles != [] ==> SimpleCycle(g, cycles[0]);
  }

  lemma NothingToClose()
    ensures Closing([]) == {}
  {
  }

  lemma ReportedIsSimple(g: WaitFor, cycles: seq<seq<Client>>, parent: map<Client, Client>, ring: seq<Client>)
    requires SearchResult(g, cycles, parent) && ring in cycles
    ensures SimpleCycle(g, ring)
  {
    hide SimpleCycle, Closing, Acyclic, UsesEdge;
  }

  lemma SomethingReported(g: WaitFor, cycles: seq<seq<Client>>, parent: map<Client, Client>, ring: seq<Client>)
    requires SearchResult(g, cycles, parent) && SimpleCycle(g, ring)
    ensures cycles != [] && exists e :: e in Closing(cycles) && UsesEdge(ring, e)
  {
    hide ReportsTreeCycles, Closing, UsesEdge, Distinct, Walk;
  }

  /** Three clients that all wait for one another. */
  function Triangle(a: Client, b: Client, c: Client): WaitFor {
    map[a := {b, c}, b := {a, c}, c := {a, b}]
  }

  predicate RotationOf(s: seq<Client>, a: Client, b: Client, c: Client) {
    s == [a, b, c] || s == [b, c, a] || s == [c, a, b]
  }

  lemma TriangleCycles(a: Client, b: Client, c: Client, s: seq<Client>)
    requires a != b && b != c && a != c && RotationOf(s, a, b, c)
    ensures SimpleCycle(Triangle(a, b, c), s) && SimpleCycle(Triangle(a, c, b), s)
  {
  }

  lemma OneOrientation(a: Client, b: Client, c: Client, parent: map<Client, Client>, s: seq<Client>, t: seq<Client>)
    requires a != b && b != c && a != c
    requires RotationOf(s, a, b, c) && RotationOf(t, a, c, b) && FollowsTree(parent, s)
    ensures !FollowsTree(parent, t)
  {
    assert parent[s[1]] == s[0] && parent[s[2]] == s[1];
    if t[1] == s[1] || t[1] == s[2] {
      assert parent[t[1]] != t[0];
    } else {
      assert parent[t[2]] != t[1];
    }
  }

  /** The reported lists are not all the cycles: no search of a triangle reports both of its
      cycles of length three, in whatever rotation. */
  lemma NotEveryCycleIsReported(
    a: Client, b: Client, c: Client, cycles: seq<seq<Client>>, parent: map<Client, Client>, s: seq<Client>,
        t: seq<Client>)
    requires a != b && b != c && a != c && ReportsTreeCycles(Triangle(a, b, c), cycles, parent)
    requires RotationOf(s, a, b, c) && RotationOf(t, a, c, b)
    ensures SimpleCycle(Triangle(a, b, c), s) && SimpleCycle(Triangle(a, b, c), t)
    ensures s !in cycles || t !in cycles
  {
    hide Triangle, SimpleCycle, FollowsTree;
    TriangleCycles(a, b, c, s);
    TriangleCycles(a, c, b, t);
    if s in cycles {
      OneOrientation(a, b, c, parent, s, t);
    }
  }

  function Rotated(s: seq<Client>, k: nat): seq<Client>
    requires k <= |s|
  {
    s[k..] + s[..k]
  }

  lemma RotationIsSimple(g: WaitFor, s: seq<Client>, k: nat)
    requires SimpleCycle(g, s) && k <= |s|
    ensures SimpleCycle(g, Rotated(s, k))
  {
    hide WaitsOf;
    var t := Rotated(s, k);
    assert forall i | 0 <= i < |s| :: t[i] == if i < |s| - k then s[i + k] else s[i + k - |s|];
    forall i | 0 <= i < |t| - 1 ensures t[i + 1] in WaitsOf(g, t[i]) {
      if i + k + 1 < |s| {
        assert s[i + k + 1] in WaitsOf(g, s[i + k]);
      } else if i + k + 1 > |s| {
        assert s[i + k - |s| + 1] in WaitsOf(g, s[i + k - |s|]);
      }
    }
  }

  /** A cycle is reported in one of its rotations. */
  ghost predicate ReportedRound(cycles: seq<seq<Client>>, s: seq<Client>) {
    exists k | 0 <= k <= |s| :: Rotated(s, k) in cycles
  }
}
