/** `DeadlockDetector` of src/nodes/lock_manager.py, and when its searches report every cycle. */
module Detector {
  import opened Commands
  import opened LockTable
  import opened Sequences
  import opened Searches
  import opened WaitGraph

  // ----- A whole search, from whichever client -----

  /** `cycles` and `parent` come from a search of the graph that starts at `first`. */
  ghost predicate StartsAt(g: WaitFor, cycles: seq<seq<Client>>, parent: map<Client, Client>, first: Client) {
    SearchResult(g, cycles, parent) && first in g && first !in parent
  }

  /** Between two calls at the outermost level, when the clients in `todo` have yet to be looked at. */
  ghost predicate Between(g: WaitFor, s: Search, todo: set<Client>, first: Client) {
    && Sound(g, s) && s.path == [] && todo <= g.Keys <= s.visited + todo
    && (todo != g.Keys ==> first in g && first in s.visited && first !in s.parent)
  }

  lemma BetweenStart(g: WaitFor, first: Client)
    ensures Between(g, UNSTARTED, g.Keys, first)
  {
  }

  /** The first client that is looked at becomes the root of the first tree. */
  lemma BetweenCall(g: WaitFor, s: Search, todo: set<Client>, first: Client, node: Client, t: Search)
    requires Between(g, s, todo, first) && node in todo && (todo == g.Keys ==> node == first)
    requires if node in s.visited then t == s else Searched(g, s, t, node)
    requires todo == g.Keys ==> node !in s.visited
    ensures Between(g, t, todo - {node}, first)
  {
    hide Sound;
    if node !in s.visited { FinishedVisited(g, t); }
  }

  lemma FinishedVisited(g: WaitFor, s: Search)
    requires Sound(g, s)
    ensures forall c | c in s.finished :: c in s.visited
  {
    MembersIn(s.finished);
  }

  lemma BetweenEnter(g: WaitFor, s: Search, todo: set<Client>, first: Client, node: Client)
    requires Between(g, s, todo, first) && node in todo && node !in s.visited
    ensures Sound(g, s) && CanEnter(g, s, node)
  {
  }

  lemma BetweenEnd(g: WaitFor, s: Search, first: Client)
    requires Between(g, s, {}, first)
    ensures SearchResult(g, s.cycles, s.parent)
    ensures g != map[] ==> StartsAt(g, s.cycles, s.parent, first)
  {
    hide SearchResult, AllReal, Listed;
    PathVisited(g, s);
    SearchDone(g, s.cycles, s.parent, s.finished);
  }

  /** From every client of the graph there is a search. */
  lemma SomeSearch(g: WaitFor, first: Client) returns (cycles: seq<seq<Client>>, parent: map<Client, Client>)
    requires first in g
    ensures StartsAt(g, cycles, parent, first)
  {
    hide Between, StartsAt, Sound, Searched, CanEnter;
    BetweenStart(g, first);
    var s := UNSTARTED;
    BetweenEnter(g, s, g.Keys, first, first);
    var t := SomeCall(g, s, first);
    BetweenCall(g, s, g.Keys, first, first, t);
    s := t;
    var todo := g.Keys - {first};
    while todo != {}
      invariant todo <= g.Keys - {first} && Between(g, s, todo, first)
      decreases todo
    {
      var node :| node in todo;
      t := s;
      if node !in s.visited {
        BetweenEnter(g, s, todo, first, node);
        t := SomeCall(g, s, node);
      }
      BetweenCall(g, s, todo, first, node, t);
      s := t;
      todo := todo - {node};
    }
    BetweenEnd(g, s, first);
    cycles, parent := s.cycles, s.parent;
  }

  // ----- When every cycle is reported -----

  predicate SimplePath(g: WaitFor, s: seq<Client>, u: Client, v: Client) {
    s != [] && s[0] == u && s[|s| - 1] == v && Walk(g, s) && Distinct(s)
  }

  /** No edge lies on two cycles: from the client an edge leads to, there is at most one simple path
      back to the one it comes from. */
  ghost predicate OneWay(g: WaitFor) {
    forall u, v, s, t | u in WaitsOf(g, v) && SimplePath(g, s, u, v) && SimplePath(g, t, u, v) :: s == t
  }

  ghost predicate ReportsAll(g: WaitFor, cycles: seq<seq<Client>>) {
    forall s: seq<Client> | SimpleCycle(g, s) :: ReportedRound(cycles, s)
  }

  /** A cycle through an edge, read from the end of the edge, is a path back to its start. */
  lemma RotatedToEdge(g: WaitFor, s: seq<Client>, e: Edge) returns (k: nat)
    requires SimpleCycle(g, s) && UsesEdge(s, e)
    ensures k <= |s| && SimplePath(g, Rotated(s, k), e.1, e.0)
  {
    if (s[|s| - 1], s[0]) == e {
      k := 0;
      assert Rotated(s, 0) == s;
    } else {
      var i :| 0 <= i < |s| - 1 && (s[i], s[i + 1]) == e;
      k := i + 1;
      RotationIsSimple(g, s, k);
      assert Rotated(s, k)[0] == s[k] && Rotated(s, k)[|s| - 1] == s[i];
    }
  }

  /** Where no edge lies on two cycles, a search reports every cycle. */
  lemma OneWayReportsAll(g: WaitFor, cycles: seq<seq<Client>>, parent: map<Client, Client>)
    requires OneWay(g) && SearchResult(g, cycles, parent)
    ensures ReportsAll(g, cycles)
  {
    hide OneWay, Walk, Distinct, UsesEdge, Rotated, FollowsTree;
    forall s: seq<Client> | SimpleCycle(g, s) ensures ReportedRound(cycles, s) {
      SomethingReported(g, cycles, parent, s);
      var e :| e in Closing(cycles) && UsesEdge(s, e);
      var i :| 0 <= i < |cycles| && cycles[i] != [] && e == (cycles[i][|cycles[i]| - 1], cycles[i][0]);
      ReportedIsSimple(g, cycles, parent, cycles[i]);
      var k := RotatedToEdge(g, s, e);
      OnePath(g, Rotated(s, k), cycles[i], e.1, e.0);
    }
  }

  lemma OnePath(g: WaitFor, s: seq<Client>, t: seq<Client>, u: Client, v: Client)
    requires OneWay(g) && u in WaitsOf(g, v) && SimplePath(g, s, u, v) && SimplePath(g, t, u, v)
    ensures s == t
  {
  }

  /** A rotation that follows the tree of a search from one of its clients begins with that client. */
  lemma RootComesFirst(parent: map<Client, Client>, s: seq<Client>, k: nat)
    requires s != [] && Distinct(s) && s[0] !in parent && k <= |s| && FollowsTree(parent, Rotated(s, k))
    ensures Rotated(s, k) == s
  {
    RotatedFirst(s, k);
  }

  lemma RotatedFirst(s: seq<Client>, k: nat)
    requires k <= |s|
    ensures if 0 < k < |s| then Rotated(s, k)[|s| - k] == s[0] else Rotated(s, k) == s
  {
  }

  /** Two paths round one edge are two cycles, and a search that starts where the edge leads misses one. */
  lemma TwoWaysMissOne(
    g: WaitFor, cycles: seq<seq<Client>>, parent: map<Client, Client>,
    u: Client, v: Client, s: seq<Client>, t: seq<Client>)
    requires StartsAt(g, cycles, parent, u) && u in WaitsOf(g, v)
    requires SimplePath(g, s, u, v) && SimplePath(g, t, u, v) && s != t
    ensures SimpleCycle(g, s) && SimpleCycle(g, t)
    ensures !(ReportedRound(cycles, s) && ReportedRound(cycles, t))
  {
    hide Walk, Rotated, FollowsTree, Closing, Acyclic, UsesEdge, Without;
    if ReportedRound(cycles, s) && ReportedRound(cycles, t) {
      var k :| 0 <= k <= |s| && Rotated(s, k) in cycles;
      var l :| 0 <= l <= |t| && Rotated(t, l) in cycles;
      RootComesFirst(parent, s, k);
      RootComesFirst(parent, t, l);
      StretchOfPath(parent, s, t);
      StretchOfPath(parent, t, s);
    }
  }

  /** Searches report every cycle, from whichever client they start, exactly if no edge of the graph
      lies on two cycles; otherwise there is a client from which every search misses one. */
  lemma ReportsAllExactly(g: WaitFor)
    ensures OneWay(g) <==> forall cycles, parent, first | StartsAt(g, cycles, parent, first) :: ReportsAll(g, cycles)
    ensures !OneWay(g) ==> exists first | first in g ::
              (exists cycles, parent :: StartsAt(g, cycles, parent, first))
              && forall cycles, parent | StartsAt(g, cycles, parent, first) :: !ReportsAll(g, cycles)
  {
    hide ReportsAll, SearchResult, SimplePath, ReportedRound;
    if OneWay(g) {
      forall cycles, parent, first | StartsAt(g, cycles, parent, first) ensures ReportsAll(g, cycles) {
        OneWayReportsAll(g, cycles, parent);
      }
    } else {
      var u, v, s, t :| u in WaitsOf(g, v) && SimplePath(g, s, u, v) && SimplePath(g, t, u, v) && s != t;
      PathLeaves(g, u, v, s, t);
      var someCycles, someParent := SomeSearch(g, u);
      forall cycles, parent | StartsAt(g, cycles, parent, u) ensures !ReportsAll(g, cycles) {
        SomethingMissed(g, cycles, parent, u, v, s, t);
      }
    }
  }

  lemma PathLeaves(g: WaitFor, u: Client, v: Client, s: seq<Client>, t: seq<Client>)
    requires u in WaitsOf(g, v) && SimplePath(g, s, u, v) && SimplePath(g, t, u, v) && s != t
    ensures u in g
  {
    if |s| > 1 {
      assert s[0 + 1] in WaitsOf(g, s[0]);
    } else {
      assert s == [u] && u == v;
    }
  }

  lemma SomethingMissed(
    g: WaitFor, cycles: seq<seq<Client>>, parent: map<Client, Client>,
    u: Client, v: Client, s: seq<Client>, t: seq<Client>)
    requires StartsAt(g, cycles, parent, u) && u in WaitsOf(g, v)
    requires SimplePath(g, s, u, v) && SimplePath(g, t, u, v) && s != t
    ensures !ReportsAll(g, cycles)
  {
    hide SimplePath, StartsAt, SimpleCycle, ReportedRound;
    TwoWaysMissOne(g, cycles, parent, u, v, s, t);
  }

  /** `DeadlockDetector`. */
  class DeadlockDetector {
    var waitFor: WaitFor

    constructor ()
      ensures waitFor == map[]
    {
      waitFor := map[];
    }

    method AddWait(waiter: Client, holders: set<Client>)
      modifies this
      ensures waitFor == LockTable.AddWait(old(waitFor), waiter, holders)
    {
      if waiter !in waitFor {
        waitFor := waitFor[waiter := {}];
      }
      waitFor := waitFor[waiter := waitFor[waiter] + (holders - {waiter})];
    }

    method RemoveClient(client: Client)
      modifies this
      ensures waitFor == RemoveClients(old(waitFor), {client})
    {
      waitFor := waitFor - {client};
      var todo := waitFor.Keys;
      while todo != {}
        invariant waitFor.Keys == old(waitFor).Keys - {client} && todo <= waitFor.Keys
        invariant forall w | w in waitFor ::
            waitFor[w] == if w in todo then old(waitFor)[w] else old(waitFor)[w] - {client}
        decreases todo
      {
        var w :| w in todo;
        waitFor := waitFor[w := waitFor[w] - {client}];
        todo := todo - {w};
      }
    }

    /** Each reported list is a simple cycle of the graph; every closed walk of the graph uses the
        closing edge of some reported list, so that without those edges no cycle is left; and
        nothing is reported exactly if the graph has no cycle. */
    method DetectCycles()
      returns (cycles: seq<seq<Client>>, ghost parent: map<Client, Client>, ghost first: Client)
      ensures forall c | c in cycles :: SimpleCycle(waitFor, c)
      ensures cycles == [] <==> Acyclic(waitFor)
      ensures OneWay(waitFor) ==> ReportsAll(waitFor, cycles)
      ensures SearchResult(waitFor, cycles, parent)
      ensures waitFor != map[] ==> StartsAt(waitFor, cycles, parent, first)
    {
      hide SimpleCycle, ClosedWalk, Closing, Without, UsesEdge, FollowsTree, OneWay, ReportsAll, Between, Sound,
        Searched, CanEnter;
      var search := new CycleSearch(waitFor);
      var todo := waitFor.Keys;
      first := "";
      BetweenStart(waitFor, first);
      while todo != {}
        invariant search.Valid() && search.graph == waitFor && todo <= waitFor.Keys
        invariant Between(waitFor, search.State(), todo, first)
        invariant todo == waitFor.Keys ==> search.State() == UNSTARTED
        decreases todo
      {
        var node :| node in todo;
        label Before:
        if todo == waitFor.Keys {
          first := node;
          BetweenStart(waitFor, first);
        }
        if node !in search.visited {
          BetweenEnter(waitFor, search.State(), todo, first, node);
          search.Dfs(node);
        }
        BetweenCall(waitFor, old@Before(search.State()), todo, first, node, search.State());
        todo := todo - {node};
      }
      cycles, parent := search.cycles, search.parent;
      BetweenEnd(waitFor, search.State(), first);
      if OneWay(waitFor) { OneWayReportsAll(waitFor, cycles, parent); }
      forall c | c in cycles ensures SimpleCycle(waitFor, c) { ReportedIsSimple(waitFor, cycles, parent, c); }
    }
  }
}
