/** The depth-first search of `detect_cycles` in src/nodes/lock_manager.py: what it records, as a value
    and what each of its steps makes of that, and as the object its inner function updates. */
module Searches {
  import opened Commands
  import opened LockTable
  import opened Sequences
  import opened WaitGraph

  // ----- The search -----

  function Universe(g: WaitFor): set<Client> {
    g.Keys + set u, v | u in g && v in g[u] :: v
  }

  lemma PathGrows(g: WaitFor, parent: map<Client, Client>, path: seq<Client>, node: Client)
    requires TreePath(g, parent, path) && node !in path && node !in parent
    requires path != [] ==> node in WaitsOf(g, path[|path| - 1])
    ensures TreePath(g, if path == [] then parent else parent[node := path[|path| - 1]], path + [node])
  {
    hide WaitsOf;
    assert forall i | 0 <= i < |path| :: path[i] in path;
  }

  lemma PathShrinks(g: WaitFor, parent: map<Client, Client>, path: seq<Client>, node: Client)
    requires TreePath(g, parent, path + [node])
    ensures TreePath(g, parent, path) && node !in path
  {
    hide WaitsOf;
    var long := path + [node];
    assert forall i | 0 <= i < |path| :: path[i] == long[i];
    assert long[|path|] == node;
  }

  lemma StaysReal(g: WaitFor, parent: map<Client, Client>, cycles: seq<seq<Client>>, node: Client, from: Client)
    requires AllReal(g, parent, cycles) && node !in parent
    ensures AllReal(g, parent[node := from], cycles)
  {
    hide SimpleCycle;
  }

  /** Entered clients have visited parents, and the first client of the path has none. */
  ghost predicate Rooted(parent: map<Client, Client>, visited: set<Client>, path: seq<Client>) {
    && parent.Keys <= visited && (forall v | v in parent :: parent[v] in visited)
    && (path != [] ==> path[0] !in parent)
  }

  lemma RootedGrows(parent: map<Client, Client>, visited: set<Client>, path: seq<Client>, node: Client)
    requires Rooted(parent, visited, path) && node !in visited && Members(path) <= visited
    ensures Rooted(if path == [] then parent else parent[node := path[|path| - 1]], visited + {node}, path + [node])
  {
    MembersIn(path);
    assert path != [] ==> path[|path| - 1] in path && path[0] in path;
  }

  /** What follows the tree to a visited client has been visited. */
  lemma {:induction false} TreeVisited(parent: map<Client, Client>, visited: set<Client>, s: seq<Client>, k: nat)
    requires forall v | v in parent && v in visited :: parent[v] in visited
    requires FollowsTree(parent, s) && k < |s| && s[|s| - 1] in visited
    ensures s[k] in visited
    decreases |s| - k
  {
    if k < |s| - 1 {
      TreeVisited(parent, visited, s, k + 1);
      assert parent[s[k + 1]] == s[k + 1 - 1];
    }
  }

  lemma StaysListed(g: WaitFor, parent: map<Client, Client>, cycles: seq<seq<Client>>, done: seq<Client>,
                    visited: set<Client>, path: seq<Client>, node: Client, from: Client)
    requires Listed(g, parent, cycles, done) && Rooted(parent, visited, path)
    requires node !in visited && from in visited && Members(done) <= visited
    ensures Listed(g, parent[node := from], cycles, done)
  {
    hide SimpleCycle;
    MembersIn(done);
    var parent' := parent[node := from];
    forall s: seq<Client> | SimpleCycle(g, s) && FollowsTree(parent', s) && s != [] && s[|s| - 1] in done
      ensures FollowsTree(parent, s)
    {
      forall k | 0 <= k < |s| ensures s[k] in visited { TreeVisited(parent', visited, s, k); }
    }
    NotEmpty(g);
  }

  lemma NotEmpty(g: WaitFor)
    ensures !SimpleCycle(g, [])
  {
  }

  /** What follows the tree to the last client of the path is a stretch of the path. */
  lemma {:induction false} TreeStretch(parent: map<Client, Client>, path: seq<Client>, s: seq<Client>, k: nat)
    requires FollowsTree(parent, path) && FollowsTree(parent, s) && path != [] && s != [] && path[0] !in parent
    requires s[|s| - 1] == path[|path| - 1] && k < |s|
    ensures k < |path| && s[|s| - 1 - k] == path[|path| - 1 - k]
  {
    if k > 0 {
      TreeStretch(parent, path, s, k - 1);
      assert s[|s| - k] in parent && parent[s[|s| - k]] == s[|s| - k - 1];
      assert path[|path| - k] in parent;
      assert parent[path[|path| - k]] == path[|path| - k - 1];
    }
  }

  /** All stretches of the path that an edge of `node`, its last client, to no client in `todo` closes are listed. */
  ghost predicate StretchesListed(
    g: WaitFor, path: seq<Client>, cycles: seq<seq<Client>>, node: Client, todo: set<Client>) {
    forall i | 0 <= i < |path| && path[i] in WaitsOf(g, node) && path[i] !in todo :: path[i..] in cycles
  }

  lemma StretchOfPath(parent: map<Client, Client>, path: seq<Client>, s: seq<Client>)
    requires FollowsTree(parent, path) && FollowsTree(parent, s) && path != [] && s != [] && path[0] !in parent
    requires s[|s| - 1] == path[|path| - 1]
    ensures |s| <= |path| && s == path[|path| - |s|..]
  {
    TreeStretch(parent, path, s, |s| - 1);
    forall j | 0 <= j < |s| ensures s[j] == path[|path| - |s| + j] {
      TreeStretch(parent, path, s, |s| - 1 - j);
    }
  }

  lemma ListNext(g: WaitFor, parent: map<Client, Client>, visited: set<Client>, path: seq<Client>,
                 cycles: seq<seq<Client>>, done: seq<Client>, node: Client)
    requires Listed(g, parent, cycles, done) && TreePath(g, parent, path) && Rooted(parent, visited, path)
    requires path != [] && path[|path| - 1] == node && StretchesListed(g, path, cycles, node, {})
    ensures Listed(g, parent, cycles, done + [node])
  {
    hide Distinct, Walk, WaitsOf, FollowsTree;
    forall s: seq<Client> | SimpleCycle(g, s) && FollowsTree(parent, s) && s[|s| - 1] in done + [node]
      ensures s in cycles
    {
      if s[|s| - 1] !in done {
        StretchOfPath(parent, path, s);
        assert path[|path| - |s|] in WaitsOf(g, node);
      }
    }
  }

  lemma CycleOnPath(g: WaitFor, parent: map<Client, Client>, path: seq<Client>, i: nat)
    requires TreePath(g, parent, path)
    requires i < |path| && path[i] in WaitsOf(g, path[|path| - 1])
    ensures SimpleCycle(g, path[i..]) && FollowsTree(parent, path[i..])
  {
    hide WaitsOf;
    var s := path[i..];
    assert forall k | 0 <= k < |s| :: s[k] == path[i + k];
    forall k | 0 <= k < |s| - 1 ensures s[k + 1] in WaitsOf(g, s[k]) {
      assert path[i + k + 1] in WaitsOf(g, path[i + k]);
    }
  }

  lemma ClosingGrows(some: seq<seq<Client>>, more: seq<seq<Client>>)
    requires some <= more
    ensures Closing(some) <= Closing(more)
  {
    forall e | e in Closing(some) ensures e in Closing(more) {
      var i :| 0 <= i < |some| && some[i] != [] && e == (some[i][|some[i]| - 1], some[i][0]);
      assert more[i] == some[i];
    }
  }

  lemma SettledMore(g: WaitFor, order: seq<Client>, some: set<Edge>, more: set<Edge>)
    requires Settled(g, order, some) && some <= more
    ensures Settled(g, order, more)
  {
    forall k | 0 <= k < |order| ensures SettledAt(g, order, more, k) {
      assert SettledAt(g, order, some, k);
    }
  }

  lemma SettleNext(g: WaitFor, order: seq<Client>, closing: set<Edge>, node: Client)
    requires Settled(g, order, closing) && node !in order
    requires forall v | v in WaitsOf(g, node) :: (node, v) in closing || v in order
    ensures Settled(g, order + [node], closing)
  {
    hide WaitsOf;
    var after := order + [node];
    forall k | 0 <= k < |after| ensures SettledAt(g, after, closing, k) {
      if k < |order| {
        assert SettledAt(g, order, closing, k) && after[..k] == order[..k];
      } else {
        assert after[..k] == order;
      }
    }
  }

  // ----- The states of a search -----

  /** What a search has recorded: the clients visited, the path to the one being explored, the lists
      reported, and in which order clients were left and from where they were entered. */
  datatype Search = Search(
    visited: set<Client>, path: seq<Client>, cycles: seq<seq<Client>>,
    finished: seq<Client>, parent: map<Client, Client>)

  const UNSTARTED := Search({}, [], [], [], map[])

  ghost predicate Sound(g: WaitFor, s: Search) {
    && TreePath(g, s.parent, s.path)
    && Members(s.finished) !! Members(s.path) && s.visited == Members(s.finished) + Members(s.path)
    && Rooted(s.parent, s.visited, s.path)
    && AllReal(g, s.parent, s.cycles) && Listed(g, s.parent, s.cycles, s.finished)
    && Settled(g, s.finished, Closing(s.cycles))
  }

  /** Every edge of `node` except those to `todo` has been dealt with. */
  ghost predicate Explored(g: WaitFor, s: Search, node: Client, todo: set<Client>) {
    && (forall v | v in WaitsOf(g, node) && v !in todo :: (node, v) in Closing(s.cycles) || v in s.finished)
    && StretchesListed(g, s.path, s.cycles, node, todo)
  }

  function Entered(s: Search, node: Client): Search {
    s.(visited := s.visited + {node}, path := s.path + [node],
       parent := if s.path == [] then s.parent else s.parent[node := s.path[|s.path| - 1]])
  }

  function Reported(s: Search, neighbor: Client): Search
    requires neighbor in s.path
  {
    s.(cycles := s.cycles + [s.path[Place(s.path, neighbor)..]])
  }

  function Left(s: Search): Search
    requires s.path != []
  {
    s.(path := s.path[..|s.path| - 1], finished := s.finished + [s.path[|s.path| - 1]])
  }

  /** The call for `node` may begin. */
  predicate CanEnter(g: WaitFor, s: Search, node: Client) {
    && node in Universe(g) && node !in s.visited
    && (s.path != [] ==> node in WaitsOf(g, s.path[|s.path| - 1]))
  }

  lemma EnterSound(g: WaitFor, s: Search, node: Client)
    requires Sound(g, s) && CanEnter(g, s, node)
    ensures Sound(g, Entered(s, node))
  {
    hide TreePath, AllReal, Settled, Closing, Listed, Rooted;
    MembersIn(s.path);
    MembersSnoc(s.path, node);
    RootedKeys(s.parent, s.visited, s.path);
    PathGrows(g, s.parent, s.path, node);
    RootedGrows(s.parent, s.visited, s.path, node);
    if s.path != [] {
      assert s.path[|s.path| - 1] in s.path;
      StaysListed(g, s.parent, s.cycles, s.finished, s.visited, s.path, node, s.path[|s.path| - 1]);
      StaysReal(g, s.parent, s.cycles, node, s.path[|s.path| - 1]);
    }
  }

  lemma RootedKeys(parent: map<Client, Client>, visited: set<Client>, path: seq<Client>)
    requires Rooted(parent, visited, path)
    ensures parent.Keys <= visited
  {
  }

  /** A neighbour on the path closes a cycle. */
  lemma ReportSound(g: WaitFor, s: Search, node: Client, neighbor: Client)
    requires Sound(g, s) && s.path != [] && s.path[|s.path| - 1] == node
    requires neighbor in s.path && neighbor in WaitsOf(g, node)
    ensures Sound(g, Reported(s, neighbor)) && (node, neighbor) in Closing(Reported(s, neighbor).cycles)
    ensures forall i | 0 <= i < |s.path| && s.path[i] == neighbor :: s.path[i..] in Reported(s, neighbor).cycles
  {
    hide SimpleCycle, FollowsTree, Settled, Walk;
    var i, cycles := Place(s.path, neighbor), Reported(s, neighbor).cycles;
    assert cycles[|s.cycles|] == s.path[i..];
    CycleOnPath(g, s.parent, s.path, i);
    ClosingGrows(s.cycles, cycles);
    SettledMore(g, s.finished, Closing(s.cycles), Closing(cycles));
    assert cycles[|s.cycles|] in cycles;
  }

  lemma LeaveSound(g: WaitFor, s: Search, node: Client)
    requires Sound(g, s) && s.path != [] && s.path[|s.path| - 1] == node && Explored(g, s, node, {})
    ensures Sound(g, Left(s))
  {
    hide TreePath, AllReal, Settled, Closing, Listed, StretchesListed;
    var path := s.path[..|s.path| - 1];
    ListNext(g, s.parent, s.visited, s.path, s.cycles, s.finished, node);
    assert s.path == path + [node];
    PathShrinks(g, s.parent, path, node);
    MembersIn(path);
    MembersIn(s.finished);
    MembersSnoc(path, node);
    MembersSnoc(s.finished, node);
    SettleNext(g, s.finished, Closing(s.cycles), node);
  }

  /** The call for `node` has gone from `s` to `t`. */
  ghost predicate Searched(g: WaitFor, s: Search, t: Search, node: Client) {
    && Sound(g, t) && t.path == s.path && s.visited <= t.visited && node in t.finished
    && s.finished <= t.finished && s.cycles <= t.cycles
    && (forall v | v in s.visited && v in t.parent :: v in s.parent)
    && (s.path == [] ==> node !in t.parent)
  }

  /** The call for `node`, begun in `s`, is in `t` and has yet to look at `todo`. */
  ghost predicate Midway(g: WaitFor, s: Search, t: Search, node: Client, todo: set<Client>) {
    && Sound(g, t) && t.path == s.path + [node] && s.visited + {node} <= t.visited
    && s.finished <= t.finished && s.cycles <= t.cycles
    && todo <= WaitsOf(g, node) && Explored(g, t, node, todo)
    && (forall v | v in s.visited && v in t.parent :: v in s.parent)
    && (s.path == [] ==> node !in t.parent)
  }

  lemma MidwayStart(g: WaitFor, s: Search, node: Client)
    requires Sound(g, s) && CanEnter(g, s, node)
    ensures Midway(g, s, Entered(s, node), node, WaitsOf(g, node))
  {
    hide Sound, Closing, WaitsOf;
    EnterSound(g, s, node);
    EnteredFresh(g, s, node);
  }

  lemma EnteredFresh(g: WaitFor, s: Search, node: Client)
    requires Sound(g, s) && node !in s.visited
    ensures node !in s.parent
  {
  }

  /** Once an edge to `neighbor` has been dealt with, it need not be looked at again. */
  lemma ExploredMore(g: WaitFor, s: Search, t: Search, node: Client, todo: set<Client>, neighbor: Client)
    requires Explored(g, s, node, todo)
    requires t.path == s.path && s.cycles <= t.cycles && s.finished <= t.finished
    requires (node, neighbor) in Closing(t.cycles) || neighbor in t.finished
    requires forall i | 0 <= i < |s.path| && s.path[i] == neighbor :: s.path[i..] in t.cycles
    ensures Explored(g, t, node, todo - {neighbor})
  {
    hide Closing, WaitsOf;
    ClosingGrows(s.cycles, t.cycles);
  }

  lemma MidwayCall(g: WaitFor, s: Search, t: Search, node: Client, todo: set<Client>, neighbor: Client, u: Search)
    requires Midway(g, s, t, node, todo) && neighbor in todo && CanEnter(g, t, neighbor)
    requires Searched(g, t, u, neighbor)
    ensures Midway(g, s, u, node, todo - {neighbor})
  {
    hide Sound, Closing, WaitsOf, Explored;
    PathVisited(g, t);
    ExploredMore(g, t, u, node, todo, neighbor);
  }

  lemma PathVisited(g: WaitFor, s: Search)
    requires Sound(g, s)
    ensures forall i | 0 <= i < |s.path| :: s.path[i] in s.visited
    ensures forall c | c in s.visited :: c in s.path || c in s.finished
  {
    MembersIn(s.path);
    MembersIn(s.finished);
    assert forall i | 0 <= i < |s.path| :: s.path[i] in s.path;
  }

  lemma MidwayReport(g: WaitFor, s: Search, t: Search, node: Client, todo: set<Client>, neighbor: Client)
    requires Midway(g, s, t, node, todo) && neighbor in todo && neighbor in t.path
    ensures Midway(g, s, Reported(t, neighbor), node, todo - {neighbor})
  {
    hide Sound, Closing, WaitsOf, Explored;
    ReportSound(g, t, node, neighbor);
    ExploredMore(g, t, Reported(t, neighbor), node, todo, neighbor);
  }

  lemma MidwaySkip(g: WaitFor, s: Search, t: Search, node: Client, todo: set<Client>, neighbor: Client)
    requires Midway(g, s, t, node, todo) && neighbor in todo && neighbor in t.visited && neighbor !in t.path
    ensures Midway(g, s, t, node, todo - {neighbor})
  {
    hide Sound, Closing, WaitsOf, Explored;
    PathVisited(g, t);
    ExploredMore(g, t, t, node, todo, neighbor);
  }

  lemma MidwayEnd(g: WaitFor, s: Search, t: Search, node: Client)
    requires Midway(g, s, t, node, {})
    ensures Searched(g, s, Left(t), node)
  {
    hide Sound, Closing, WaitsOf;
    LeaveSound(g, t, node);
  }

  lemma MidwayCanEnter(g: WaitFor, s: Search, t: Search, node: Client, todo: set<Client>, neighbor: Client)
    requires Midway(g, s, t, node, todo) && neighbor in todo && neighbor !in t.visited
    ensures CanEnter(g, t, neighbor)
  {
  }

  /** Every call has an outcome. */
  lemma SomeCall(g: WaitFor, s: Search, node: Client) returns (t: Search)
    requires Sound(g, s) && CanEnter(g, s, node)
    ensures Searched(g, s, t, node)
    decreases Universe(g) - s.visited
  {
    hide Sound, Midway, Searched, WaitsOf, Universe;
    t := Entered(s, node);
    MidwayStart(g, s, node);
    var todo := WaitsOf(g, node);
    while todo != {}
      invariant Midway(g, s, t, node, todo)
      decreases todo
    {
      var neighbor :| neighbor in todo;
      MidwayFacts(g, s, t, node, todo);
      if neighbor !in t.visited {
        MidwayCanEnter(g, s, t, node, todo, neighbor);
        var u := SomeCall(g, t, neighbor);
        MidwayCall(g, s, t, node, todo, neighbor, u);
        t := u;
      } else if neighbor in t.path {
        MidwayReport(g, s, t, node, todo, neighbor);
        t := Reported(t, neighbor);
      } else {
        MidwaySkip(g, s, t, node, todo, neighbor);
      }
      todo := todo - {neighbor};
    }
    MidwayFacts(g, s, t, node, todo);
    MidwayEnd(g, s, t, node);
    t := Left(t);
  }

  lemma MidwayFacts(g: WaitFor, s: Search, t: Search, node: Client, todo: set<Client>)
    requires Midway(g, s, t, node, todo)
    ensures Sound(g, t) && s.visited + {node} <= t.visited && t.path == s.path + [node]
  {
  }

  /** One run of `detect_cycles`: the variables its inner function shares, and that function. */
  class CycleSearch {
    const graph: WaitFor
    var visited: set<Client>
    var recStack: set<Client>
    var path: seq<Client>
    var cycles: seq<seq<Client>>
    ghost var finished: seq<Client>
    ghost var parent: map<Client, Client>

    constructor (graph: WaitFor)
      ensures this.graph == graph && Valid() && State() == UNSTARTED
    {
      this.graph := graph;
      visited, recStack, path, cycles, finished, parent := {}, {}, [], [], [], map[];
    }

    ghost function State(): Search
      reads this
    {
      Search(visited, path, cycles, finished, parent)
    }

    ghost predicate Valid()
      reads this
    {
      recStack == Members(path) && Sound(graph, State())
    }

    method Enter(node: Client)
      requires Valid() && CanEnter(graph, State(), node)
      modifies this
      ensures Valid() && State() == Entered(old(State()), node)
    {
      hide Sound, Universe, WaitsOf;
      EnterSound(graph, State(), node);
      MembersSnoc(path, node);
      if path != [] { parent := parent[node := path[|path| - 1]]; }
      visited := visited + {node};
      recStack := recStack + {node};
      path := path + [node];
    }

    /** A neighbour on the path closes a cycle. */
    method Report(node: Client, neighbor: Client)
      requires Valid() && path != [] && path[|path| - 1] == node
      requires neighbor in path && neighbor in WaitsOf(graph, node)
      modifies this`cycles
      ensures Valid() && State() == Reported(old(State()), neighbor)
      ensures SimpleCycle(graph, cycles[|cycles| - 1])
      ensures var s := cycles[|cycles| - 1]; (s[|s| - 1], s[0]) == (node, neighbor)
    {
      hide Sound, SimpleCycle, FollowsTree;
      ReportSound(graph, State(), node, neighbor);
      PathIsTree(graph, State());
      var i := Place(path, neighbor);
      CycleOnPath(graph, parent, path, i);
      cycles := cycles + [path[i..]];
    }

    method Leave(node: Client)
      requires Valid() && path != [] && path[|path| - 1] == node && Explored(graph, State(), node, {})
      modifies this
      ensures Valid() && State() == Left(old(State()))
    {
      hide Sound, Explored;
      LeaveSound(graph, State(), node);
      assert path == path[..|path| - 1] + [node];
      MembersSnoc(path[..|path| - 1], node);
      PathLeft(graph, State());
      path := path[..|path| - 1];
      recStack := recStack - {node};
      finished := finished + [node];
    }

    method Dfs(node: Client)
      requires Valid() && CanEnter(graph, State(), node)
      modifies this
      ensures Valid() && Searched(graph, old(State()), State(), node)
      decreases Universe(graph) - visited
    {
      hide Sound, Midway, Searched, WaitsOf, Universe, Members;
      MidwayStart(graph, State(), node);
      Enter(node);
      var todo := WaitsOf(graph, node);
      while todo != {}
        invariant Valid() && Midway(graph, old(State()), State(), node, todo)
        decreases todo
      {
        var neighbor :| neighbor in todo;
        label Before:
        MidwayFacts(graph, old(State()), State(), node, todo);
        MembersIn(path);
        if neighbor !in visited {
          MidwayCanEnter(graph, old(State()), State(), node, todo, neighbor);
          Dfs(neighbor);
          MidwayCall(graph, old(State()), old@Before(State()), node, todo, neighbor, State());
        } else if neighbor in recStack {
          MidwayReport(graph, old(State()), State(), node, todo, neighbor);
          MidwayTodo(graph, old(State()), State(), node, todo);
          Report(node, neighbor);
        } else {
          MidwaySkip(graph, old(State()), State(), node, todo, neighbor);
        }
        todo := todo - {neighbor};
      }
      MidwayFacts(graph, old(State()), State(), node, todo);
      MidwayTodo(graph, old(State()), State(), node, todo);
      MidwayEnd(graph, old(State()), State(), node);
      Leave(node);
    }
  }

  lemma PathIsTree(g: WaitFor, s: Search)
    requires Sound(g, s)
    ensures TreePath(g, s.parent, s.path)
  {
  }

  lemma PathLeft(g: WaitFor, s: Search)
    requires Sound(g, s) && s.path != []
    ensures s.path[|s.path| - 1] !in Members(s.path[..|s.path| - 1])
  {
    hide Walk, Settled, Listed;
  }

  lemma MidwayTodo(g: WaitFor, s: Search, t: Search, node: Client, todo: set<Client>)
    requires Midway(g, s, t, node, todo)
    ensures todo <= WaitsOf(g, node) && Explored(g, t, node, todo)
  {
  }
}
