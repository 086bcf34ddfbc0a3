/** How a leader brings a follower up to date: the next index goes back by one for each refusal, until
    a request reaches into the part that the two logs share. */
module RaftCatchUp {
  import opened Options
  import opened Commands
  import opened RaftNode
  import opened RaftCluster
  import opened RaftElection
  import opened RaftLogs
  import opened RaftMoves

  function Back(next: Position, k: nat): Position {
    if next - k >= 1 then next - k else 1
  }

  // ----- What an answer does to a leader's records -----

  /** Nothing but the next index of `peer` differs. */
  ghost predicate OnlyNextOf(s: State, t: State, peer: NodeId) {
    && t == s.(nextIndex := t.nextIndex) && t.nextIndex.Keys == s.nextIndex.Keys + {peer}
    && forall q | q in s.nextIndex && q != peer :: t.nextIndex[q] == s.nextIndex[q]
  }

  /** The answer comes from the present leadership, or from an earlier one that still counts. */
  predicate Heard(fix: Fixes, s: State, req: AppendRequest, answer: AppendReply) {
    answer.term <= s.currentTerm && (fix.checkLeadership ==> s.role == Leader && s.currentTerm == req.term)
  }

  lemma RefusalBacksOff(fix: Fixes, s: State, peers: set<NodeId>, peer: NodeId, req: AppendRequest, answer: AppendReply)
    requires Heard(fix, s, req, answer) && !answer.success
    ensures var t := OnAppendReply(fix, s, peers, peer, req, answer);
            OnlyNextOf(s, t, peer) && NextOf(t, peer) == Back(NextOf(s, peer), 1)
  {
  }

  /** A success is recorded for the peer alone; what it may also do is commit and apply. */
  lemma SuccessCounts(fix: Fixes, s: State, peers: set<NodeId>, peer: NodeId, req: AppendRequest, answer: AppendReply)
    requires Heard(fix, s, req, answer) && answer.success
    ensures var t := OnAppendReply(fix, s, peers, peer, req, answer);
            && t == s.(nextIndex := t.nextIndex, matchIndex := t.matchIndex,
                       commitIndex := t.commitIndex, lastApplied := t.lastApplied, applied := t.applied)
            && (req.entries != [] ==> NextOf(t, peer) == req.prevLogIndex + |req.entries| + 1
                                      && MatchOf(t, peer) == req.prevLogIndex + |req.entries|)
            && (req.entries == [] ==> t.nextIndex == s.nextIndex && t.matchIndex == s.matchIndex)
            && (forall q | q != peer || req.entries == [] :: NextOf(t, q) == NextOf(s, q) && MatchOf(t, q) == MatchOf(s, q))
  {
  }

  // ----- When an append is accepted -----

  /** Over logs that are traced to leaders: an append is accepted exactly if its term is not behind and
      the follower's log has all that precedes the entries in the sender's log. */
  lemma AcceptsExactly(termLog: map<nat, Log>, me: State, req: AppendRequest, sentLog: Log)
    requires Traced(termLog, me.log) && Traced(termLog, sentLog) && Snapshot(termLog, req, sentLog)
    requires forall i | 0 <= i < |me.log| :: me.log[i].term >= 1
    ensures Accepts(me, req) <==> req.term >= me.currentTerm && Agree(me.log, sentLog, req.prevLogIndex)
  {
    var prev := req.prevLogIndex;
    if PrevMatches(me.log, prev, req.prevLogTerm) {
      PrevAgrees(termLog, me.log, req, sentLog);
    }
    if prev > 0 && Agree(me.log, sentLog, prev) {
      assert me.log[prev - 1] == me.log[..prev][prev - 1] == sentLog[..prev][prev - 1];
    }
  }

  predicate Agree(a: Log, b: Log, n: nat) {
    n <= |a| && n <= |b| && a[..n] == b[..n]
  }

  // ----- A leader and one follower, undisturbed -----

  datatype Pair = Pair(leader: State, follower: State)

  /** The leader `n` sends to `p` what it builds for it, and takes the answer. */
  function Exchanged(fix: Fixes, n: NodeId, p: NodeId, peers: set<NodeId>, x: Pair): Pair {
    var req := RequestFor(x.leader, n, p);
    var (follower, reply) := OnAppend(fix, x.follower, p, req);
    Pair(OnAppendReply(fix, x.leader, peers, p, req, reply), follower)
  }

  function Exchanges(fix: Fixes, n: NodeId, p: NodeId, peers: set<NodeId>, x: Pair, k: nat): Pair {
    if k == 0 then x else Exchanged(fix, n, p, peers, Exchanges(fix, n, p, peers, x, k - 1))
  }

  /** A leader, and a follower that is not ahead of its term, both with logs of a run. */
  ghost predicate Ready(termLog: map<nat, Log>, x: Pair) {
    && x.leader.role == Leader && x.follower.currentTerm <= x.leader.currentTerm
    && x.leader.currentTerm in termLog && x.leader.log <= termLog[x.leader.currentTerm]
    && Traced(termLog, x.leader.log) && Traced(termLog, x.follower.log)
    && forall i | 0 <= i < |x.follower.log| :: x.follower.log[i].term >= 1
  }

  lemma RequestIsSnapshot(termLog: map<nat, Log>, x: Pair, n: NodeId, p: NodeId)
    requires Ready(termLog, x)
    ensures Snapshot(termLog, RequestFor(x.leader, n, p), x.leader.log)
    ensures var req := RequestFor(x.leader, n, p);
            req.prevLogIndex == NextOf(x.leader, p) - 1 && req.term == x.leader.currentTerm
  {
  }

  lemma ExchangeRefused(fix: Fixes, n: NodeId, p: NodeId, peers: set<NodeId>, termLog: map<nat, Log>, x: Pair)
    requires Ready(termLog, x) && !Agree(x.follower.log, x.leader.log, NextOf(x.leader, p) - 1)
    ensures NextOf(x.leader, p) > 1
    ensures var y := Exchanged(fix, n, p, peers, x);
            && Ready(termLog, y) && y.leader.log == x.leader.log && y.follower.log == x.follower.log
            && OnlyNextOf(x.leader, y.leader, p) && NextOf(y.leader, p) == NextOf(x.leader, p) - 1
  {
    hide RequestFor, OnAppend, OnAppendReply, Accepts, Traced, Snapshot, NextOf;
    var req := RequestFor(x.leader, n, p);
    var (follower, reply) := OnAppend(fix, x.follower, p, req);
    RequestIsSnapshot(termLog, x, n, p);
    AcceptsExactly(termLog, x.follower, req, x.leader.log);
    AppendOutcome(fix, x.follower, p, req);
    RefusalBacksOff(fix, x.leader, peers, p, req, reply);
  }

  lemma ExchangeAccepted(fix: Fixes, n: NodeId, p: NodeId, peers: set<NodeId>, termLog: map<nat, Log>, x: Pair)
    requires Ready(termLog, x) && Agree(x.follower.log, x.leader.log, NextOf(x.leader, p) - 1)
    ensures var y := Exchanged(fix, n, p, peers, x);
            && y.leader.log == x.leader.log && y.leader.role == Leader
            && x.leader.log <= y.follower.log && (y.follower.log == x.follower.log || y.follower.log == x.leader.log)
            && NextOf(y.leader, p) == |x.leader.log| + 1
            && (NextOf(x.leader, p) <= |x.leader.log| ==> MatchOf(y.leader, p) == |x.leader.log|)
  {
    hide OnAppend, OnAppendReply, Accepts, Traced, Snapshot, HoldsEntries, RequestFor, Appended, PrevMatches, NextOf,
      MatchOf, Agree;
    var req := RequestFor(x.leader, n, p);
    var (follower, reply) := OnAppend(fix, x.follower, p, req);
    RequestIsSnapshot(termLog, x, n, p);
    AcceptsExactly(termLog, x.follower, req, x.leader.log);
    AppendOutcome(fix, x.follower, p, req);
    AcceptsPrev(x.follower, req);
    AcceptedAppend(fix, termLog, x.follower.log, req, x.leader.log);
    SuccessCounts(fix, x.leader, peers, p, req, reply);
  }

  lemma AcceptsPrev(s: State, req: AppendRequest)
    ensures Accepts(s, req) ==> PrevMatches(s.log, req.prevLogIndex, req.prevLogTerm)
  {
  }

  ghost predicate Reaches(fix: Fixes, n: NodeId, p: NodeId, peers: set<NodeId>, x: Pair, j: nat) {
    var y := Exchanges(fix, n, p, peers, x, j);
    && y.leader.role == Leader && y.leader.log == x.leader.log && y.follower.log == x.follower.log
    && NextOf(y.leader, p) == NextOf(x.leader, p) - j
  }

  /** After `j` exchanges nothing has changed but the next index, which is `j` less, and the next
      request is accepted, or refused, because of what the logs have before it. */
  ghost predicate Round(fix: Fixes, n: NodeId, p: NodeId, peers: set<NodeId>, x: Pair, j: nat, accepted: bool) {
    && Reaches(fix, n, p, peers, x, j) && j < NextOf(x.leader, p)
    && (Agree(x.follower.log, x.leader.log, NextOf(x.leader, p) - j - 1) <==> accepted)
    && var y := Exchanges(fix, n, p, peers, x, j);
       Accepts(y.follower, RequestFor(y.leader, n, p)) <==> accepted
  }

  /** As long as the two logs do not agree up to what precedes the next index, `k` refusals have taken
      the next index back by `k`. The first request for which they agree, and there is one among the
      first `NextOf` many, is accepted: the follower's log then begins with the leader's, and the
      leader knows it. */
  lemma CatchesUp(fix: Fixes, n: NodeId, p: NodeId, peers: set<NodeId>, termLog: map<nat, Log>, x: Pair)
      returns (k: nat)
    requires Ready(termLog, x)
    ensures k < NextOf(x.leader, p)
    ensures forall j | 0 <= j < k :: Round(fix, n, p, peers, x, j, false)
    ensures Round(fix, n, p, peers, x, k, true)
    ensures var y := Exchanges(fix, n, p, peers, x, k + 1);
            && y.leader.log == x.leader.log && y.leader.role == Leader
            && x.leader.log <= y.follower.log && (y.follower.log == x.follower.log || y.follower.log == x.leader.log)
            && NextOf(y.leader, p) == |x.leader.log| + 1
            && (NextOf(x.leader, p) - k <= |x.leader.log| ==> MatchOf(y.leader, p) == |x.leader.log|)
  {
    hide RequestFor, Exchanged, Traced, Accepts;
    k := 0;
    while !Agree(x.follower.log, x.leader.log, NextOf(x.leader, p) - k - 1)
      invariant k < NextOf(x.leader, p)
      invariant Ready(termLog, Exchanges(fix, n, p, peers, x, k))
      invariant Reaches(fix, n, p, peers, x, k)
      invariant forall j | 0 <= j < k :: Round(fix, n, p, peers, x, j, false)
      decreases NextOf(x.leader, p) - k
    {
      ExchangeRefused(fix, n, p, peers, termLog, Exchanges(fix, n, p, peers, x, k));
      AcceptsHere(termLog, Exchanges(fix, n, p, peers, x, k), n, p);
      k := k + 1;
    }
    AcceptsHere(termLog, Exchanges(fix, n, p, peers, x, k), n, p);
    ExchangeAccepted(fix, n, p, peers, termLog, Exchanges(fix, n, p, peers, x, k));
  }

  lemma AcceptsHere(termLog: map<nat, Log>, x: Pair, n: NodeId, p: NodeId)
    requires Ready(termLog, x)
    ensures Accepts(x.follower, RequestFor(x.leader, n, p))
       <==> Agree(x.follower.log, x.leader.log, NextOf(x.leader, p) - 1)
  {
    hide RequestFor, Accepts;
    RequestIsSnapshot(termLog, x, n, p);
    AcceptsExactly(termLog, x.follower, RequestFor(x.leader, n, p), x.leader.log);
  }

  // ----- The same as a run of the cluster -----

  lemma RunIsReady(fix: Fixes, ids: set<NodeId>, steps: seq<Step>, s: Cluster, n: NodeId, p: NodeId)
    requires Reached(fix, ids, steps, s) && OneLeaderPerTerm(s) && n in ids && p in ids
    requires s.nodes[n].role == Leader && s.nodes[p].currentTerm <= s.nodes[n].currentTerm
    ensures Ready(s.termLog, Pair(s.nodes[n], s.nodes[p]))
  {
    hide After, OneLeaderPerTerm, Traced, BallotsTraced, LeaderLogs, Snapshots;
    LogInvAlways(fix, ids, steps);
    ShapeAlways(fix, ids, steps);
    assert ShapedNode(s.nodes[p]);
  }

  /** A heartbeat, its delivery, and the delivery of the answer are an exchange. */
  lemma ExchangeRun(fix: Fixes, ids: set<NodeId>, steps0: seq<Step>, s0: Cluster, n: NodeId, p: NodeId)
      returns (steps: seq<Step>, s: Cluster)
    requires Reached(fix, ids, steps0, s0) && n in ids && p in ids && n != p && s0.nodes[n].role == Leader
    ensures Reached(fix, ids, steps, s) && steps0 <= steps && |steps| == |steps0| + 3
    ensures var x := Exchanged(fix, n, p, ids - {n}, Pair(s0.nodes[n], s0.nodes[p]));
            s.nodes == s0.nodes[n := x.leader][p := x.follower]
  {
    hide After, RequestFor, OnAppend, OnAppendReply;
    var req, log := RequestFor(s0.nodes[n], n, p), s0.nodes[n].log;
    var (follower, reply) := OnAppend(fix, s0.nodes[p], p, req);
    AppendOutcome(fix, s0.nodes[p], p, req);
    steps, s := PlayHeartbeat(fix, ids, steps0, s0, n);
    steps, s := PlayAppend(fix, ids, steps, s, p, req, log);
    RequestSender(s0.nodes[n], n, p);
    steps, s := PlayReply(fix, ids, steps, s, n, p, req, reply);
  }

  lemma RequestSender(me: State, n: NodeId, p: NodeId)
    ensures RequestFor(me, n, p).sender == n
  {
  }

  /** From every moment of a run with one leader per term, a leader can bring a follower that is not
      ahead of its term up to date by heartbeats alone, at most as many as its next index for it. */
  lemma FollowerCatchesUp(fix: Fixes, ids: set<NodeId>, steps0: seq<Step>, s0: Cluster, n: NodeId, p: NodeId)
      returns (steps: seq<Step>, s: Cluster)
    requires Reached(fix, ids, steps0, s0) && OneLeaderPerTerm(s0) && n in ids && p in ids && n != p
    requires s0.nodes[n].role == Leader && s0.nodes[p].currentTerm <= s0.nodes[n].currentTerm
    ensures Reached(fix, ids, steps, s) && steps0 <= steps && |steps| <= |steps0| + 3 * NextOf(s0.nodes[n], p)
    ensures forall m | m in ids && m != n && m != p :: s.nodes[m] == s0.nodes[m]
    ensures s.nodes[n].log == s0.nodes[n].log <= s.nodes[p].log && NextOf(s.nodes[n], p) == |s.nodes[n].log| + 1
  {
    hide After, OneLeaderPerTerm, Exchanged, Round, Ready, NextOf;
    RunIsReady(fix, ids, steps0, s0, n, p);
    var x := Pair(s0.nodes[n], s0.nodes[p]);
    var k := CatchesUp(fix, n, p, ids - {n}, s0.termLog, x);
    steps, s := steps0, s0;
    for j := 0 to k + 1
      invariant Reached(fix, ids, steps, s) && steps0 <= steps && |steps| == |steps0| + 3 * j
      invariant Pair(s.nodes[n], s.nodes[p]) == Exchanges(fix, n, p, ids - {n}, x, j)
      invariant forall m | m in ids && m != n && m != p :: s.nodes[m] == s0.nodes[m]
    {
      RoundLeads(fix, n, p, ids - {n}, x, j, j == k);
      steps, s := ExchangeRun(fix, ids, steps, s, n, p);
    }
  }

  lemma RoundLeads(fix: Fixes, n: NodeId, p: NodeId, peers: set<NodeId>, x: Pair, j: nat, accepted: bool)
    requires Round(fix, n, p, peers, x, j, accepted)
    ensures Exchanges(fix, n, p, peers, x, j).leader.role == Leader
  {
  }
}
