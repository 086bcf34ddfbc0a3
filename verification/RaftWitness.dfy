/** Runs that break a property of code without the repair for A, B or C, whether or not the other
    two places are repaired: none of the three is implied by the others. Without A a term has two
    leaders; without B, and without C, two nodes apply different commands at one index. */
module RaftWitness {
  import opened Options
  import opened Commands
  import opened RaftNode
  import opened RaftCluster
  import opened RaftMoves

  const THREE: set<NodeId> := {0, 1, 2}

  // ----- Without A -----

  const ASK0 := VoteRequest(0, 1, 0, 0)
  const ASK2 := VoteRequest(2, 1, 0, 0)
  const BEAT := AppendRequest(0, 1, 0, 0, [], 0)

  /** Node 0 wins term 1 with the vote of node 1. */
  lemma FirstLeader(fix: Fixes, steps0: seq<Step>, s0: Cluster) returns (steps: seq<Step>, s: Cluster)
    requires Reached(fix, THREE, steps0, s0) && s0.nodes.Keys == THREE && s0.nodes[0] == FRESH && s0.nodes[1] == FRESH
    ensures Reached(fix, THREE, steps, s) && s.nodes.Keys == THREE && s0.net <= s.net && s.nodes[2] == s0.nodes[2]
    ensures s.nodes[0] == BecomeLeader(StartElection(FRESH, 0).(election := None), 0, {1, 2})
    ensures s.nodes[1] == FRESH.(currentTerm := 1, votedFor := Some(0))
  {
    hide After, Reached;
    steps, s := PlayCampaign(fix, THREE, steps0, s0, 0);
    assert VoteAsk(1, ASK0) in s.net;
    steps, s := PlayVote(fix, THREE, steps, s, 1, ASK0);
    assert THREE - {0} == {1, 2};
    steps, s := PlayWin(fix, THREE, steps, s, 0, {1}, 1);
  }

  /** Without A: a heartbeat makes node 1 forget its vote, the delayed request of node 2 gets
      another one, and term 1 has two leaders at once. */
  lemma TwoLeadersOfOneTerm(fix: Fixes) returns (steps: seq<Step>)
    requires !fix.keepVote
    ensures After(fix, THREE, steps).Some?
    ensures var s := After(fix, THREE, steps).value;
            && 0 in s.nodes && 2 in s.nodes
            && s.nodes[0].role == Leader && s.nodes[2].role == Leader
            && s.nodes[0].currentTerm == s.nodes[2].currentTerm == 1
  {
    hide After;
    var s;
    steps, s := Start(fix, THREE);
    steps, s := PlayCampaign(fix, THREE, steps, s, 2);
    assert VoteAsk(1, ASK2) in s.net;
    steps, s := FirstLeader(fix, steps, s);
    steps, s := PlayHeartbeat(fix, THREE, steps, s, 0);
    assert AppendAsk(1, BEAT, []) in s.net;
    steps, s := PlayAppend(fix, THREE, steps, s, 1, BEAT, []);
    assert s.nodes[1].votedFor == None;
    steps, s := PlayVote(fix, THREE, steps, s, 1, ASK2);
    assert THREE - {2} == {0, 1};
    steps, s := PlayWin(fix, THREE, steps, s, 2, {1}, 1);
  }

  // ----- Without B -----

  const UNLOCK := Release("r", "c")
  const X := Entry(1, 1, Other)
  const Y := Entry(1, 2, Other)
  const Z := Entry(2, 2, UNLOCK)
  const SEND_X := AppendRequest(0, 1, 0, 0, [X], 0)
  const SEND_XY := AppendRequest(0, 1, 0, 0, [X, Y], 0)
  const ASK1 := VoteRequest(1, 2, 1, 1)
  const SEND_Z := AppendRequest(1, 2, 1, 1, [Z], 0)

  const LEADER0 := BecomeLeader(StartElection(FRESH, 0).(election := None), 0, {1, 2})

  lemma Leader0Sends(log: Log)
    requires log == [X] || log == [X, Y]
    ensures var me := LEADER0.(log := log);
            forall p | p == 1 || p == 2 :: RequestFor(me, 0, p) == AppendRequest(0, 1, 0, 0, log, 0)
  {
    var me := LEADER0.(log := log);
    assert NextOf(me, 1) == 1 && NextOf(me, 2) == 1;
    assert me.log[0..] == log;
  }

  /** Node 0 proposes X to the others. */
  lemma OneProposal(fix: Fixes) returns (steps: seq<Step>, s: Cluster)
    ensures Reached(fix, THREE, steps, s) && s.nodes.Keys == THREE
    ensures s.nodes[0] == LEADER0.(log := [X]) && s.nodes[0].role == Leader
    ensures s.nodes[1] == FRESH.(currentTerm := 1, votedFor := Some(0)) && s.nodes[2] == FRESH
    ensures AppendAsk(1, SEND_X, [X]) in s.net && AppendAsk(2, SEND_X, [X]) in s.net
  {
    hide After, Reached, RequestFor;
    steps, s := Start(fix, THREE);
    steps, s := FirstLeader(fix, steps, s);
    steps, s := PlayPropose(fix, THREE, steps, s, 0, Other);
    assert s.nodes[0] == LEADER0.(log := [X]);
    Leader0Sends([X]);
  }

  /** Node 0 proposes Y as well, before any answer has come. */
  lemma TwoProposals(fix: Fixes) returns (steps: seq<Step>, s: Cluster)
    ensures Reached(fix, THREE, steps, s) && s.nodes.Keys == THREE
    ensures s.nodes[0] == LEADER0.(log := [X, Y])
    ensures s.nodes[1] == FRESH.(currentTerm := 1, votedFor := Some(0)) && s.nodes[2] == FRESH
    ensures AppendAsk(1, SEND_X, [X]) in s.net && AppendAsk(2, SEND_X, [X]) in s.net
    ensures AppendAsk(1, SEND_XY, [X, Y]) in s.net
  {
    hide After, Reached, RequestFor, BecomeLeader;
    steps, s := OneProposal(fix);
    steps, s := PlayPropose(fix, THREE, steps, s, 0, Other);
    ProposesY();
    Leader0Sends([X, Y]);
  }

  lemma ProposesY()
    ensures Proposed(LEADER0.(log := [X]), Other) == LEADER0.(log := [X, Y])
  {
    assert [X] + [Y] == [X, Y];
  }

  /** Node 1 acknowledges both entries, node 0 commits them, and then the older append reaches
      nodes 1 and 2. */
  lemma LateAppend(fix: Fixes) returns (steps: seq<Step>, s: Cluster)
    requires !fix.keepMatching
    ensures Reached(fix, THREE, steps, s) && s.nodes.Keys == THREE
    ensures s.nodes[0].applied == [X, Y]
    ensures s.nodes[1] == FRESH.(currentTerm := 1, leaderId := Some(0), log := [X], votedFor := s.nodes[1].votedFor)
    ensures s.nodes[2].log == [X] && s.nodes[2].currentTerm == 1
  {
    hide After, Reached;
    steps, s := TwoProposals(fix);
    steps, s := PlayAppend(fix, THREE, steps, s, 1, SEND_XY, [X, Y]);
    assert s.nodes[1].log == [X, Y];
    var reply := AppendReply(1, true, 1);
    assert AppendAnswer(SEND_XY, reply) in s.net;
    var me := s.nodes[0];
    steps, s := PlayReply(fix, THREE, steps, s, 0, 1, SEND_XY, reply);
    CountsTwo(fix, me, reply);
    steps, s := PlayAppend(fix, THREE, steps, s, 1, SEND_X, [X]);
    assert [X, Y][..0] + [X] == [X];
    steps, s := PlayAppend(fix, THREE, steps, s, 2, SEND_X, [X]);
  }

  lemma CountsTwo(fix: Fixes, me: State, reply: AppendReply)
    requires me == LEADER0.(log := [X, Y])
    requires reply == AppendReply(1, true, 1)
    ensures OnAppendReply(fix, me, THREE - {0}, 1, SEND_XY, reply).applied == [X, Y]
  {
    var mid := me.(nextIndex := me.nextIndex[1 := 3], matchIndex := me.matchIndex[1 := 2]);
    assert THREE - {0} == {1, 2};
    assert (set p | p in {1, 2} && MatchOf(mid, p) >= 2) == {1};
    assert Replicated(mid, {1, 2}, 2);
    assert TopCommit(mid, {1, 2}, 2) == 2;
    assert [X, Y][0..2] == [X, Y];
  }

  /** Node 1, without Y, wins term 2 and proposes Z. */
  lemma SecondLeader(fix: Fixes) returns (steps: seq<Step>, s: Cluster)
    requires !fix.keepMatching
    ensures Reached(fix, THREE, steps, s) && s.nodes.Keys == THREE
    ensures s.nodes[0].applied == [X, Y]
    ensures var me := s.nodes[1];
            && me.role == Leader && me.currentTerm == 2 && me.log == [X, Z]
            && me.commitIndex == 0 && me.lastApplied == 0 && me.applied == [] && me.matchIndex == map[0 := 0, 2 := 0]
    ensures s.nodes[2].log == [X] && s.nodes[2].currentTerm == 2
    ensures AppendAsk(2, SEND_Z, [X, Z]) in s.net
  {
    hide After, Reached, RequestFor;
    steps, s := LateAppend(fix);
    steps, s := PlayCampaign(fix, THREE, steps, s, 1);
    assert VoteAsk(2, ASK1) in s.net;
    steps, s := PlayVote(fix, THREE, steps, s, 2, ASK1);
    assert THREE - {1} == {0, 2};
    steps, s := PlayWin(fix, THREE, steps, s, 1, {2}, 2);
    var me := s.nodes[1];
    steps, s := PlayPropose(fix, THREE, steps, s, 1, UNLOCK);
    ProposesZ(me);
  }

  lemma ProposesZ(me: State)
    requires me.log == [X] && me.currentTerm == 2 && me.commitIndex == 0 && NextOf(me, 2) == 2
    ensures var me' := Proposed(me, UNLOCK); me'.log == [X, Z] && RequestFor(me', 1, 2) == SEND_Z
  {
    assert Proposed(me, UNLOCK).log == [X] + [Z] == [X, Z];
    assert [X, Z][1..] == [Z];
  }

  /** Without B: an older append that arrives late cuts a committed entry off node 1, which then
      wins term 2 and commits another entry at the same index; two nodes have applied different
      commands at index 2. */
  lemma CommittedEntryLost(fix: Fixes) returns (steps: seq<Step>)
    requires !fix.keepMatching
    ensures After(fix, THREE, steps).Some?
    ensures var s := After(fix, THREE, steps).value;
            0 in s.nodes && 1 in s.nodes && s.nodes[0].applied == [X, Y] && s.nodes[1].applied == [X, Z]
  {
    hide After;
    var s;
    steps, s := SecondLeader(fix);
    var me := s.nodes[1];
    steps, s := PlayAppend(fix, THREE, steps, s, 2, SEND_Z, [X, Z]);
    var reply := AppendReply(2, true, 2);
    assert AppendAnswer(SEND_Z, reply) in s.net;
    steps, s := PlayReply(fix, THREE, steps, s, 1, 2, SEND_Z, reply);
    CountsZ(fix, me, reply);
  }

  lemma CountsZ(fix: Fixes, me: State, reply: AppendReply)
    requires me.role == Leader && me.currentTerm == 2 && me.log == [X, Z]
    requires me.commitIndex == 0 && me.lastApplied == 0 && me.applied == [] && me.matchIndex == map[0 := 0, 2 := 0]
    requires reply == AppendReply(2, true, 2)
    ensures OnAppendReply(fix, me, THREE - {1}, 2, SEND_Z, reply).applied == [X, Z]
  {
    var mid := me.(nextIndex := me.nextIndex[2 := 3], matchIndex := me.matchIndex[2 := 2]);
    assert THREE - {1} == {0, 2};
    assert (set p | p in {0, 2} && MatchOf(mid, p) >= 2) == {2};
    assert Replicated(mid, {0, 2}, 2);
    assert TopCommit(mid, {0, 2}, 2) == 2;
    assert [X, Z][0..2] == [X, Z];
  }

  // ----- Without C -----

  const FIVE: set<NodeId> := {0, 1, 2, 3, 4}
  const W := Entry(2, 1, UNLOCK)
  const V := Entry(3, 2, Other)
  const SEND_W := AppendRequest(2, 2, 0, 0, [W], 0)
  const SEND_V := AppendRequest(0, 3, 1, 2, [V], 0)
  const OLD_REPLY := AppendReply(1, true, 1)
  const ASK3 := VoteRequest(0, 3, 1, 2)
  const WON := BecomeLeader(StartElection(FRESH, 0).(election := None), 0, {1, 2, 3, 4})

  /** A node of five in `term` that has `log` and no election under way, and has applied nothing. */
  ghost predicate Quiet(me: State, term: nat, log: Log) {
    && me.currentTerm == term && me.log == log && me.election == None
    && me.commitIndex == 0 && me.lastApplied == 0 && me.applied == []
  }

  lemma PeersOfFive()
    ensures FIVE - {0} == {1, 2, 3, 4} && FIVE - {2} == {0, 1, 3, 4}
    ensures |{1, 2, 3, 4}| == 4 && |{0, 1, 3, 4}| == 4
  {
  }

  /** Node 0 leads term 1 and node 1 acknowledges [X, Y]; that answer stays in the network. */
  lemma OldAnswer(fix: Fixes) returns (steps: seq<Step>, s: Cluster)
    ensures Reached(fix, FIVE, steps, s) && s.nodes.Keys == FIVE
    ensures s.nodes[0] == WON.(log := [X, Y]) && Quiet(s.nodes[1], 1, [X, Y])
    ensures s.nodes[2] == FRESH.(currentTerm := 1, votedFor := Some(0))
    ensures s.nodes[3] == FRESH && s.nodes[4] == FRESH
    ensures AppendAnswer(SEND_XY, OLD_REPLY) in s.net
  {
    hide After, Reached, RequestFor, BecomeLeader, OnAppend;
    steps, s := OldProposals(fix);
    TakesXY(fix, s.nodes[1]);
    steps, s := PlayAppend(fix, FIVE, steps, s, 1, SEND_XY, [X, Y]);
  }

  lemma OldProposals(fix: Fixes) returns (steps: seq<Step>, s: Cluster)
    ensures Reached(fix, FIVE, steps, s) && s.nodes.Keys == FIVE
    ensures s.nodes[0] == WON.(log := [X, Y]) && s.nodes[1] == FRESH.(currentTerm := 1, votedFor := Some(0))
    ensures s.nodes[2] == FRESH.(currentTerm := 1, votedFor := Some(0))
    ensures s.nodes[3] == FRESH && s.nodes[4] == FRESH
    ensures AppendAsk(1, SEND_XY, [X, Y]) in s.net
  {
    hide After, Reached, RequestFor, BecomeLeader, Proposed;
    steps, s := FiveLeader(fix);
    WonProposes();
    steps, s := PlayPropose(fix, FIVE, steps, s, 0, Other);
    steps, s := PlayPropose(fix, FIVE, steps, s, 0, Other);
    WonSends();
  }

  lemma WonProposes()
    ensures WON.role == WON.(log := [X]).role == Leader
    ensures Proposed(WON, Other) == WON.(log := [X])
    ensures Proposed(WON.(log := [X]), Other) == WON.(log := [X, Y])
  {
    assert [X] + [Y] == [X, Y];
  }

  lemma TakesXY(fix: Fixes, me: State)
    requires me == FRESH.(currentTerm := 1, votedFor := Some(0))
    ensures var (me', reply) := OnAppend(fix, me, 1, SEND_XY); Quiet(me', 1, [X, Y]) && reply == OLD_REPLY
  {
    assert [][..0] + [X, Y] == [X, Y];
  }

  lemma WonSends()
    ensures RequestFor(WON.(log := [X, Y]), 0, 1) == SEND_XY
  {
  }

  lemma FiveLeader(fix: Fixes) returns (steps: seq<Step>, s: Cluster)
    ensures Reached(fix, FIVE, steps, s) && s.nodes.Keys == FIVE
    ensures s.nodes[0] == WON && s.nodes[0].role == Leader
    ensures s.nodes[1] == FRESH.(currentTerm := 1, votedFor := Some(0))
    ensures s.nodes[2] == FRESH.(currentTerm := 1, votedFor := Some(0))
    ensures s.nodes[3] == FRESH && s.nodes[4] == FRESH
  {
    hide After, Reached;
    PeersOfFive();
    steps, s := Start(fix, FIVE);
    steps, s := PlayCampaign(fix, FIVE, steps, s, 0);
    assert VoteAsk(1, ASK0) in s.net && VoteAsk(2, ASK0) in s.net;
    steps, s := PlayVote(fix, FIVE, steps, s, 1, ASK0);
    steps, s := PlayVote(fix, FIVE, steps, s, 2, ASK0);
    assert |{1, 2}| == 2;
    steps, s := PlayWin(fix, FIVE, steps, s, 0, {1, 2}, 1);
  }

  /** Node 2 wins term 2 and replaces the log of node 0. */
  lemma LogReplaced(fix: Fixes) returns (steps: seq<Step>, s: Cluster)
    ensures Reached(fix, FIVE, steps, s) && s.nodes.Keys == FIVE
    ensures s.nodes[0] == WON.(currentTerm := 2, role := Follower, leaderId := Some(2), votedFor := None, log := [W])
    ensures Quiet(s.nodes[1], 1, [X, Y]) && Quiet(s.nodes[2], 2, [W])
    ensures s.nodes[3] == FRESH.(currentTerm := 2, leaderId := Some(2), log := [W], votedFor := s.nodes[3].votedFor)
    ensures s.nodes[4] == FRESH.(currentTerm := 2, votedFor := Some(2))
    ensures AppendAnswer(SEND_XY, OLD_REPLY) in s.net
  {
    hide After, Reached;
    steps, s := SecondTerm(fix);
    assert [X, Y][0] != [W][0];
    assert !HoldsEntries([X, Y], 0, [W]);
    steps, s := PlayAppend(fix, FIVE, steps, s, 0, SEND_W, [W]);
    assert [X, Y][..0] + [W] == [W];
    steps, s := PlayAppend(fix, FIVE, steps, s, 3, SEND_W, [W]);
  }

  /** A node of an earlier term, with an older log, grants its vote. */
  lemma GetsVote(fix: Fixes, steps0: seq<Step>, s0: Cluster, v: NodeId, ask: VoteRequest)
    returns (steps: seq<Step>, s: Cluster)
    requires Reached(fix, FIVE, steps0, s0) && v in FIVE && VoteAsk(v, ask) in s0.net
    requires ask.term > s0.nodes[v].currentTerm && UpToDate(ask.lastLogTerm, ask.lastLogIndex, s0.nodes[v].log)
    ensures Reached(fix, FIVE, steps, s) && s0.net <= s.net && VoteAnswer(ask, VoteReply(ask.term, true, v)) in s.net
    ensures s.nodes == s0.nodes[v := VotedIn(s0.nodes[v], ask)]
  {
    hide After, Reached;
    steps, s := PlayVote(fix, FIVE, steps0, s0, v, ask);
  }

  function VotedIn(me: State, ask: VoteRequest): State {
    me.(currentTerm := ask.term, role := Follower, votedFor := Some(ask.sender), leaderId := None)
  }

  lemma Overtaken<V>(nodes: map<NodeId, V>, n: NodeId, first: V, second: V, a: NodeId, va: V, b: NodeId, vb: V)
    requires n != a && n != b
    ensures nodes[n := first][a := va][b := vb][n := second] == nodes[n := second][a := va][b := vb]
  {
  }

  /** Node `n` campaigns and wins with the votes of nodes `a` and `b`. */
  lemma WinsWith(fix: Fixes, steps0: seq<Step>, s0: Cluster, n: NodeId, ask: VoteRequest, a: NodeId, b: NodeId)
    returns (steps: seq<Step>, s: Cluster)
    requires Reached(fix, FIVE, steps0, s0) && s0.nodes.Keys == FIVE
    requires {n, a, b} <= FIVE && n != a && n != b && a != b
    requires s0.nodes[n].role != Leader && s0.nodes[n].election == None
    requires StartElection(s0.nodes[n], n).election == Some(ask) && ask.sender == n
    requires ask.term > s0.nodes[a].currentTerm && UpToDate(ask.lastLogTerm, ask.lastLogIndex, s0.nodes[a].log)
    requires ask.term > s0.nodes[b].currentTerm && UpToDate(ask.lastLogTerm, ask.lastLogIndex, s0.nodes[b].log)
    ensures Reached(fix, FIVE, steps, s) && s.nodes.Keys == FIVE && s0.net <= s.net
    ensures forall p | p in FIVE && p != n :: VoteAsk(p, ask) in s.net
    ensures s.nodes == s0.nodes[n := BecomeLeader(StartElection(s0.nodes[n], n).(election := None), n, FIVE - {n})]
                              [a := VotedIn(s0.nodes[a], ask)][b := VotedIn(s0.nodes[b], ask)]
  {
    hide After, Reached, BecomeLeader, UpToDate, VotedIn;
    FourPeers(n);
    steps, s := PlayCampaign(fix, FIVE, steps0, s0, n);
    assert VoteAsk(a, ask) in s.net && VoteAsk(b, ask) in s.net;
    steps, s := GetsVote(fix, steps, s, a, ask);
    steps, s := GetsVote(fix, steps, s, b, ask);
    assert |{a, b}| == 2;
    assert s.nodes[n] == StartElection(s0.nodes[n], n);
    var winner := BecomeLeader(StartElection(s0.nodes[n], n).(election := None), n, FIVE - {n});
    Overtaken(s0.nodes, n, s.nodes[n], winner, a, VotedIn(s0.nodes[a], ask), b, VotedIn(s0.nodes[b], ask));
    steps, s := PlayWin(fix, FIVE, steps, s, n, {a, b}, ask.term);
  }

  lemma FourPeers(n: NodeId)
    requires n in FIVE
    ensures |FIVE - {n}| == 4
  {
    assert |FIVE| == 5;
  }

  lemma SecondTerm(fix: Fixes) returns (steps: seq<Step>, s: Cluster)
    ensures Reached(fix, FIVE, steps, s) && s.nodes.Keys == FIVE
    ensures s.nodes[0] == WON.(log := [X, Y]) && Quiet(s.nodes[1], 1, [X, Y]) && Quiet(s.nodes[2], 2, [W])
    ensures s.nodes[3] == FRESH.(currentTerm := 2, votedFor := Some(2))
    ensures s.nodes[4] == FRESH.(currentTerm := 2, votedFor := Some(2))
    ensures AppendAnswer(SEND_XY, OLD_REPLY) in s.net
    ensures AppendAsk(0, SEND_W, [W]) in s.net && AppendAsk(3, SEND_W, [W]) in s.net
  {
    hide After, Reached, RequestFor, NextOf, Proposed;
    steps, s := OldAnswer(fix);
    PeersOfFive();
    var me := StartElection(s.nodes[2], 2).(election := None);
    steps, s := WinsWith(fix, steps, s, 2, VoteRequest(2, 2, 0, 0), 3, 4);
    LeadsFromTwo(me);
    me := s.nodes[2];
    steps, s := PlayPropose(fix, FIVE, steps, s, 2, UNLOCK);
    ProposesW(me);
  }

  lemma LeadsFromTwo(me: State)
    ensures var t := BecomeLeader(me, 2, {0, 1, 3, 4});
            NextOf(t, 0) == |me.log| + 1 && NextOf(t, 3) == |me.log| + 1
  {
  }

  lemma ProposesW(me: State)
    requires me.log == [] && me.currentTerm == 2 && me.commitIndex == 0 && NextOf(me, 0) == 1 && NextOf(me, 3) == 1
    ensures var me' := Proposed(me, UNLOCK);
            me' == me.(log := [W]) && RequestFor(me', 2, 0) == SEND_W && RequestFor(me', 2, 3) == SEND_W
  {
    var me' := Proposed(me, UNLOCK);
    assert me'.log == [] + [W] == [W];
    assert me'.log[0..] == [W];
    assert NextOf(me', 0) == 1 && NextOf(me', 3) == 1;
  }

  /** Node 0 wins term 3, proposes V, and node 3 acknowledges it: two nodes of five hold V. */
  lemma ThirdTerm(fix: Fixes) returns (steps: seq<Step>, s: Cluster)
    ensures Reached(fix, FIVE, steps, s) && s.nodes.Keys == FIVE
    ensures var me := s.nodes[0];
            && me.role == Leader && me.currentTerm == 3 && me.log == [W, V]
            && me.commitIndex == 0 && me.lastApplied == 0 && me.applied == []
            && me.matchIndex == map[1 := 0, 2 := 0, 3 := 0, 4 := 0]
    ensures Quiet(s.nodes[1], 1, [X, Y]) && Quiet(s.nodes[2], 2, [W]) && Quiet(s.nodes[4], 3, [])
    ensures s.nodes[3].log == [W, V] && VoteAsk(2, ASK3) in s.net
    ensures AppendAnswer(SEND_XY, OLD_REPLY) in s.net && AppendAnswer(SEND_V, AppendReply(3, true, 3)) in s.net
  {
    hide After, Reached, RequestFor, OnAppend;
    steps, s := ThirdElection(fix);
    var me := s.nodes[0];
    steps, s := PlayPropose(fix, FIVE, steps, s, 0, Other);
    ProposesV(me);
    TakesV(fix, s.nodes[3]);
    steps, s := PlayAppend(fix, FIVE, steps, s, 3, SEND_V, [W, V]);
  }

  lemma ProposesV(me: State)
    requires me.log == [W] && me.currentTerm == 3 && me.commitIndex == 0 && NextOf(me, 3) == 2
    ensures var me' := Proposed(me, Other); me'.log == [W, V] && RequestFor(me', 0, 3) == SEND_V
  {
    assert Proposed(me, Other).log == [W, V];
    assert [W, V][1..] == [V];
  }

  lemma TakesV(fix: Fixes, me: State)
    requires me.log == [W] && me.currentTerm == 3 && me.commitIndex == 0
    ensures var (me', reply) := OnAppend(fix, me, 3, SEND_V);
            me'.log == [W, V] && reply == AppendReply(3, true, 3)
  {
    assert [W][..1] + [V] == [W, V];
  }

  lemma ThirdElection(fix: Fixes) returns (steps: seq<Step>, s: Cluster)
    ensures Reached(fix, FIVE, steps, s) && s.nodes.Keys == FIVE
    ensures var me := s.nodes[0];
            && me.role == Leader && me.currentTerm == 3 && me.log == [W]
            && me.commitIndex == 0 && me.lastApplied == 0 && me.applied == []
            && me.matchIndex == map[1 := 0, 2 := 0, 3 := 0, 4 := 0] && NextOf(me, 3) == 2
    ensures Quiet(s.nodes[1], 1, [X, Y]) && Quiet(s.nodes[2], 2, [W]) && Quiet(s.nodes[4], 3, [])
    ensures VoteAsk(2, ASK3) in s.net
    ensures s.nodes[3].log == [W] && s.nodes[3].currentTerm == 3 && s.nodes[3].commitIndex == 0
    ensures AppendAnswer(SEND_XY, OLD_REPLY) in s.net
  {
    hide After, Reached, NextOf;
    steps, s := LogReplaced(fix);
    PeersOfFive();
    var me := StartElection(s.nodes[0], 0).(election := None);
    steps, s := WinsWith(fix, steps, s, 0, ASK3, 3, 4);
    LeadsFive(me);
  }

  lemma LeadsFive(me: State)
    requires me.matchIndex.Keys <= {1, 2, 3, 4}
    ensures var t := BecomeLeader(me, 0, {1, 2, 3, 4});
            t.matchIndex == map[1 := 0, 2 := 0, 3 := 0, 4 := 0] && NextOf(t, 3) == |me.log| + 1
  {
  }

  /** The leader of term 3 counts an answer that was meant for term 1, and commits V. */
  lemma CountsOldAnswer(fix: Fixes) returns (steps: seq<Step>, s: Cluster)
    requires !fix.checkLeadership
    ensures Reached(fix, FIVE, steps, s) && s.nodes.Keys == FIVE && VoteAsk(2, ASK3) in s.net
    ensures s.nodes[0].commitIndex == 2 && s.nodes[0].log == [W, V] && s.nodes[0].applied == [W, V]
    ensures Quiet(s.nodes[1], 1, [X, Y]) && Quiet(s.nodes[2], 2, [W]) && Quiet(s.nodes[4], 3, [])
    ensures s.nodes[3].log == [W, V]
  {
    hide After, Reached, OnAppendReply;
    steps, s := ThirdTerm(fix);
    var me := s.nodes[0];
    var reply := AppendReply(3, true, 3);
    CountsFirst(fix, me, reply);
    steps, s := PlayReply(fix, FIVE, steps, s, 0, 3, SEND_V, reply);
    var me' := s.nodes[0];
    CountsOld(fix, me');
    steps, s := PlayReply(fix, FIVE, steps, s, 0, 1, SEND_XY, OLD_REPLY);
  }

  /** Without C, one leader commits an entry that only two of five nodes hold. */
  lemma CommittedByMinority(fix: Fixes) returns (steps: seq<Step>)
    requires !fix.checkLeadership
    ensures After(fix, FIVE, steps).Some?
    ensures var s := After(fix, FIVE, steps).value;
            && 0 in s.nodes && s.nodes[0].commitIndex == 2 && s.nodes[0].log == [W, V]
            && (set n | n in s.nodes && V in s.nodes[n].log) == {0, 3} && s.nodes.Keys == FIVE
  {
    hide After;
    var s;
    steps, s := CountsOldAnswer(fix);
    HoldersOfV(s);
  }

  lemma HoldersOfV(s: Cluster)
    requires s.nodes.Keys == FIVE
    requires s.nodes[0].log == [W, V] && s.nodes[1].log == [X, Y] && s.nodes[2].log == [W]
    requires s.nodes[3].log == [W, V] && s.nodes[4].log == []
    ensures (set n | n in s.nodes && V in s.nodes[n].log) == {0, 3}
  {
  }

  lemma Counts(me: State, peers: set<NodeId>, n: nat, counted: set<NodeId>)
    requires 1 <= n <= |me.log| && counted <= peers && forall p | p in peers :: MatchOf(me, p) >= n <==> p in counted
    ensures Replicated(me, peers, n) <==> me.log[n - 1].term == me.currentTerm && 1 + |counted| >= Quorum(peers)
  {
    assert (set p | p in peers && MatchOf(me, p) >= n) == counted;
  }

  lemma CountsFirst(fix: Fixes, me: State, reply: AppendReply)
    requires me.role == Leader && me.currentTerm == 3 && me.log == [W, V]
    requires me.commitIndex == 0 && me.lastApplied == 0 && me.applied == []
    requires me.matchIndex == map[1 := 0, 2 := 0, 3 := 0, 4 := 0] && reply == AppendReply(3, true, 3)
    ensures var t := OnAppendReply(fix, me, FIVE - {0}, 3, SEND_V, reply);
            && t.role == Leader && t.currentTerm == 3 && t.log == [W, V]
            && t.commitIndex == 0 && t.lastApplied == 0 && t.applied == []
            && t.matchIndex == map[1 := 0, 2 := 0, 3 := 2, 4 := 0]
  {
    var mid := me.(nextIndex := me.nextIndex[3 := 3], matchIndex := me.matchIndex[3 := 2]);
    PeersOfFive();
    assert mid.matchIndex == map[1 := 0, 2 := 0, 3 := 2, 4 := 0];
    Counts(mid, {1, 2, 3, 4}, 2, {3});
    Counts(mid, {1, 2, 3, 4}, 1, {3});
    assert TopCommit(mid, {1, 2, 3, 4}, 1) == 0;
    assert TopCommit(mid, {1, 2, 3, 4}, 2) == 0;
  }

  lemma CountsOld(fix: Fixes, me: State)
    requires !fix.checkLeadership
    requires me.role == Leader && me.currentTerm == 3 && me.log == [W, V]
    requires me.commitIndex == 0 && me.lastApplied == 0 && me.applied == []
    requires me.matchIndex == map[1 := 0, 2 := 0, 3 := 2, 4 := 0]
    ensures var t := OnAppendReply(fix, me, FIVE - {0}, 1, SEND_XY, OLD_REPLY);
            t.commitIndex == 2 && t.log == [W, V] && t.applied == [W, V]
  {
    var mid := me.(nextIndex := me.nextIndex[1 := 3], matchIndex := me.matchIndex[1 := 2]);
    PeersOfFive();
    assert mid.matchIndex == map[1 := 2, 2 := 0, 3 := 2, 4 := 0];
    Counts(mid, {1, 2, 3, 4}, 2, {1, 3});
    assert |{1, 3}| == 2;
    assert TopCommit(mid, {1, 2, 3, 4}, 2) == 2;
    assert [W, V][0..2] == [W, V];
  }

  // ----- Without C, what becomes of the entry -----

  const U := Entry(4, 2, UNLOCK)
  const ASK4 := VoteRequest(2, 4, 1, 2)
  const SEND_U := AppendRequest(2, 4, 1, 2, [U], 0)
  const SEND_WU := AppendRequest(2, 4, 0, 0, [W, U], 0)

  /** A leader of term 4 that has committed nothing: where its next append to nodes 1 and 4 starts,
      and what it knows of them. */
  ghost predicate Leading(me: State, log: Log, next1: nat, next4: nat, match1: nat, match4: nat) {
    && me.role == Leader && me.currentTerm == 4 && me.log == log
    && me.commitIndex == 0 && me.lastApplied == 0 && me.applied == []
    && NextOf(me, 1) == next1 && NextOf(me, 4) == next4
    && MatchOf(me, 0) == 0 && MatchOf(me, 1) == match1 && MatchOf(me, 3) == 0 && MatchOf(me, 4) == match4
  }

  /** Node 2 hears of term 3 and wins term 4 with the votes of nodes 1 and 4. */
  lemma FourthTerm(fix: Fixes) returns (steps: seq<Step>, s: Cluster)
    requires !fix.checkLeadership
    ensures Reached(fix, FIVE, steps, s) && s.nodes.Keys == FIVE && s.nodes[0].applied == [W, V]
    ensures Leading(s.nodes[2], [W], 2, 2, 0, 0)
    ensures Quiet(s.nodes[1], 4, [X, Y]) && Quiet(s.nodes[4], 4, [])
  {
    hide After, Reached, NextOf, MatchOf;
    steps, s := CountsOldAnswer(fix);
    steps, s := GetsVote(fix, steps, s, 2, ASK3);
    PeersOfFive();
    var me := StartElection(s.nodes[2], 2).(election := None);
    steps, s := WinsWith(fix, steps, s, 2, ASK4, 1, 4);
    LeadsFour(me);
  }

  lemma LeadsFour(me: State)
    requires Quiet(me, 4, [W])
    ensures Leading(BecomeLeader(me, 2, {0, 1, 3, 4}), [W], 2, 2, 0, 0)
  {
  }

  /** It proposes U; nodes 1 and 4, who do not have W, refuse the append. */
  lemma FirstTryRefused(fix: Fixes) returns (steps: seq<Step>, s: Cluster)
    requires !fix.checkLeadership
    ensures Reached(fix, FIVE, steps, s) && s.nodes.Keys == FIVE && s.nodes[0].applied == [W, V]
    ensures Leading(s.nodes[2], [W, U], 2, 2, 0, 0)
    ensures Quiet(s.nodes[1], 4, [X, Y]) && Quiet(s.nodes[4], 4, [])
    ensures AppendAnswer(SEND_U, AppendReply(4, false, 1)) in s.net
    ensures AppendAnswer(SEND_U, AppendReply(4, false, 4)) in s.net
  {
    hide After, Reached, RequestFor, OnAppend, NextOf, MatchOf, Proposed;
    steps, s := FourthTerm(fix);
    var me := s.nodes[2];
    steps, s := PlayPropose(fix, FIVE, steps, s, 2, UNLOCK);
    ProposesU(me);
    Refuses(fix, s.nodes[1], 1, [X, Y]);
    steps, s := PlayAppend(fix, FIVE, steps, s, 1, SEND_U, [W, U]);
    Refuses(fix, s.nodes[4], 4, []);
    steps, s := PlayAppend(fix, FIVE, steps, s, 4, SEND_U, [W, U]);
  }

  lemma ProposesU(me: State)
    requires Leading(me, [W], 2, 2, 0, 0)
    ensures var me' := Proposed(me, UNLOCK);
            && Leading(me', [W, U], 2, 2, 0, 0)
            && RequestFor(me', 2, 1) == SEND_U && RequestFor(me', 2, 4) == SEND_U
  {
    var me' := Proposed(me, UNLOCK);
    assert me'.log == [W, U];
    assert [W, U][1..] == [U];
    assert NextOf(me', 1) == 2 && NextOf(me', 4) == 2;
  }

  lemma Refuses(fix: Fixes, me: State, n: NodeId, log: Log)
    requires Quiet(me, 4, log) && (log == [X, Y] || log == [])
    ensures var (me', reply) := OnAppend(fix, me, n, SEND_U);
            Quiet(me', 4, log) && reply == AppendReply(4, false, n)
  {
  }

  /** It steps back once for each of them and sends its whole log. */
  lemma SecondTrySent(fix: Fixes) returns (steps: seq<Step>, s: Cluster)
    requires !fix.checkLeadership
    ensures Reached(fix, FIVE, steps, s) && s.nodes.Keys == FIVE && s.nodes[0].applied == [W, V]
    ensures Leading(s.nodes[2], [W, U], 1, 1, 0, 0)
    ensures Quiet(s.nodes[1], 4, [X, Y]) && Quiet(s.nodes[4], 4, [])
    ensures AppendAsk(1, SEND_WU, [W, U]) in s.net && AppendAsk(4, SEND_WU, [W, U]) in s.net
  {
    hide After, Reached, RequestFor, OnAppendReply, NextOf, MatchOf;
    steps, s := FirstTryRefused(fix);
    StepsBack(fix, s.nodes[2], 1, 2, 2);
    steps, s := PlayReply(fix, FIVE, steps, s, 2, 1, SEND_U, AppendReply(4, false, 1));
    StepsBack(fix, s.nodes[2], 4, 1, 2);
    steps, s := PlayReply(fix, FIVE, steps, s, 2, 4, SEND_U, AppendReply(4, false, 4));
    SendsAll(s.nodes[2]);
    steps, s := PlayHeartbeat(fix, FIVE, steps, s, 2);
  }

  lemma StepsBack(fix: Fixes, me: State, peer: NodeId, next1: nat, next4: nat)
    requires Leading(me, [W, U], next1, next4, 0, 0) && (peer == 1 || peer == 4)
    requires (if peer == 1 then next1 else next4) == 2
    ensures var me' := OnAppendReply(fix, me, FIVE - {2}, peer, SEND_U, AppendReply(4, false, peer));
            if peer == 1 then Leading(me', [W, U], 1, next4, 0, 0) else Leading(me', [W, U], next1, 1, 0, 0)
  {
  }

  lemma SendsAll(me: State)
    requires Leading(me, [W, U], 1, 1, 0, 0)
    ensures RequestFor(me, 2, 1) == SEND_WU && RequestFor(me, 2, 4) == SEND_WU
  {
    assert [W, U][0..] == [W, U];
  }

  /** Both take it. */
  lemma BothAccept(fix: Fixes) returns (steps: seq<Step>, s: Cluster)
    requires !fix.checkLeadership
    ensures Reached(fix, FIVE, steps, s) && s.nodes.Keys == FIVE && s.nodes[0].applied == [W, V]
    ensures Leading(s.nodes[2], [W, U], 1, 1, 0, 0)
    ensures AppendAnswer(SEND_WU, AppendReply(4, true, 1)) in s.net
    ensures AppendAnswer(SEND_WU, AppendReply(4, true, 4)) in s.net
  {
    hide After, Reached, OnAppend, NextOf, MatchOf;
    steps, s := SecondTrySent(fix);
    Takes(fix, s.nodes[1], 1, [X, Y]);
    steps, s := PlayAppend(fix, FIVE, steps, s, 1, SEND_WU, [W, U]);
    Takes(fix, s.nodes[4], 4, []);
    steps, s := PlayAppend(fix, FIVE, steps, s, 4, SEND_WU, [W, U]);
  }

  lemma Takes(fix: Fixes, me: State, n: NodeId, log: Log)
    requires Quiet(me, 4, log) && (log == [X, Y] || log == [])
    ensures OnAppend(fix, me, n, SEND_WU).1 == AppendReply(4, true, n)
  {
  }

  /** Without C, two nodes apply different entries at index 2: node 0 applied V, which two of five
      nodes held, and the leader of term 4 was elected by the other three. */
  lemma MinorityCommitDiverges(fix: Fixes) returns (steps: seq<Step>)
    requires !fix.checkLeadership
    ensures After(fix, FIVE, steps).Some?
    ensures var s := After(fix, FIVE, steps).value;
            && 0 in s.nodes && 2 in s.nodes
            && s.nodes[0].applied == [W, V] && s.nodes[2].applied == [W, U] && V.command != U.command
  {
    hide After, OnAppendReply, NextOf, MatchOf;
    var s;
    steps, s := BothAccept(fix);
    CountsOne(fix, s.nodes[2]);
    steps, s := PlayReply(fix, FIVE, steps, s, 2, 1, SEND_WU, AppendReply(4, true, 1));
    CountsBoth(fix, s.nodes[2]);
    steps, s := PlayReply(fix, FIVE, steps, s, 2, 4, SEND_WU, AppendReply(4, true, 4));
  }

  lemma CountsOne(fix: Fixes, me: State)
    requires Leading(me, [W, U], 1, 1, 0, 0)
    ensures Leading(OnAppendReply(fix, me, FIVE - {2}, 1, SEND_WU, AppendReply(4, true, 1)), [W, U], 3, 1, 2, 0)
  {
    var mid := me.(nextIndex := me.nextIndex[1 := 3], matchIndex := me.matchIndex[1 := 2]);
    PeersOfFive();
    Counts(mid, {0, 1, 3, 4}, 2, {1});
    Counts(mid, {0, 1, 3, 4}, 1, {1});
    assert TopCommit(mid, {0, 1, 3, 4}, 1) == 0;
    assert TopCommit(mid, {0, 1, 3, 4}, 2) == 0;
  }

  lemma CountsBoth(fix: Fixes, me: State)
    requires Leading(me, [W, U], 3, 1, 2, 0)
    ensures OnAppendReply(fix, me, FIVE - {2}, 4, SEND_WU, AppendReply(4, true, 4)).applied == [W, U]
  {
    var mid := me.(nextIndex := me.nextIndex[4 := 3], matchIndex := me.matchIndex[4 := 2]);
    PeersOfFive();
    Counts(mid, {0, 1, 3, 4}, 2, {1, 4});
    assert |{1, 4}| == 2;
    assert TopCommit(mid, {0, 1, 3, 4}, 2) == 2;
    assert [W, U][0..2] == [W, U];
  }
}
