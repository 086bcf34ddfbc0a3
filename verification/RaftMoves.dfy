/** How to prolong a run of the cluster by one step that is known to be possible. */
module RaftMoves {
  import opened Options
  import opened Commands
  import opened RaftNode
  import opened RaftCluster

  ghost predicate Reached(fix: Fixes, ids: set<NodeId>, steps: seq<Step>, s: Cluster) {
    After(fix, ids, steps) == Some(s) && s.nodes.Keys == ids
  }

  lemma Play(fix: Fixes, ids: set<NodeId>, steps: seq<Step>, s: Cluster, step: Step)
      returns (longer: seq<Step>, s': Cluster)
    requires Reached(fix, ids, steps, s) && Enabled(s, step)
    ensures Reached(fix, ids, longer, s') && longer == steps + [step]
    ensures s'.nodes == s.nodes[step.n := NodeAfter(fix, s, step)]
    ensures s.net <= s'.net && Sent(fix, s, step) <= s'.net
  {
    hide Enabled, NodeAfter, Sent, Cast, TermLogAfter, Wins;
    assert step.n in s.nodes by { InNodes(s, step); }
    longer, s' := steps + [step], Do(fix, s, step);
    assert longer[..|longer| - 1] == steps;
  }

  lemma InNodes(s: Cluster, step: Step)
    requires Enabled(s, step)
    ensures step.n in s.nodes
  {
  }

  lemma PlayCampaign(fix: Fixes, ids: set<NodeId>, steps: seq<Step>, s: Cluster, n: NodeId)
      returns (longer: seq<Step>, s': Cluster)
    requires Reached(fix, ids, steps, s) && n in ids && s.nodes[n].role != Leader && s.nodes[n].election == None
    ensures longer == steps + [Campaign(n)]
    ensures Reached(fix, ids, longer, s') && s'.nodes == s.nodes[n := StartElection(s.nodes[n], n)] && s.net <= s'.net
    ensures forall p | p in ids && p != n :: VoteAsk(p, StartElection(s.nodes[n], n).election.value) in s'.net
  {
    hide After;
    longer, s' := Play(fix, ids, steps, s, Campaign(n));
    CampaignSends(fix, s, n);
  }

  lemma CampaignSends(fix: Fixes, s: Cluster, n: NodeId)
    requires Enabled(s, Campaign(n))
    ensures forall p | p in s.nodes && p != n ::
              VoteAsk(p, StartElection(s.nodes[n], n).election.value) in Sent(fix, s, Campaign(n))
  {
  }

  lemma PlayVote(fix: Fixes, ids: set<NodeId>, steps: seq<Step>, s: Cluster, n: NodeId, ask: VoteRequest)
      returns (longer: seq<Step>, s': Cluster)
    requires Reached(fix, ids, steps, s) && n in ids && VoteAsk(n, ask) in s.net
    ensures longer == steps + [AnswerVote(n, ask)]
    ensures Reached(fix, ids, longer, s') && s.net <= s'.net
    ensures s'.nodes == s.nodes[n := OnVoteRequest(s.nodes[n], n, ask).0]
    ensures VoteAnswer(ask, OnVoteRequest(s.nodes[n], n, ask).1) in s'.net
  {
    hide After, OnVoteRequest;
    longer, s' := Play(fix, ids, steps, s, AnswerVote(n, ask));
    assert VoteAnswer(ask, OnVoteRequest(s.nodes[n], n, ask).1) in Sent(fix, s, AnswerVote(n, ask));
  }

  function Granted(voters: set<NodeId>, term: nat): map<NodeId, VoteReply> {
    map v | v in voters :: VoteReply(term, true, v)
  }

  /** Node `n` counts its own vote and those of `voters`, together a majority. */
  lemma PlayWin(fix: Fixes, ids: set<NodeId>, steps: seq<Step>, s: Cluster, n: NodeId, voters: set<NodeId>, term: nat)
    returns (longer: seq<Step>, s': Cluster)
    requires Reached(fix, ids, steps, s) && n in ids && voters <= ids - {n}
    requires s.nodes[n].role == Candidate && s.nodes[n].election.Some?
    requires forall v | v in voters :: VoteAnswer(s.nodes[n].election.value, VoteReply(term, true, v)) in s.net
    requires 1 + |voters| >= Quorum(ids - {n})
    ensures longer == steps + [CountVotes(n, Granted(voters, term))]
    ensures Reached(fix, ids, longer, s') && s.net <= s'.net
    ensures s'.nodes == s.nodes[n := BecomeLeader(s.nodes[n].(election := None), n, ids - {n})]
  {
    hide After, BecomeLeader;
    var votes := Granted(voters, term);
    assert Granters(votes) == voters;
    longer, s' := Play(fix, ids, steps, s, CountVotes(n, votes));
  }

  lemma PlayPropose(fix: Fixes, ids: set<NodeId>, steps: seq<Step>, s: Cluster, n: NodeId, command: Command)
      returns (longer: seq<Step>, s': Cluster)
    requires Reached(fix, ids, steps, s) && n in ids && s.nodes[n].role == Leader
    ensures longer == steps + [Propose(n, command)]
    ensures var me' := Proposed(s.nodes[n], command);
            && Reached(fix, ids, longer, s') && s'.nodes == s.nodes[n := me'] && s.net <= s'.net
            && forall p | p in ids && p != n :: AppendAsk(p, RequestFor(me', n, p), me'.log) in s'.net
  {
    hide After, RequestFor, Proposed;
    var me' := Proposed(s.nodes[n], command);
    longer, s' := Play(fix, ids, steps, s, Propose(n, command));
    forall p | p in ids && p != n ensures AppendAsk(p, RequestFor(me', n, p), me'.log) in s'.net {
      assert AppendAsk(p, RequestFor(me', n, p), me'.log) in Sent(fix, s, Propose(n, command));
    }
  }

  lemma PlayHeartbeat(fix: Fixes, ids: set<NodeId>, steps: seq<Step>, s: Cluster, n: NodeId)
      returns (longer: seq<Step>, s': Cluster)
    requires Reached(fix, ids, steps, s) && n in ids && s.nodes[n].role == Leader
    ensures longer == steps + [Heartbeat(n)]
    ensures Reached(fix, ids, longer, s') && s'.nodes == s.nodes && s.net <= s'.net
    ensures forall p | p in ids && p != n :: AppendAsk(p, RequestFor(s.nodes[n], n, p), s.nodes[n].log) in s'.net
  {
    hide After, RequestFor;
    longer, s' := Play(fix, ids, steps, s, Heartbeat(n));
    forall p | p in ids && p != n ensures AppendAsk(p, RequestFor(s.nodes[n], n, p), s.nodes[n].log) in s'.net {
      assert AppendAsk(p, RequestFor(s.nodes[n], n, p), s.nodes[n].log) in Sent(fix, s, Heartbeat(n));
    }
  }

  lemma PlayAppend(fix: Fixes, ids: set<NodeId>, steps: seq<Step>, s: Cluster, n: NodeId, req: AppendRequest,
          sentLog: Log)
    returns (longer: seq<Step>, s': Cluster)
    requires Reached(fix, ids, steps, s) && n in ids && AppendAsk(n, req, sentLog) in s.net
    ensures longer == steps + [AnswerAppend(n, req, sentLog)]
    ensures var (me', reply) := OnAppend(fix, s.nodes[n], n, req);
            Reached(fix, ids, longer, s') && s'.nodes == s.nodes[n := me'] && s.net <= s'.net
            && AppendAnswer(req, reply) in s'.net
  {
    hide After, OnAppend;
    longer, s' := Play(fix, ids, steps, s, AnswerAppend(n, req, sentLog));
    assert AppendAnswer(req, OnAppend(fix, s.nodes[n], n, req).1) in Sent(fix, s, AnswerAppend(n, req, sentLog));
  }

  lemma PlayReply(fix: Fixes, ids: set<NodeId>, steps: seq<Step>, s: Cluster, n: NodeId, peer: NodeId,
          req: AppendRequest, reply: AppendReply)
    returns (longer: seq<Step>, s': Cluster)
    requires Reached(fix, ids, steps, s) && n in ids && peer in ids && peer != n
    requires req.sender == n && reply.follower == peer && AppendAnswer(req, reply) in s.net
    ensures longer == steps + [TakeReply(n, peer, req, reply)]
    ensures Reached(fix, ids, longer, s') && s.net <= s'.net
    ensures s'.nodes == s.nodes[n := OnAppendReply(fix, s.nodes[n], ids - {n}, peer, req, reply)]
  {
    hide After, OnAppendReply;
    longer, s' := Play(fix, ids, steps, s, TakeReply(n, peer, req, reply));
  }

  lemma Start(fix: Fixes, ids: set<NodeId>) returns (steps: seq<Step>, s: Cluster)
    ensures steps == [] && Reached(fix, ids, steps, s) && s.nodes == map n | n in ids :: FRESH
  {
    steps, s := [], Initial(ids);
  }
}
