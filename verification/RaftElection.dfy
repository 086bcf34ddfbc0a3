/** Elections: what every step keeps about votes, and Election Safety
    (section 5.2 of the Raft paper by Ongaro and Ousterhout, 2014). */
module RaftElection {
  import opened Options
  import opened Commands
  import opened Sets
  import opened RaftNode
  import opened RaftCluster

  // ----- What holds of every run, whatever the hypotheses -----

  /** Some ballot shows `voter` voting for `candidate`, whose log was at least as up to date. */
  ghost predicate VoteBacked(ballots: set<Ballot>, voter: NodeId, term: nat, candidate: NodeId,
                       lastLogTerm: nat, lastLogIndex: nat) {
    exists b :: b in ballots && b.voter == voter && b.term == term && b.candidate == candidate
                && UpToDate(lastLogTerm, lastLogIndex, b.log)
  }

  ghost predicate BallotsCast(s: Cluster) {
    forall b | b in s.ballots :: b.voter in s.nodes && b.term <= s.nodes[b.voter].currentTerm
  }

  ghost predicate AnswersBacked(s: Cluster) {
    forall p | p in s.net && p.VoteAnswer? && p.vote.granted ::
      VoteBacked(s.ballots, p.vote.voter, p.asked.term, p.asked.sender, p.asked.lastLogTerm, p.asked.lastLogIndex)
  }

  /** A node that is still a candidate when its broadcast returns is still in the term, and still
      has the log, that it asked votes for. */
  ghost predicate CandidateWaits(n: NodeId, me: State, ballots: set<Ballot>) {
    me.role == Candidate && me.election.Some? ==>
      && me.election.value == VoteRequest(n, me.currentTerm, |me.log|, LastTerm(me.log))
      && Ballot(n, me.currentTerm, n, me.log) in ballots
  }

  ghost predicate CandidatesWait(s: Cluster) {
    forall n | n in s.nodes :: CandidateWaits(n, s.nodes[n], s.ballots)
  }

  ghost predicate ElectionWon(s: Cluster, e: Election) {
    && e.leader in s.nodes
    && e.term <= s.nodes[e.leader].currentTerm
    && (e.term == s.nodes[e.leader].currentTerm ==> s.nodes[e.leader].role != Candidate)
    && e.voters <= s.nodes.Keys
    && |e.voters| >= |s.nodes.Keys| / 2 + 1
    && forall v | v in e.voters :: VoteBacked(s.ballots, v, e.term, e.leader, LastTerm(e.log), |e.log|)
  }

  ghost predicate ElectionsWon(s: Cluster) {
    forall e | e in s.elections :: ElectionWon(s, e)
  }

  ghost predicate Elected(s: Cluster, n: NodeId, term: nat) {
    exists e :: e in s.elections && e.leader == n && e.term == term
  }

  ghost predicate LeadersElected(s: Cluster) {
    forall n | n in s.nodes && s.nodes[n].role == Leader :: Elected(s, n, s.nodes[n].currentTerm)
  }

  ghost predicate ElectedOnce(s: Cluster) {
    forall e, f | e in s.elections && f in s.elections && e.leader == f.leader && e.term == f.term :: e == f
  }

  ghost predicate ElectionInv(s: Cluster) {
    && BallotsCast(s) && AnswersBacked(s) && CandidatesWait(s)
    && ElectionsWon(s) && LeadersElected(s) && ElectedOnce(s)
  }

  lemma VoteBackedGrows(small: set<Ballot>, large: set<Ballot>, voter: NodeId, term: nat, candidate: NodeId,
                        lastLogTerm: nat, lastLogIndex: nat)
    requires small <= large && VoteBacked(small, voter, term, candidate, lastLogTerm, lastLogIndex)
    ensures VoteBacked(large, voter, term, candidate, lastLogTerm, lastLogIndex)
  {
  }

  lemma BallotsCastStep(fix: Fixes, s: Cluster, step: Step)
    requires Enabled(s, step) && BallotsCast(s)
    ensures BallotsCast(Do(fix, s, step))
  {
    hide NodeAfter, Cast, Sent;
    NodeOutcome(fix, s, step);
    BallotEffectOf(fix, s, step);
  }

  lemma AnswersBackedStep(fix: Fixes, s: Cluster, step: Step)
    requires Enabled(s, step) && AnswersBacked(s)
    ensures AnswersBacked(Do(fix, s, step))
  {
    hide NodeAfter, OnVoteRequest, OnAppend;
    var s' := Do(fix, s, step);
    forall p | p in s'.net && p.VoteAnswer? && p.vote.granted
      ensures VoteBacked(s'.ballots, p.vote.voter, p.asked.term, p.asked.sender, p.asked.lastLogTerm,
              p.asked.lastLogIndex)
    {
      if p in s.net {
        VoteBackedGrows(s.ballots, s'.ballots, p.vote.voter, p.asked.term, p.asked.sender,
                        p.asked.lastLogTerm, p.asked.lastLogIndex);
      } else {
        VoteOutcome(s.nodes[step.n], step.n, step.ask);
        assert Ballot(step.n, step.ask.term, step.ask.sender, s.nodes[step.n].log) in s'.ballots;
      }
    }
  }

  lemma CandidatesWaitStep(fix: Fixes, s: Cluster, step: Step)
    requires Enabled(s, step) && CandidatesWait(s)
    ensures CandidatesWait(Do(fix, s, step))
  {
    hide OnVoteRequest, OnAppend, OnAppendReply;
    var s', m := Do(fix, s, step), step.n;
    NodeOutcome(fix, s, step);
    assert CandidateWaits(m, s.nodes[m], s.ballots);
    assert CandidateWaits(m, s'.nodes[m], s'.ballots);
    forall n | n in s'.nodes && n != m ensures CandidateWaits(n, s'.nodes[n], s'.ballots) {
      assert CandidateWaits(n, s.nodes[n], s.ballots);
    }
  }

  lemma NewElectionWon(s: Cluster, step: Step)
    requires Enabled(s, step) && AnswersBacked(s) && CandidatesWait(s) && Wins(s, step)
    ensures var e := WonElection(s, step);
            && e.voters <= s.nodes.Keys && |e.voters| >= |s.nodes.Keys| / 2 + 1
            && forall v | v in e.voters :: VoteBacked(s.ballots, v, e.term, e.leader, LastTerm(e.log), |e.log|)
  {
    var n, me, e := step.n, s.nodes[step.n], WonElection(s, step);
    var grants := Granters(step.votes);
    assert s.nodes.Keys == Peers(s, n) + {n};
    assert n !in grants && |e.voters| == 1 + |grants|;
    assert CandidateWaits(n, me, s.ballots);
    forall v | v in e.voters
      ensures VoteBacked(s.ballots, v, e.term, e.leader, LastTerm(e.log), |e.log|)
    {
      if v == n {
        assert Ballot(n, me.currentTerm, n, me.log) in s.ballots;
      } else {
        assert VoteAnswer(me.election.value, step.votes[v]) in s.net;
      }
    }
  }

  lemma ElectionWonGrows(s: Cluster, s': Cluster, e: Election)
    requires s'.nodes.Keys == s.nodes.Keys && e.leader in s.nodes
    requires s.ballots <= s'.ballots && e.term <= s'.nodes[e.leader].currentTerm
    requires e.term == s'.nodes[e.leader].currentTerm ==> s'.nodes[e.leader].role != Candidate
    requires e.voters <= s.nodes.Keys && |e.voters| >= |s.nodes.Keys| / 2 + 1
    requires forall v | v in e.voters :: VoteBacked(s.ballots, v, e.term, e.leader, LastTerm(e.log), |e.log|)
    ensures ElectionWon(s', e)
  {
    forall v | v in e.voters ensures VoteBacked(s'.ballots, v, e.term, e.leader, LastTerm(e.log), |e.log|) {
      VoteBackedGrows(s.ballots, s'.ballots, v, e.term, e.leader, LastTerm(e.log), |e.log|);
    }
  }

  lemma ElectionsWonStep(fix: Fixes, s: Cluster, step: Step)
    requires Enabled(s, step) && AnswersBacked(s) && CandidatesWait(s) && ElectionsWon(s)
    ensures ElectionsWon(Do(fix, s, step))
  {
    hide Cast, Sent, NodeAfter, LogAfter, VoteBacked;
    var s' := Do(fix, s, step);
    NodeOutcome(fix, s, step);
    forall e | e in s'.elections ensures ElectionWon(s', e) {
      if e in s.elections {
        assert ElectionWon(s, e);
      } else {
        NewElectionWon(s, step);
      }
      ElectionWonGrows(s, s', e);
    }
  }

  lemma LeadersElectedStep(fix: Fixes, s: Cluster, step: Step)
    requires Enabled(s, step) && LeadersElected(s)
    ensures LeadersElected(Do(fix, s, step))
  {
    hide Cast, Sent, NodeAfter;
    var s' := Do(fix, s, step);
    NodeOutcome(fix, s, step);
    forall n | n in s'.nodes && s'.nodes[n].role == Leader ensures Elected(s', n, s'.nodes[n].currentTerm) {
      if s.nodes[n].role == Leader {
        assert Elected(s, n, s.nodes[n].currentTerm);
      } else {
        assert WonElection(s, step) in s'.elections;
      }
    }
  }

  lemma ElectedOnceStep(fix: Fixes, s: Cluster, step: Step)
    requires Enabled(s, step) && ElectionsWon(s) && ElectedOnce(s)
    ensures ElectedOnce(Do(fix, s, step))
  {
    hide Cast, Sent, NodeAfter;
    forall e | e in s.elections ensures ElectionWon(s, e) { }
  }

  lemma ElectionInvStep(fix: Fixes, s: Cluster, step: Step)
    requires Enabled(s, step) && ElectionInv(s)
    ensures ElectionInv(Do(fix, s, step))
  {
    BallotsCastStep(fix, s, step);
    AnswersBackedStep(fix, s, step);
    CandidatesWaitStep(fix, s, step);
    ElectionsWonStep(fix, s, step);
    LeadersElectedStep(fix, s, step);
    ElectedOnceStep(fix, s, step);
  }

  lemma {:induction false} ElectionInvAlways(fix: Fixes, ids: set<NodeId>, steps: seq<Step>)
    requires After(fix, ids, steps).Some?
    ensures var s := After(fix, ids, steps).value; ElectionInv(s) && s.nodes.Keys == ids
  {
    if steps != [] {
      var before := steps[..|steps| - 1];
      ElectionInvAlways(fix, ids, before);
      ElectionInvStep(fix, After(fix, ids, before).value, steps[|steps| - 1]);
    }
  }

  // ----- One vote per node and term, under A -----

  ghost predicate VotesOnce(s: Cluster) {
    forall b, c | b in s.ballots && c in s.ballots && b.voter == c.voter
        && b.term == c.term :: b.candidate == c.candidate
  }

  /** No vote is granted by a node that already voted for another candidate of that term. */
  ghost predicate NoSecondVote(s: Cluster, step: Step) {
    step.AnswerVote? && step.n in s.nodes && OnVoteRequest(s.nodes[step.n], step.n, step.ask).1.granted ==>
      forall b | b in s.ballots && b.voter == step.n && b.term == step.ask.term :: b.candidate == step.ask.sender
  }

  ghost predicate NoSecondVotes(fix: Fixes, ids: set<NodeId>, steps: seq<Step>) {
    steps == [] ||
    var before := After(fix, ids, steps[..|steps| - 1]);
    && NoSecondVotes(fix, ids, steps[..|steps| - 1])
    && (before.Some? ==> NoSecondVote(before.value, steps[|steps| - 1]))
  }

  lemma VotesOnceExactly(fix: Fixes, s: Cluster, step: Step)
    requires Enabled(s, step) && BallotsCast(s)
    ensures VotesOnce(Do(fix, s, step)) <==> VotesOnce(s) && NoSecondVote(s, step)
  {
    hide Sent, NodeAfter, OnVoteRequest;
    var s' := Do(fix, s, step);
    if step.AnswerVote? {
      VoteOutcome(s.nodes[step.n], step.n, step.ask);
    }
    if VotesOnce(s') {
      forall b | step.AnswerVote? && OnVoteRequest(s.nodes[step.n], step.n, step.ask).1.granted
                 && b in s.ballots && b.voter == step.n && b.term == step.ask.term
        ensures b.candidate == step.ask.sender
      {
        assert Ballot(step.n, step.ask.term, step.ask.sender, s.nodes[step.n].log) in s'.ballots;
      }
    }
  }

  /** Over every run: nodes vote for one candidate in a term exactly if no second vote is granted. */
  lemma {:induction false} RunsVoteOnceExactly(fix: Fixes, ids: set<NodeId>, steps: seq<Step>)
    requires After(fix, ids, steps).Some?
    ensures VotesOnce(After(fix, ids, steps).value) <==> NoSecondVotes(fix, ids, steps)
  {
    hide VotesOnce, NoSecondVote, Do, Enabled;
    if steps == [] {
      NoVotesYet(ids);
    } else {
      var before, last := steps[..|steps| - 1], steps[|steps| - 1];
      RunsVoteOnceExactly(fix, ids, before);
      ElectionInvAlways(fix, ids, before);
      VotesOnceExactly(fix, After(fix, ids, before).value, last);
    }
  }

  lemma NoVotesYet(ids: set<NodeId>)
    ensures VotesOnce(Initial(ids))
  {
  }

  /** A vote of the current term is on record, or, as written, has been erased by a leader's append. */
  ghost predicate VoteTraced(fix: Fixes, me: State, candidate: NodeId) {
    me.votedFor == Some(candidate) || (!fix.keepVote && me.votedFor == None && me.leaderId.Some?)
  }

  ghost predicate VotesTraced(fix: Fixes, s: Cluster) {
    forall b | b in s.ballots && b.voter in s.nodes && b.term == s.nodes[b.voter].currentTerm ::
      VoteTraced(fix, s.nodes[b.voter], b.candidate)
  }

  /** Under A the code's own check is enough: whoever grants a vote has given no other in the term. */
  lemma GuardForbidsSecondVote(fix: Fixes, s: Cluster, step: Step)
    requires Enabled(s, step) && BallotsCast(s) && VotesTraced(fix, s) && AllowsA(fix, s, step)
    ensures NoSecondVote(s, step)
  {
  }

  /** A step opens a new term for its node, keeps its votes traced, or grants a vote of the same term. */
  lemma RecordOutcome(fix: Fixes, s: Cluster, step: Step)
    requires Enabled(s, step)
    ensures var me, me' := s.nodes[step.n], NodeAfter(fix, s, step);
            || me'.currentTerm > me.currentTerm
            || (me'.currentTerm == me.currentTerm && step.AnswerVote? && me'.votedFor == Some(step.ask.sender)
                && step.ask.term == me.currentTerm && OnVoteRequest(me, step.n, step.ask).1.granted)
            || (me'.currentTerm == me.currentTerm
                && forall c | VoteTraced(fix, me, c) :: VoteTraced(fix, me', c))
  {
    hide OnVoteRequest, OnAppend, OnAppendReply;
    var n, me := step.n, s.nodes[step.n];
    match step
    case AnswerVote(_, ask) => VoteOutcome(me, n, ask);
    case AnswerAppend(_, req, _) => AppendOutcome(fix, me, n, req);
    case TakeReply(_, peer, req, reply) => ReplyOutcome(fix, me, Peers(s, n), peer, req, reply);
    case _ =>
  }

  lemma NewVoteOnRecord(fix: Fixes, s: Cluster, step: Step)
    requires Enabled(s, step)
    ensures forall b | b in Cast(s, step) ::
              b.voter == step.n && NodeAfter(fix, s, step).votedFor == Some(b.candidate)
  {
    hide OnVoteRequest, OnAppend, OnAppendReply;
    if step.AnswerVote? { VoteOutcome(s.nodes[step.n], step.n, step.ask); }
  }

  lemma VotesTracedStep(fix: Fixes, s: Cluster, step: Step)
    requires Enabled(s, step) && BallotsCast(s) && VotesTraced(fix, s) && AllowsA(fix, s, step)
    ensures VotesTraced(fix, Do(fix, s, step))
  {
    hide Enabled, NodeAfter, Sent, Cast, TermLogAfter, Acknowledged, Wins, AllowsA, OnVoteRequest;
    GuardForbidsSecondVote(fix, s, step);
    RecordOutcome(fix, s, step);
    NewVoteOnRecord(fix, s, step);
  }

  /** Under A, over every run, a node votes for one candidate in a term, and its vote stays on
      record for as long as the term lasts or, as written, until the term has a leader it follows. */
  lemma {:induction false} VotesOnceAlways(fix: Fixes, ids: set<NodeId>, steps: seq<Step>)
    requires After(fix, ids, steps).Some? && RunA(fix, ids, steps)
    ensures var s := After(fix, ids, steps).value; VotesOnce(s) && VotesTraced(fix, s)
  {
    hide VotesOnce, VotesTraced, AllowsA, Do, Enabled;
    if steps == [] {
      NoVotesYet(ids);
      NoVotesTraced(fix, ids);
    } else {
      var before, last := steps[..|steps| - 1], steps[|steps| - 1];
      VotesOnceAlways(fix, ids, before);
      ElectionInvAlways(fix, ids, before);
      var s := After(fix, ids, before).value;
      GuardForbidsSecondVote(fix, s, last);
      VotesOnceExactly(fix, s, last);
      VotesTracedStep(fix, s, last);
    }
  }

  lemma NoVotesTraced(fix: Fixes, ids: set<NodeId>)
    ensures VotesTraced(fix, Initial(ids))
  {
  }

  // ----- Election Safety -----

  /** At most one node ever became leader in a term. */
  ghost predicate OneLeaderPerTerm(s: Cluster) {
    forall e, f | e in s.elections && f in s.elections && e.term == f.term :: e == f
  }

  lemma OneLeader(s: Cluster)
    requires ElectionInv(s) && VotesOnce(s)
    ensures OneLeaderPerTerm(s)
  {
    forall e, f | e in s.elections && f in s.elections && e.term == f.term ensures e == f {
      assert ElectionWon(s, e) && ElectionWon(s, f);
      var v := MajoritiesMeet(s.nodes.Keys, e.voters, f.voters);
      assert VoteBacked(s.ballots, v, e.term, e.leader, LastTerm(e.log), |e.log|);
      assert VoteBacked(s.ballots, v, f.term, f.leader, LastTerm(f.log), |f.log|);
    }
  }

  /** Election Safety, under A: in every run over any membership, whatever is lost, repeated or
      reordered, two elections of one term are the same election of the same node, and
      whoever leads now is the node elected in its term. */
  lemma ElectionSafety(fix: Fixes, ids: set<NodeId>, steps: seq<Step>)
    requires After(fix, ids, steps).Some? && RunA(fix, ids, steps)
    ensures var s := After(fix, ids, steps).value;
            && OneLeaderPerTerm(s)
            && forall m, n | m in s.nodes && n in s.nodes && s.nodes[m].role == Leader && s.nodes[n].role == Leader
                             && s.nodes[m].currentTerm == s.nodes[n].currentTerm :: m == n
  {
    ElectionInvAlways(fix, ids, steps);
    VotesOnceAlways(fix, ids, steps);
    OneLeader(After(fix, ids, steps).value);
  }

  /** Without any hypothesis: a node that wins its tally does so in the term it asked votes for. */
  lemma WinsTheTermItAskedFor(fix: Fixes, ids: set<NodeId>, steps: seq<Step>)
    requires After(fix, ids, steps).Some?
    ensures var s := After(fix, ids, steps).value;
            forall n | n in s.nodes :: var me := s.nodes[n];
              me.role == Candidate && me.election.Some? ==>
                me.election.value == VoteRequest(n, me.currentTerm, |me.log|, LastTerm(me.log))
  {
    ElectionInvAlways(fix, ids, steps);
    var s := After(fix, ids, steps).value;
    forall n | n in s.nodes ensures CandidateWaits(n, s.nodes[n], s.ballots) { }
  }
}
