/** Commit indices and applied entries: what every step keeps, and the whole-run theorems. */
module RaftCommit {
  import opened Options
  import opened Commands
  import opened Sets
  import opened RaftNode
  import opened RaftCluster
  import opened RaftElection
  import opened RaftLogs
  import opened RaftSafety

  // ----- Node level -----

  /** Everything up to the commit index was applied, in log order, and nothing else. */
  ghost predicate AppliedExactly(me: State) {
    me.lastApplied == me.commitIndex <= |me.log| && me.applied == me.log[..me.commitIndex]
  }

  lemma LearnOutcome(fix: Fixes, s: State, me: NodeId, req: AppendRequest)
    requires AppliedExactly(s) && Accepts(s, req)
    requires var log' := Appended(fix, s.log, req.prevLogIndex, req.entries);
             s.commitIndex <= |log'| && log'[..s.commitIndex] == s.log[..s.commitIndex] && req.leaderCommit <= |log'|
    ensures var t := OnAppend(fix, s, me, req).0;
            AppliedExactly(t)
            && t.commitIndex == if req.leaderCommit > s.commitIndex then req.leaderCommit else s.commitIndex
  {
    var t := OnAppend(fix, s, me, req).0;
    var log' := Appended(fix, s.log, req.prevLogIndex, req.entries);
    if req.leaderCommit > s.commitIndex {
      assert log'[..s.commitIndex] + log'[s.commitIndex..req.leaderCommit] == log'[..req.leaderCommit];
    }
  }

  lemma RejectOutcome(fix: Fixes, s: State, me: NodeId, req: AppendRequest)
    requires !Accepts(s, req)
    ensures var t := OnAppend(fix, s, me, req).0;
            t.commitIndex == s.commitIndex && t.lastApplied == s.lastApplied && t.applied == s.applied
  {
  }

  lemma ApplyOutcome(s: State, c: nat)
    requires AppliedExactly(s) && s.commitIndex < c <= |s.log|
    ensures AppliedExactly(Apply(s.(commitIndex := c)))
  {
    assert s.log[..s.commitIndex] + s.log[s.commitIndex..c] == s.log[..c];
  }

  lemma AdvanceOutcome(s: State, peers: set<NodeId>)
    requires AppliedExactly(s)
    ensures var t := Advance(s, peers);
            && AppliedExactly(t) && t.commitIndex >= s.commitIndex
            && t.matchIndex == s.matchIndex && t.role == s.role && t.currentTerm == s.currentTerm && t.log == s.log
            && (t.commitIndex > s.commitIndex ==> s.role == Leader && Replicated(t, peers, t.commitIndex))
  {
    if s.role == Leader {
      var c := TopCommit(s, peers, |s.log|);
      if c > s.commitIndex {
        ApplyOutcome(s, c);
        var t := Advance(s, peers);
        assert forall p :: MatchOf(t, p) == MatchOf(s, p);
        assert (set p | p in peers && MatchOf(t, p) >= c) == (set p | p in peers && MatchOf(s, p) >= c);
      }
    }
  }

  /** The bookkeeping half of `_process_ae_resp`. */
  lemma ReplyCommits(fix: Fixes, s: State, peers: set<NodeId>, peer: NodeId, req: AppendRequest, reply: AppendReply)
    requires AppliedExactly(s)
    requires fix.checkLeadership || ReplyCurrent(s, req, reply)
    ensures var t := OnAppendReply(fix, s, peers, peer, req, reply);
            && AppliedExactly(t) && t.commitIndex >= s.commitIndex
            && (t.role == Leader ==>
                  || t.matchIndex == s.matchIndex
                  || (reply.success && s.currentTerm == req.term
                      && t.matchIndex == s.matchIndex[peer := req.prevLogIndex + |req.entries|]))
            && (t.commitIndex > s.commitIndex ==> t.role == Leader && Replicated(t, peers, t.commitIndex))
  {
    hide Advance, AppliedExactly;
    var top := req.prevLogIndex + |req.entries|;
    var mid := if req.entries == [] then s
               else s.(nextIndex := s.nextIndex[peer := top + 1], matchIndex := s.matchIndex[peer := top]);
    AppliedFields(s, mid);
    AdvanceOutcome(mid, peers);
    var t := OnAppendReply(fix, s, peers, peer, req, reply);
    if !(reply.term <= s.currentTerm && reply.success) || t == s { AppliedFields(s, t); }
  }

  lemma AppliedFields(s: State, t: State)
    requires t.lastApplied == s.lastApplied && t.commitIndex == s.commitIndex
    requires t.log == s.log && t.applied == s.applied
    ensures AppliedExactly(s) == AppliedExactly(t)
  {
  }

  // ----- What holds of every run under A, B and C -----

  ghost predicate CommitsBy(s: Cluster, log: Log, c: nat, bound: nat, term: nat, k: nat) {
    term <= bound && c <= k && Committed(s, term, k) && c <= |log| && c <= |s.termLog[term]|
    && log[..c] == s.termLog[term][..c]
  }

  /** The first `c` entries of `log` lie below an entry committed by a leader of term at most `bound`. */
  ghost predicate CommitsFrom(s: Cluster, log: Log, c: nat, bound: nat) {
    c == 0 || exists term, k :: CommitsBy(s, log, c, bound, term, k)
  }

  ghost predicate NodesCommit(s: Cluster) {
    forall n | n in s.nodes ::
      AppliedExactly(s.nodes[n]) && CommitsFrom(s, s.nodes[n].log, s.nodes[n].commitIndex, s.nodes[n].currentTerm)
  }

  ghost predicate SendsCommit(s: Cluster) {
    forall p | p in s.net && p.AppendAsk? :: CommitsFrom(s, p.sentLog, p.req.leaderCommit, p.req.term)
  }

  ghost predicate RepliesAcked(s: Cluster) {
    forall p | p in s.net && p.AppendAnswer? && p.reply.success ::
      Ack(p.reply.follower, p.answers.term, p.answers.prevLogIndex + |p.answers.entries|) in s.acks
  }

  ghost predicate MatchAcked(s: Cluster, n: NodeId, p: NodeId)
    requires n in s.nodes
  {
    MatchOf(s.nodes[n], p) > 0 ==> Ack(p, s.nodes[n].currentTerm, MatchOf(s.nodes[n], p)) in s.acks
  }

  ghost predicate MatchesAcked(s: Cluster) {
    forall n, p | n in s.nodes && s.nodes[n].role == Leader && p in Peers(s, n) :: MatchAcked(s, n, p)
  }

  /** A leader that has created entries acknowledges its whole log. */
  ghost predicate LeadersAck(s: Cluster) {
    forall n | n in s.nodes && s.nodes[n].role == Leader && s.nodes[n].log != []
               && LastTerm(s.nodes[n].log) == s.nodes[n].currentTerm ::
      Ack(n, s.nodes[n].currentTerm, |s.nodes[n].log|) in s.acks
  }

  ghost predicate CommitInv(s: Cluster) {
    NodesCommit(s) && SendsCommit(s) && RepliesAcked(s) && MatchesAcked(s) && LeadersAck(s)
  }

  ghost predicate Extends(s: Cluster, s': Cluster) {
    s'.nodes.Keys == s.nodes.Keys && s.acks <= s'.acks && Grows(s.termLog, s'.termLog)
  }

  lemma CommittedGrows(s: Cluster, s': Cluster, term: nat, k: nat)
    requires Extends(s, s') && Committed(s, term, k)
    ensures Committed(s', term, k)
  {
    var quorum :| CommittedBy(s, term, k, quorum);
    forall q | q in quorum ensures Acked(s', q, term, k) {
      assert Acked(s, q, term, k);
    }
    assert s.termLog[term][k - 1] == s'.termLog[term][k - 1];
    assert CommittedBy(s', term, k, quorum);
  }

  lemma CommitsGrow(s: Cluster, s': Cluster, log: Log, c: nat, bound: nat, bound': nat)
    requires Extends(s, s') && CommitsFrom(s, log, c, bound) && bound <= bound'
    ensures CommitsFrom(s', log, c, bound')
  {
    if c > 0 {
      var term, k :| CommitsBy(s, log, c, bound, term, k);
      CommittedGrows(s, s', term, k);
      assert s.termLog[term][..c] == s'.termLog[term][..c];
      assert CommitsBy(s', log, c, bound', term, k);
    }
  }

  /** Every log that shares a committed prefix commits it as well. */
  lemma CommitsShared(s: Cluster, log: Log, log': Log, c: nat, bound: nat)
    requires CommitsFrom(s, log, c, bound) && c <= |log| && c <= |log'| && log'[..c] == log[..c]
    ensures CommitsFrom(s, log', c, bound)
  {
    if c > 0 {
      var term, k :| CommitsBy(s, log, c, bound, term, k);
      assert CommitsBy(s, log', c, bound, term, k);
    }
  }

  lemma HoldsThrough(log: Log, start: Log, leaderLog: Log, other: Log, c: nat, k: nat)
    requires c <= k && c <= |log| && c <= |other| && log[..c] == other[..c]
    requires Holds(start, other, k) && start <= leaderLog
    ensures Holds(leaderLog, log, c)
  {
    assert leaderLog[..c] == start[..k][..c] == other[..k][..c] == other[..c];
  }

  lemma CommittedTerm(s: Cluster, term: nat, k: nat)
    requires Committed(s, term, k)
    ensures OwnEntry(s.termLog, term, k)
  {
  }

  /** The log of any leader of term at least `bound` starts with the committed prefix. */
  lemma LeaderHasCommitted(s: Cluster, log: Log, c: nat, bound: nat, term: nat)
    requires ElectionsWon(s) && WinnersKeep(s) && LeaderLogs(s)
    requires CommitsFrom(s, log, c, bound) && c <= |log| && bound <= term && term in s.termLog
    ensures Holds(s.termLog[term], log, c)
  {
    hide ElectionsWon, WinnersKeep, Committed;
    if c > 0 {
      var t: nat, k: nat :| CommitsBy(s, log, c, bound, t, k);
      if t < term {
        var e :| e in s.elections && e.term == term;
        CommittedTerm(s, t, k);
        CommittedInLeader(s, t, k, e);
        assert LeaderLog(s, e);
        HoldsThrough(log, e.log, s.termLog[term], s.termLog[t], c, k);
      }
    }
  }

  /** An accepted append never touches the committed prefix of the follower. */
  lemma CommittedKept(s: Cluster, log: Log, sentLog: Log, c: nat, bound: nat, term: nat)
    requires ElectionsWon(s) && WinnersKeep(s) && LeaderLogs(s)
    requires CommitsFrom(s, log, c, bound) && c <= |log| && bound <= term
    requires term in s.termLog && sentLog <= s.termLog[term]
    ensures var log' := if sentLog <= log then log else sentLog;
            c <= |log'| && log'[..c] == log[..c]
  {
    hide ElectionsWon, WinnersKeep, LeaderLogs, CommitsFrom;
    LeaderHasCommitted(s, log, c, bound, term);
    if !(sentLog <= log) { LongerThanCommitted(log, sentLog, s.termLog[term], c); }
  }

  lemma LongerThanCommitted(log: Log, sentLog: Log, leaderLog: Log, c: nat)
    requires Holds(leaderLog, log, c) && sentLog <= leaderLog && !(sentLog <= log)
    ensures c <= |sentLog| && sentLog[..c] == log[..c]
  {
    assert c <= |sentLog|;
  }

  lemma CountedQuorum(s: Cluster, n: NodeId, c: nat) returns (quorum: set<NodeId>)
    requires n in s.nodes && 1 <= c <= |s.nodes[n].log| && Replicated(s.nodes[n], Peers(s, n), c)
    ensures quorum <= s.nodes.Keys && |quorum| >= |s.nodes.Keys| / 2 + 1
    ensures forall q | q in quorum && q != n :: q in Peers(s, n) && MatchOf(s.nodes[n], q) >= c
  {
    var counted := set p | p in Peers(s, n) && MatchOf(s.nodes[n], p) >= c;
    quorum := {n} + counted;
    assert s.nodes.Keys == Peers(s, n) + {n} && |s.nodes.Keys| == |Peers(s, n)| + 1;
    assert |quorum| == 1 + |counted|;
  }

  /** What a leader counts as replicated is committed. */
  lemma ReplicatedCommits(s: Cluster, n: NodeId, c: nat)
    requires n in s.nodes && s.nodes[n].role == Leader && MatchesAcked(s) && LeadersAck(s) && LeadersHold(s)
    requires ShapedNode(s.nodes[n]) && 1 <= c <= |s.nodes[n].log| && Replicated(s.nodes[n], Peers(s, n), c)
    ensures Committed(s, s.nodes[n].currentTerm, c)
    ensures CommitsFrom(s, s.nodes[n].log, c, s.nodes[n].currentTerm)
  {
    var me := s.nodes[n];
    var quorum := CountedQuorum(s, n, c);
    assert me.log[c - 1].term <= LastTerm(me.log) <= me.currentTerm;
    forall q | q in quorum ensures Acked(s, q, me.currentTerm, c) {
      if q == n {
        assert Ack(n, me.currentTerm, |me.log|) in s.acks;
      } else {
        assert MatchAcked(s, n, q);
      }
    }
    assert CommittedBy(s, me.currentTerm, c, quorum);
    assert CommitsBy(s, me.log, c, me.currentTerm, me.currentTerm, c);
  }

  // ----- One step -----

  /** Everything earlier sections establish, before a step and after it. */
  ghost predicate Settled(s: Cluster) {
    ElectionInv(s) && ShapeInv(s) && LogInv(s) && KeepInv(s) && OneLeaderPerTerm(s)
  }

  ghost predicate Moves(fix: Fixes, s: Cluster, step: Step, s': Cluster) {
    && Enabled(s, step) && s' == Do(fix, s, step) && Settled(s) && Settled(s') && CommitInv(s)
    && Extends(s, s') && AllowsB(fix, s, step) && AllowsC(fix, s, step)
  }

  lemma RepliesAckedStep(fix: Fixes, s: Cluster, step: Step, s': Cluster)
    requires Enabled(s, step) && s' == Do(fix, s, step) && RepliesAcked(s)
    ensures RepliesAcked(s')
  {
    hide NodeAfter, OnAppend, OnVoteRequest, RequestFor;
    if step.AnswerAppend? { AppendOutcome(fix, s.nodes[step.n], step.n, step.req); }
  }

  lemma MatchUnchanged(fix: Fixes, s: Cluster, step: Step)
    requires Enabled(s, step) && !step.TakeReply? && NodeAfter(fix, s, step).role == Leader
    ensures var me, me' := s.nodes[step.n], NodeAfter(fix, s, step);
            if me.role == Leader then me'.matchIndex == me.matchIndex
            else forall p | p in Peers(s, step.n) :: MatchOf(me', p) == 0
  {
  }

  lemma MatchesAckedStep(fix: Fixes, s: Cluster, step: Step, s': Cluster)
    requires Moves(fix, s, step, s')
    ensures MatchesAcked(s')
  {
    hide NodeAfter, Sent, Cast, Settled, AppliedExactly, CommitsFrom, Extends, TermLogAfter;
    var m := step.n;
    NodeOutcome(fix, s, step);
    if step.TakeReply? {
      ReplyMatches(fix, s, step);
    } else if s'.nodes[m].role == Leader {
      MatchUnchanged(fix, s, step);
    }
    forall n, p | n in s'.nodes && s'.nodes[n].role == Leader && p in Peers(s', n) ensures MatchAcked(s', n, p) {
      if s.nodes[n].role == Leader { assert MatchAcked(s, n, p); }
    }
  }

  lemma ReplyMatches(fix: Fixes, s: Cluster, step: Step)
    requires Enabled(s, step) && step.TakeReply? && AllowsC(fix, s, step) && RepliesAcked(s)
    requires AppliedExactly(s.nodes[step.n])
    ensures var me, me' := s.nodes[step.n], NodeAfter(fix, s, step);
            me'.role == Leader ==>
              && me.role == Leader && me'.currentTerm == me.currentTerm
              && forall p :: MatchOf(me', p) == MatchOf(me, p)
                             || (p == step.peer && Ack(p, me.currentTerm, MatchOf(me', p)) in s.acks)
  {
    hide OnAppendReply;
    var n, me := step.n, s.nodes[step.n];
    ReplyCommits(fix, me, Peers(s, n), step.peer, step.req, step.reply);
    ReplyOutcome(fix, me, Peers(s, n), step.peer, step.req, step.reply);
    assert AppendAnswer(step.req, step.reply) in s.net;
  }

  lemma LeadersAckStep(fix: Fixes, s: Cluster, step: Step, s': Cluster)
    requires Enabled(s, step) && s' == Do(fix, s, step) && LeadersAck(s) && NodesTraced(s)
    requires Wins(s, step) ==> s.nodes[step.n].currentTerm !in s.termLog
    ensures LeadersAck(s')
  {
    hide NodeAfter, Sent, Cast;
    NodeOutcome(fix, s, step);
    assert Traced(s.termLog, s.nodes[step.n].log);
  }

  lemma LeaderNew(fix: Fixes, s: Cluster, step: Step, s': Cluster)
    requires Moves(fix, s, step, s') && Wins(s, step)
    ensures s.nodes[step.n].currentTerm !in s.termLog
  {
    hide NodeAfter, Sent, Cast, ElectionsWon, LeaderLogs, OneLeaderPerTerm, KeepInv, CommitInv, ShapeInv, TermLogAfter;
    FreshTerm(s, step, s');
  }

  /** The node `me` accepted an append sent from `sentLog` with commit index `lc` and became `me'`:
      it committed up to the larger index, keeps what it had committed, and starts with `sentLog`. */
  ghost predicate FollowerCommitted(me: State, me': State, sentLog: Log, lc: nat) {
    && AppliedExactly(me')
    && me'.commitIndex == (if lc > me.commitIndex then lc else me.commitIndex)
    && lc <= |sentLog| && sentLog <= me'.log
    && me.commitIndex <= |me.log| && me.commitIndex <= |me'.log|
    && me'.log[..me.commitIndex] == me.log[..me.commitIndex]
  }

  /** The stepping node when it accepts an append, under B. */
  lemma FollowerCommits(fix: Fixes, s: Cluster, step: Step)
    requires Enabled(s, step) && AcceptedBy(s, step) && AllowsB(fix, s, step)
    requires NodesTraced(s) && LeaderLogsTraced(s) && Snapshots(s) && ShapedNode(s.nodes[step.n])
    requires ElectionsWon(s) && WinnersKeep(s) && LeaderLogs(s)
    requires NodesCommit(s) && SendsCommit(s)
    ensures FollowerCommitted(s.nodes[step.n], NodeAfter(fix, s, step), step.sentLog, step.req.leaderCommit)
  {
    hide OnAppend, AppliedExactly, Traced, Shaped, Snapshot, ElectionsWon, WinnersKeep, LeaderLogs, CommitsFrom;
    var n, me, req, sentLog := step.n, s.nodes[step.n], step.req, step.sentLog;
    AcceptedStep(fix, s, step);
    SnapshotFacts(s.termLog, req, sentLog);
    AppliedBound(me);
    CommittedKept(s, me.log, sentLog, me.commitIndex, me.currentTerm, req.term);
    AppendOutcome(fix, me, n, req);
    assert CommitsFrom(s, sentLog, req.leaderCommit, req.term) by {
      assert AppendAsk(n, req, sentLog) in s.net;
    }
    CommitsBound(s, sentLog, req.leaderCommit, req.term);
    LearnOutcome(fix, me, n, req);
  }

  lemma SnapshotFacts(termLog: map<nat, Log>, req: AppendRequest, sentLog: Log)
    requires Snapshot(termLog, req, sentLog)
    ensures req.term in termLog && sentLog <= termLog[req.term]
  {
  }

  lemma AppliedBound(me: State)
    requires AppliedExactly(me)
    ensures me.commitIndex <= |me.log|
  {
  }

  lemma CommitsBound(s: Cluster, log: Log, c: nat, bound: nat)
    requires CommitsFrom(s, log, c, bound)
    ensures c <= |log|
  {
  }

  /** Steps other than appends and replies leave commit index and applied entries alone. */
  lemma QuietOutcome(fix: Fixes, s: Cluster, step: Step)
    requires Enabled(s, step) && !step.AnswerAppend? && !step.TakeReply?
    ensures var me, me' := s.nodes[step.n], NodeAfter(fix, s, step);
            me.log <= me'.log && me'.applied == me.applied
            && me'.commitIndex == me.commitIndex && me'.lastApplied == me.lastApplied
  {
  }

  lemma AppliedLonger(s: State, t: State)
    requires AppliedExactly(s) && s.log <= t.log
    requires t.lastApplied == s.lastApplied && t.commitIndex == s.commitIndex && t.applied == s.applied
    ensures AppliedExactly(t) && s.commitIndex <= |s.log| && t.log[..s.commitIndex] == s.log[..s.commitIndex]
  {
  }

  /** The node that takes a step: its commit index does not fall, its committed prefix does not
      change, everything up to the new commit index is applied, and a new commit index comes from
      the append just accepted or from the leader's own count. */
  ghost predicate CommitMoves(s: Cluster, step: Step, me': State)
    requires step.n in s.nodes
  {
    var me := s.nodes[step.n];
    && AppliedExactly(me') && me.commitIndex <= me'.commitIndex
    && me.commitIndex <= |me.log| && me.commitIndex <= |me'.log|
    && me'.log[..me.commitIndex] == me.log[..me.commitIndex]
    && (me'.commitIndex > me.commitIndex ==>
          || (AcceptedBy(s, step) && me'.commitIndex == step.req.leaderCommit && step.sentLog <= me'.log
              && me'.currentTerm == step.req.term && step.req.leaderCommit <= |step.sentLog|)
          || (step.TakeReply? && me'.role == Leader && 1 <= me'.commitIndex <= |me'.log|
              && Replicated(me', Peers(s, step.n), me'.commitIndex)))
  }

  lemma StepperMoves(fix: Fixes, s: Cluster, step: Step)
    requires Enabled(s, step) && AllowsC(fix, s, step) && AppliedExactly(s.nodes[step.n])
    requires AcceptedBy(s, step) ==>
               FollowerCommitted(s.nodes[step.n], NodeAfter(fix, s, step), step.sentLog, step.req.leaderCommit)
    ensures CommitMoves(s, step, NodeAfter(fix, s, step))
  {
    hide OnAppend, OnAppendReply, OnVoteRequest, Replicated;
    var n, me := step.n, s.nodes[step.n];
    match step
    case AnswerAppend(_, req, _) =>
      AppendOutcome(fix, me, n, req);
      if !Accepts(me, req) { RejectOutcome(fix, me, n, req); }
    case TakeReply(_, peer, req, reply) =>
      ReplyCommits(fix, me, Peers(s, n), peer, req, reply);
      ReplyOutcome(fix, me, Peers(s, n), peer, req, reply);
    case _ =>
      QuietOutcome(fix, s, step);
      AppliedLonger(me, NodeAfter(fix, s, step));
  }

  lemma StepperApplies(fix: Fixes, s: Cluster, step: Step, s': Cluster)
    requires Moves(fix, s, step, s')
    ensures step.n in s.nodes && step.n in s'.nodes && CommitMoves(s, step, s'.nodes[step.n])
  {
    hide *;
    MoveParts(fix, s, step, s');
    if AcceptedBy(s, step) {
      FollowerReady(fix, s, step);
      FollowerCommits(fix, s, step);
    }
    StepperMoves(fix, s, step);
  }

  lemma StepperCommits(fix: Fixes, s: Cluster, step: Step, s': Cluster)
    requires Moves(fix, s, step, s') && MatchesAcked(s') && LeadersAck(s')
    ensures step.n in s'.nodes
    ensures var me' := s'.nodes[step.n]; CommitsFrom(s', me'.log, me'.commitIndex, me'.currentTerm)
  {
    hide Moves, CommitsFrom, AppliedExactly, Extends, Replicated, ShapedNode, LeadersHold, MatchesAcked, LeadersAck,
        Settled, CommitInv;
    MoveParts(fix, s, step, s');
    StepperApplies(fix, s, step, s');
    var me, me' := s.nodes[step.n], s'.nodes[step.n];
    if me'.commitIndex == me.commitIndex {
      CommitsGrow(s, s', me.log, me.commitIndex, me.currentTerm, me'.currentTerm);
      CommitsShared(s', me.log, me'.log, me.commitIndex, me'.currentTerm);
    } else if AcceptedBy(s, step) && me'.commitIndex == step.req.leaderCommit {
      CommitsGrow(s, s', step.sentLog, step.req.leaderCommit, step.req.term, step.req.term);
      CommitsShared(s', step.sentLog, me'.log, step.req.leaderCommit, step.req.term);
    } else {
      ReplicatedCommits(s', step.n, me'.commitIndex);
    }
  }

  lemma MoveParts(fix: Fixes, s: Cluster, step: Step, s': Cluster)
    requires Moves(fix, s, step, s')
    ensures Enabled(s, step) && s' == Do(fix, s, step) && Extends(s, s')
    ensures AllowsB(fix, s, step) && AllowsC(fix, s, step) && Settled(s) && CommitInv(s)
    ensures step.n in s.nodes && step.n in s'.nodes && s'.nodes.Keys == s.nodes.Keys
    ensures s'.nodes[step.n] == NodeAfter(fix, s, step)
    ensures s.nodes[step.n].currentTerm <= s'.nodes[step.n].currentTerm
    ensures forall m | m in s.nodes && m != step.n :: s'.nodes[m] == s.nodes[m]
    ensures forall m | m in s.nodes ::
              CommitsFrom(s, s.nodes[m].log, s.nodes[m].commitIndex, s.nodes[m].currentTerm)
              && AppliedExactly(s.nodes[m])
    ensures AcceptedBy(s, step) ==>
              step.AnswerAppend? && CommitsFrom(s, step.sentLog, step.req.leaderCommit, step.req.term)
    ensures ShapedNode(s'.nodes[step.n]) && LeadersHold(s')
  {
    hide NodeAfter, Sent, Cast, TermLogAfter, CommitsFrom, AppliedExactly, LogAfter,
      NodesTraced, BallotsTraced, LeaderLogsTraced, LeaderLogs, LeadersHold, Snapshots, ShapedNode, Extends,
      ElectionInv, KeepInv, MatchesAcked, LeadersAck, RepliesAcked, OneLeaderPerTerm, AllowsB, AllowsC;
    NodeOutcome(fix, s, step);
    if AcceptedBy(s, step) {
      assert AppendAsk(step.n, step.req, step.sentLog) in s.net;
    }
  }

  lemma NodesCommitStep(fix: Fixes, s: Cluster, step: Step, s': Cluster)
    requires Moves(fix, s, step, s') && MatchesAcked(s') && LeadersAck(s')
    ensures NodesCommit(s')
  {
    hide Moves, CommitsFrom, AppliedExactly, Extends, MatchesAcked, LeadersAck, NodesCommit, Settled, CommitInv;
    MoveParts(fix, s, step, s');
    StepperApplies(fix, s, step, s');
    StepperCommits(fix, s, step, s');
    forall m | m in s'.nodes
      ensures AppliedExactly(s'.nodes[m])
              && CommitsFrom(s', s'.nodes[m].log, s'.nodes[m].commitIndex, s'.nodes[m].currentTerm)
    {
      if m != step.n {
        CommitsGrow(s, s', s.nodes[m].log, s.nodes[m].commitIndex, s.nodes[m].currentTerm, s.nodes[m].currentTerm);
      }
    }
    NodesCommitIntro(s');
  }

  lemma NodesCommitIntro(s: Cluster)
    requires forall n | n in s.nodes ::
               && AppliedExactly(s.nodes[n])
               && CommitsFrom(s, s.nodes[n].log, s.nodes[n].commitIndex, s.nodes[n].currentTerm)
    ensures NodesCommit(s)
  {
  }

  lemma SendsCommitStep(fix: Fixes, s: Cluster, step: Step, s': Cluster)
    requires Moves(fix, s, step, s') && NodesCommit(s')
    ensures SendsCommit(s')
  {
    hide Do, NodeAfter, Sent, Cast, Settled, CommitsFrom, Extends, AppliedExactly, LogAfter;
    LogEffectOf(fix, s, step);
    MoveParts(fix, s, step, s');
    forall p | p in s'.net && p.AppendAsk? ensures CommitsFrom(s', p.sentLog, p.req.leaderCommit, p.req.term) {
      if p in s.net {
        CommitsGrow(s, s', p.sentLog, p.req.leaderCommit, p.req.term, p.req.term);
      }
    }
  }

  lemma CommitInvStep(fix: Fixes, s: Cluster, step: Step, s': Cluster)
    requires Moves(fix, s, step, s')
    ensures CommitInv(s')
  {
    RepliesAckedStep(fix, s, step, s');
    MatchesAckedStep(fix, s, step, s');
    if Wins(s, step) { LeaderNew(fix, s, step, s'); }
    LeadersAckStep(fix, s, step, s');
    NodesCommitStep(fix, s, step, s');
    SendsCommitStep(fix, s, step, s');
  }

  // ----- Every run under A, B and C -----

  lemma InitialSettled(ids: set<NodeId>)
    ensures Settled(Initial(ids)) && CommitInv(Initial(ids))
  {
  }

  /** The whole invariant holds throughout every run that satisfies A, B and C. */
  lemma {:induction false} CommitInvAlways(fix: Fixes, ids: set<NodeId>, steps: seq<Step>)
    requires After(fix, ids, steps).Some? && RunA(fix, ids, steps) && RunBC(fix, ids, steps)
    ensures var s := After(fix, ids, steps).value; Settled(s) && CommitInv(s)
  {
    hide ElectionInv, ShapeInv, LogInv, KeepInv, CommitInv, OneLeaderPerTerm, Do, AllowsA, AllowsB, AllowsC, Enabled,
        Initial;
    if steps == [] {
      InitialSettled(ids);
    } else {
      var before, last := steps[..|steps| - 1], steps[|steps| - 1];
      CommitInvAlways(fix, ids, before);
      var s, s' := After(fix, ids, before).value, After(fix, ids, steps).value;
      ElectionInvAlways(fix, ids, steps);
      ShapeAlways(fix, ids, steps);
      ElectionSafety(fix, ids, steps);
      LogInvAlways(fix, ids, steps);
      SettledStep(fix, s, last, s');
    }
  }

  lemma SettledStep(fix: Fixes, s: Cluster, step: Step, s': Cluster)
    requires Enabled(s, step) && s' == Do(fix, s, step) && Settled(s) && CommitInv(s)
    requires ElectionInv(s') && ShapeInv(s') && LogInv(s') && OneLeaderPerTerm(s')
    requires AllowsB(fix, s, step) && AllowsC(fix, s, step)
    ensures Settled(s') && CommitInv(s')
  {
    hide ElectionInv, ShapeInv, LogInv, KeepInv, CommitInv, OneLeaderPerTerm, AllowsB, AllowsC, NodeAfter, Sent, Cast,
        TermLogAfter;
    KeepInvStep(fix, s, step, s');
    MovesIntro(fix, s, step, s');
    CommitInvStep(fix, s, step, s');
  }

  lemma MovesIntro(fix: Fixes, s: Cluster, step: Step, s': Cluster)
    requires Enabled(s, step) && s' == Do(fix, s, step) && Settled(s) && Settled(s') && CommitInv(s)
    requires AllowsB(fix, s, step) && AllowsC(fix, s, step)
    ensures Moves(fix, s, step, s')
  {
    hide ElectionInv, ShapeInv, LogInv, KeepInv, CommitInv, OneLeaderPerTerm, AllowsB, AllowsC, NodeAfter, Sent, Cast,
        TermLogAfter;
    LogInvStep(fix, s, step);
  }

  /** Leader Completeness, under A, B and C: an entry that a majority holds from the leader of
      `term` is in the log of every leader of a later term, at its election and now. */
  lemma LeaderCompleteness(fix: Fixes, ids: set<NodeId>, steps: seq<Step>, term: nat, k: nat)
    requires After(fix, ids, steps).Some? && RunA(fix, ids, steps) && RunBC(fix, ids, steps)
    requires Committed(After(fix, ids, steps).value, term, k)
    ensures var s := After(fix, ids, steps).value;
            && (forall e | e in s.elections && e.term > term :: Holds(e.log, s.termLog[term], k))
            && (forall n | n in s.nodes && s.nodes[n].role == Leader && s.nodes[n].currentTerm > term ::
                  Holds(s.nodes[n].log, s.termLog[term], k))
  {
    CommitInvAlways(fix, ids, steps);
    LaterLeaders(After(fix, ids, steps).value, term, k);
  }

  lemma LaterLeaders(s: Cluster, term: nat, k: nat)
    requires ElectionInv(s) && LogInv(s) && KeepInv(s) && Committed(s, term, k)
    ensures forall e | e in s.elections && e.term > term :: Holds(e.log, s.termLog[term], k)
    ensures forall n | n in s.nodes && s.nodes[n].role == Leader && s.nodes[n].currentTerm > term ::
              Holds(s.nodes[n].log, s.termLog[term], k)
  {
    hide Committed, Keeps, ElectionWon, Traced, Holds;
    CommittedTerm(s, term, k);
    forall e | e in s.elections && e.term > term ensures Holds(e.log, s.termLog[term], k) {
      CommittedInLeader(s, term, k, e);
    }
    forall n | n in s.nodes && s.nodes[n].role == Leader && s.nodes[n].currentTerm > term
      ensures Holds(s.nodes[n].log, s.termLog[term], k)
    {
      var e :| e in s.elections && e.term == s.nodes[n].currentTerm;
      assert LeaderLog(s, e);
      HoldsLonger(e.log, s.nodes[n].log, s.termLog[term], k);
    }
  }

  lemma HoldsLonger(log: Log, log': Log, leaderLog: Log, k: nat)
    requires Holds(log, leaderLog, k) && log <= log'
    ensures Holds(log', leaderLog, k)
  {
    assert log'[..k] == log[..k];
  }

  /** State Machine Safety, under A, B and C: of the entry sequences that any two nodes have handed
      to their callbacks, one is a prefix of the other; and each node has applied exactly its log
      up to its commit index. */
  lemma StateMachineSafety(fix: Fixes, ids: set<NodeId>, steps: seq<Step>)
    requires After(fix, ids, steps).Some? && RunA(fix, ids, steps) && RunBC(fix, ids, steps)
    ensures var s := After(fix, ids, steps).value;
            && (forall m, n | m in s.nodes && n in s.nodes ::
                  s.nodes[m].applied <= s.nodes[n].applied || s.nodes[n].applied <= s.nodes[m].applied)
            && (forall n | n in s.nodes :: AppliedExactly(s.nodes[n]))
  {
    CommitInvAlways(fix, ids, steps);
    var s := After(fix, ids, steps).value;
    forall m, n | m in s.nodes && n in s.nodes
      ensures s.nodes[m].applied <= s.nodes[n].applied || s.nodes[n].applied <= s.nodes[m].applied
    {
      AppliedAgree(s, m, n);
    }
  }

  lemma AppliedAgree(s: Cluster, m: NodeId, n: NodeId)
    requires Settled(s) && CommitInv(s) && m in s.nodes && n in s.nodes
    ensures s.nodes[m].applied <= s.nodes[n].applied || s.nodes[n].applied <= s.nodes[m].applied
  {
    hide ElectionWon, LeaderLog, Traced, Keeps, Committed;
    var a, b := s.nodes[m], s.nodes[n];
    assert AppliedExactly(a) && AppliedExactly(b);
    if a.commitIndex > 0 && b.commitIndex > 0 {
      var t: nat, k: nat :| CommitsBy(s, a.log, a.commitIndex, a.currentTerm, t, k);
      var u: nat, l: nat :| CommitsBy(s, b.log, b.commitIndex, b.currentTerm, u, l);
      CommittedTerm(s, t, k);
      CommittedTerm(s, u, l);
      if t <= u {
        CommitsAgree(s, a.log, a.commitIndex, t, k, b.log, b.commitIndex, u);
      } else {
        CommitsAgree(s, b.log, b.commitIndex, u, l, a.log, a.commitIndex, t);
      }
    }
  }

  lemma CommitsAgree(s: Cluster, log: Log, c: nat, t: nat, k: nat, other: Log, d: nat, u: nat)
    requires ElectionsWon(s) && WinnersKeep(s) && LeaderLogs(s) && t <= u && u in s.termLog
    requires CommitsBy(s, log, c, t, t, k)
    requires d <= |other| && d <= |s.termLog[u]| && other[..d] == s.termLog[u][..d]
    ensures c <= |log|
    ensures log[..c] <= other[..d] || other[..d] <= log[..c]
  {
    hide ElectionsWon, WinnersKeep, LeaderLogs, Committed;
    LeaderHasCommitted(s, log, c, t, u);
    PrefixesOfOne(s.termLog[u], c, d);
  }

  lemma PrefixesOfOne(log: Log, c: nat, d: nat)
    requires c <= |log| && d <= |log|
    ensures log[..c] <= log[..d] || log[..d] <= log[..c]
  {
    if c <= d { assert log[..d][..c] == log[..c]; } else { assert log[..c][..d] == log[..d]; }
  }

  lemma LastStepKeeps(fix: Fixes, ids: set<NodeId>, steps: seq<Step>, n: NodeId)
    requires steps != [] && After(fix, ids, steps).Some? && RunA(fix, ids, steps) && RunBC(fix, ids, steps)
    ensures var s, s' := After(fix, ids, steps[..|steps| - 1]).value, After(fix, ids, steps).value;
            n in s.nodes ==> n in s'.nodes && s.nodes[n].commitIndex <= s'.nodes[n].commitIndex
                             && s.nodes[n].applied <= s'.nodes[n].applied
  {
    hide ElectionInv, ShapeInv, LogInv, KeepInv, CommitInv, OneLeaderPerTerm, Do, AllowsA, AllowsB, AllowsC;
    var before, last := steps[..|steps| - 1], steps[|steps| - 1];
    CommitInvAlways(fix, ids, before);
    CommitInvAlways(fix, ids, steps);
    MovesIntro(fix, After(fix, ids, before).value, last, After(fix, ids, steps).value);
    AppliedGrows(fix, After(fix, ids, before).value, last, After(fix, ids, steps).value, n);
  }

  /** Under A, B and C no commit is ever undone: from any earlier moment of a run to its end, the
      commit index of a node does not decrease and its applied sequence only grows. */
  lemma {:induction false} CommitsNeverUndone(fix: Fixes, ids: set<NodeId>, steps: seq<Step>, early: nat, n: NodeId)
    requires early <= |steps|
    requires After(fix, ids, steps).Some? && RunA(fix, ids, steps) && RunBC(fix, ids, steps)
    ensures After(fix, ids, steps[..early]).Some?
    ensures var s, s' := After(fix, ids, steps[..early]).value, After(fix, ids, steps).value;
            n in s.nodes ==> n in s'.nodes && s.nodes[n].commitIndex <= s'.nodes[n].commitIndex
                             && s.nodes[n].applied <= s'.nodes[n].applied
  {
    hide Do, AllowsA, AllowsB, AllowsC, Enabled;
    if early == |steps| {
      assert steps[..early] == steps;
    } else {
      var before := steps[..|steps| - 1];
      assert before[..early] == steps[..early];
      CommitsNeverUndone(fix, ids, before, early, n);
      LastStepKeeps(fix, ids, steps, n);
    }
  }

  /** Two nodes never apply different commands at one index, even at two different moments: of what
      one has applied at the one and what the other has applied at the other, one is a prefix. */
  lemma AgreementAcrossTime(fix: Fixes, ids: set<NodeId>, steps: seq<Step>, i: nat, m: NodeId, j: nat, n: NodeId)
    requires i <= |steps| && j <= |steps|
    requires After(fix, ids, steps).Some? && RunA(fix, ids, steps) && RunBC(fix, ids, steps)
    ensures After(fix, ids, steps[..i]).Some? && After(fix, ids, steps[..j]).Some?
    ensures var s, t := After(fix, ids, steps[..i]).value, After(fix, ids, steps[..j]).value;
            m in s.nodes && n in t.nodes ==>
              s.nodes[m].applied <= t.nodes[n].applied || t.nodes[n].applied <= s.nodes[m].applied
  {
    hide After, RunA, RunBC, AppliedExactly;
    CommitsNeverUndone(fix, ids, steps, i, m);
    CommitsNeverUndone(fix, ids, steps, j, n);
    StateMachineSafety(fix, ids, steps);
    var s, t, end := After(fix, ids, steps[..i]).value, After(fix, ids, steps[..j]).value, After(fix, ids, steps).value;
    if m in s.nodes && n in t.nodes {
      PrefixesOfComparable(s.nodes[m].applied, end.nodes[m].applied, t.nodes[n].applied, end.nodes[n].applied);
    }
  }

  lemma PrefixesOfComparable(a: Log, x: Log, b: Log, y: Log)
    requires a <= x && b <= y && (x <= y || y <= x)
    ensures a <= b || b <= a
  {
    var longer := if |x| <= |y| then y else x;
    assert a <= longer && b <= longer;
  }

  lemma AppliedGrows(fix: Fixes, s: Cluster, step: Step, s': Cluster, n: NodeId)
    requires Moves(fix, s, step, s')
    ensures n in s.nodes ==> n in s'.nodes && s.nodes[n].commitIndex <= s'.nodes[n].commitIndex
                             && s.nodes[n].applied <= s'.nodes[n].applied
  {
    hide Moves, CommitsFrom, Extends, Replicated, ShapedNode, LeadersHold, Settled, CommitInv;
    MoveParts(fix, s, step, s');
    StepperApplies(fix, s, step, s');
    if n == step.n {
      var me, me' := s.nodes[n], s'.nodes[n];
      assert me'.log[..me'.commitIndex][..me.commitIndex] == me'.log[..me.commitIndex];
    }
  }

  /** Follower commits are exact, under A, B and C. An append that is accepted, whether it carries
      entries or is an empty heartbeat over a longer stale log, leaves the follower committed up to
      the larger of its own and the leader's commit index; the leader's part of that lies within
      the log the leader held when it sent the append, and is equal to it entry by entry. */
  lemma FollowerCommitsExactly(fix: Fixes, ids: set<NodeId>, steps: seq<Step>)
    requires steps != [] && After(fix, ids, steps).Some? && RunA(fix, ids, steps) && RunBC(fix, ids, steps)
    ensures var last := steps[|steps| - 1];
            var s, s' := After(fix, ids, steps[..|steps| - 1]).value, After(fix, ids, steps).value;
            AcceptedBy(s, last) ==>
              var me, me', lc := s.nodes[last.n], s'.nodes[last.n], last.req.leaderCommit;
              && me'.commitIndex == (if lc > me.commitIndex then lc else me.commitIndex)
              && lc <= |last.sentLog| <= |me'.log| && me'.log[..lc] == last.sentLog[..lc]
              && AppliedExactly(me')
  {
    hide ElectionInv, ShapeInv, LogInv, KeepInv, CommitInv, OneLeaderPerTerm, AllowsA, AllowsC, Enabled, NodeAfter,
      NodesTraced, LeaderLogsTraced, Snapshots, ShapedNode, ElectionsWon, WinnersKeep, LeaderLogs, NodesCommit,
          SendsCommit, Settled, AppliedExactly;
    var before, last := steps[..|steps| - 1], steps[|steps| - 1];
    CommitInvAlways(fix, ids, before);
    var s := After(fix, ids, before).value;
    if AcceptedBy(s, last) {
      FollowerReady(fix, s, last);
      FollowerCommits(fix, s, last);
      LearntPrefix(s.nodes[last.n], NodeAfter(fix, s, last), last.sentLog, last.req.leaderCommit);
    }
  }

  lemma LearntPrefix(me: State, me': State, sentLog: Log, lc: nat)
    requires FollowerCommitted(me, me', sentLog, lc)
    ensures lc <= |sentLog| <= |me'.log| && me'.log[..lc] == sentLog[..lc]
  {
    assert sentLog == me'.log[..|sentLog|];
  }

  lemma FollowerReady(fix: Fixes, s: Cluster, step: Step)
    requires Settled(s) && CommitInv(s) && AcceptedBy(s, step)
    ensures NodesTraced(s) && LeaderLogsTraced(s) && Snapshots(s) && ShapedNode(s.nodes[step.n])
    ensures ElectionsWon(s) && WinnersKeep(s) && LeaderLogs(s) && NodesCommit(s) && SendsCommit(s)
  {
  }

  /** With no hypothesis: every append in the network was sent by a leader that held exactly
      `sentLog` and had committed exactly `leaderCommit` entries at that moment of the run. */
  lemma {:induction false} AppendsWereSent(fix: Fixes, ids: set<NodeId>, steps: seq<Step>, p: Packet)
      returns (moment: nat)
    requires After(fix, ids, steps).Some? && p in After(fix, ids, steps).value.net && p.AppendAsk?
    ensures moment <= |steps| && After(fix, ids, steps[..moment]).Some?
    ensures var s := After(fix, ids, steps[..moment]).value;
            && p.req.sender in s.nodes
            && var leader := s.nodes[p.req.sender];
               leader.role == Leader && leader.currentTerm == p.req.term
               && leader.log == p.sentLog && leader.commitIndex == p.req.leaderCommit
  {
    hide OnAppend, OnAppendReply, OnVoteRequest;
    assert steps != [];
    var before, last := steps[..|steps| - 1], steps[|steps| - 1];
    var s := After(fix, ids, before).value;
    if p in s.net {
      moment := AppendsWereSent(fix, ids, before, p);
      assert before[..moment] == steps[..moment];
    } else {
      moment := |steps|;
      assert steps[..moment] == steps;
      SendEffectOf(fix, s, last);
    }
  }
}
