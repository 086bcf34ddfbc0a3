/** Commitment: Leader Completeness and State Machine Safety
    (section 5.4 of the Raft paper by Ongaro and Ousterhout, 2014), under A, B and C. */
module RaftSafety {
  import opened Options
  import opened Commands
  import opened Sets
  import opened RaftNode
  import opened RaftCluster
  import opened RaftElection
  import opened RaftLogs

  // ----- Acknowledgements and what they pin down -----

  /** `log` contains the first `k` entries of `leaderLog`. */
  ghost predicate Holds(log: Log, leaderLog: Log, k: nat) {
    k <= |log| && k <= |leaderLog| && log[..k] == leaderLog[..k]
  }

  /** Position `k` of the log of the leader of `term` is an entry that leader created. */
  ghost predicate OwnEntry(termLog: map<nat, Log>, term: nat, k: nat) {
    term in termLog && 1 <= k <= |termLog[term]| && termLog[term][k - 1].term == term
  }

  /** A leader elected after `term`, up to term `bound`, started without those `k` entries. */
  ghost predicate Superseded(s: Cluster, term: nat, k: nat, bound: nat)
    requires term in s.termLog
  {
    exists e :: e in s.elections && term < e.term <= bound && !Holds(e.log, s.termLog[term], k)
  }

  ghost predicate AckTrue(s: Cluster, a: Ack) {
    && a.node in s.nodes && a.term in s.termLog
    && a.length <= |s.termLog[a.term]|
    && a.term <= s.nodes[a.node].currentTerm
  }

  ghost predicate AcksTrue(s: Cluster) {
    forall a | a in s.acks :: AckTrue(s, a)
  }

  /** `log` still contains every entry below `limit` that `node` acknowledged, up to position `k`,
      unless a later leader, elected in a term up to `bound`, had already given that entry up. */
  ghost predicate KeepsAt(s: Cluster, node: NodeId, log: Log, limit: nat, bound: nat, a: Ack, k: nat) {
    a.node == node && a.term < limit && k <= a.length && OwnEntry(s.termLog, a.term, k) ==>
      Holds(log, s.termLog[a.term], k) || Superseded(s, a.term, k, bound)
  }

  ghost predicate Keeps(s: Cluster, node: NodeId, log: Log, limit: nat, bound: nat) {
    forall a, k: nat | a in s.acks :: KeepsAt(s, node, log, limit, bound, a, k)
  }

  ghost predicate NodesKeep(s: Cluster) {
    forall n | n in s.nodes :: Keeps(s, n, s.nodes[n].log, s.nodes[n].currentTerm + 1, s.nodes[n].currentTerm)
  }

  ghost predicate BallotsKeep(s: Cluster) {
    forall b | b in s.ballots :: Keeps(s, b.voter, b.log, b.term, b.term)
  }

  /** A winner's log contains what each of its voters acknowledged, with the same exception. */
  ghost predicate WinnersKeep(s: Cluster) {
    forall e, v | e in s.elections && v in e.voters :: e.term >= 1 && Keeps(s, v, e.log, e.term, e.term - 1)
  }

  ghost predicate KeepInv(s: Cluster) {
    AcksTrue(s) && NodesKeep(s) && BallotsKeep(s) && WinnersKeep(s)
  }

  // ----- Leader Completeness, from the invariants alone -----

  ghost predicate Acked(s: Cluster, node: NodeId, term: nat, k: nat) {
    exists a :: a in s.acks && a.node == node && a.term == term && a.length >= k
  }

  /** A majority holds the first `k` entries of the leader of `term`, the last of them its own. */
  ghost predicate CommittedBy(s: Cluster, term: nat, k: nat, quorum: set<NodeId>) {
    && OwnEntry(s.termLog, term, k)
    && quorum <= s.nodes.Keys && |quorum| >= |s.nodes.Keys| / 2 + 1
    && forall q | q in quorum :: Acked(s, q, term, k)
  }

  ghost predicate Committed(s: Cluster, term: nat, k: nat) {
    exists quorum :: CommittedBy(s, term, k, quorum)
  }

  /** Every later leader started with every committed entry: by induction on the leader's term. */
  lemma {:induction false} CommittedInLeader(s: Cluster, term: nat, k: nat, e: Election)
    requires ElectionsWon(s) && WinnersKeep(s)
    requires Committed(s, term, k) && e in s.elections && e.term > term
    ensures Holds(e.log, s.termLog[term], k)
    decreases e.term
  {
    var quorum :| CommittedBy(s, term, k, quorum);
    assert ElectionWon(s, e);
    var v := MajoritiesMeet(s.nodes.Keys, quorum, e.voters);
    assert Acked(s, v, term, k);
    var a :| a in s.acks && a.node == v && a.term == term && a.length >= k;
    assert Keeps(s, v, e.log, e.term, e.term - 1);
    assert KeepsAt(s, v, e.log, e.term, e.term - 1, a, k);
    if !Holds(e.log, s.termLog[term], k) {
      var f :| f in s.elections && term < f.term <= e.term - 1 && !Holds(f.log, s.termLog[term], k);
      CommittedInLeader(s, term, k, f);
      assert false;
    }
  }

  // ----- What a step adds -----

  ghost predicate AckEffect(s: Cluster, step: Step, s': Cluster) {
    && step.n in s.nodes && step.n in s'.nodes
    && s'.acks == s.acks + Acknowledged(s, step)
    && (AcceptedBy(s, step) ==> s'.nodes[step.n].currentTerm == step.req.term)
    && s.ballots <= s'.ballots
  }

  lemma AckEffectOf(fix: Fixes, s: Cluster, step: Step)
    requires Enabled(s, step)
    ensures AckEffect(s, step, Do(fix, s, step))
  {
    hide NodeAfter, OnVoteRequest, OnAppend;
    NodeOutcome(fix, s, step);
  }

  /** `Keeps` survives growth: of the leaders' logs, of the elections, and of acknowledgements
      that `node` makes at or above `limit`. */
  lemma KeepsGrows(s: Cluster, s': Cluster, node: NodeId, log: Log, limit: nat, bound: nat, bound': nat)
    requires Keeps(s, node, log, limit, bound) && AcksTrue(s) && bound <= bound'
    requires Grows(s.termLog, s'.termLog) && s.elections <= s'.elections
    requires forall a | a in s'.acks && a !in s.acks && a.node == node :: a.term >= limit
    ensures Keeps(s', node, log, limit, bound')
  {
    forall a, k: nat | a in s'.acks && a.node == node && a.term < limit && k <= a.length
        && OwnEntry(s'.termLog, a.term, k)
      ensures Holds(log, s'.termLog[a.term], k) || Superseded(s', a.term, k, bound')
    {
      assert AckTrue(s, a);
      assert KeepsAt(s, node, log, limit, bound, a, k);
      assert s.termLog[a.term][..k] == s'.termLog[a.term][..k];
      if Superseded(s, a.term, k, bound) {
        var e :| e in s.elections && a.term < e.term <= bound && !Holds(e.log, s.termLog[a.term], k);
        assert e in s'.elections && !Holds(e.log, s'.termLog[a.term], k);
      }
    }
  }

  lemma AcksTrueStep(fix: Fixes, s: Cluster, step: Step, s': Cluster)
    requires LogEffect(fix, s, step, s') && AckEffect(s, step, s') && Grows(s.termLog, s'.termLog)
    requires AcksTrue(s) && LeadersHold(s)
    requires AcceptedBy(s, step) ==>
               Snapshot(s.termLog, step.req, step.sentLog)
               && step.req.prevLogIndex + |step.req.entries| == |step.sentLog|
    ensures AcksTrue(s')
  {
    forall a | a in s'.acks ensures AckTrue(s', a) {
      if a in s.acks { assert AckTrue(s, a); }
    }
  }

  /** Under B an append replaces the log only when the sender's log is not a prefix of it. */
  lemma KeepingAppend(fix: Fixes, termLog: map<nat, Log>, log: Log, req: AppendRequest, sentLog: Log)
    requires Traced(termLog, log) && Traced(termLog, sentLog) && Snapshot(termLog, req, sentLog)
    requires forall i | 0 <= i < |log| :: log[i].term >= 1
    requires PrevMatches(log, req.prevLogIndex, req.prevLogTerm)
    requires fix.keepMatching || TruncationHarmless(log, req.prevLogIndex, req.entries)
    ensures req.prevLogIndex <= |log| && req.prevLogIndex + |req.entries| == |sentLog|
    ensures Appended(fix, log, req.prevLogIndex, req.entries) == if sentLog <= log then log else sentLog
  {
    AcceptedAppend(fix, termLog, log, req, sentLog);
  }

  /** Replacing a log by the sender's keeps every acknowledged entry, or its leader gave it up. */
  lemma ReplacedKeeps(s: Cluster, n: NodeId, log: Log, sentLog: Log, term: nat, e: Election, low: nat)
    requires Keeps(s, n, log, low + 1, low) && low <= term
    requires AcksTrue(s) && n in s.nodes && s.nodes[n].currentTerm == low
    requires term in s.termLog && sentLog <= s.termLog[term] && !(sentLog <= log)
    requires e in s.elections && e.term == term && LeaderLog(s, e)
    ensures Keeps(s, n, sentLog, term + 1, term)
  {
    forall a, k: nat | a in s.acks && a.node == n && k <= a.length && OwnEntry(s.termLog, a.term, k)
      ensures Holds(sentLog, s.termLog[a.term], k) || Superseded(s, a.term, k, term)
    {
      assert AckTrue(s, a);
      assert KeepsAt(s, n, log, low + 1, low, a, k);
      if !Superseded(s, a.term, k, term) {
        HeldBySender(s, log, sentLog, term, e, a.term, k, low);
      }
    }
  }

  lemma HeldBySender(s: Cluster, log: Log, sentLog: Log, term: nat, e: Election, t: nat, k: nat, low: nat)
    requires t in s.termLog && t <= low <= term && k <= |s.termLog[t]|
    requires Holds(log, s.termLog[t], k) || Superseded(s, t, k, low)
    requires !Superseded(s, t, k, term)
    requires term in s.termLog && sentLog <= s.termLog[term] && !(sentLog <= log)
    requires e in s.elections && e.term == term && LeaderLog(s, e)
    ensures Holds(sentLog, s.termLog[t], k)
  {
    assert Holds(log, s.termLog[t], k);
    if t < term {
      assert Holds(e.log, s.termLog[t], k);
      assert s.termLog[term][..k] == e.log[..k];
    }
    assert s.termLog[term][..k] == s.termLog[t][..k] == log[..k];
    assert k <= |sentLog|;
    assert sentLog[..k] == s.termLog[term][..k];
  }

  /** `Keeps` with one more acknowledgement, of a prefix that `log` does contain. */
  lemma KeepsOneMore(s: Cluster, a: Ack, log: Log, limit: nat, bound: nat)
    requires Keeps(s.(acks := s.acks - {a}), a.node, log, limit, bound)
    requires a.term in s.termLog && Holds(log, s.termLog[a.term], a.length)
    ensures Keeps(s, a.node, log, limit, bound)
  {
    var t := s.(acks := s.acks - {a});
    forall b, k: nat | b in s.acks ensures KeepsAt(s, a.node, log, limit, bound, b, k) {
      if b == a {
        if k <= a.length { assert log[..k] == log[..a.length][..k] == s.termLog[a.term][..k]; }
      } else {
        assert b in t.acks && KeepsAt(t, a.node, log, limit, bound, b, k);
      }
    }
  }

  /** `Keeps` for a longer log, and for any limit above the terms in which `node` acknowledged. */
  lemma KeepsWeaken(s: Cluster, node: NodeId, log: Log, log': Log, limit: nat, limit': nat, bound: nat)
    requires Keeps(s, node, log, limit, bound) && log <= log'
    requires limit' <= limit || forall a | a in s.acks && a.node == node :: a.term < limit
    ensures Keeps(s, node, log', limit', bound)
  {
    forall a, k: nat | a in s.acks ensures KeepsAt(s, node, log', limit', bound, a, k) {
      assert KeepsAt(s, node, log, limit, bound, a, k);
    }
  }

  /** The stepping node's own log, when it accepted an append or proposed an entry. */
  lemma AcknowledgerKeeps(s: Cluster, s': Cluster, n: NodeId, log: Log, a: Ack, term: nat)
    requires AcksTrue(s) && Keeps(s, n, log, term + 1, term)
    requires Grows(s.termLog, s'.termLog) && s.elections <= s'.elections
    requires a.node == n && s'.acks == s.acks + {a}
    requires a.term in s'.termLog && Holds(log, s'.termLog[a.term], a.length)
    ensures Keeps(s', n, log, term + 1, term)
  {
    var t := s'.(acks := s'.acks - {a});
    KeepsGrows(s, t, n, log, term + 1, term, term);
    KeepsOneMore(s', a, log, term + 1, term);
  }

  lemma ProposerKeeps(fix: Fixes, s: Cluster, step: Step, s': Cluster)
    requires LogEffect(fix, s, step, s') && AckEffect(s, step, s') && Grows(s.termLog, s'.termLog)
    requires KeepInv(s) && LeadersHold(s) && step.Propose?
    requires s'.nodes[step.n].currentTerm == s.nodes[step.n].currentTerm
    ensures var me' := s'.nodes[step.n]; Keeps(s', step.n, me'.log, me'.currentTerm + 1, me'.currentTerm)
  {
    var n := step.n;
    var me, me' := s.nodes[n], s'.nodes[n];
    assert Keeps(s, n, me.log, me.currentTerm + 1, me.currentTerm);
    KeepsWeaken(s, n, me.log, me'.log, me.currentTerm + 1, me.currentTerm + 1, me.currentTerm);
    AcknowledgerKeeps(s, s', n, me'.log, Ack(n, me.currentTerm, |me'.log|), me.currentTerm);
  }

  lemma FollowerKept(s: Cluster, s': Cluster, n: NodeId, log: Log, sentLog: Log, term: nat)
    requires AcksTrue(s) && n in s.nodes && s.nodes[n].currentTerm <= term
    requires Grows(s.termLog, s'.termLog) && s.elections <= s'.elections
    requires Keeps(s, n, log, s.nodes[n].currentTerm + 1, s.nodes[n].currentTerm)
    requires term in s.termLog && sentLog <= s.termLog[term] && sentLog <= log
    requires s'.acks == s.acks + {Ack(n, term, |sentLog|)}
    ensures Keeps(s', n, log, term + 1, term)
  {
    var low := s.nodes[n].currentTerm;
    assert forall a | a in s.acks && a.node == n :: AckTrue(s, a);
    KeepsWeaken(s, n, log, log, low + 1, term + 1, low);
    KeepsGrows(s, s, n, log, term + 1, low, term);
    AcknowledgerKeeps(s, s', n, log, Ack(n, term, |sentLog|), term);
  }

  lemma FollowerReplaced(s: Cluster, s': Cluster, n: NodeId, log: Log, sentLog: Log, term: nat, e: Election)
    requires AcksTrue(s) && n in s.nodes && s.nodes[n].currentTerm <= term
    requires Grows(s.termLog, s'.termLog) && s.elections <= s'.elections
    requires Keeps(s, n, log, s.nodes[n].currentTerm + 1, s.nodes[n].currentTerm)
    requires term in s.termLog && sentLog <= s.termLog[term] && !(sentLog <= log)
    requires s'.acks == s.acks + {Ack(n, term, |sentLog|)}
    requires e in s.elections && e.term == term && LeaderLog(s, e)
    ensures Keeps(s', n, sentLog, term + 1, term)
  {
    ReplacedKeeps(s, n, log, sentLog, term, e, s.nodes[n].currentTerm);
    AcknowledgerKeeps(s, s', n, sentLog, Ack(n, term, |sentLog|), term);
  }

  lemma FollowerKeeps(s: Cluster, s': Cluster, n: NodeId, log: Log, sentLog: Log, term: nat)
    requires AcksTrue(s) && n in s.nodes && s.nodes[n].currentTerm <= term && LeaderLogs(s)
    requires Grows(s.termLog, s'.termLog) && s.elections <= s'.elections
    requires Keeps(s, n, log, s.nodes[n].currentTerm + 1, s.nodes[n].currentTerm)
    requires term in s.termLog && sentLog <= s.termLog[term]
    requires s'.acks == s.acks + {Ack(n, term, |sentLog|)}
    ensures Keeps(s', n, if sentLog <= log then log else sentLog, term + 1, term)
  {
    if sentLog <= log {
      FollowerKept(s, s', n, log, sentLog, term);
    } else {
      var e :| e in s.elections && e.term == term;
      FollowerReplaced(s, s', n, log, sentLog, term, e);
    }
  }

  lemma BystanderKeeps(s: Cluster, s': Cluster, m: NodeId, term: nat)
    requires KeepInv(s) && Grows(s.termLog, s'.termLog) && s.elections <= s'.elections
    requires m in s.nodes && s.nodes[m].currentTerm <= term
    requires forall a | a in s'.acks && a !in s.acks :: a.node != m
    ensures Keeps(s', m, s.nodes[m].log, term + 1, term)
  {
    var me := s.nodes[m];
    assert Keeps(s, m, me.log, me.currentTerm + 1, me.currentTerm);
    assert forall a | a in s.acks && a.node == m :: AckTrue(s, a);
    KeepsWeaken(s, m, me.log, me.log, me.currentTerm + 1, term + 1, me.currentTerm);
    KeepsGrows(s, s', m, me.log, term + 1, me.currentTerm, term);
  }

  /** An accepted append, under B: its sender's log was acknowledged, and is kept or adopted whole. */
  lemma AcceptedStep(fix: Fixes, s: Cluster, step: Step)
    requires step.AnswerAppend? && step.n in s.nodes && Accepts(s.nodes[step.n], step.req)
    requires AppendAsk(step.n, step.req, step.sentLog) in s.net
    requires NodesTraced(s) && LeaderLogsTraced(s) && Snapshots(s)
    requires ShapedNode(s.nodes[step.n]) && AllowsB(fix, s, step)
    ensures Snapshot(s.termLog, step.req, step.sentLog)
    ensures step.req.prevLogIndex + |step.req.entries| == |step.sentLog|
    ensures LogAfter(fix, s.nodes[step.n], step)
            == if step.sentLog <= s.nodes[step.n].log then s.nodes[step.n].log else step.sentLog
  {
    SentLogTraced(s, step.n, step.req, step.sentLog);
    KeepingAppend(fix, s.termLog, s.nodes[step.n].log, step.req, step.sentLog);
  }

  lemma FollowerFacts(fix: Fixes, s: Cluster, step: Step, s': Cluster)
    requires LogEffect(fix, s, step, s') && AckEffect(s, step, s')
    requires NodesKeep(s) && NodesTraced(s) && LeaderLogsTraced(s) && Snapshots(s)
    requires ShapedNode(s.nodes[step.n]) && AllowsB(fix, s, step)
    requires AcceptedBy(s, step)
    requires AppendAsk(step.n, step.req, step.sentLog) in s.net
    ensures step.AnswerAppend? && step.n in s.nodes && step.n in s'.nodes && s.elections <= s'.elections
    ensures var me, me', sentLog, term := s.nodes[step.n], s'.nodes[step.n], step.sentLog, step.req.term;
            && Keeps(s, step.n, me.log, me.currentTerm + 1, me.currentTerm)
            && me.currentTerm <= term == me'.currentTerm
            && term in s.termLog && sentLog <= s.termLog[term]
            && me'.log == (if sentLog <= me.log then me.log else sentLog)
            && s'.acks == s.acks + {Ack(step.n, term, |sentLog|)}
  {
    AcceptedStep(fix, s, step);
  }

  lemma FollowerStepKeeps(fix: Fixes, s: Cluster, step: Step, s': Cluster)
    requires LogEffect(fix, s, step, s') && AckEffect(s, step, s') && Grows(s.termLog, s'.termLog)
    requires AcksTrue(s) && NodesKeep(s) && LeaderLogs(s)
    requires NodesTraced(s) && LeaderLogsTraced(s) && Snapshots(s)
    requires ShapedNode(s.nodes[step.n]) && AllowsB(fix, s, step)
    requires AcceptedBy(s, step)
    requires AppendAsk(step.n, step.req, step.sentLog) in s.net
    ensures var me' := s'.nodes[step.n]; Keeps(s', step.n, me'.log, me'.currentTerm + 1, me'.currentTerm)
  {
    hide *;
    FollowerFacts(fix, s, step, s');
    FollowerKeeps(s, s', step.n, s.nodes[step.n].log, step.sentLog, step.req.term);
  }

  lemma NodesKeepStep(fix: Fixes, s: Cluster, step: Step, s': Cluster)
    requires LogEffect(fix, s, step, s') && AckEffect(s, step, s') && Grows(s.termLog, s'.termLog)
    requires KeepInv(s)
    requires var me' := s'.nodes[step.n]; Keeps(s', step.n, me'.log, me'.currentTerm + 1, me'.currentTerm)
    ensures NodesKeep(s')
  {
    forall m | m in s'.nodes && m != step.n
      ensures Keeps(s', m, s'.nodes[m].log, s'.nodes[m].currentTerm + 1, s'.nodes[m].currentTerm)
    {
      BystanderKeeps(s, s', m, s'.nodes[m].currentTerm);
    }
  }

  lemma BallotKeeps(fix: Fixes, s: Cluster, step: Step, s': Cluster, b: Ballot)
    requires LogEffect(fix, s, step, s') && AckEffect(s, step, s') && Grows(s.termLog, s'.termLog)
    requires AcksTrue(s) && b.voter in s.nodes && b.term <= s.nodes[b.voter].currentTerm
    requires Keeps(s, b.voter, b.log, b.term, b.term)
    ensures Keeps(s', b.voter, b.log, b.term, b.term)
  {
    hide LogAfter, Keeps;
    KeepsGrows(s, s', b.voter, b.log, b.term, b.term, b.term);
  }

  lemma BallotsKeepStep(fix: Fixes, s: Cluster, step: Step, s': Cluster)
    requires LogEffect(fix, s, step, s') && AckEffect(s, step, s') && Grows(s.termLog, s'.termLog)
    requires AcksTrue(s) && BallotsKeep(s) && BallotsCast(s) && NodesKeep(s')
    ensures BallotsKeep(s')
  {
    hide LogAfter, Keeps, AcksTrue, Grows;
    forall b | b in s'.ballots ensures Keeps(s', b.voter, b.log, b.term, b.term) {
      if b in s.ballots {
        BallotKeeps(fix, s, step, s', b);
      } else {
        var me' := s'.nodes[b.voter];
        assert Keeps(s', b.voter, me'.log, me'.currentTerm + 1, me'.currentTerm);
        KeepsWeaken(s', b.voter, b.log, b.log, b.term + 1, b.term, b.term);
      }
    }
  }

  /** The up-to-date check: a candidate that passes it holds what the voter's log holds, or the
      leader of its last term had given that up. */
  lemma UpToDateHolds(s: Cluster, log: Log, voterLog: Log, term: nat, k: nat, bound: nat)
    requires Traced(s.termLog, log) && Traced(s.termLog, voterLog) && LeaderLogs(s)
    requires Shaped(log, 0, bound) && Shaped(voterLog, 0, bound + 1)
    requires OwnEntry(s.termLog, term, k) && Holds(voterLog, s.termLog[term], k)
    requires UpToDate(LastTerm(log), |log|, voterLog)
    ensures Holds(log, s.termLog[term], k) || Superseded(s, term, k, bound)
  {
    assert voterLog[k - 1] == s.termLog[term][..k][k - 1];
    assert LastTerm(voterLog) >= term;
    var last := LastTerm(log);
    assert log != [];
    assert log[..|log|] == log && log <= s.termLog[last];
    if last == LastTerm(voterLog) {
      assert voterLog[..|voterLog|] == voterLog && voterLog <= s.termLog[last];
      assert voterLog[..k] == log[..k];
    } else {
      var f :| f in s.elections && f.term == last;
      assert LeaderLog(s, f);
      assert log[|log| - 1] == s.termLog[last][|log| - 1];
      assert f.log == log[..|f.log|];
      if Holds(f.log, s.termLog[term], k) {
        assert log[..k] == f.log[..k];
      }
    }
  }

  lemma WinnerShaped(s: Cluster, log: Log, term: nat)
    requires term >= 1 && term !in s.termLog && Traced(s.termLog, log) && Shaped(log, 0, term)
    ensures Shaped(log, 0, term - 1)
  {
  }

  lemma WinnerKeeps(s: Cluster, e: Election, v: NodeId, b: Ballot)
    requires BallotsKeep(s) && LeaderLogs(s) && BallotsTraced(s) && AcksTrue(s)
    requires e.term >= 1 && e.term !in s.termLog && Traced(s.termLog, e.log) && Shaped(e.log, 0, e.term)
    requires b in s.ballots && b.voter == v && b.term == e.term && Shaped(b.log, 0, b.term)
    requires UpToDate(LastTerm(e.log), |e.log|, b.log)
    ensures Keeps(s, v, e.log, e.term, e.term - 1)
  {
    hide Traced, Shaped, UpToDate, AckTrue, Holds;
    WinnerShaped(s, e.log, e.term);
    assert Keeps(s, b.voter, b.log, b.term, b.term);
    forall a, k: nat | a in s.acks && a.node == v && a.term < e.term && k <= a.length && OwnEntry(s.termLog, a.term, k)
      ensures Holds(e.log, s.termLog[a.term], k) || Superseded(s, a.term, k, e.term - 1)
    {
      assert KeepsAt(s, v, b.log, b.term, b.term, a, k);
      if Holds(b.log, s.termLog[a.term], k) {
        UpToDateHolds(s, e.log, b.log, a.term, k, e.term - 1);
      } else {
        var f :| f in s.elections && a.term < f.term <= b.term && !Holds(f.log, s.termLog[a.term], k);
        assert LeaderLog(s, f);
      }
    }
  }

  lemma VoterTerm(s: Cluster, e: Election, v: NodeId)
    requires ElectionWon(s, e) && BallotsCast(s) && v in e.voters
    ensures v in s.nodes && s.nodes[v].currentTerm >= e.term
  {
    assert VoteBacked(s.ballots, v, e.term, e.leader, LastTerm(e.log), |e.log|);
  }

  lemma NewWinnerKeeps(s: Cluster, e: Election, v: NodeId)
    requires BallotsKeep(s) && LeaderLogs(s) && BallotsTraced(s) && AcksTrue(s)
    requires forall b | b in s.ballots :: Shaped(b.log, 0, b.term)
    requires e.term >= 1 && e.term !in s.termLog && Traced(s.termLog, e.log) && Shaped(e.log, 0, e.term)
    requires VoteBacked(s.ballots, v, e.term, e.leader, LastTerm(e.log), |e.log|)
    ensures Keeps(s, v, e.log, e.term, e.term - 1)
  {
    var b :| b in s.ballots && b.voter == v && b.term == e.term && b.candidate == e.leader
             && UpToDate(LastTerm(e.log), |e.log|, b.log);
    WinnerKeeps(s, e, v, b);
  }

  lemma OldWinnerKeeps(fix: Fixes, s: Cluster, step: Step, s': Cluster, e: Election, v: NodeId)
    requires LogEffect(fix, s, step, s') && AckEffect(s, step, s') && Grows(s.termLog, s'.termLog)
    requires AcksTrue(s) && ElectionWon(s, e) && BallotsCast(s) && v in e.voters
    requires e.term >= 1 && Keeps(s, v, e.log, e.term, e.term - 1)
    ensures Keeps(s', v, e.log, e.term, e.term - 1)
  {
    hide Keeps, LogAfter, AcksTrue, Grows, ElectionWon, BallotsCast;
    VoterTerm(s, e, v);
    KeepsGrows(s, s', v, e.log, e.term, e.term - 1, e.term - 1);
  }

  lemma WinnersKeepStep(fix: Fixes, s: Cluster, step: Step, s': Cluster)
    requires LogEffect(fix, s, step, s') && AckEffect(s, step, s') && Grows(s.termLog, s'.termLog)
    requires AcksTrue(s) && WinnersKeep(s) && ElectionsWon(s) && BallotsCast(s)
    requires Wins(s, step) ==>
               var e := WonElection(s, step);
               e.term >= 1 && forall v | v in e.voters :: Keeps(s', v, e.log, e.term, e.term - 1)
    ensures WinnersKeep(s')
  {
    hide Keeps, LogAfter, AcksTrue, Grows, ElectionWon;
    forall e, v | e in s'.elections && v in e.voters ensures e.term >= 1 && Keeps(s', v, e.log, e.term, e.term - 1) {
      if e in s.elections {
        assert ElectionWon(s, e);
        OldWinnerKeeps(fix, s, step, s', e, v);
      }
    }
  }

  lemma WonFacts(s: Cluster, step: Step)
    requires Wins(s, step) && ShapeInv(s) && NodesTraced(s)
    ensures step.CountVotes? && step.n in s.nodes
    ensures var e := WonElection(s, step);
            && e.term == s.nodes[step.n].currentTerm && e.term >= 1
            && Traced(s.termLog, e.log) && Shaped(e.log, 0, e.term)
    ensures forall b | b in s.ballots :: Shaped(b.log, 0, b.term)
  {
    assert ShapedNode(s.nodes[step.n]);
  }

  lemma WonKeeps(s: Cluster, step: Step)
    requires Enabled(s, step) && Wins(s, step) && AnswersBacked(s) && CandidatesWait(s) && ShapeInv(s)
    requires BallotsKeep(s) && LeaderLogs(s) && NodesTraced(s) && BallotsTraced(s) && AcksTrue(s)
    requires s.nodes[step.n].currentTerm !in s.termLog
    ensures var e := WonElection(s, step);
            e.term >= 1 && forall v | v in e.voters :: Keeps(s, v, e.log, e.term, e.term - 1)
  {
    hide *;
    WonFacts(s, step);
    NewElectionWon(s, step);
    var e := WonElection(s, step);
    forall v | v in e.voters ensures Keeps(s, v, e.log, e.term, e.term - 1) { NewWinnerKeeps(s, e, v); }
  }

  lemma WonGrows(s: Cluster, s': Cluster, e: Election)
    requires AcksTrue(s) && s'.acks == s.acks && Grows(s.termLog, s'.termLog) && s.elections <= s'.elections
    requires e.term >= 1 && forall v | v in e.voters :: Keeps(s, v, e.log, e.term, e.term - 1)
    ensures forall v | v in e.voters :: Keeps(s', v, e.log, e.term, e.term - 1)
  {
    forall v | v in e.voters ensures Keeps(s', v, e.log, e.term, e.term - 1) {
      KeepsGrows(s, s', v, e.log, e.term, e.term - 1, e.term - 1);
    }
  }

  // The four parts of `KeepInv` after one step.

  ghost predicate Ready(fix: Fixes, s: Cluster, step: Step) {
    && Enabled(s, step) && ElectionInv(s) && ShapeInv(s) && LogInv(s) && KeepInv(s)
    && AllowsB(fix, s, step) && OneLeaderPerTerm(Do(fix, s, step))
  }

  lemma EffectsOf(fix: Fixes, s: Cluster, step: Step, s': Cluster)
    requires Ready(fix, s, step) && s' == Do(fix, s, step)
    ensures LogEffect(fix, s, step, s') && AckEffect(s, step, s') && Grows(s.termLog, s'.termLog)
    ensures AcceptedBy(s, step) ==> step.AnswerAppend? && AppendAsk(step.n, step.req, step.sentLog) in s.net
    ensures step.Propose? ==> s'.nodes[step.n].currentTerm == s.nodes[step.n].currentTerm
    ensures step.n in s.nodes && ShapedNode(s.nodes[step.n])
  {
    hide LogEffect, AckEffect, LogInv, KeepInv, ElectionInv, Grows, NodeAfter, Sent, Cast, ShapedNode;
    NodeOutcome(fix, s, step);
    LogEffectOf(fix, s, step);
    AckEffectOf(fix, s, step);
    LogInvStep(fix, s, step);
  }

  /** What `Ready` says, one conjunct at a time. */
  lemma Parts(fix: Fixes, s: Cluster, step: Step, s': Cluster)
    requires Ready(fix, s, step) && s' == Do(fix, s, step)
    ensures Enabled(s, step) && ElectionInv(s) && ShapeInv(s) && LogInv(s) && KeepInv(s)
    ensures AllowsB(fix, s, step) && OneLeaderPerTerm(s')
    ensures AcksTrue(s) && NodesKeep(s) && BallotsKeep(s) && WinnersKeep(s)
    ensures NodesTraced(s) && BallotsTraced(s) && LeaderLogsTraced(s) && LeaderLogs(s) && LeadersHold(s) && Snapshots(s)
    ensures BallotsCast(s) && ElectionsWon(s) && AnswersBacked(s) && CandidatesWait(s)
  {
  }

  lemma AcksPart(fix: Fixes, s: Cluster, step: Step, s': Cluster)
    requires Ready(fix, s, step) && s' == Do(fix, s, step)
    ensures AcksTrue(s')
  {
    EffectsOf(fix, s, step, s');
    if AcceptedBy(s, step) { AcceptedStep(fix, s, step); }
    AcksTrueStep(fix, s, step, s');
  }

  lemma StepperPart(fix: Fixes, s: Cluster, step: Step, s': Cluster)
    requires Ready(fix, s, step) && s' == Do(fix, s, step)
    ensures step.n in s'.nodes
    ensures var me' := s'.nodes[step.n]; Keeps(s', step.n, me'.log, me'.currentTerm + 1, me'.currentTerm)
  {
    hide *;
    Parts(fix, s, step, s');
    EffectsOf(fix, s, step, s');
    StillFacts(fix, s, step, s');
    if step.Propose? {
      ProposerKeeps(fix, s, step, s');
    } else if AcceptedBy(s, step) {
      FollowerStepKeeps(fix, s, step, s');
    } else {
      BystanderKeeps(s, s', step.n, s'.nodes[step.n].currentTerm);
    }
  }

  lemma StillFacts(fix: Fixes, s: Cluster, step: Step, s': Cluster)
    requires LogEffect(fix, s, step, s') && AckEffect(s, step, s')
    ensures step.n in s.nodes && step.n in s'.nodes && s.elections <= s'.elections
    ensures s.nodes[step.n].currentTerm <= s'.nodes[step.n].currentTerm
    ensures !step.Propose? && !(AcceptedBy(s, step)) ==>
              s'.nodes[step.n].log == s.nodes[step.n].log && s'.acks == s.acks
  {
  }

  lemma NodesPart(fix: Fixes, s: Cluster, step: Step, s': Cluster)
    requires Ready(fix, s, step) && s' == Do(fix, s, step)
    ensures NodesKeep(s')
  {
    hide *;
    Parts(fix, s, step, s');
    EffectsOf(fix, s, step, s');
    StepperPart(fix, s, step, s');
    NodesKeepStep(fix, s, step, s');
  }

  lemma WonPart(fix: Fixes, s: Cluster, step: Step, s': Cluster)
    requires Ready(fix, s, step) && s' == Do(fix, s, step) && Wins(s, step)
    ensures step.CountVotes? && step.n in s.nodes
    ensures var e := WonElection(s, step);
            e.term >= 1 && forall v | v in e.voters :: Keeps(s', v, e.log, e.term, e.term - 1)
  {
    hide *;
    Parts(fix, s, step, s');
    EffectsOf(fix, s, step, s');
    WonFacts(s, step);
    WonRecorded(fix, s, step, s');
    FreshTerm(s, step, s');
    WonKeeps(s, step);
    WonGrows(s, s', WonElection(s, step));
  }

  lemma WonRecorded(fix: Fixes, s: Cluster, step: Step, s': Cluster)
    requires LogEffect(fix, s, step, s') && AckEffect(s, step, s') && Wins(s, step)
    ensures step.CountVotes? && step.n in s.nodes
    ensures WonElection(s, step) in s'.elections && s.elections <= s'.elections && s'.acks == s.acks
  {
  }

  lemma WinnersPart(fix: Fixes, s: Cluster, step: Step, s': Cluster)
    requires Ready(fix, s, step) && s' == Do(fix, s, step)
    ensures WinnersKeep(s')
  {
    hide *;
    Parts(fix, s, step, s');
    EffectsOf(fix, s, step, s');
    if Wins(s, step) { WonPart(fix, s, step, s'); }
    WinnersKeepStep(fix, s, step, s');
  }

  lemma BallotsPart(fix: Fixes, s: Cluster, step: Step, s': Cluster)
    requires Ready(fix, s, step) && s' == Do(fix, s, step) && NodesKeep(s')
    ensures BallotsKeep(s')
  {
    hide *;
    Parts(fix, s, step, s');
    EffectsOf(fix, s, step, s');
    BallotsKeepStep(fix, s, step, s');
  }

  lemma KeepInvStep(fix: Fixes, s: Cluster, step: Step, s': Cluster)
    requires Ready(fix, s, step) && s' == Do(fix, s, step)
    ensures KeepInv(s')
  {
    AcksPart(fix, s, step, s');
    NodesPart(fix, s, step, s');
    WinnersPart(fix, s, step, s');
    BallotsPart(fix, s, step, s');
  }
}
