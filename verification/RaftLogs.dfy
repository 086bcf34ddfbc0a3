/** Logs: what every handler keeps about entries, and Log Matching
    (section 5.3 of the Raft paper by Ongaro and Ousterhout, 2014). */
module RaftLogs {
  import opened Options
  import opened Commands
  import opened RaftNode
  import opened RaftCluster
  import opened RaftElection

  // ----- Shape: no hypothesis at all -----

  /** Entry `i` of `log`, counted after `offset` earlier entries, carries its own position, and
      terms are positive, at most `bound` and non-decreasing. */
  ghost predicate Shaped(log: Log, offset: nat, bound: nat) {
    && (forall i | 0 <= i < |log| :: log[i].index == offset + i + 1 && 1 <= log[i].term <= bound)
    && (forall i, j | 0 <= i < j < |log| :: log[i].term <= log[j].term)
  }

  ghost predicate ShapedNode(me: State) {
    && Shaped(me.log, 0, me.currentTerm)
    && (me.role != Follower ==> me.currentTerm >= 1)
    && me.lastApplied == |me.applied|
  }

  ghost predicate ShapedRequest(req: AppendRequest) {
    && Shaped(req.entries, req.prevLogIndex, req.term)
    && (req.prevLogIndex > 0 && req.entries != [] ==> req.prevLogTerm <= req.entries[0].term)
  }

  ghost predicate ShapeInv(s: Cluster) {
    && (forall n | n in s.nodes :: ShapedNode(s.nodes[n]))
    && (forall p | p in s.net && p.AppendAsk? :: ShapedRequest(p.req))
    && (forall b | b in s.ballots :: Shaped(b.log, 0, b.term))
  }

  // ----- What a step does to logs -----

  /** The part of a step that the log invariants depend on. */
  ghost predicate LogEffect(fix: Fixes, s: Cluster, step: Step, s': Cluster) {
    && step.n in s.nodes && s'.nodes.Keys == s.nodes.Keys
    && (forall m | m in s.nodes && m != step.n :: s'.nodes[m] == s.nodes[m])
    && NodeEffect(fix, s, step, s'.nodes[step.n])
    && s'.termLog == (if step.Propose? || Wins(s, step)
                      then s.termLog[s.nodes[step.n].currentTerm := s'.nodes[step.n].log] else s.termLog)
    && s'.elections == s.elections + (if Wins(s, step) then {WonElection(s, step)} else {})
    && (forall b | b in s'.ballots && b !in s.ballots :: BallotEffect(s, step, s'.nodes[step.n], b))
    && (forall p | p in s'.net && p !in s.net && p.AppendAsk? :: SendEffect(step.n, s'.nodes[step.n], p))
  }

  ghost predicate NodeEffect(fix: Fixes, s: Cluster, step: Step, me': State)
    requires step.n in s.nodes
  {
    var me := s.nodes[step.n];
    && me.currentTerm <= me'.currentTerm
    && me'.log == LogAfter(fix, me, step)
    && (step.Propose? ==> me.role == Leader)
    && (me'.role == Leader ==>
          && me'.currentTerm == me.currentTerm
          && if me.role == Leader then !AcceptedBy(s, step) else Wins(s, step))
  }

  /** A new append is built by a leader from its new state. */
  ghost predicate SendEffect(n: NodeId, me': State, p: Packet)
    requires p.AppendAsk?
  {
    me'.role == Leader && p.req == RequestFor(me', n, p.to) && p.sentLog == me'.log
  }

  lemma SendEffectOf(fix: Fixes, s: Cluster, step: Step)
    requires Enabled(s, step)
    ensures forall p | p in Sent(fix, s, step) && p.AppendAsk? :: SendEffect(step.n, NodeAfter(fix, s, step), p)
  {
    hide RequestFor, OnVoteRequest, OnAppend, OnAppendReply;
  }

  lemma LogEffectOf(fix: Fixes, s: Cluster, step: Step)
    requires Enabled(s, step)
    ensures LogEffect(fix, s, step, Do(fix, s, step))
  {
    hide NodeAfter, Cast, Sent, SendEffect, BallotEffect;
    NodeOutcome(fix, s, step);
    SendEffectOf(fix, s, step);
    BallotEffectOf(fix, s, step);
  }

  lemma ShapedConcat(log: Log, prev: nat, entries: Log, low: nat, high: nat)
    requires prev <= |log| && low <= high
    requires Shaped(log, 0, low) && Shaped(entries, prev, high)
    requires prev > 0 && entries != [] ==> log[prev - 1].term <= entries[0].term
    ensures Shaped(log[..prev] + entries, 0, high)
  {
    var both := log[..prev] + entries;
    forall i, j | 0 <= i < j < |both| ensures both[i].term <= both[j].term {
      if i < prev <= j {
        assert log[i].term <= log[prev - 1].term;
        assert entries[0].term <= entries[j - prev].term;
      }
    }
  }

  lemma ShapedLonger(log: Log, offset: nat, low: nat, high: nat)
    requires Shaped(log, offset, low) && low <= high
    ensures Shaped(log, offset, high)
  {
  }

  lemma ShapedAppended(fix: Fixes, me: State, req: AppendRequest)
    requires ShapedNode(me) && ShapedRequest(req) && Accepts(me, req)
    ensures Shaped(Appended(fix, me.log, req.prevLogIndex, req.entries), 0, req.term)
  {
    hide Shaped, HoldsEntries;
    ShapedLonger(me.log, 0, me.currentTerm, req.term);
    if req.entries != [] {
      ShapedConcat(me.log, req.prevLogIndex, req.entries, me.currentTerm, req.term);
    }
  }

  lemma ShapedAppend(fix: Fixes, me: State, n: NodeId, req: AppendRequest)
    requires ShapedNode(me) && ShapedRequest(req)
    ensures ShapedNode(OnAppend(fix, me, n, req).0)
  {
    hide Shaped, OnAppend, Appended, Accepts;
    AppendOutcome(fix, me, n, req);
    if Accepts(me, req) {
      ShapedAppended(fix, me, req);
      AcceptsTerm(me, req);
    } else if req.term >= me.currentTerm {
      ShapedLonger(me.log, 0, me.currentTerm, req.term);
    }
  }

  lemma AcceptsTerm(me: State, req: AppendRequest)
    ensures Accepts(me, req) ==> req.term >= me.currentTerm
  {
  }

  lemma ShapedSend(me: State, n: NodeId, peer: NodeId)
    requires ShapedNode(me)
    ensures ShapedRequest(RequestFor(me, n, peer))
  {
  }

  lemma ShapedProposal(me: State, command: Command)
    requires ShapedNode(me) && me.currentTerm >= 1
    ensures Shaped(Proposed(me, command).log, 0, me.currentTerm)
  {
  }

  lemma ShapedStep(fix: Fixes, s: Cluster, step: Step)
    requires Enabled(s, step) && ShapeInv(s)
    ensures ShapedNode(Do(fix, s, step).nodes[step.n])
  {
    hide Shaped, Proposed, Appended, NodeAfter, Sent, Cast, TermLogAfter, Acknowledged;
    var n := step.n;
    var me, me' := s.nodes[n], NodeAfter(fix, s, step);
    assert ShapedNode(me);
    NodeOutcome(fix, s, step);
    if step.AnswerAppend? {
      ShapedAppend(fix, me, n, step.req);
      AnswerIs(fix, s, step);
    } else {
      if step.Propose? { ShapedProposal(me, step.command); }
      ShapedLonger(LogAfter(fix, me, step), 0, me.currentTerm, me'.currentTerm);
    }
  }

  lemma AnswerIs(fix: Fixes, s: Cluster, step: Step)
    requires Enabled(s, step) && step.AnswerAppend?
    ensures NodeAfter(fix, s, step) == OnAppend(fix, s.nodes[step.n], step.n, step.req).0
  {
  }

  lemma ShapeInvStep(fix: Fixes, s: Cluster, step: Step)
    requires Enabled(s, step) && ShapeInv(s)
    ensures ShapeInv(Do(fix, s, step))
  {
    hide Do, RequestFor, LogAfter;
    var s', n := Do(fix, s, step), step.n;
    ShapedStep(fix, s, step);
    LogEffectOf(fix, s, step);
    forall p | p in s'.net && p.AppendAsk? ensures ShapedRequest(p.req) {
      if p !in s.net { ShapedSend(s'.nodes[n], n, p.to); }
    }
  }

  /** In every run, with no hypothesis and no repair: each entry's index is its position plus one,
      terms are non-decreasing and at most the node's current term, and every entry handed to the
      callbacks is counted by `last_applied`. */
  lemma {:induction false} ShapeAlways(fix: Fixes, ids: set<NodeId>, steps: seq<Step>)
    requires After(fix, ids, steps).Some?
    ensures ShapeInv(After(fix, ids, steps).value)
  {
    if steps != [] {
      var before := steps[..|steps| - 1];
      ShapeAlways(fix, ids, before);
      ShapeInvStep(fix, After(fix, ids, before).value, steps[|steps| - 1]);
    }
  }

  // ----- Every log is traced to the logs of the leaders of its terms -----

  /** Up to each of its entries `log` agrees with the log of the leader of that entry's term. */
  ghost predicate Traced(termLog: map<nat, Log>, log: Log) {
    forall i | 0 <= i < |log| ::
      log[i].term in termLog && log[..i + 1] <= termLog[log[i].term]
  }

  ghost predicate LeaderLog(s: Cluster, e: Election) {
    && e.term in s.termLog
    && e.log <= s.termLog[e.term]
    && (forall i | 0 <= i < |e.log| :: e.log[i].term < e.term)
    && (forall i | |e.log| <= i < |s.termLog[e.term]| :: s.termLog[e.term][i].term == e.term)
  }

  /** An append carries the whole suffix of the log its sender held, or nothing acceptable. */
  ghost predicate Snapshot(termLog: map<nat, Log>, req: AppendRequest, sentLog: Log) {
    && req.term in termLog
    && sentLog <= termLog[req.term]
    && if req.prevLogIndex <= |sentLog|
       then && req.entries == sentLog[req.prevLogIndex..]
            && (req.prevLogIndex > 0 ==> req.prevLogTerm == sentLog[req.prevLogIndex - 1].term)
       else req.entries == [] && req.prevLogTerm == 0
  }

  ghost predicate NodesTraced(s: Cluster) {
    forall n | n in s.nodes :: Traced(s.termLog, s.nodes[n].log)
  }

  ghost predicate BallotsTraced(s: Cluster) {
    forall b | b in s.ballots :: Traced(s.termLog, b.log)
  }

  ghost predicate LeaderLogsTraced(s: Cluster) {
    forall t | t in s.termLog :: Traced(s.termLog, s.termLog[t])
  }

  ghost predicate LeaderLogs(s: Cluster) {
    && (forall e | e in s.elections :: LeaderLog(s, e))
    && (forall t | t in s.termLog :: exists e :: e in s.elections && e.term == t)
  }

  ghost predicate LeadersHold(s: Cluster) {
    forall n | n in s.nodes && s.nodes[n].role == Leader ::
      s.nodes[n].currentTerm in s.termLog && s.nodes[n].log == s.termLog[s.nodes[n].currentTerm]
  }

  ghost predicate Snapshots(s: Cluster) {
    forall p | p in s.net && p.AppendAsk? :: Snapshot(s.termLog, p.req, p.sentLog)
  }

  ghost predicate LogInv(s: Cluster) {
    NodesTraced(s) && BallotsTraced(s) && LeaderLogsTraced(s) && LeaderLogs(s) && LeadersHold(s) && Snapshots(s)
  }

  /** The leaders' logs only grow, in entries of their own term. */
  ghost predicate Grows(a: map<nat, Log>, b: map<nat, Log>) {
    forall t | t in a :: t in b && a[t] <= b[t]
  }

  lemma TracedGrows(a: map<nat, Log>, b: map<nat, Log>, log: Log)
    requires Grows(a, b) && Traced(a, log)
    ensures Traced(b, log)
  {
  }

  lemma PrefixTraced(termLog: map<nat, Log>, log: Log, prefix: Log)
    requires Traced(termLog, log) && prefix <= log
    ensures Traced(termLog, prefix)
  {
    forall i | 0 <= i < |prefix| ensures prefix[i].term in termLog && prefix[..i + 1] <= termLog[prefix[i].term] {
      assert prefix[..i + 1] == log[..i + 1];
    }
  }

  /** Two traced logs with equal terms at a position are equal up to that position. */
  lemma TracedAgree(termLog: map<nat, Log>, a: Log, b: Log, i: nat)
    requires Traced(termLog, a) && Traced(termLog, b)
    requires i < |a| && i < |b| && a[i].term == b[i].term
    ensures a[..i + 1] == b[..i + 1]
  {
  }

  /** A winner's term is new, so no log mentions it yet. */
  lemma FreshTerm(s: Cluster, step: Step, s': Cluster)
    requires Wins(s, step) && WonElection(s, step) in s'.elections && s.elections <= s'.elections
    requires ElectionsWon(s) && LeaderLogs(s) && OneLeaderPerTerm(s')
    ensures s.nodes[step.n].currentTerm !in s.termLog
  {
    if e :| e in s.elections && e.term == s.nodes[step.n].currentTerm {
      assert ElectionWon(s, e);
      assert e == WonElection(s, step);
    }
  }

  /** Whoever extends or founds a leader's log is the only leader of its term. */
  lemma SoleLeader(fix: Fixes, s: Cluster, step: Step, s': Cluster, m: NodeId)
    requires LogEffect(fix, s, step, s') && LeadersElected(s) && OneLeaderPerTerm(s')
    requires step.Propose? || Wins(s, step)
    requires m in s.nodes && s.nodes[m].role == Leader && s.nodes[m].currentTerm == s.nodes[step.n].currentTerm
    ensures m == step.n
  {
    assert Elected(s, m, s.nodes[m].currentTerm);
    if step.Propose? {
      assert Elected(s, step.n, s.nodes[step.n].currentTerm);
    }
  }

  lemma GrowsStep(fix: Fixes, s: Cluster, step: Step, s': Cluster)
    requires LogEffect(fix, s, step, s') && LeadersHold(s)
    requires Wins(s, step) ==> s.nodes[step.n].currentTerm !in s.termLog
    ensures Grows(s.termLog, s'.termLog)
  {
  }

  /** The agreement check of an append: what precedes the entries is the sender's log. */
  lemma PrevAgrees(termLog: map<nat, Log>, log: Log, req: AppendRequest, sentLog: Log)
    requires Traced(termLog, log) && Traced(termLog, sentLog) && Snapshot(termLog, req, sentLog)
    requires forall i | 0 <= i < |log| :: log[i].term >= 1
    requires PrevMatches(log, req.prevLogIndex, req.prevLogTerm)
    ensures req.prevLogIndex <= |log| && req.prevLogIndex <= |sentLog|
    ensures log[..req.prevLogIndex] == sentLog[..req.prevLogIndex]
  {
    if req.prevLogIndex > 0 {
      TracedAgree(termLog, log, sentLog, req.prevLogIndex - 1);
    }
  }

  /** What an accepted append does to a log: the log its sender held becomes a prefix. */
  lemma AcceptedAppend(fix: Fixes, termLog: map<nat, Log>, log: Log, req: AppendRequest, sentLog: Log)
    requires Traced(termLog, log) && Traced(termLog, sentLog) && Snapshot(termLog, req, sentLog)
    requires forall i | 0 <= i < |log| :: log[i].term >= 1
    requires PrevMatches(log, req.prevLogIndex, req.prevLogTerm)
    ensures req.prevLogIndex <= |log| && req.prevLogIndex <= |sentLog|
    ensures req.prevLogIndex + |req.entries| == |sentLog|
    ensures HoldsEntries(log, req.prevLogIndex, req.entries) <==> sentLog <= log
    ensures var log' := Appended(fix, log, req.prevLogIndex, req.entries);
            sentLog <= log' && (log' == log || log' == sentLog)
  {
    PrevAgrees(termLog, log, req, sentLog);
    var prev := req.prevLogIndex;
    assert sentLog == sentLog[..prev] + req.entries == log[..prev] + req.entries;
    if HoldsEntries(log, prev, req.entries) {
      assert log[..|sentLog|] == log[..prev] + log[prev..|sentLog|];
    }
    if sentLog <= log {
      assert log[prev..|sentLog|] == sentLog[prev..];
    }
  }

  lemma SentLogTraced(s: Cluster, to: NodeId, req: AppendRequest, sentLog: Log)
    requires LeaderLogsTraced(s) && Snapshots(s) && AppendAsk(to, req, sentLog) in s.net
    ensures Snapshot(s.termLog, req, sentLog) && Traced(s.termLog, sentLog)
  {
    var p := AppendAsk(to, req, sentLog);
    assert Snapshot(s.termLog, p.req, p.sentLog);
    PrefixTraced(s.termLog, s.termLog[req.term], sentLog);
  }

  /** A leader's log stays traced when the leader appends an entry of its term. */
  lemma ProposedTraced(termLog: map<nat, Log>, term: nat, log: Log, entry: Entry)
    requires Traced(termLog, log) && term in termLog && termLog[term] == log && entry.term == term
    ensures Traced(termLog[term := log + [entry]], log + [entry])
  {
    var log' := log + [entry];
    TracedGrows(termLog, termLog[term := log'], log);
    forall i | 0 <= i < |log'|
      ensures log'[i].term in termLog[term := log'] && log'[..i + 1] <= termLog[term := log'][log'[i].term]
    {
      if i < |log| { assert log'[..i + 1] == log[..i + 1]; }
    }
  }

  /** The log of the node that takes a step stays traced. */
  lemma SteppedTraced(fix: Fixes, s: Cluster, step: Step, s': Cluster)
    requires LogEffect(fix, s, step, s') && Grows(s.termLog, s'.termLog)
    requires ShapedNode(s.nodes[step.n]) && NodesTraced(s) && LeadersHold(s) && LeaderLogsTraced(s) && Snapshots(s)
    requires step.AnswerAppend? ==> AppendAsk(step.n, step.req, step.sentLog) in s.net
    ensures Traced(s'.termLog, s'.nodes[step.n].log)
  {
    var me := s.nodes[step.n];
    if step.Propose? {
      ProposedTraced(s.termLog, me.currentTerm, me.log, Entry(me.currentTerm, |me.log| + 1, step.command));
    } else {
      TracedGrows(s.termLog, s'.termLog, me.log);
      if step.AnswerAppend? && Accepts(me, step.req) {
        SentLogTraced(s, step.n, step.req, step.sentLog);
        AcceptedAppend(fix, s.termLog, me.log, step.req, step.sentLog);
      }
    }
  }

  lemma TracedStep(fix: Fixes, s: Cluster, step: Step, s': Cluster)
    requires LogEffect(fix, s, step, s') && Grows(s.termLog, s'.termLog)
    requires NodesTraced(s) && LeaderLogsTraced(s) && BallotsTraced(s)
    requires Traced(s'.termLog, s'.nodes[step.n].log)
    ensures NodesTraced(s') && LeaderLogsTraced(s') && BallotsTraced(s')
  {
    hide Traced, Grows, LogAfter;
    forall m | m in s'.nodes ensures Traced(s'.termLog, s'.nodes[m].log) {
      if m != step.n { TracedGrows(s.termLog, s'.termLog, s.nodes[m].log); }
    }
    forall t | t in s'.termLog ensures Traced(s'.termLog, s'.termLog[t]) {
      if t in s.termLog && s'.termLog[t] == s.termLog[t] { TracedGrows(s.termLog, s'.termLog, s.termLog[t]); }
    }
    forall b | b in s'.ballots ensures Traced(s'.termLog, b.log) {
      TracedGrows(s.termLog, s'.termLog, b.log);
    }
  }

  lemma LeaderLogKept(fix: Fixes, s: Cluster, step: Step, s': Cluster, e: Election)
    requires LogEffect(fix, s, step, s') && e in s.elections && LeaderLog(s, e) && LeadersHold(s)
    requires Wins(s, step) ==> s.nodes[step.n].currentTerm !in s.termLog
    ensures LeaderLog(s', e)
  {
  }

  lemma LeaderLogFounded(fix: Fixes, s: Cluster, step: Step, s': Cluster)
    requires LogEffect(fix, s, step, s') && Wins(s, step)
    requires ShapedNode(s.nodes[step.n]) && NodesTraced(s)
    requires s.nodes[step.n].currentTerm !in s.termLog
    ensures LeaderLog(s', WonElection(s, step))
  {
    assert Traced(s.termLog, s.nodes[step.n].log);
  }

  lemma LeaderLogsStep(fix: Fixes, s: Cluster, step: Step, s': Cluster)
    requires LogEffect(fix, s, step, s')
    requires ShapedNode(s.nodes[step.n]) && NodesTraced(s) && LeadersHold(s) && LeaderLogs(s)
    requires Wins(s, step) ==> s.nodes[step.n].currentTerm !in s.termLog
    ensures LeaderLogs(s')
  {
    if Wins(s, step) { LeaderLogFounded(fix, s, step, s'); }
    forall e | e in s'.elections ensures LeaderLog(s', e) {
      if e in s.elections { LeaderLogKept(fix, s, step, s', e); }
    }
    forall t | t in s'.termLog ensures exists e :: e in s'.elections && e.term == t {
      if t in s.termLog {
        var e :| e in s.elections && e.term == t;
        assert e in s'.elections;
      } else {
        assert WonElection(s, step) in s'.elections;
      }
    }
  }

  lemma LeadersHoldStep(fix: Fixes, s: Cluster, step: Step, s': Cluster)
    requires LogEffect(fix, s, step, s') && LeadersElected(s) && LeadersHold(s) && OneLeaderPerTerm(s')
    ensures LeadersHold(s')
  {
    forall m | m in s'.nodes && s'.nodes[m].role == Leader
      ensures s'.nodes[m].currentTerm in s'.termLog && s'.nodes[m].log == s'.termLog[s'.nodes[m].currentTerm]
    {
      if m != step.n && (step.Propose? || Wins(s, step)) && s.nodes[m].currentTerm == s.nodes[step.n].currentTerm {
        SoleLeader(fix, s, step, s', m);
      }
    }
  }

  lemma SnapshotSent(me: State, n: NodeId, peer: NodeId, termLog: map<nat, Log>)
    requires me.currentTerm in termLog && termLog[me.currentTerm] == me.log
    ensures Snapshot(termLog, RequestFor(me, n, peer), me.log)
  {
  }

  lemma SnapshotsStep(fix: Fixes, s: Cluster, step: Step, s': Cluster)
    requires LogEffect(fix, s, step, s') && Grows(s.termLog, s'.termLog) && Snapshots(s) && LeadersHold(s')
    ensures Snapshots(s')
  {
    forall p | p in s'.net && p.AppendAsk? ensures Snapshot(s'.termLog, p.req, p.sentLog) {
      if p in s.net {
        assert Snapshot(s.termLog, p.req, p.sentLog);
      } else {
        SnapshotSent(s'.nodes[step.n], step.n, p.to, s'.termLog);
      }
    }
  }

  lemma LogInvStep(fix: Fixes, s: Cluster, step: Step)
    requires Enabled(s, step) && ElectionInv(s) && ShapeInv(s) && LogInv(s)
    requires OneLeaderPerTerm(Do(fix, s, step))
    ensures LogInv(Do(fix, s, step)) && Grows(s.termLog, Do(fix, s, step).termLog)
  {
    var s' := Do(fix, s, step);
    LogEffectOf(fix, s, step);
    if Wins(s, step) { FreshTerm(s, step, s'); }
    GrowsStep(fix, s, step, s');
    SteppedTraced(fix, s, step, s');
    TracedStep(fix, s, step, s');
    LeaderLogsStep(fix, s, step, s');
    LeadersHoldStep(fix, s, step, s');
    SnapshotsStep(fix, s, step, s');
  }

  lemma {:induction false} LogInvAlways(fix: Fixes, ids: set<NodeId>, steps: seq<Step>)
    requires After(fix, ids, steps).Some? && OneLeaderPerTerm(After(fix, ids, steps).value)
    ensures LogInv(After(fix, ids, steps).value)
  {
    if steps != [] {
      var before, last := steps[..|steps| - 1], steps[|steps| - 1];
      var s := After(fix, ids, before).value;
      LogInvAlways(fix, ids, before);
      ElectionInvAlways(fix, ids, before);
      ShapeAlways(fix, ids, before);
      LogInvStep(fix, s, last);
    }
  }

  // ----- Log Matching -----

  /** Log Matching, for the handlers as written or repaired, in every run with at most one leader
      per term: two logs that agree on the term at an index are identical up to that index. */
  lemma LogMatching(fix: Fixes, ids: set<NodeId>, steps: seq<Step>)
    requires After(fix, ids, steps).Some? && OneLeaderPerTerm(After(fix, ids, steps).value)
    ensures var s := After(fix, ids, steps).value;
            forall m, n, i | m in s.nodes && n in s.nodes
                             && 0 <= i < |s.nodes[m].log| && i < |s.nodes[n].log|
                             && s.nodes[m].log[i].term == s.nodes[n].log[i].term ::
              s.nodes[m].log[..i + 1] == s.nodes[n].log[..i + 1]
  {
    LogInvAlways(fix, ids, steps);
    var s := After(fix, ids, steps).value;
    forall m, n, i | m in s.nodes && n in s.nodes
                     && 0 <= i < |s.nodes[m].log| && i < |s.nodes[n].log|
                     && s.nodes[m].log[i].term == s.nodes[n].log[i].term
      ensures s.nodes[m].log[..i + 1] == s.nodes[n].log[..i + 1]
    {
      TracedAgree(s.termLog, s.nodes[m].log, s.nodes[n].log, i);
    }
  }
}
