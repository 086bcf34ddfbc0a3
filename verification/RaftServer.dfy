/** `RaftConsensus` of src/consensus/raft.py as an object that updates its fields in place.
    Each method is proved to make of the state exactly what the handler functions of `RaftNode`
    say, for the code as written. `applied` records the calls of the commit callbacks. */
module RaftServer {
  import opened Options
  import opened Commands
  import opened Sequences
  import opened Proposals
  import Node = RaftNode

  type NodeId = Node.NodeId

  /** How many of the first `k` peers satisfy the marks: what a counting loop over peers computes. */
  lemma CountOneMore(peers: seq<NodeId>, k: nat, marked: set<NodeId>)
    requires Distinct(peers) && k < |peers|
    ensures var before, after := Members(peers[..k]) * marked, Members(peers[..k + 1]) * marked;
            |after| == |before| + if peers[k] in marked then 1 else 0
  {
    hide Members, Distinct;
    var before, after := Members(peers[..k]) * marked, Members(peers[..k + 1]) * marked;
    assert Members(peers[..k + 1]) == Members(peers[..k]) + {peers[k]} by { MembersNext(peers, k); }
    NewMember(peers, k);
    assert after == if peers[k] in marked then before + {peers[k]} else before;
  }

  lemma MembersNone(peers: seq<NodeId>)
    ensures Members(peers[..0]) == {}
  {
  }

  lemma MemberAt(peers: seq<NodeId>, k: nat)
    requires k < |peers|
    ensures peers[k] in Members(peers)
  {
  }

  lemma MembersNext(peers: seq<NodeId>, k: nat)
    requires k < |peers|
    ensures Members(peers[..k + 1]) == Members(peers[..k]) + {peers[k]}
  {
    MembersSnoc(peers[..k], peers[k]);
    assert peers[..k + 1] == peers[..k] + [peers[k]];
  }

  lemma MembersSize(peers: seq<NodeId>, k: nat)
    requires Distinct(peers) && k <= |peers|
    ensures |Members(peers[..k])| == k
  {
    hide Members, Distinct;
    if k == 0 {
      MembersNone(peers);
    } else {
      MembersSize(peers, k - 1);
      MembersNext(peers, k - 1);
      NewMember(peers, k - 1);
    }
  }

  lemma NewMember(peers: seq<NodeId>, k: nat)
    requires Distinct(peers) && k < |peers|
    ensures peers[k] !in Members(peers[..k])
  {
  }

  /** Applying in two instalments is applying once. */
  lemma ApplyTwice(s: Node.State, b: nat, c: nat)
    requires s.commitIndex <= b <= c <= |s.log|
    ensures Node.Apply(Node.Apply(s.(commitIndex := b)).(commitIndex := c)) == Node.Apply(s.(commitIndex := c))
  {
    if s.lastApplied < b < c {
      assert s.log[s.lastApplied..b] + s.log[b..c] == s.log[s.lastApplied..c];
      assert s.applied + s.log[s.lastApplied..b] + s.log[b..c] == s.applied + s.log[s.lastApplied..c];
    }
  }

  ghost function Overwritten<V>(m: map<NodeId, V>, keys: set<NodeId>, v: V): map<NodeId, V> {
    m + map p | p in keys :: v
  }

  lemma LeaderIs(s: Node.State, me: NodeId, peers: set<NodeId>)
    ensures Node.BecomeLeader(s, me, peers)
         == s.(role := Node.Leader, leaderId := Some(me),
               nextIndex := Overwritten<Node.Position>(s.nextIndex, peers, |s.log| + 1),
               matchIndex := Overwritten<nat>(s.matchIndex, peers, 0))
  {
  }

  ghost predicate OverwrittenTo<V>(m: map<NodeId, V>, n: map<NodeId, V>, keys: set<NodeId>, v: V) {
    && n.Keys == m.Keys + keys
    && (forall p | p in keys :: n[p] == v)
    && (forall p | p in m && p !in keys :: n[p] == m[p])
  }

  lemma ReplicatedSame(s: Node.State, t: Node.State, peers: set<NodeId>, n: nat)
    requires s.log == t.log && s.currentTerm == t.currentTerm && s.matchIndex == t.matchIndex && 1 <= n <= |s.log|
    ensures Node.Replicated(s, peers, n) == Node.Replicated(t, peers, n)
  {
    assert (set p | p in peers && Node.MatchOf(s, p) >= n) == set p | p in peers && Node.MatchOf(t, p) >= n;
  }

  /** The state of `_apply_committed` once `last_applied` has reached `k`. */
  ghost function AppliedUpTo(s: Node.State, k: nat): Node.State {
    if s.lastApplied < k <= |s.log|
    then s.(lastApplied := k, applied := s.applied + s.log[s.lastApplied..k])
    else s
  }

  lemma UpToNext(s: Node.State, k: nat)
    requires s.lastApplied <= k < |s.log|
    ensures var t := AppliedUpTo(s, k);
            AppliedUpTo(s, k + 1) == t.(lastApplied := k + 1, applied := t.applied + [s.log[k]])
  {
    if s.lastApplied < k {
      assert s.log[s.lastApplied..k + 1] == s.log[s.lastApplied..k] + [s.log[k]];
    }
  }

  lemma NoneApplied(r: Requests, applied: Node.Log)
    requires Sound(r)
    ensures AnsweredAll(r, NewlyApplied(applied, applied)) == r
  {
  }

  lemma OneMoreApplied(r: Requests, before: Node.Log, between: Node.Log, entry: Node.Entry)
    requires Sound(r) && before <= between
    ensures AnsweredAll(r, NewlyApplied(before, between + [entry]))
         == Answered(AnsweredAll(r, NewlyApplied(before, between)), entry.index)
  {
    var entries := NewlyApplied(before, between) + [entry];
    assert entries == NewlyApplied(before, between + [entry]);
    assert entries[..|entries| - 1] == NewlyApplied(before, between);
  }

  lemma TallyIs(s: Node.State, me: NodeId, peers: set<NodeId>, grants: nat)
    ensures var t := Node.Tally(s, me, peers, grants);
            && (t.role == Node.Leader <==>
                  s.role == Node.Leader || (s.role == Node.Candidate && 2 * (1 + grants) > 1 + |peers|))
            && t == (if s.role == Node.Candidate && 1 + grants >= (|peers| + 1) / 2 + 1
                     then Node.BecomeLeader(s.(election := None), me, peers) else s.(election := None))
  {
    Node.QuorumIsMajority(peers, 1 + grants);
  }

  /** Advancing the commit index touches nothing but the commit index and what is applied. */
  lemma AdvanceFields(s: Node.State, peers: set<NodeId>)
    ensures var t := Node.Advance(s, peers);
            t == s.(commitIndex := t.commitIndex, lastApplied := t.lastApplied, applied := t.applied)
  {
  }

  class RaftServer {
    const me: NodeId
    const peers: seq<NodeId>
    var currentTerm: nat
    var votedFor: Option<NodeId>
    var log: Node.Log
    var role: Node.Role
    var leaderId: Option<NodeId>
    var commitIndex: nat
    var lastApplied: nat
    var nextIndex: map<NodeId, Node.Position>
    var matchIndex: map<NodeId, nat>
    var election: Option<Node.VoteRequest>
    var applied: Node.Log
    const requests: PendingRequests

    ghost function Snapshot(): Node.State
      reads this
    {
      Node.State(currentTerm, votedFor, log, role, leaderId, commitIndex, lastApplied,
                 nextIndex, matchIndex, election, applied)
    }

    constructor (me: NodeId, peers: seq<NodeId>)
      ensures this.me == me && this.peers == peers && Snapshot() == Node.FRESH
      ensures fresh(requests) && requests.Valid() && requests.View() == NO_REQUESTS
    {
      requests := new PendingRequests();
      this.me, this.peers := me, peers;
      currentTerm, votedFor, log, role, leaderId := 0, None, [], Node.Follower, None;
      commitIndex, lastApplied, nextIndex, matchIndex, election, applied := 0, 0, map[], map[], None, [];
    }

    // ----- Elections -----

    method StepDown(term: nat)
      modifies this
      ensures Snapshot() == Node.StepDown(old(Snapshot()), term)
    {
      if term > currentTerm {
        currentTerm := term;
        role := Node.Follower;
        votedFor := None;
        leaderId := None;
      }
    }

    method StartElection() returns (ask: Node.VoteRequest)
      modifies this
      ensures Snapshot() == Node.StartElection(old(Snapshot()), me) && election == Some(ask)
      ensures currentTerm == old(currentTerm) + 1 && role == Node.Candidate && votedFor == Some(me) && leaderId == None
      ensures ask == Node.VoteRequest(me, currentTerm, |log|, if log == [] then 0 else log[|log| - 1].term)
    {
      currentTerm := currentTerm + 1;
      role := Node.Candidate;
      votedFor := Some(me);
      leaderId := None;
      var lastLogTerm := 0;
      if |log| > 0 { lastLogTerm := log[|log| - 1].term; }
      ask := Node.VoteRequest(me, currentTerm, |log|, lastLogTerm);
      election := Some(ask);
    }

    /** The peers whose response to the broadcast grants the vote. */
    ghost function GrantedBy(responses: map<NodeId, Option<Node.VoteReply>>): set<NodeId> {
      set p | p in responses && responses[p].Some? && responses[p].value.granted
    }

    method CountVotes(responses: map<NodeId, Option<Node.VoteReply>>)
      requires Distinct(peers)
      modifies this
      ensures Snapshot() == Node.Tally(old(Snapshot()), me, Members(peers), |Members(peers) * GrantedBy(responses)|)
      ensures role == Node.Leader <==>
                old(role) == Node.Leader
                || (old(role) == Node.Candidate && 2 * (1 + |Members(peers) * GrantedBy(responses)|) > 1 + |peers|)
    {
      hide Members, Distinct, Node.BecomeLeader, Node.Tally;
      TallyIs(Snapshot(), me, Members(peers), |Members(peers) * GrantedBy(responses)|);
      var votes := VotesIn(responses);
      election := None;
      if role == Node.Candidate && votes >= (|peers| + 1) / 2 + 1 {
        BecomeLeader();
      }
    }

    /** The node's own vote and those that the responses grant. */
    method VotesIn(responses: map<NodeId, Option<Node.VoteReply>>) returns (votes: nat)
      requires Distinct(peers)
      ensures votes == 1 + |Members(peers) * GrantedBy(responses)| && |Members(peers)| == |peers|
    {
      hide Members, Distinct;
      MembersNone(peers);
      votes := 1;
      for i := 0 to |peers|
        invariant votes == 1 + |Members(peers[..i]) * GrantedBy(responses)|
      {
        CountOneMore(peers, i, GrantedBy(responses));
        if peers[i] in responses && responses[peers[i]].Some? && responses[peers[i]].value.granted {
          votes := votes + 1;
        }
      }
      assert peers[..|peers|] == peers;
      MembersSize(peers, |peers|);
    }

    method BecomeLeader()
      modifies this
      ensures Snapshot() == Node.BecomeLeader(old(Snapshot()), me, Members(peers))
    {
      hide Node.BecomeLeader, Overwritten, Members;
      LeaderIs(Snapshot(), me, Members(peers));
      role := Node.Leader;
      leaderId := Some(me);
      ResetProgress(|log| + 1);
    }

    method ResetProgress(next: Node.Position)
      modifies this`nextIndex, this`matchIndex
      ensures nextIndex == Overwritten<Node.Position>(old(nextIndex), Members(peers), next)
      ensures matchIndex == Overwritten<nat>(old(matchIndex), Members(peers), 0)
    {
      for i := 0 to |peers|
        invariant OverwrittenTo(old(nextIndex), nextIndex, Members(peers[..i]), next)
        invariant OverwrittenTo(old(matchIndex), matchIndex, Members(peers[..i]), 0)
      {
        MembersNext(peers, i);
        nextIndex := nextIndex[peers[i] := next];
        matchIndex := matchIndex[peers[i] := 0];
      }
      assert peers[..|peers|] == peers;
    }

    method HandleVoteRequest(ask: Node.VoteRequest) returns (vote: Node.VoteReply)
      modifies this
      ensures (Snapshot(), vote) == Node.OnVoteRequest(old(Snapshot()), me, ask)
      ensures currentTerm == (if ask.term > old(currentTerm) then ask.term else old(currentTerm)) == vote.term
      ensures vote.granted <==>
                && ask.term == currentTerm
                && (ask.term > old(currentTerm) || old(votedFor) == None || old(votedFor) == Some(ask.sender))
                && var lastTerm := if log == [] then 0 else log[|log| - 1].term;
                   ask.lastLogTerm > lastTerm || (ask.lastLogTerm == lastTerm && ask.lastLogIndex >= |log|)
      ensures votedFor == if vote.granted then Some(ask.sender)
                          else if ask.term > old(currentTerm) then None else old(votedFor)
    {
      StepDown(ask.term);
      var grant := false;
      if ask.term >= currentTerm {
        if votedFor == None || votedFor == Some(ask.sender) {
          var lastTerm := 0;
          if |log| > 0 { lastTerm := log[|log| - 1].term; }
          if ask.lastLogTerm > lastTerm || (ask.lastLogTerm == lastTerm && ask.lastLogIndex >= |log|) {
            grant := true;
            votedFor := Some(ask.sender);
            currentTerm := ask.term;
          }
        }
      }
      vote := Node.VoteReply(currentTerm, grant, me);
    }

    // ----- Replication, leader side -----

    /** A node that is not leader refuses; a leader appends the entry, waits for an answer under the
        entry's index, and ships its log. */
    method Propose(command: Command)
      returns (accepted: bool, future: nat, sent: map<NodeId, Node.AppendRequest>)
      requires requests.Valid()
      modifies this, requests
      ensures accepted == (old(role) == Node.Leader)
      ensures log == if accepted then old(log) + [Node.Entry(currentTerm, |old(log)| + 1, command)] else old(log)
      ensures Snapshot() == if accepted then Node.Proposed(old(Snapshot()), command) else old(Snapshot())
      ensures requests.Valid() && (accepted ==> future == |old(requests.outcomes)|)
      ensures requests.View() == if accepted then Registered(old(requests.View()), |log|) else old(requests.View())
      ensures sent.Keys == if accepted then Members(peers) else {}
      ensures forall p | p in sent :: sent[p] == Node.RequestFor(Snapshot(), me, p)
    {
      if role != Node.Leader { return false, 0, map[]; }
      log := log + [Node.Entry(currentTerm, |log| + 1, command)];
      future := requests.Register(|log|);
      sent := ReplicateEntries();
      accepted := true;
    }

    method RequestFor(peer: NodeId) returns (req: Node.AppendRequest)
      ensures req == Node.RequestFor(Snapshot(), me, peer)
    {
      var next: nat := if peer in nextIndex then nextIndex[peer] else 1;
      assert next == Node.NextOf(Snapshot(), peer) && Snapshot().log == log;
      var entries := if next <= |log| then log[next - 1..] else [];
      var prev := next - 1;
      var prevTerm := if 0 < prev <= |log| then log[prev - 1].term else 0;
      req := Node.AppendRequest(me, currentTerm, prev, prevTerm, entries, commitIndex);
    }

    method ReplicateEntries() returns (sent: map<NodeId, Node.AppendRequest>)
      ensures sent.Keys == if role == Node.Leader then Members(peers) else {}
      ensures forall p | p in sent :: sent[p] == Node.RequestFor(Snapshot(), me, p)
    {
      hide Node.RequestFor, Members;
      sent := map[];
      MembersNone(peers);
      if role != Node.Leader { return; }
      for i := 0 to |peers|
        invariant sent.Keys == Members(peers[..i])
        invariant forall p | p in sent :: sent[p] == Node.RequestFor(Snapshot(), me, p)
      {
        MembersNext(peers, i);
        var req := RequestFor(peers[i]);
        sent := sent[peers[i] := req];
      }
      assert peers[..|peers|] == peers;
    }

    method ProcessAppendReply(peer: NodeId, req: Node.AppendRequest, answer: Node.AppendReply)
      requires Distinct(peers) && requests.Valid()
      modifies this, requests
      ensures Snapshot() == Node.OnAppendReply(Node.AS_WRITTEN, old(Snapshot()), Members(peers), peer, req, answer)
      ensures answer.term > old(currentTerm) ==>
                Snapshot() == old(Snapshot()).(currentTerm := answer.term, role := Node.Follower, votedFor := None)
      ensures answer.term <= old(currentTerm) && !answer.success ==>
                var next: nat := if peer in old(nextIndex) then old(nextIndex)[peer] else 1;
                Snapshot() == old(Snapshot()).(nextIndex := old(nextIndex)[peer := if next > 1 then next - 1 else 1])
      ensures answer.term <= old(currentTerm) && answer.success ==>
                && nextIndex == (if req.entries == [] then old(nextIndex)
                                 else old(nextIndex)[peer := req.prevLogIndex + |req.entries| + 1])
                && matchIndex == (if req.entries == [] then old(matchIndex)
                                  else old(matchIndex)[peer := req.prevLogIndex + |req.entries|])
                && log == old(log) && role == old(role) && currentTerm == old(currentTerm) && votedFor == old(votedFor)
      ensures requests.Valid()
      ensures requests.View() == AnsweredAll(old(requests.View()), NewlyApplied(old(applied), applied))
    {
      hide AnsweredAll, NewlyApplied, Node.Advance;
      NoneApplied(requests.View(), applied);
      if answer.term > currentTerm {
        currentTerm := answer.term;
        role := Node.Follower;
        votedFor := None;
        return;
      }
      if answer.success {
        if |req.entries| > 0 {
          nextIndex := nextIndex[peer := req.prevLogIndex + |req.entries| + 1];
          matchIndex := matchIndex[peer := req.prevLogIndex + |req.entries|];
        }
        AdvanceFields(Snapshot(), Members(peers));
        TryAdvanceCommit();
      } else {
        var next: nat := if peer in nextIndex then nextIndex[peer] else 1;
        nextIndex := nextIndex[peer := if next - 1 >= 1 then next - 1 else 1];
      }
    }

    /** The state after the scan has looked at every position up to `k`. */
    ghost function Scanned(s: Node.State, k: nat): Node.State
      requires k <= |s.log|
    {
      var c := Node.TopCommit(s, Members(peers), k);
      if c > s.commitIndex then Node.Apply(s.(commitIndex := c)) else s
    }

    method TryAdvanceCommit()
      requires Distinct(peers) && requests.Valid()
      modifies this, requests
      ensures Snapshot() == Node.Advance(old(Snapshot()), Members(peers))
      ensures requests.Valid()
      ensures requests.View() == AnsweredAll(old(requests.View()), NewlyApplied(old(applied), applied))
    {
      hide AnsweredAll, NewlyApplied;
      NoneApplied(requests.View(), applied);
      if role != Node.Leader { return; }
      ghost var s := Snapshot();
      if commitIndex > |log| {
        return;
      }
      var n := commitIndex + 1;
      while n <= |log|
        invariant s.commitIndex < n <= |log| + 1
        invariant log == s.log && Snapshot() == Scanned(s, n - 1)
        invariant requests.Valid() && old(applied) <= applied
        invariant requests.View() == AnsweredAll(old(requests.View()), NewlyApplied(old(applied), applied))
        decreases |log| + 1 - n
      {
        ghost var between := applied;
        ConsiderCommit(s, n);
        AppliedInTurn(old(requests.View()), old(applied), between, applied);
        n := n + 1;
      }
    }

    /** One turn of the scan: position `n` is committed if its term is current and a majority holds it. */
    method ConsiderCommit(ghost s: Node.State, n: nat)
      requires Distinct(peers) && s.commitIndex < n <= |s.log| && log == s.log
      requires Snapshot() == Scanned(s, n - 1) && requests.Valid()
      modifies this, requests
      ensures Snapshot() == Scanned(s, n) && old(applied) <= applied
      ensures requests.Valid()
      ensures requests.View() == AnsweredAll(old(requests.View()), NewlyApplied(old(applied), applied))
    {
      hide AnsweredAll, NewlyApplied;
      NoneApplied(requests.View(), applied);
      ReplicatedSame(s, Snapshot(), Members(peers), n);
      if log[n - 1].term == currentTerm {
        var replicated := CountReplicas(n);
        if replicated >= (|peers| + 1) / 2 + 1 {
          ghost var b := Node.TopCommit(s, Members(peers), n - 1);
          ApplyTwice(s, b, n);
          commitIndex := n;
          ApplyCommitted();
        }
      }
    }

    /** This node and every peer known to hold the first `n` entries. */
    method CountReplicas(n: nat) returns (replicated: nat)
      requires Distinct(peers)
      ensures replicated == 1 + |set p | p in Members(peers) && Node.MatchOf(Snapshot(), p) >= n|
      ensures |Members(peers)| == |peers|
    {
      hide Members, Distinct;
      ghost var marked := set p | p in Members(peers) && Node.MatchOf(Snapshot(), p) >= n;
      MembersNone(peers);
      replicated := 1;
      for i := 0 to |peers|
        invariant replicated == 1 + |Members(peers[..i]) * marked|
      {
        CountOneMore(peers, i, marked);
        MemberAt(peers, i);
        if (if peers[i] in matchIndex then matchIndex[peers[i]] else 0) >= n {
          replicated := replicated + 1;
        }
      }
      assert peers[..|peers|] == peers;
      assert Members(peers) * marked == marked;
      MembersSize(peers, |peers|);
    }

    method ApplyCommitted()
      requires lastApplied < commitIndex ==> commitIndex <= |log|
      requires requests.Valid()
      modifies this, requests
      ensures Snapshot() == Node.Apply(old(Snapshot())) && old(applied) <= applied
      ensures requests.Valid()
      ensures requests.View() == AnsweredAll(old(requests.View()), NewlyApplied(old(applied), applied))
    {
      hide AnsweredAll, NewlyApplied, Answered;
      ghost var s := Snapshot();
      NoneApplied(requests.View(), applied);
      while lastApplied < commitIndex
        invariant s.lastApplied <= lastApplied && (lastApplied <= commitIndex || lastApplied == s.lastApplied)
        invariant commitIndex == s.commitIndex && log == s.log
        invariant lastApplied <= |log| || lastApplied == s.lastApplied
        invariant Snapshot() == AppliedUpTo(s, lastApplied) && s.applied <= applied
        invariant requests.Valid()
        invariant requests.View() == AnsweredAll(old(requests.View()), NewlyApplied(s.applied, applied))
        decreases commitIndex - lastApplied
      {
        OneMoreApplied(old(requests.View()), s.applied, applied, log[lastApplied]);
        UpToNext(s, lastApplied);
        ApplyNext();
      }
    }

    /** One turn of the loop: the entry goes to the callbacks, and whoever waits for it is answered. */
    method ApplyNext()
      requires lastApplied < |log| && requests.Valid()
      modifies this`lastApplied, this`applied, requests
      ensures lastApplied == old(lastApplied) + 1 && applied == old(applied) + [log[old(lastApplied)]]
      ensures requests.Valid() && requests.View() == Answered(old(requests.View()), log[old(lastApplied)].index)
    {
      lastApplied := lastApplied + 1;
      var entry := log[lastApplied - 1];
      applied := applied + [entry];
      requests.Answer(entry.index);
    }

    // ----- Replication, follower side -----

    method ReplaceTail(prev: nat, entries: Node.Log)
      requires prev <= |log|
      modifies this`log
      ensures log == old(log)[..prev] + entries
    {
      log := log[..prev];
      for i := 0 to |entries|
        invariant log == old(log)[..prev] + entries[..i]
      {
        log := log + [entries[i]];
      }
      assert entries[..|entries|] == entries;
    }

    method HoldsPrevious(req: Node.AppendRequest) returns (success: bool)
      ensures success <==>
                req.prevLogIndex == 0
                || (req.prevLogIndex <= |log| && log[req.prevLogIndex - 1].term == req.prevLogTerm)
    {
      success := false;
      if req.prevLogIndex == 0 {
        success := true;
      } else if req.prevLogIndex <= |log| && log[req.prevLogIndex - 1].term == req.prevLogTerm {
        success := true;
      }
    }

    method Learn(leaderCommit: nat)
      requires requests.Valid()
      modifies this, requests
      ensures Snapshot() == Node.Learn(old(Snapshot()), leaderCommit)
      ensures requests.Valid()
      ensures requests.View() == AnsweredAll(old(requests.View()), NewlyApplied(old(applied), applied))
    {
      hide AnsweredAll, NewlyApplied;
      NoneApplied(requests.View(), applied);
      if leaderCommit > commitIndex {
        commitIndex := if leaderCommit <= |log| then leaderCommit else |log|;
        ApplyCommitted();
      }
    }

    method HandleAppendEntries(req: Node.AppendRequest) returns (reply: Node.AppendReply)
      requires requests.Valid()
      modifies this, requests
      ensures (Snapshot(), reply) == Node.OnAppend(Node.AS_WRITTEN, old(Snapshot()), me, req)
      ensures requests.Valid()
      ensures requests.View() == AnsweredAll(old(requests.View()), NewlyApplied(old(applied), applied))
    {
      hide AnsweredAll, NewlyApplied, Sound;
      NoneApplied(requests.View(), applied);
      StepDown(req.term);
      var success := false;
      if req.term >= currentTerm {
        currentTerm := req.term;
        role := Node.Follower;
        leaderId := Some(req.sender);
        votedFor := None;
        success := HoldsPrevious(req);
        if success {
          if |req.entries| > 0 {
            ReplaceTail(req.prevLogIndex, req.entries);
          }
          Learn(req.leaderCommit);
        }
      }
      reply := Node.AppendReply(currentTerm, success, me);
    }
  }
}
