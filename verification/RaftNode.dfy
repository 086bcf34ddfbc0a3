/** One Raft node as a value, and what each handler of src/consensus/raft.py makes of it.
    Every function below is one run of a handler between two suspension points. */
module RaftNode {
  import opened Options
  import opened Commands

  type NodeId = nat
  type Position = n: nat | 1 <= n witness 1

  datatype Role = Follower | Candidate | Leader

  datatype Entry = Entry(term: nat, index: nat, command: Command)
  type Log = seq<Entry>

  datatype VoteRequest = VoteRequest(sender: NodeId, term: nat, lastLogIndex: nat, lastLogTerm: nat)
  datatype VoteReply = VoteReply(term: nat, granted: bool, voter: NodeId)
  datatype AppendRequest = AppendRequest(sender: NodeId, term: nat, prevLogIndex: nat, prevLogTerm: nat,
                                         entries: Log, leaderCommit: nat)
  datatype AppendReply = AppendReply(term: nat, success: bool, follower: NodeId)

  /** The three places where the code departs from the Raft paper, each with its repair.
      A (`keepVote`): an append of the current term does not clear the vote (drop line 265).
      B (`keepMatching`): an append whose entries the log already holds leaves the log alone.
      C (`checkLeadership`): a reply counts only for the leadership that sent the request. */
  datatype Fixes = Fixes(keepVote: bool, keepMatching: bool, checkLeadership: bool)

  const AS_WRITTEN := Fixes(false, false, false)
  const REPAIRED := Fixes(true, true, true)

  /** `election` is the request of the `_start_election` call that is still waiting for its
      broadcast, if any; `applied` is the sequence of entries handed to the commit callbacks. */
  datatype State = State(
    currentTerm: nat, votedFor: Option<NodeId>, log: Log, role: Role, leaderId: Option<NodeId>,
    commitIndex: nat, lastApplied: nat,
    nextIndex: map<NodeId, Position>, matchIndex: map<NodeId, nat>,
    election: Option<VoteRequest>, applied: Log)

  const FRESH := State(0, None, [], Follower, None, 0, 0, map[], map[], None, [])

  function LastTerm(log: Log): nat {
    if log == [] then 0 else log[|log| - 1].term
  }

  /** `quorum_size`, from the peers of a node (the cluster without the node itself). */
  function Quorum(peers: set<NodeId>): nat {
    (|peers| + 1) / 2 + 1
  }

  function NextOf(s: State, peer: NodeId): Position {
    if peer in s.nextIndex then s.nextIndex[peer] else 1
  }

  function MatchOf(s: State, peer: NodeId): nat {
    if peer in s.matchIndex then s.matchIndex[peer] else 0
  }

  // ----- Elections -----

  /** The head of `handle_message`: a higher term makes the node a follower of that term. */
  function StepDown(s: State, term: nat): State {
    if term > s.currentTerm
    then s.(currentTerm := term, role := Follower, votedFor := None, leaderId := None)
    else s
  }

  function StartElection(s: State, me: NodeId): State {
    var term := s.currentTerm + 1;
    s.(currentTerm := term, role := Candidate, votedFor := Some(me), leaderId := None,
       election := Some(VoteRequest(me, term, |s.log|, LastTerm(s.log))))
  }

  function BecomeLeader(s: State, me: NodeId, peers: set<NodeId>): State {
    s.(role := Leader, leaderId := Some(me),
       nextIndex := s.nextIndex + map p | p in peers :: |s.log| + 1,
       matchIndex := s.matchIndex + map p | p in peers :: 0)
  }

  predicate WinsTally(s: State, peers: set<NodeId>, grants: nat) {
    s.role == Candidate && 1 + grants >= Quorum(peers)
  }

  /** The end of `_start_election`, after the broadcast returned `grants` granted votes. */
  function Tally(s: State, me: NodeId, peers: set<NodeId>, grants: nat): State {
    var closed := s.(election := None);
    if WinsTally(s, peers, grants) then BecomeLeader(closed, me, peers) else closed
  }

  predicate UpToDate(lastLogTerm: nat, lastLogIndex: nat, log: Log) {
    lastLogTerm > LastTerm(log) || (lastLogTerm == LastTerm(log) && lastLogIndex >= |log|)
  }

  predicate Grants(s: State, ask: VoteRequest) {
    && ask.term >= s.currentTerm
    && (s.votedFor == None || s.votedFor == Some(ask.sender))
    && UpToDate(ask.lastLogTerm, ask.lastLogIndex, s.log)
  }

  /** `handle_message` on a vote request. */
  function OnVoteRequest(s0: State, me: NodeId, ask: VoteRequest): (State, VoteReply) {
    var s := StepDown(s0, ask.term);
    if Grants(s, ask)
    then (s.(votedFor := Some(ask.sender), currentTerm := ask.term), VoteReply(ask.term, true, me))
    else (s, VoteReply(s.currentTerm, false, me))
  }

  // ----- Replication, leader side -----

  function Proposed(s: State, command: Command): State {
    s.(log := s.log + [Entry(s.currentTerm, |s.log| + 1, command)])
  }

  /** The append that `_replicate_entries` builds for one peer: the whole suffix of the log. */
  function RequestFor(s: State, me: NodeId, peer: NodeId): AppendRequest {
    var next: nat := NextOf(s, peer);
    var prev: nat := next - 1;
    AppendRequest(me, s.currentTerm, prev,
                  if 0 < prev <= |s.log| then s.log[prev - 1].term else 0,
                  if next <= |s.log| then s.log[next - 1..] else [],
                  s.commitIndex)
  }

  predicate Replicated(s: State, peers: set<NodeId>, n: nat)
    requires 1 <= n <= |s.log|
  {
    && s.log[n - 1].term == s.currentTerm
    && 1 + |set p | p in peers && MatchOf(s, p) >= n| >= Quorum(peers)
  }

  /** The commit index that the scan of `_try_advance_commit` ends with. */
  function TopCommit(s: State, peers: set<NodeId>, hi: nat): (c: nat)
    requires hi <= |s.log|
    ensures c >= s.commitIndex
    ensures c > s.commitIndex ==> c <= hi && Replicated(s, peers, c)
    ensures forall n :: s.commitIndex < n <= hi && n > c ==> !Replicated(s, peers, n)
  {
    if hi <= s.commitIndex then s.commitIndex
    else if Replicated(s, peers, hi) then hi
    else TopCommit(s, peers, hi - 1)
  }

  /** `_apply_committed`: hand every entry up to the commit index to the callbacks, in order. */
  function Apply(s: State): State
    requires s.lastApplied < s.commitIndex ==> s.commitIndex <= |s.log|
  {
    if s.lastApplied < s.commitIndex
    then s.(lastApplied := s.commitIndex, applied := s.applied + s.log[s.lastApplied..s.commitIndex])
    else s
  }

  function Advance(s: State, peers: set<NodeId>): State {
    if s.role != Leader then s
    else
      var c := TopCommit(s, peers, |s.log|);
      if c > s.commitIndex then Apply(s.(commitIndex := c)) else s
  }

  /** `_process_ae_resp`. */
  function OnAppendReply(fix: Fixes, s: State, peers: set<NodeId>, peer: NodeId,
                         req: AppendRequest, answer: AppendReply): State {
    if answer.term > s.currentTerm then
      s.(currentTerm := answer.term, role := Follower, votedFor := None)
    else if fix.checkLeadership && !(s.role == Leader && s.currentTerm == req.term) then
      s
    else if answer.success then
      var top := req.prevLogIndex + |req.entries|;
      Advance(if req.entries == [] then s
              else s.(nextIndex := s.nextIndex[peer := top + 1], matchIndex := s.matchIndex[peer := top]),
              peers)
    else
      s.(nextIndex := s.nextIndex[peer := if NextOf(s, peer) - 1 >= 1 then NextOf(s, peer) - 1 else 1])
  }

  // ----- Replication, follower side -----

  predicate PrevMatches(log: Log, prev: nat, prevTerm: nat) {
    prev == 0 || (prev <= |log| && log[prev - 1].term == prevTerm)
  }

  predicate HoldsEntries(log: Log, prev: nat, entries: Log) {
    prev + |entries| <= |log| && log[prev..prev + |entries|] == entries
  }

  function Appended(fix: Fixes, log: Log, prev: nat, entries: Log): Log
    requires prev <= |log|
  {
    if entries == [] || (fix.keepMatching && HoldsEntries(log, prev, entries)) then log
    else log[..prev] + entries
  }

  function Min(a: nat, b: nat): nat { if a <= b then a else b }

  function Learn(s: State, leaderCommit: nat): State {
    if leaderCommit > s.commitIndex
    then Apply(s.(commitIndex := Min(leaderCommit, |s.log|)))
    else s
  }

  predicate Accepts(s: State, req: AppendRequest) {
    req.term >= s.currentTerm && PrevMatches(s.log, req.prevLogIndex, req.prevLogTerm)
  }

  /** `handle_message` on an append request. */
  function OnAppend(fix: Fixes, s0: State, me: NodeId, req: AppendRequest): (State, AppendReply) {
    var s := StepDown(s0, req.term);
    if req.term < s.currentTerm then (s, AppendReply(s.currentTerm, false, me))
    else
      var f := s.(currentTerm := req.term, role := Follower, leaderId := Some(req.sender),
                  votedFor := if fix.keepVote then s.votedFor else None);
      if Accepts(s, req)
      then (Learn(f.(log := Appended(fix, f.log, req.prevLogIndex, req.entries)), req.leaderCommit),
            AppendReply(req.term, true, me))
      else (f, AppendReply(req.term, false, me))
  }

  // ----- What each message handler leaves of a node -----

  lemma VoteOutcome(s: State, me: NodeId, ask: VoteRequest)
    ensures var (t, vote) := OnVoteRequest(s, me, ask);
            && t.log == s.log && t.applied == s.applied && t.lastApplied == s.lastApplied
            && t.commitIndex == s.commitIndex && t.election == s.election
            && t.currentTerm == (if ask.term > s.currentTerm then ask.term else s.currentTerm)
            && t.role == (if ask.term > s.currentTerm then Follower else s.role)
            && t.leaderId == (if ask.term > s.currentTerm then None else s.leaderId)
            && vote.voter == me && vote.term == t.currentTerm
            && (vote.granted <==>
                  && ask.term >= s.currentTerm && UpToDate(ask.lastLogTerm, ask.lastLogIndex, s.log)
                  && (ask.term > s.currentTerm || s.votedFor == None || s.votedFor == Some(ask.sender)))
            && (vote.granted ==> t.currentTerm == ask.term && t.votedFor == Some(ask.sender)
                                 && UpToDate(ask.lastLogTerm, ask.lastLogIndex, s.log)
                                 && ask.term >= s.currentTerm
                                 && (ask.term == s.currentTerm && s.votedFor.Some? ==> s.votedFor == t.votedFor))
            && (!vote.granted ==> t.votedFor == (if ask.term > s.currentTerm then None else s.votedFor))
  {
  }

  lemma AppendOutcome(fix: Fixes, s: State, me: NodeId, req: AppendRequest)
    ensures var (t, reply) := OnAppend(fix, s, me, req);
            && reply.success == Accepts(s, req) && reply.follower == me && reply.term == t.currentTerm
            && (s.lastApplied == |s.applied| ==> t.lastApplied == |t.applied|)
            && t.election == s.election
            && t.currentTerm == (if req.term >= s.currentTerm then req.term else s.currentTerm)
            && t.role == (if req.term >= s.currentTerm then Follower else s.role)
            && t.leaderId == (if req.term >= s.currentTerm then Some(req.sender) else s.leaderId)
            && t.votedFor == (if req.term > s.currentTerm || (req.term == s.currentTerm && !fix.keepVote) then None
                              else s.votedFor)
            && t.log == if Accepts(s, req) then Appended(fix, s.log, req.prevLogIndex, req.entries) else s.log
  {
  }

  /** An accepted append teaches the follower the announced commit index, up to the end of its log, and
      what that adds is applied in order; a refused one commits nothing. */
  lemma AppendCommits(fix: Fixes, s: State, me: NodeId, req: AppendRequest)
    ensures var t := OnAppend(fix, s, me, req).0;
            if Accepts(s, req) && req.leaderCommit > s.commitIndex
            then && t.commitIndex == (if req.leaderCommit <= |t.log| then req.leaderCommit else |t.log|)
                 && (s.lastApplied < t.commitIndex ==>
                       t.lastApplied == t.commitIndex && t.applied == s.applied + t.log[s.lastApplied..t.commitIndex])
                 && (s.lastApplied >= t.commitIndex ==> t.lastApplied == s.lastApplied && t.applied == s.applied)
            else t.commitIndex == s.commitIndex && t.lastApplied == s.lastApplied && t.applied == s.applied
  {
  }

  lemma ReplyOutcome(fix: Fixes, s: State, peers: set<NodeId>, peer: NodeId, req: AppendRequest, reply: AppendReply)
    ensures var t := OnAppendReply(fix, s, peers, peer, req, reply);
            && (s.lastApplied == |s.applied| ==> t.lastApplied == |t.applied|)
            && t.log == s.log && t.election == s.election && t.leaderId == s.leaderId
            && t.currentTerm == (if reply.term > s.currentTerm then reply.term else s.currentTerm)
            && t.role == (if reply.term > s.currentTerm then Follower else s.role)
            && t.votedFor == (if reply.term > s.currentTerm then None else s.votedFor)
  {
  }

  /** A quorum is a strict majority of the peers and the node itself. */
  lemma QuorumIsMajority(peers: set<NodeId>, n: nat)
    ensures n >= Quorum(peers) <==> 2 * n > |peers| + 1
  {
  }

  /** A leader ends up with the highest position above its commit index that carries an entry of its term
      and that it knows a strict majority to hold; with none, and at any other node, nothing happens. */
  lemma AdvancesExactly(s: State, peers: set<NodeId>)
    ensures var t := Advance(s, peers);
            && (s.role != Leader ==> t == s)
            && (s.role == Leader ==>
                  && (t.commitIndex == s.commitIndex ==> t == s)
                  && (t.commitIndex > s.commitIndex ==> t.commitIndex <= |s.log| && Majority(s, peers, t.commitIndex))
                  && t.commitIndex >= s.commitIndex
                  && forall n | s.commitIndex < n <= |s.log| && Majority(s, peers, n) :: n <= t.commitIndex)
  {
    forall n | 1 <= n <= |s.log| ensures Replicated(s, peers, n) <==> Majority(s, peers, n) {
      QuorumIsMajority(peers, 1 + |set p | p in peers && MatchOf(s, p) >= n|);
      assert (set p | p in peers && MatchOf(s, p) >= n)
          == set p | p in peers && p in s.matchIndex && s.matchIndex[p] >= n;
    }
  }

  ghost predicate Majority(s: State, peers: set<NodeId>, n: nat)
    requires 1 <= n <= |s.log|
  {
    s.log[n - 1].term == s.currentTerm
    && 2 * (1 + |set p | p in peers && p in s.matchIndex && s.matchIndex[p] >= n|) > |peers| + 1
  }

  // ----- When the code as written agrees with its repairs -----

  /** A, the guard: the node follows a leader of the term it is asked to vote in, has no vote of that
      term on record, and would grant one. A node that keeps its vote is asked this only if it never
      voted in the term; as written, the leader's append may have erased the vote. */
  predicate VotesBehindLeader(s: State, ask: VoteRequest) {
    && ask.term == s.currentTerm && s.votedFor == None && s.leaderId.Some?
    && UpToDate(ask.lastLogTerm, ask.lastLogIndex, s.log)
  }

  /** A: the append handler forgets the vote of the current term exactly when it accepts the
      term of the message and a vote had been cast in that term. */
  lemma ForgetsVoteExactly(s: State, me: NodeId, req: AppendRequest)
    ensures var t := OnAppend(AS_WRITTEN, s, me, req).0;
            (t.currentTerm == s.currentTerm && t.votedFor != s.votedFor)
            <==> (req.term == s.currentTerm && s.votedFor.Some?)
    ensures var t := OnAppend(REPAIRED, s, me, req).0;
            t.currentTerm == s.currentTerm ==> t.votedFor == s.votedFor
  {
  }

  /** B, the guard: the append is empty, reaches the end of the log, or contradicts it. */
  predicate TruncationHarmless(log: Log, prev: nat, entries: Log) {
    entries == [] || prev + |entries| >= |log| || !HoldsEntries(log, prev, entries)
  }

  /** B: the code's truncation agrees with truncating only on disagreement exactly under the guard;
      when the guard fails it drops the tail behind entries the log already held. */
  lemma TruncatesExactly(log: Log, prev: nat, entries: Log)
    requires prev <= |log|
    ensures Appended(AS_WRITTEN, log, prev, entries) == Appended(REPAIRED, log, prev, entries)
            <==> TruncationHarmless(log, prev, entries)
    ensures !TruncationHarmless(log, prev, entries)
            ==> Appended(AS_WRITTEN, log, prev, entries) == log[..prev + |entries|] != log
  {
    if HoldsEntries(log, prev, entries) {
      assert log[..prev] + entries == log[..prev + |entries|];
      if prev + |entries| == |log| { assert log[..prev + |entries|] == log; }
    }
  }

  /** C, the guard: a reply to an earlier leadership does not reach a leader's bookkeeping. */
  predicate ReplyCurrent(s: State, req: AppendRequest, answer: AppendReply) {
    s.role == Leader && answer.term <= s.currentTerm && answer.success && req.entries != []
    ==> s.currentTerm == req.term
  }

  /** What `_process_ae_resp` writes down for an append that succeeded. */
  function Counted(s: State, peer: NodeId, req: AppendRequest): State {
    if req.entries == [] then s
    else s.(nextIndex := s.nextIndex[peer := req.prevLogIndex + |req.entries| + 1],
            matchIndex := s.matchIndex[peer := req.prevLogIndex + |req.entries|])
  }

  /** The answer to an append of an earlier leadership reaches a leader that is not behind it. */
  predicate StaleSuccess(s: State, req: AppendRequest, answer: AppendReply) {
    s.role == Leader && answer.term <= s.currentTerm && s.currentTerm != req.term && answer.success
  }

  /** C: a leader's record of what its peers hold differs from the repair's exactly if a stale answer
      brings a new position; what it commits and applies differs exactly if, with that record, some
      position of its own term above its commit index counts as replicated. */
  lemma CountsStaleExactly(s: State, peers: set<NodeId>, peer: NodeId, req: AppendRequest, answer: AppendReply)
    ensures var t := OnAppendReply(AS_WRITTEN, s, peers, peer, req, answer);
            var u := OnAppendReply(REPAIRED, s, peers, peer, req, answer);
            && (s.role == Leader ==>
                  (t.matchIndex == u.matchIndex <==>
                    ReplyCurrent(s, req, answer)
                    || (peer in s.matchIndex && s.matchIndex[peer] == req.prevLogIndex + |req.entries|)))
            && (t.commitIndex == u.commitIndex && t.lastApplied == u.lastApplied && t.applied == u.applied <==>
                  (StaleSuccess(s, req, answer) ==>
                    forall n | s.commitIndex < n <= |s.log| :: !Replicated(Counted(s, peer, req), peers, n)))
  {
    hide Replicated;
    var counted := Counted(s, peer, req);
    var c := TopCommit(counted, peers, |s.log|);
    if StaleSuccess(s, req, answer) {
      assert OnAppendReply(REPAIRED, s, peers, peer, req, answer) == s;
      assert OnAppendReply(AS_WRITTEN, s, peers, peer, req, answer) == Advance(counted, peers);
      assert s.matchIndex[peer := req.prevLogIndex + |req.entries|][peer] == req.prevLogIndex + |req.entries|;
    } else {
      SameReply(s, peers, peer, req, answer);
    }
  }

  lemma SameReply(s: State, peers: set<NodeId>, peer: NodeId, req: AppendRequest, answer: AppendReply)
    requires !StaleSuccess(s, req, answer)
    ensures var t := OnAppendReply(AS_WRITTEN, s, peers, peer, req, answer);
            var u := OnAppendReply(REPAIRED, s, peers, peer, req, answer);
            && t.commitIndex == u.commitIndex && t.lastApplied == u.lastApplied && t.applied == u.applied
            && (s.role == Leader ==> t.matchIndex == u.matchIndex)
  {
  }
}
