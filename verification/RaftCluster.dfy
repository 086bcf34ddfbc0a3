/** A cluster of Raft nodes and the network between them. The network is a set of packets that
    only grows: a packet may be delivered never, once, often, and in any order.
    `ballots`, `elections`, `termLog` and `acks` record what has happened; no handler reads them,
    and no handler reads the `sentLog` of a packet. */
module RaftCluster {
  import opened Options
  import opened Commands
  import opened RaftNode

  datatype Packet =
    | VoteAsk(to: NodeId, ask: VoteRequest)
    | VoteAnswer(asked: VoteRequest, vote: VoteReply)
    | AppendAsk(to: NodeId, req: AppendRequest, sentLog: Log)
    | AppendAnswer(answers: AppendRequest, reply: AppendReply)

  /** `voter` voted for `candidate` in `term`, holding `log`. */
  datatype Ballot = Ballot(voter: NodeId, term: nat, candidate: NodeId, log: Log)
  /** `leader` won `term` with the votes of `voters`, holding `log`. */
  datatype Election = Election(leader: NodeId, term: nat, log: Log, voters: set<NodeId>)
  /** `node` held the first `length` entries of the log of the leader of `term`. */
  datatype Ack = Ack(node: NodeId, term: nat, length: nat)

  datatype Cluster = Cluster(
    nodes: map<NodeId, State>, net: set<Packet>,
    ballots: set<Ballot>, elections: set<Election>, termLog: map<nat, Log>, acks: set<Ack>)

  datatype Step =
    | Campaign(n: NodeId)
    | AnswerVote(n: NodeId, ask: VoteRequest)
    | CountVotes(n: NodeId, votes: map<NodeId, VoteReply>)
    | Propose(n: NodeId, command: Command)
    | Heartbeat(n: NodeId)
    | AnswerAppend(n: NodeId, req: AppendRequest, sentLog: Log)
    | TakeReply(n: NodeId, peer: NodeId, req: AppendRequest, reply: AppendReply)

  function Peers(s: Cluster, n: NodeId): set<NodeId> {
    s.nodes.Keys - {n}
  }

  function Initial(ids: set<NodeId>): Cluster {
    Cluster(map n | n in ids :: FRESH, {}, {}, {}, map[], {})
  }

  function Granters(votes: map<NodeId, VoteReply>): set<NodeId> {
    set p | p in votes && votes[p].granted
  }

  /** When a step can happen in the code: the packet it consumes was sent, and the guard of the
      coroutine that performs it holds. */
  predicate Enabled(s: Cluster, step: Step) {
    && step.n in s.nodes
    && var me := s.nodes[step.n];
       match step
       case Campaign(n) => me.role != Leader && me.election == None
       case AnswerVote(n, ask) => VoteAsk(n, ask) in s.net
       case CountVotes(n, votes) =>
         && me.election.Some?
         && votes.Keys <= Peers(s, n)
         && forall p | p in votes ::
              votes[p].voter == p && VoteAnswer(me.election.value, votes[p]) in s.net
       case Propose(n, command) => me.role == Leader
       case Heartbeat(n) => me.role == Leader
       case AnswerAppend(n, req, sentLog) => AppendAsk(n, req, sentLog) in s.net
       case TakeReply(n, peer, req, reply) =>
         && req.sender == n
         && reply.follower == peer
         && peer in Peers(s, n)
         && AppendAnswer(req, reply) in s.net
  }

  // ----- What a step does, component by component -----

  function NodeAfter(fix: Fixes, s: Cluster, step: Step): State
    requires Enabled(s, step)
  {
    var n := step.n;
    var me := s.nodes[n];
    match step
    case Campaign(_) => StartElection(me, n)
    case AnswerVote(_, ask) => OnVoteRequest(me, n, ask).0
    case CountVotes(_, votes) => Tally(me, n, Peers(s, n), |Granters(votes)|)
    case Propose(_, command) => Proposed(me, command)
    case Heartbeat(_) => me
    case AnswerAppend(_, req, _) => OnAppend(fix, me, n, req).0
    case TakeReply(_, peer, req, reply) => OnAppendReply(fix, me, Peers(s, n), peer, req, reply)
  }

  /** The appends that `_replicate_entries` sends, one to each peer, when the node is in state `me`. */
  function Appends(s: Cluster, n: NodeId, me: State): set<Packet> {
    set p | p in Peers(s, n) :: AppendAsk(p, RequestFor(me, n, p), me.log)
  }

  function Sent(fix: Fixes, s: Cluster, step: Step): set<Packet>
    requires Enabled(s, step)
  {
    var n := step.n;
    var me := s.nodes[n];
    match step
    case Campaign(_) => set p | p in Peers(s, n) :: VoteAsk(p, StartElection(me, n).election.value)
    case AnswerVote(_, ask) => {VoteAnswer(ask, OnVoteRequest(me, n, ask).1)}
    case CountVotes(_, _) => {}
    case Propose(_, command) => Appends(s, n, Proposed(me, command))
    case Heartbeat(_) => Appends(s, n, me)
    case AnswerAppend(_, req, _) => {AppendAnswer(req, OnAppend(fix, me, n, req).1)}
    case TakeReply(_, _, _, _) => {}
  }

  function Cast(s: Cluster, step: Step): set<Ballot>
    requires Enabled(s, step)
  {
    var n := step.n;
    var me := s.nodes[n];
    match step
    case Campaign(_) => {Ballot(n, me.currentTerm + 1, n, me.log)}
    case AnswerVote(_, ask) =>
      if OnVoteRequest(me, n, ask).1.granted then {Ballot(n, ask.term, ask.sender, me.log)} else {}
    case _ => {}
  }

  predicate Wins(s: Cluster, step: Step) {
    && step.CountVotes? && step.n in s.nodes
    && WinsTally(s.nodes[step.n], Peers(s, step.n), |Granters(step.votes)|)
  }

  function WonElection(s: Cluster, step: Step): Election
    requires step.n in s.nodes && step.CountVotes?
  {
    Election(step.n, s.nodes[step.n].currentTerm, s.nodes[step.n].log, {step.n} + Granters(step.votes))
  }

  /** A winner founds the log of its term, and each of its proposals extends it. */
  function TermLogAfter(s: Cluster, step: Step): map<nat, Log>
    requires Enabled(s, step)
  {
    var me := s.nodes[step.n];
    if Wins(s, step) then s.termLog[me.currentTerm := me.log]
    else if step.Propose? then s.termLog[me.currentTerm := Proposed(me, step.command).log]
    else s.termLog
  }

  predicate AcceptedBy(s: Cluster, step: Step) {
    step.AnswerAppend? && step.n in s.nodes && Accepts(s.nodes[step.n], step.req)
  }

  function Acknowledged(s: Cluster, step: Step): set<Ack>
    requires step.n in s.nodes
  {
    var me := s.nodes[step.n];
    if step.Propose? then {Ack(step.n, me.currentTerm, |me.log| + 1)}
    else if AcceptedBy(s, step) then {Ack(step.n, step.req.term, step.req.prevLogIndex + |step.req.entries|)}
    else {}
  }

  function Do(fix: Fixes, s: Cluster, step: Step): Cluster
    requires Enabled(s, step)
  {
    Cluster(s.nodes[step.n := NodeAfter(fix, s, step)],
            s.net + Sent(fix, s, step),
            s.ballots + Cast(s, step),
            s.elections + (if Wins(s, step) then {WonElection(s, step)} else {}),
            TermLogAfter(s, step),
            s.acks + Acknowledged(s, step))
  }

  function LogAfter(fix: Fixes, me: State, step: Step): Log {
    if step.Propose? then Proposed(me, step.command).log
    else if step.AnswerAppend? && Accepts(me, step.req)
    then Appended(fix, me.log, step.req.prevLogIndex, step.req.entries)
    else me.log
  }

  /** The part of a node's state that the protocol arguments follow. */
  lemma NodeOutcome(fix: Fixes, s: Cluster, step: Step)
    requires Enabled(s, step)
    ensures var me, me' := s.nodes[step.n], NodeAfter(fix, s, step);
            && me.currentTerm <= me'.currentTerm
            && me'.log == LogAfter(fix, me, step)
            && (me'.role == Candidate ==> step.Campaign? || (me.role == Candidate && me'.currentTerm == me.currentTerm))
            && (me'.role == Leader ==> (me.role == Leader || Wins(s, step)) && me'.currentTerm == me.currentTerm)
            && (step.AnswerAppend? && step.req.term >= me.currentTerm ==>
                  me'.role == Follower && me'.currentTerm == step.req.term)
            && (step.Propose? ==> me.role == Leader && me'.currentTerm == me.currentTerm)
            && (step.Campaign? ==> me'.currentTerm == me.currentTerm + 1)
            && (Wins(s, step) ==> me'.role == Leader)
            && (me'.election.Some? ==> step.Campaign? || me'.election == me.election)
            && (me.lastApplied == |me.applied| ==> me'.lastApplied == |me'.applied|)
  {
    hide OnVoteRequest, OnAppend, OnAppendReply;
    var n, me := step.n, s.nodes[step.n];
    match step
    case AnswerVote(_, ask) => VoteOutcome(me, n, ask);
    case AnswerAppend(_, req, _) => AppendOutcome(fix, me, n, req);
    case TakeReply(_, peer, req, reply) => ReplyOutcome(fix, me, Peers(s, n), peer, req, reply);
    case _ =>
  }

  /** A new ballot is cast by the stepping node, in its new term and with its unchanged log. */
  ghost predicate BallotEffect(s: Cluster, step: Step, me': State, b: Ballot)
    requires step.n in s.nodes
  {
    var me := s.nodes[step.n];
    b.voter == step.n && b.log == me.log && b.term == me'.currentTerm && me'.log == me.log
  }

  lemma BallotEffectOf(fix: Fixes, s: Cluster, step: Step)
    requires Enabled(s, step)
    ensures forall b | b in Cast(s, step) :: BallotEffect(s, step, NodeAfter(fix, s, step), b)
  {
    hide OnVoteRequest, OnAppend, OnAppendReply;
    if step.AnswerVote? { VoteOutcome(s.nodes[step.n], step.n, step.ask); }
  }

  // ----- The hypotheses, one per place where the code departs from the paper -----

  /** A: no node is asked for a vote in a term whose leader it follows and for which it has no vote
      on record, by a candidate it would vote for. */
  ghost predicate NoVoteBehindLeader(s: Cluster, step: Step) {
    step.AnswerVote? && step.n in s.nodes ==> !VotesBehindLeader(s.nodes[step.n], step.ask)
  }

  /** B: no accepted append cuts off entries behind ones it agrees with. */
  ghost predicate NoHarmfulTruncation(s: Cluster, step: Step) {
    step.AnswerAppend? && step.n in s.nodes && Accepts(s.nodes[step.n], step.req) ==>
      step.req.prevLogIndex <= |s.nodes[step.n].log|
      && TruncationHarmless(s.nodes[step.n].log, step.req.prevLogIndex, step.req.entries)
  }

  /** C: no reply to an earlier leadership reaches a leader's bookkeeping. */
  ghost predicate NoStaleReply(s: Cluster, step: Step) {
    step.TakeReply? && step.n in s.nodes ==> ReplyCurrent(s.nodes[step.n], step.req, step.reply)
  }

  ghost predicate AllowsA(fix: Fixes, s: Cluster, step: Step) { fix.keepVote || NoVoteBehindLeader(s, step) }
  ghost predicate AllowsB(fix: Fixes, s: Cluster, step: Step) { fix.keepMatching || NoHarmfulTruncation(s, step) }
  ghost predicate AllowsC(fix: Fixes, s: Cluster, step: Step) { fix.checkLeadership || NoStaleReply(s, step) }

  // ----- Runs -----

  /** The cluster reached from `Initial(ids)` by `steps`, or nothing if some step was not possible. */
  ghost function After(fix: Fixes, ids: set<NodeId>, steps: seq<Step>): Option<Cluster> {
    if steps == [] then Some(Initial(ids))
    else
      var before := After(fix, ids, steps[..|steps| - 1]);
      var last := steps[|steps| - 1];
      if before.Some? && Enabled(before.value, last) then Some(Do(fix, before.value, last)) else None
  }

  /** Every step of the run satisfies hypothesis A (B, C), unless the code has that repair. */
  ghost predicate RunA(fix: Fixes, ids: set<NodeId>, steps: seq<Step>) {
    steps == [] ||
    var before := After(fix, ids, steps[..|steps| - 1]);
    && RunA(fix, ids, steps[..|steps| - 1])
    && (before.Some? ==> AllowsA(fix, before.value, steps[|steps| - 1]))
  }

  ghost predicate RunBC(fix: Fixes, ids: set<NodeId>, steps: seq<Step>) {
    steps == [] ||
    var before := After(fix, ids, steps[..|steps| - 1]);
    && RunBC(fix, ids, steps[..|steps| - 1])
    && (before.Some? ==>
          AllowsB(fix, before.value, steps[|steps| - 1]) && AllowsC(fix, before.value, steps[|steps| - 1]))
  }
}
