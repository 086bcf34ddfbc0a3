/** Runs seen from one node's proposals: what it means that `propose` answered true. */
module RaftProposals {
  import opened Options
  import opened Commands
  import opened RaftNode
  import opened RaftCluster
  import opened RaftElection
  import opened RaftLogs
  import opened RaftSafety
  import opened RaftCommit
  import opened Proposals

  /** Besides the steps of the cluster, a proposal's wait can time out, and a wait that was cancelled
      can end; that it may do so again and again only adds runs. */
  datatype Event = Act(step: Step) | TimeOut(n: NodeId, future: nat) | Conclude(n: NodeId, future: nat)

  /** The futures of one node, and the entry that each of them waits for. */
  datatype Book = Book(requests: Requests, entries: Log)

  function StepsOf(events: seq<Event>): seq<Step> {
    if events == [] then []
    else
      var last := events[|events| - 1];
      StepsOf(events[..|events| - 1]) + if last.Act? then [last.step] else []
  }

  ghost predicate Kept(b: Book) {
    Sound(b.requests) && |b.entries| == |b.requests.outcomes|
  }

  ghost function BookStep(fix: Fixes, s: Cluster, n: NodeId, event: Event, b: Book): (c: Book)
    requires Kept(b)
    ensures Kept(c)
  {
    match event
    case Act(step) =>
      if step.n != n || !Enabled(s, step) then b
      else if step.Propose? then
        var log := NodeAfter(fix, s, step).log;
        Book(Registered(b.requests, |log|), b.entries + [log[|log| - 1]])
      else
        b.(requests := AnsweredAll(b.requests, NewlyApplied(s.nodes[n].applied, NodeAfter(fix, s, step).applied)))
    case TimeOut(m, t) => if m == n then b.(requests := TimedOut(b.requests, t)) else b
    case Conclude(m, t) =>
      if m == n && t < |b.entries| && b.requests.outcomes[t] == Cancelled
      then b.(requests := Withdrawn(b.requests, b.entries[t].index))
      else b
  }

  /** What node `n` has noted down after `events`. */
  ghost function BookAfter(fix: Fixes, ids: set<NodeId>, n: NodeId, events: seq<Event>): (b: Book)
    ensures Kept(b)
  {
    if events == [] then Book(NO_REQUESTS, [])
    else
      var before := events[..|events| - 1];
      var b, s := BookAfter(fix, ids, n, before), After(fix, ids, StepsOf(before));
      if s.Some? then BookStep(fix, s.value, n, events[|events| - 1], b) else b
  }

  // ----- What a node applies -----

  /** Entry `i` of `log` has index `i + 1` and stands there in the log of the leader of its term. */
  ghost predicate FromLeaders(termLog: map<nat, Log>, log: Log) {
    forall i | 0 <= i < |log| :: log[i].index == i + 1 && FromLeader(termLog, log[i])
  }

  ghost predicate FromLeader(termLog: map<nat, Log>, e: Entry) {
    e.term in termLog && 1 <= e.index <= |termLog[e.term]| && termLog[e.term][e.index - 1] == e
  }

  /** A handler hands on the next entries of its new log, or nothing. */
  ghost predicate AppliesNext(me: State, me': State) {
    || me'.applied == me.applied
    || (|me.applied| < |me'.applied| <= |me'.log|
        && me'.applied == me.applied + me'.log[|me.applied|..|me'.applied|])
  }

  lemma AdvanceAppliesNext(s: State, peers: set<NodeId>)
    requires s.lastApplied == |s.applied|
    ensures AppliesNext(s, Advance(s, peers))
  {
  }

  lemma LearnAppliesNext(s: State, leaderCommit: nat)
    requires s.lastApplied == |s.applied|
    ensures AppliesNext(s, Learn(s, leaderCommit))
  {
  }

  lemma ReplyAppliesNext(fix: Fixes, s: State, peers: set<NodeId>, peer: NodeId, req: AppendRequest, reply: AppendReply)
    requires s.lastApplied == |s.applied|
    ensures AppliesNext(s, OnAppendReply(fix, s, peers, peer, req, reply))
  {
    hide Advance;
    var top := req.prevLogIndex + |req.entries|;
    AdvanceAppliesNext(if req.entries == [] then s
                       else s.(nextIndex := s.nextIndex[peer := top + 1], matchIndex := s.matchIndex[peer := top]),
                       peers);
  }

  lemma AppendAppliesNext(fix: Fixes, s: State, n: NodeId, req: AppendRequest)
    requires s.lastApplied == |s.applied|
    ensures AppliesNext(s, OnAppend(fix, s, n, req).0)
  {
    hide Learn, Appended;
    if Accepts(s, req) {
      var f := StepDown(s, req.term).(currentTerm := req.term, role := Follower, leaderId := Some(req.sender));
      var g := f.(votedFor := if fix.keepVote then f.votedFor else None,
                  log := Appended(fix, s.log, req.prevLogIndex, req.entries));
      LearnAppliesNext(g, req.leaderCommit);
    }
  }

  lemma StepAppliesNext(fix: Fixes, s: Cluster, step: Step)
    requires Enabled(s, step) && s.nodes[step.n].lastApplied == |s.nodes[step.n].applied|
    ensures AppliesNext(s.nodes[step.n], NodeAfter(fix, s, step))
    ensures step.Propose? ==> NodeAfter(fix, s, step).applied == s.nodes[step.n].applied
  {
    hide OnVoteRequest, OnAppend, OnAppendReply;
    var n, me := step.n, s.nodes[step.n];
    match step
    case AnswerVote(_, ask) => VoteOutcome(me, n, ask);
    case AnswerAppend(_, req, _) => AppendAppliesNext(fix, me, n, req);
    case TakeReply(_, peer, req, reply) => ReplyAppliesNext(fix, me, Peers(s, n), peer, req, reply);
    case _ =>
  }

  // ----- Invariants of the book, for a node that has applied `done` entries -----

  ghost predicate AtIndex(b: Book)
    requires Kept(b)
  {
    forall i | i in b.requests.pending :: b.entries[b.requests.pending[i]].index == i
  }

  ghost predicate ConfirmedApplied(b: Book, done: nat)
    requires Kept(b)
  {
    forall t | 0 <= t < |b.entries| && b.requests.outcomes[t] == Confirmed :: b.entries[t].index <= done
  }

  ghost predicate PendingNotApplied(b: Book, done: nat) {
    forall i | i in b.requests.pending :: i > done
  }

  /** Another proposal of the node was given the same index. */
  ghost predicate IndexShared(entries: Log, t: nat)
    requires t < |entries|
  {
    exists u | 0 <= u < |entries| :: u != t && entries[u].index == entries[t].index
  }

  ghost predicate StoredUnder(r: Requests, index: nat, t: nat) {
    index in r.pending && r.pending[index] == t
  }

  ghost predicate WaitingStored(b: Book)
    requires Kept(b)
  {
    forall t | 0 <= t < |b.entries| && b.requests.outcomes[t] == Waiting ::
      StoredUnder(b.requests, b.entries[t].index, t) || IndexShared(b.entries, t)
  }

  /** From `b` with `done` entries applied to `c` with `done'`, each invariant is kept. */
  ghost predicate Keeps(b: Book, done: nat, c: Book, done': nat)
    requires Kept(b) && Kept(c)
  {
    && (AtIndex(b) && ConfirmedApplied(b, done) ==> AtIndex(c) && ConfirmedApplied(c, done'))
    && (AtIndex(b) && PendingNotApplied(b, done) ==> PendingNotApplied(c, done'))
    && (AtIndex(b) && WaitingStored(b) ==> WaitingStored(c))
  }

  lemma AnswerKeeps(b: Book, done: nat, index: nat)
    requires Kept(b) && index == done + 1
    ensures Keeps(b, done, b.(requests := Answered(b.requests, index)), done + 1)
  {
    var c := b.(requests := Answered(b.requests, index));
    assert forall t | 0 <= t < |b.entries| && c.requests.outcomes[t] == Waiting :: b.requests.outcomes[t] == Waiting;
  }

  lemma {:induction false} AnswersKeep(b: Book, done: nat, entries: Log)
    requires Kept(b) && AtIndex(b) && ConfirmedApplied(b, done)
    requires forall i | 0 <= i < |entries| :: entries[i].index == done + i + 1
    ensures Keeps(b, done, b.(requests := AnsweredAll(b.requests, entries)), done + |entries|)
  {
    hide AtIndex, ConfirmedApplied, PendingNotApplied, WaitingStored;
    if entries != [] {
      var before, last := entries[..|entries| - 1], entries[|entries| - 1];
      AnswersKeep(b, done, before);
      AnswerKeeps(b.(requests := AnsweredAll(b.requests, before)), done + |before|, last.index);
    }
  }

  lemma TimeOutKeeps(b: Book, done: nat, t: nat)
    requires Kept(b)
    ensures Keeps(b, done, b.(requests := TimedOut(b.requests, t)), done)
  {
    var c := b.(requests := TimedOut(b.requests, t));
    assert forall u | 0 <= u < |b.entries| && c.requests.outcomes[u] == Waiting :: b.requests.outcomes[u] == Waiting;
  }

  /** Whatever a cancelled wait drops, other than itself, has its index. */
  lemma ConcludeKeeps(b: Book, done: nat, t: nat)
    requires Kept(b) && t < |b.entries| && b.requests.outcomes[t] == Cancelled
    ensures Keeps(b, done, b.(requests := Withdrawn(b.requests, b.entries[t].index)), done)
  {
    var c := b.(requests := Withdrawn(b.requests, b.entries[t].index));
    assert forall u | 0 <= u < |b.entries| && c.requests.outcomes[u] == Waiting ::
             b.requests.outcomes[u] == Waiting && u != t;
  }

  /** Whatever a proposal displaces has its index. */
  lemma RegisterKeeps(b: Book, done: nat, entry: Entry)
    requires Kept(b)
    ensures var c := Book(Registered(b.requests, entry.index), b.entries + [entry]);
            && (AtIndex(b) && ConfirmedApplied(b, done) ==> AtIndex(c) && ConfirmedApplied(c, done))
            && (entry.index > done ==> Keeps(b, done, c, done))
  {
    var c := Book(Registered(b.requests, entry.index), b.entries + [entry]);
    if AtIndex(b) && WaitingStored(b) {
      forall t | 0 <= t < |c.entries| && c.requests.outcomes[t] == Waiting
        ensures StoredUnder(c.requests, c.entries[t].index, t) || IndexShared(c.entries, t)
      {
        if t < |b.entries| {
          assert b.requests.outcomes[t] == Waiting;
          if IndexShared(b.entries, t) {
            var u :| 0 <= u < |b.entries| && u != t && b.entries[u].index == b.entries[t].index;
            assert c.entries[u].index == c.entries[t].index;
          } else if entry.index == b.entries[t].index {
            assert c.entries[|b.entries|].index == c.entries[t].index;
          }
        }
      }
    }
  }

  // ----- The invariant over runs -----

  ghost predicate BookInv(s: Cluster, n: NodeId, b: Book)
    requires n in s.nodes && Kept(b)
  {
    && FromLeaders(s.termLog, s.nodes[n].applied)
    && (forall t | 0 <= t < |b.entries| :: FromLeader(s.termLog, b.entries[t]))
    && AtIndex(b) && ConfirmedApplied(b, |s.nodes[n].applied|)
  }

  ghost predicate BookInvABC(s: Cluster, n: NodeId, b: Book)
    requires n in s.nodes && Kept(b)
  {
    PendingNotApplied(b, |s.nodes[n].applied|) && WaitingStored(b)
  }

  lemma FromLeadersGrows(a: map<nat, Log>, b: map<nat, Log>, log: Log)
    requires Grows(a, b) && FromLeaders(a, log)
    ensures FromLeaders(b, log)
  {
    forall i | 0 <= i < |log| ensures log[i].index == i + 1 && FromLeader(b, log[i]) {
      FromLeaderGrows(a, b, log[i]);
    }
  }

  lemma FromLeaderGrows(a: map<nat, Log>, b: map<nat, Log>, e: Entry)
    requires Grows(a, b) && FromLeader(a, e)
    ensures FromLeader(b, e)
  {
  }

  lemma TracedFromLeaders(termLog: map<nat, Log>, log: Log, bound: nat)
    requires Traced(termLog, log) && Shaped(log, 0, bound)
    ensures FromLeaders(termLog, log)
  {
    forall i | 0 <= i < |log| ensures log[i].index == i + 1 && FromLeader(termLog, log[i]) {
      assert log[..i + 1] <= termLog[log[i].term] && log[..i + 1][i] == log[i];
    }
  }

  lemma AppliedFromLeaders(termLog: map<nat, Log>, me: State, me': State)
    requires AppliesNext(me, me') && FromLeaders(termLog, me.applied) && FromLeaders(termLog, me'.log)
    ensures FromLeaders(termLog, me'.applied)
    ensures forall i | 0 <= i < |NewlyApplied(me.applied, me'.applied)| ::
              NewlyApplied(me.applied, me'.applied)[i].index == |me.applied| + i + 1
    ensures |me.applied| + |NewlyApplied(me.applied, me'.applied)| == |me'.applied|
  {
    hide FromLeader;
    forall i | 0 <= i < |me'.applied| ensures me'.applied[i].index == i + 1 && FromLeader(termLog, me'.applied[i]) {
      if i >= |me.applied| { assert me'.applied[i] == me'.log[i]; } else { assert me'.applied[i] == me.applied[i]; }
    }
  }

  function AfterEvent(fix: Fixes, s: Cluster, event: Event): Cluster
    requires event.Act? ==> Enabled(s, event.step)
  {
    if event.Act? then Do(fix, s, event.step) else s
  }

  /** What the next lemmas need of the two sides of an event. */
  ghost predicate Progress(fix: Fixes, s: Cluster, event: Event, s': Cluster) {
    && (event.Act? ==> Enabled(s, event.step)) && s' == AfterEvent(fix, s, event)
    && Grows(s.termLog, s'.termLog) && ShapeInv(s) && ShapeInv(s') && NodesTraced(s') && LeadersHold(s')
  }

  lemma OthersUnmoved(fix: Fixes, s: Cluster, event: Event, s': Cluster, n: NodeId)
    requires Progress(fix, s, event, s') && n in s.nodes
    ensures n in s'.nodes && Grows(s.termLog, s'.termLog)
    ensures !(event.Act? && event.step.n == n) ==> s'.nodes[n] == s.nodes[n]
    ensures event.Act? && event.step.n == n ==> Enabled(s, event.step) && s'.nodes[n] == NodeAfter(fix, s, event.step)
  {
    hide NodeAfter, Sent, Cast, TermLogAfter, ShapeInv, NodesTraced, LeadersHold, Grows, Wins, Enabled;
  }

  /** A proposal's entry is the last one of the log of its leader. */
  lemma ProposalFromLeader(fix: Fixes, s: Cluster, step: Step, s': Cluster)
    requires Progress(fix, s, Act(step), s') && step.Propose?
    ensures var log := NodeAfter(fix, s, step).log;
            log != [] && FromLeader(s'.termLog, log[|log| - 1]) && log[|log| - 1].index == |log|
  {
    hide Sent, Cast, TermLogAfter, ShapeInv, NodesTraced, Grows;
    assert s'.nodes[step.n] == NodeAfter(fix, s, step) && s'.nodes[step.n].role == Leader;
  }

  /** What a step applies comes from the logs of leaders, and continues what was applied. */
  lemma StepFromLeaders(fix: Fixes, s: Cluster, step: Step, s': Cluster)
    requires step.n in s.nodes && Progress(fix, s, Act(step), s') && FromLeaders(s.termLog, s.nodes[step.n].applied)
    ensures var me, me' := s.nodes[step.n], NodeAfter(fix, s, step);
            var next := NewlyApplied(me.applied, me'.applied);
            && FromLeaders(s'.termLog, me'.applied)
            && (forall i | 0 <= i < |next| :: next[i].index == |me.applied| + i + 1)
            && |me.applied| + |next| == |me'.applied|
            && (step.Propose? ==> me'.applied == me.applied)
  {
    hide NodeAfter, Sent, Cast, TermLogAfter, Traced, Shaped, FromLeaders, Grows, Wins, Enabled, AppliesNext,
      NewlyApplied;
    var me, me' := s.nodes[step.n], NodeAfter(fix, s, step);
    assert s'.nodes[step.n] == me' && ShapedNode(me) && ShapedNode(me');
    StepAppliesNext(fix, s, step);
    FromLeadersGrows(s.termLog, s'.termLog, me.applied);
    TracedFromLeaders(s'.termLog, me'.log, me'.currentTerm);
    AppliedFromLeaders(s'.termLog, me, me');
  }

  lemma BookStepKeeps(fix: Fixes, s: Cluster, n: NodeId, event: Event, b: Book, s': Cluster)
    requires Progress(fix, s, event, s') && n in s.nodes && Kept(b) && BookInv(s, n, b)
    ensures var c := BookStep(fix, s, n, event, b);
            && n in s'.nodes && BookInv(s', n, c)
            && (AppliedExactly(s.nodes[n]) && BookInvABC(s, n, b) ==> BookInvABC(s', n, c))
  {
    hide FromLeader, FromLeaders, Progress, AtIndex, ConfirmedApplied, PendingNotApplied, WaitingStored, NodeAfter,
      AnsweredAll, Registered, NewlyApplied, Grows;
    OthersUnmoved(fix, s, event, s', n);
    forall t | 0 <= t < |b.entries| ensures FromLeader(s'.termLog, b.entries[t]) {
      FromLeaderGrows(s.termLog, s'.termLog, b.entries[t]);
    }
    var done := |s.nodes[n].applied|;
    match event
    case Act(step) =>
      if step.n != n {
        FromLeadersGrows(s.termLog, s'.termLog, s.nodes[n].applied);
      } else {
        StepFromLeaders(fix, s, step, s');
        var me' := NodeAfter(fix, s, step);
        if step.Propose? {
          ProposalFromLeader(fix, s, step, s');
          ProposalLonger(fix, s, step);
          RegisterKeeps(b, done, me'.log[|me'.log| - 1]);
        } else {
          AnswersKeep(b, done, NewlyApplied(s.nodes[n].applied, me'.applied));
        }
      }
    case TimeOut(m, t) =>
      FromLeadersGrows(s.termLog, s'.termLog, s.nodes[n].applied);
      TimeOutKeeps(b, done, t);
    case Conclude(m, t) =>
      FromLeadersGrows(s.termLog, s'.termLog, s.nodes[n].applied);
      if t < |b.entries| && b.requests.outcomes[t] == Cancelled { ConcludeKeeps(b, done, t); }
  }

  lemma ProposalLonger(fix: Fixes, s: Cluster, step: Step)
    requires Enabled(s, step) && step.Propose?
    ensures AppliedExactly(s.nodes[step.n]) ==> |NodeAfter(fix, s, step).log| > |s.nodes[step.n].applied|
  {
  }

  // ----- Every run -----

  /** The run with its last event, and the run before it. */
  lemma LastEvent(fix: Fixes, ids: set<NodeId>, events: seq<Event>)
    requires events != [] && After(fix, ids, StepsOf(events)).Some?
    ensures var before, last := events[..|events| - 1], events[|events| - 1];
            && After(fix, ids, StepsOf(before)).Some?
            && (last.Act? ==> Enabled(After(fix, ids, StepsOf(before)).value, last.step))
            && After(fix, ids, StepsOf(events)).value == AfterEvent(fix, After(fix, ids, StepsOf(before)).value, last)
            && (RunA(fix, ids, StepsOf(events)) ==> RunA(fix, ids, StepsOf(before)))
            && (RunBC(fix, ids, StepsOf(events)) ==> RunBC(fix, ids, StepsOf(before)))
  {
    hide Do, Enabled, AllowsA, AllowsB, AllowsC;
    var before, last := StepsOf(events[..|events| - 1]), events[|events| - 1];
    if last.Act? {
      assert (before + [last.step])[..|before|] == before;
    } else {
      assert StepsOf(events) == before;
    }
  }

  lemma ProgressAlways(fix: Fixes, ids: set<NodeId>, events: seq<Event>)
    requires events != [] && After(fix, ids, StepsOf(events)).Some? && RunA(fix, ids, StepsOf(events))
    ensures var before := StepsOf(events[..|events| - 1]);
            && After(fix, ids, before).Some?
            && Progress(fix, After(fix, ids, before).value, events[|events| - 1],
                        After(fix, ids, StepsOf(events)).value)
  {
    hide After, RunA, RunBC, Do, Enabled, ElectionInv, ShapeInv, NodesTraced, LeadersHold, Snapshots, LeaderLogs,
      LeaderLogsTraced, BallotsTraced, OneLeaderPerTerm;
    var steps, before, last := StepsOf(events), StepsOf(events[..|events| - 1]), events[|events| - 1];
    LastEvent(fix, ids, events);
    ShapeAlways(fix, ids, before);
    ShapeAlways(fix, ids, steps);
    ElectionInvAlways(fix, ids, before);
    ElectionSafety(fix, ids, before);
    ElectionSafety(fix, ids, steps);
    LogInvAlways(fix, ids, before);
    LogInvAlways(fix, ids, steps);
    if last.Act? { LogInvStep(fix, After(fix, ids, before).value, last.step); }
  }

  /** Under A, over every run: each proposal's entry, and each applied entry, is one of the leader of
      its term, and a future is confirmed only when an entry of its index has been applied. */
  lemma {:induction false} BookAlways(fix: Fixes, ids: set<NodeId>, n: NodeId, events: seq<Event>)
    requires After(fix, ids, StepsOf(events)).Some? && RunA(fix, ids, StepsOf(events)) && n in ids
    ensures var s := After(fix, ids, StepsOf(events)).value;
            n in s.nodes && BookInv(s, n, BookAfter(fix, ids, n, events))
  {
    hide RunA, Progress, BookInv, BookInvABC, BookStep, Do, Enabled, ElectionInv, ShapeInv, LogInv;
    if events == [] {
      FirstBook(ids, n);
    } else {
      var before, last := events[..|events| - 1], events[|events| - 1];
      LastEvent(fix, ids, events);
      BookAlways(fix, ids, n, before);
      ProgressAlways(fix, ids, events);
      BookStepKeeps(fix, After(fix, ids, StepsOf(before)).value, n, last, BookAfter(fix, ids, n, before),
                    After(fix, ids, StepsOf(events)).value);
    }
  }

  lemma FirstBook(ids: set<NodeId>, n: NodeId)
    requires n in ids
    ensures n in Initial(ids).nodes && BookInv(Initial(ids), n, Book(NO_REQUESTS, []))
    ensures BookInvABC(Initial(ids), n, Book(NO_REQUESTS, []))
  {
  }

  lemma {:induction false} BookAlwaysABC(fix: Fixes, ids: set<NodeId>, n: NodeId, events: seq<Event>)
    requires After(fix, ids, StepsOf(events)).Some? && n in ids
    requires RunA(fix, ids, StepsOf(events)) && RunBC(fix, ids, StepsOf(events))
    ensures var s := After(fix, ids, StepsOf(events)).value;
            n in s.nodes && AppliedExactly(s.nodes[n]) && BookInvABC(s, n, BookAfter(fix, ids, n, events))
  {
    hide RunA, RunBC, Progress, BookInv, BookInvABC, BookStep, Do, Enabled, ElectionInv, ShapeInv, LogInv, KeepInv,
      OneLeaderPerTerm, AppliedExactly;
    BookAlways(fix, ids, n, events);
    CommitInvAlways(fix, ids, StepsOf(events));
    if events == [] {
      FirstBook(ids, n);
    } else {
      var before, last := events[..|events| - 1], events[|events| - 1];
      LastEvent(fix, ids, events);
      BookAlwaysABC(fix, ids, n, before);
      BookAlways(fix, ids, n, before);
      ProgressAlways(fix, ids, events);
      BookStepKeeps(fix, After(fix, ids, StepsOf(before)).value, n, last, BookAfter(fix, ids, n, before),
                    After(fix, ids, StepsOf(events)).value);
    }
  }

  // ----- What the answer of a proposal means -----

  /** A proposal is answered true only when an entry of its index has been applied. Under A that entry
      is the proposed one exactly if it has the term the proposal was made in; under B and C as well
      it is the committed entry that the node's own log has at the index. */
  lemma TrueMeansOwnCommandExactly(fix: Fixes, ids: set<NodeId>, n: NodeId, events: seq<Event>, t: nat)
    requires After(fix, ids, StepsOf(events)).Some? && RunA(fix, ids, StepsOf(events)) && n in ids
    requires var b := BookAfter(fix, ids, n, events); t < |b.entries| && b.requests.outcomes[t] == Confirmed
    ensures var s, e := After(fix, ids, StepsOf(events)).value, BookAfter(fix, ids, n, events).entries[t];
            && n in s.nodes && 1 <= e.index <= |s.nodes[n].applied|
            && var me, applied := s.nodes[n], s.nodes[n].applied[e.index - 1];
               && (applied == e <==> applied.term == e.term)
               && (RunBC(fix, ids, StepsOf(events)) ==>
                     e.index <= me.commitIndex <= |me.log| && me.log[e.index - 1] == applied)
  {
    hide After, RunA, RunBC, BookAfter;
    BookAlways(fix, ids, n, events);
    if RunBC(fix, ids, StepsOf(events)) { BookAlwaysABC(fix, ids, n, events); }
    var s, b := After(fix, ids, StepsOf(events)).value, BookAfter(fix, ids, n, events);
    assert FromLeader(s.termLog, b.entries[t]);
    assert FromLeader(s.termLog, s.nodes[n].applied[b.entries[t].index - 1]);
  }

  /** Under A, B and C, a proposal whose wait was not cancelled, and whose index the node gave to no
      other proposal, is answered true exactly once the entry of its index is applied. */
  lemma AnsweredExactly(fix: Fixes, ids: set<NodeId>, n: NodeId, events: seq<Event>, t: nat)
    requires After(fix, ids, StepsOf(events)).Some? && n in ids
    requires RunA(fix, ids, StepsOf(events)) && RunBC(fix, ids, StepsOf(events))
    requires t < |BookAfter(fix, ids, n, events).entries|
    requires !IndexShared(BookAfter(fix, ids, n, events).entries, t)
    ensures var s, b := After(fix, ids, StepsOf(events)).value, BookAfter(fix, ids, n, events);
            && n in s.nodes
            && (b.requests.outcomes[t] != Cancelled ==>
                  (b.requests.outcomes[t] == Confirmed <==> b.entries[t].index <= |s.nodes[n].applied|))
  {
    hide After, RunA, RunBC, BookAfter, IndexShared;
    BookAlways(fix, ids, n, events);
    BookAlwaysABC(fix, ids, n, events);
  }
}
