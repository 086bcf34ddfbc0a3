/** A run, of the code as written or repaired in any way, in which `propose` answers true although
    another leader's command was committed at the index of the proposal. */
module ProposalWitness {
  import opened Options
  import opened Commands
  import opened RaftNode
  import opened RaftCluster
  import opened RaftMoves
  import opened Proposals
  import opened RaftProposals
  import opened RaftWitness

  const OLD := Entry(1, 1, Other)
  const NEW := Entry(2, 1, UNLOCK)
  const ASK := VoteRequest(1, 2, 0, 0)
  const SEND := AppendRequest(1, 2, 0, 0, [NEW], 0)
  const TELL := AppendRequest(1, 2, 0, 0, [NEW], 1)

  const ASKED := Book(Requests(map[1 := 0], [Waiting]), [OLD])
  const TOLD := Book(Requests(map[], [Confirmed]), [OLD])

  function Acts(steps: seq<Step>): seq<Event> {
    seq(|steps|, i requires 0 <= i < |steps| => Act(steps[i]))
  }

  lemma {:induction false} StepsOfActs(steps: seq<Step>)
    ensures StepsOf(Acts(steps)) == steps
  {
    if steps != [] {
      var before := steps[..|steps| - 1];
      assert Acts(steps)[..|steps| - 1] == Acts(before);
      StepsOfActs(before);
    }
  }

  /** The run `steps` leads to `s`, and node 0 has noted down `b`. */
  ghost predicate Noted(fix: Fixes, steps: seq<Step>, s: Cluster, b: Book) {
    Reached(fix, THREE, steps, s) && BookAfter(fix, THREE, 0, Acts(steps)) == b
  }

  lemma NotedNext(fix: Fixes, steps: seq<Step>, s: Cluster, b: Book, step: Step, s': Cluster)
    requires Noted(fix, steps, s, b) && Reached(fix, THREE, steps + [step], s')
    ensures Enabled(s, step) && s' == Do(fix, s, step)
    ensures Kept(b) && Noted(fix, steps + [step], s', BookStep(fix, s, 0, Act(step), b))
  {
    hide BookStep, Do, Enabled;
    var longer := steps + [step];
    assert longer[..|longer| - 1] == steps;
    assert Acts(longer)[..|longer| - 1] == Acts(steps);
    StepsOfActs(steps);
  }

  lemma NotedSame(fix: Fixes, steps: seq<Step>, s: Cluster, b: Book, step: Step, s': Cluster)
    requires Noted(fix, steps, s, b) && Reached(fix, THREE, steps + [step], s')
    requires step.n == 0 ==> !step.Propose? && s'.nodes[0].applied == s.nodes[0].applied
    ensures Noted(fix, steps + [step], s', b)
  {
    hide Noted, NodeAfter, Enabled;
    NotedNext(fix, steps, s, b, step, s');
  }

  /** Node 0 leads term 1 and proposes a command that reaches nobody. */
  lemma ProposedInVain(fix: Fixes) returns (steps: seq<Step>, s: Cluster)
    ensures Noted(fix, steps, s, ASKED) && s.nodes.Keys == THREE
    ensures s.nodes[0] == LEADER0.(log := [OLD])
    ensures s.nodes[1] == FRESH.(currentTerm := 1, votedFor := Some(0)) && s.nodes[2] == FRESH
  {
    hide After, BookAfter, Reached, RequestFor, Proposed, BecomeLeader, BookStep;
    var before, t := FirstTerm(fix);
    Leader0Proposes();
    steps, s := PlayPropose(fix, THREE, before, t, 0, Other);
    NotedNext(fix, before, t, Book(NO_REQUESTS, []), Propose(0, Other), s);
    Asks(fix, t);
  }

  lemma FirstTerm(fix: Fixes) returns (steps: seq<Step>, s: Cluster)
    ensures Noted(fix, steps, s, Book(NO_REQUESTS, [])) && s.nodes.Keys == THREE && s.nodes[0] == LEADER0
    ensures s.nodes[1] == FRESH.(currentTerm := 1, votedFor := Some(0)) && s.nodes[2] == FRESH
  {
    hide After, BookAfter, Reached;
    var before, t := AskedForVotes(fix);
    assert THREE - {0} == {1, 2};
    steps, s := PlayWin(fix, THREE, before, t, 0, {1}, 1);
    NotedSame(fix, before, t, Book(NO_REQUESTS, []), CountVotes(0, Granted({1}, 1)), s);
  }

  lemma AskedForVotes(fix: Fixes) returns (steps: seq<Step>, s: Cluster)
    ensures Reached(fix, THREE, steps, s) && Noted(fix, steps, s, Book(NO_REQUESTS, [])) && s.nodes.Keys == THREE
    ensures s.nodes[0] == StartElection(FRESH, 0) && VoteAnswer(ASK0, VoteReply(1, true, 1)) in s.net
    ensures s.nodes[1] == FRESH.(currentTerm := 1, votedFor := Some(0)) && s.nodes[2] == FRESH
  {
    hide After, BookAfter, Reached;
    var none := Book(NO_REQUESTS, []);
    var before, t := Start(fix, THREE);
    NothingNoted(fix, t);
    steps, s := PlayCampaign(fix, THREE, before, t, 0);
    NotedSame(fix, before, t, none, Campaign(0), s);
    before, t := steps, s;
    assert VoteAsk(1, ASK0) in t.net;
    steps, s := PlayVote(fix, THREE, before, t, 1, ASK0);
    NotedSame(fix, before, t, none, AnswerVote(1, ASK0), s);
  }

  lemma NothingNoted(fix: Fixes, s: Cluster)
    requires Reached(fix, THREE, [], s)
    ensures Noted(fix, [], s, Book(NO_REQUESTS, []))
  {
  }

  lemma Leader0Proposes()
    ensures LEADER0.role == Leader && Proposed(LEADER0, Other) == LEADER0.(log := [OLD])
  {
  }

  lemma Asks(fix: Fixes, s: Cluster)
    requires Enabled(s, Propose(0, Other)) && s.nodes[0] == LEADER0
    ensures BookStep(fix, s, 0, Act(Propose(0, Other)), Book(NO_REQUESTS, [])) == ASKED
  {
  }

  /** A leader of term 2 with `log`, where its next append to nodes 0 and 2 starts, and what it knows
      of them. */
  ghost predicate Leads(me: State, log: Log, next2: nat, match2: nat, done: Log) {
    && me.role == Leader && me.currentTerm == 2 && me.log == log
    && me.commitIndex == me.lastApplied == |done| && me.applied == done
    && NextOf(me, 0) == 1 && NextOf(me, 2) == next2 && MatchOf(me, 0) == 0 && MatchOf(me, 2) == match2
  }

  /** Node 1 wins term 2 with the vote of node 2. */
  lemma Deposed(fix: Fixes) returns (steps: seq<Step>, s: Cluster)
    ensures Noted(fix, steps, s, ASKED) && s.nodes.Keys == THREE
    ensures s.nodes[0] == LEADER0.(log := [OLD])
    ensures Leads(s.nodes[1], [], 1, 0, []) && s.nodes[2] == FRESH.(currentTerm := 2, votedFor := Some(1))
  {
    hide After, BookAfter, Reached, BecomeLeader, NextOf, MatchOf;
    var before, t := ProposedInVain(fix);
    steps, s := PlayCampaign(fix, THREE, before, t, 1);
    NotedSame(fix, before, t, ASKED, Campaign(1), s);
    assert VoteAsk(2, ASK) in s.net;
    before, t := steps, s;
    steps, s := PlayVote(fix, THREE, before, t, 2, ASK);
    NotedSame(fix, before, t, ASKED, AnswerVote(2, ASK), s);
    before, t := steps, s;
    assert THREE - {1} == {0, 2};
    steps, s := PlayWin(fix, THREE, before, t, 1, {2}, 2);
    NotedSame(fix, before, t, ASKED, CountVotes(1, Granted({2}, 2)), s);
    LeadsThree(t.nodes[1].(election := None));
  }

  lemma LeadsThree(me: State)
    requires me.currentTerm == 2 && me.log == [] && me.commitIndex == me.lastApplied == 0 && me.applied == []
    ensures Leads(BecomeLeader(me, 1, {0, 2}), [], 1, 0, [])
  {
  }

  /** It commits NEW with node 2. */
  lemma NewCommitted(fix: Fixes) returns (steps: seq<Step>, s: Cluster)
    ensures Noted(fix, steps, s, ASKED) && s.nodes.Keys == THREE
    ensures s.nodes[0] == LEADER0.(log := [OLD]) && Leads(s.nodes[1], [NEW], 2, 1, [NEW])
  {
    hide After, BookAfter, Reached, RequestFor, Proposed, OnAppend, OnAppendReply, NextOf, MatchOf;
    var before, t := Deposed(fix);
    steps, s := PlayPropose(fix, THREE, before, t, 1, UNLOCK);
    ProposesNew(t.nodes[1]);
    NotedSame(fix, before, t, ASKED, Propose(1, UNLOCK), s);
    before, t := steps, s;
    TakesNew(fix, t.nodes[2]);
    steps, s := PlayAppend(fix, THREE, before, t, 2, SEND, [NEW]);
    NotedSame(fix, before, t, ASKED, AnswerAppend(2, SEND, [NEW]), s);
    before, t := steps, s;
    CountsNew(fix, t.nodes[1]);
    steps, s := PlayReply(fix, THREE, before, t, 1, 2, SEND, AppendReply(2, true, 2));
    NotedSame(fix, before, t, ASKED, TakeReply(1, 2, SEND, AppendReply(2, true, 2)), s);
  }

  lemma ProposesNew(me: State)
    requires Leads(me, [], 1, 0, [])
    ensures var me' := Proposed(me, UNLOCK); Leads(me', [NEW], 1, 0, []) && RequestFor(me', 1, 2) == SEND
  {
    var me' := Proposed(me, UNLOCK);
    assert me'.log == [NEW] && me'.log[0..] == [NEW];
    assert NextOf(me', 0) == 1 && NextOf(me', 2) == 1;
  }

  lemma TakesNew(fix: Fixes, me: State)
    requires me == FRESH.(currentTerm := 2, votedFor := Some(1))
    ensures OnAppend(fix, me, 2, SEND).1 == AppendReply(2, true, 2)
  {
  }

  lemma CountsNew(fix: Fixes, me: State)
    requires Leads(me, [NEW], 1, 0, [])
    ensures Leads(OnAppendReply(fix, me, THREE - {1}, 2, SEND, AppendReply(2, true, 2)), [NEW], 2, 1, [NEW])
  {
    var mid := me.(nextIndex := me.nextIndex[2 := 2], matchIndex := me.matchIndex[2 := 1]);
    assert THREE - {1} == {0, 2};
    Counts(mid, {0, 2}, 1, {2});
    assert TopCommit(mid, {0, 2}, 1) == 1;
    assert [NEW][0..1] == [NEW];
  }

  /** Whatever is repaired: node 0 proposed OLD at index 1, applies NEW there, and answers its
      proposal true. */
  lemma TrueForAnotherCommand(fix: Fixes) returns (events: seq<Event>)
    ensures After(fix, THREE, StepsOf(events)).Some?
    ensures var s, b := After(fix, THREE, StepsOf(events)).value, BookAfter(fix, THREE, 0, events);
            && 0 in s.nodes && b == TOLD && s.nodes[0].applied == [NEW] && OLD.command != NEW.command
  {
    hide After, BookAfter, RequestFor, OnAppend, NextOf, MatchOf;
    var before, t := NewCommitted(fix);
    var steps, s := PlayHeartbeat(fix, THREE, before, t, 1);
    NotedSame(fix, before, t, ASKED, Heartbeat(1), s);
    Tells(t.nodes[1]);
    before, t := steps, s;
    Replaces(fix);
    steps, s := PlayAppend(fix, THREE, before, t, 0, TELL, [NEW]);
    NotedNext(fix, before, t, ASKED, AnswerAppend(0, TELL, [NEW]), s);
    Told(fix, t);
    events := Acts(steps);
    StepsOfActs(steps);
  }

  lemma Tells(me: State)
    requires Leads(me, [NEW], 2, 1, [NEW])
    ensures RequestFor(me, 1, 0) == TELL
  {
    assert [NEW][0..] == [NEW];
  }

  lemma Replaces(fix: Fixes)
    ensures OnAppend(fix, LEADER0.(log := [OLD]), 0, TELL).0.applied == [NEW]
  {
    assert [OLD][..0] + [NEW] == [NEW];
    assert [OLD][0..1] == [OLD] != [NEW] by { assert OLD != NEW; }
    assert [NEW][0..1] == [NEW];
  }

  lemma Told(fix: Fixes, s: Cluster)
    requires Enabled(s, AnswerAppend(0, TELL, [NEW])) && s.nodes[0].applied == []
    requires OnAppend(fix, s.nodes[0], 0, TELL).0.applied == [NEW]
    ensures BookStep(fix, s, 0, Act(AnswerAppend(0, TELL, [NEW])), ASKED) == TOLD
  {
    hide OnAppend;
    assert NewlyApplied([], [NEW]) == [NEW];
    assert [NEW][..0] == [];
    assert map[1 := 0 as nat] - {1} == map[];
    assert AnsweredAll(ASKED.requests, [NEW]) == Answered(ASKED.requests, 1);
  }
}
