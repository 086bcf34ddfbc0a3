/** Nothing is made up: every entry of a run was proposed to a leader. */
module RaftOrigins {
  import opened Options
  import opened Commands
  import opened RaftNode
  import opened RaftCluster
  import opened RaftElection
  import opened RaftLogs
  import opened RaftProposals

  /** The entries that clients' commands were given, each with the term of the leader it was proposed to
      and the place behind the leader's log. */
  ghost function EverProposed(fix: Fixes, ids: set<NodeId>, steps: seq<Step>): set<Entry> {
    if steps == [] then {}
    else
      var before, last := steps[..|steps| - 1], steps[|steps| - 1];
      var s := After(fix, ids, before);
      EverProposed(fix, ids, before)
      + if last.Propose? && s.Some? && last.n in s.value.nodes && s.value.nodes[last.n].role == Leader
        then {Entry(s.value.nodes[last.n].currentTerm, |s.value.nodes[last.n].log| + 1, last.command)} else {}
  }

  ghost predicate AllIn(log: Log, entries: set<Entry>) {
    forall i | 0 <= i < |log| :: log[i] in entries
  }

  ghost predicate NodesFrom(s: Cluster, entries: set<Entry>) {
    forall n | n in s.nodes :: AllIn(s.nodes[n].log, entries) && AllIn(s.nodes[n].applied, entries)
  }

  ghost predicate AppendsFrom(s: Cluster, entries: set<Entry>) {
    forall p | p in s.net && p.AppendAsk? :: AllIn(p.req.entries, entries)
  }

  lemma LogFrom(fix: Fixes, s: Cluster, step: Step, entries: set<Entry>, more: set<Entry>)
    requires Enabled(s, step) && NodesFrom(s, entries) && AppendsFrom(s, entries) && entries <= more
    requires step.Propose? ==>
               Entry(s.nodes[step.n].currentTerm, |s.nodes[step.n].log| + 1, step.command) in more
    ensures AllIn(LogAfter(fix, s.nodes[step.n], step), more)
  {
    hide HoldsEntries;
    assert AllIn(s.nodes[step.n].log, entries);
    if step.AnswerAppend? { assert AllIn(AppendAsk(step.n, step.req, step.sentLog).req.entries, entries); }
  }

  lemma AppliedIn(me: State, me': State, entries: set<Entry>)
    requires AppliesNext(me, me') && AllIn(me.applied, entries) && AllIn(me'.log, entries)
    ensures AllIn(me'.applied, entries)
  {
  }

  lemma RequestIn(me: State, n: NodeId, p: NodeId, entries: set<Entry>)
    requires AllIn(me.log, entries)
    ensures AllIn(RequestFor(me, n, p).entries, entries)
  {
  }

  lemma OriginStep(fix: Fixes, s: Cluster, step: Step, entries: set<Entry>, more: set<Entry>)
    requires Enabled(s, step) && ShapeInv(s) && NodesFrom(s, entries) && AppendsFrom(s, entries) && entries <= more
    requires step.Propose? ==>
               Entry(s.nodes[step.n].currentTerm, |s.nodes[step.n].log| + 1, step.command) in more
    ensures NodesFrom(Do(fix, s, step), more) && AppendsFrom(Do(fix, s, step), more)
  {
    hide NodeAfter, Sent, Cast, TermLogAfter, RequestFor, LogAfter, Wins, Shaped, ShapedRequest, AppliesNext, Enabled,
      BallotEffect;
    var s', n := Do(fix, s, step), step.n;
    LogEffectOf(fix, s, step);
    LogFrom(fix, s, step, entries, more);
    assert ShapedNode(s.nodes[n]);
    StepAppliesNext(fix, s, step);
    AppliedIn(s.nodes[n], s'.nodes[n], more);
    forall p | p in s'.net && p.AppendAsk? ensures AllIn(p.req.entries, more) {
      if p !in s.net { RequestIn(s'.nodes[n], n, p.to, more); }
    }
  }

  /** Validity, with no hypothesis and no repair: every entry in a log, among the applied ones or in an
      append was proposed by a client's call, with that command, to a leader of its term. */
  lemma {:induction false} EntriesWereProposed(fix: Fixes, ids: set<NodeId>, steps: seq<Step>)
    requires After(fix, ids, steps).Some?
    ensures var s, proposed := After(fix, ids, steps).value, EverProposed(fix, ids, steps);
            && (forall n | n in s.nodes :: AllIn(s.nodes[n].log, proposed) && AllIn(s.nodes[n].applied, proposed))
            && (forall p | p in s.net && p.AppendAsk? :: AllIn(p.req.entries, proposed))
  {
    hide Do, AllIn, ShapeInv;
    if steps == [] {
      NothingInitially(ids);
    } else {
      var before, last := steps[..|steps| - 1], steps[|steps| - 1];
      EntriesWereProposed(fix, ids, before);
      ShapeAlways(fix, ids, before);
      OriginStep(fix, After(fix, ids, before).value, last, EverProposed(fix, ids, before),
                 EverProposed(fix, ids, steps));
    }
  }

  lemma NothingInitially(ids: set<NodeId>)
    ensures NodesFrom(Initial(ids), {}) && AppendsFrom(Initial(ids), {})
  {
  }
}
