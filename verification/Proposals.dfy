/** What `propose` of src/consensus/raft.py answers. A proposal waits on a future that is stored under
    the index of its entry. An entry that is applied answers the future stored under its index; a wait
    that takes too long cancels its own future and then drops whatever is stored under the index. */
module Proposals {
  import opened RaftNode

  datatype Outcome = Waiting | Confirmed | Cancelled

  /** Futures are numbered in the order they are made in: `outcomes[t]` is the state of future `t`,
      and `pending` is `_pending_requests`. */
  datatype Requests = Requests(pending: map<nat, nat>, outcomes: seq<Outcome>)

  const NO_REQUESTS := Requests(map[], [])

  ghost predicate Sound(r: Requests) {
    forall i | i in r.pending :: r.pending[i] < |r.outcomes|
  }

  function Registered(r: Requests, index: nat): Requests {
    Requests(r.pending[index := |r.outcomes|], r.outcomes + [Waiting])
  }

  function Answered(r: Requests, index: nat): (q: Requests)
    requires Sound(r)
    ensures Sound(q) && |q.outcomes| == |r.outcomes|
  {
    if index !in r.pending then r
    else
      var t := r.pending[index];
      Requests(r.pending - {index}, if r.outcomes[t] == Waiting then r.outcomes[t := Confirmed] else r.outcomes)
  }

  function AnsweredAll(r: Requests, entries: Log): (q: Requests)
    requires Sound(r)
    ensures Sound(q) && |q.outcomes| == |r.outcomes|
  {
    if entries == [] then r
    else Answered(AnsweredAll(r, entries[..|entries| - 1]), entries[|entries| - 1].index)
  }

  function TimedOut(r: Requests, t: nat): Requests {
    if t < |r.outcomes| && r.outcomes[t] == Waiting then r.(outcomes := r.outcomes[t := Cancelled]) else r
  }

  function Withdrawn(r: Requests, index: nat): Requests {
    r.(pending := r.pending - {index})
  }

  /** What a handler has handed to the commit callbacks. */
  function NewlyApplied(before: Log, after: Log): Log {
    if |before| <= |after| then after[|before|..] else []
  }

  lemma {:induction false} AnsweredInTurn(r: Requests, a: Log, b: Log)
    requires Sound(r)
    ensures AnsweredAll(AnsweredAll(r, a), b) == AnsweredAll(r, a + b)
  {
    if b == [] {
      assert a + b == a;
    } else {
      assert (a + b)[..|a + b| - 1] == a + b[..|b| - 1];
      AnsweredInTurn(r, a, b[..|b| - 1]);
    }
  }

  /** First `before` grows to `between`, then that to `after`. */
  lemma AppliedInTurn(r: Requests, before: Log, between: Log, after: Log)
    requires Sound(r) && before <= between <= after
    ensures AnsweredAll(AnsweredAll(r, NewlyApplied(before, between)), NewlyApplied(between, after))
         == AnsweredAll(r, NewlyApplied(before, after))
  {
    hide AnsweredAll, NewlyApplied, Sound;
    AnsweredInTurn(r, NewlyApplied(before, between), NewlyApplied(between, after));
    NewOnesJoin(before, between, after);
  }

  lemma NewOnesJoin(before: Log, between: Log, after: Log)
    requires before <= between <= after
    ensures NewlyApplied(before, between) + NewlyApplied(between, after) == NewlyApplied(before, after)
  {
    assert after[|before|..|between|] == between[|before|..];
  }

  class PendingRequests {
    var pending: map<nat, nat>
    var outcomes: seq<Outcome>

    ghost predicate Valid()
      reads this
    {
      Sound(View())
    }

    ghost function View(): Requests
      reads this
    {
      Requests(pending, outcomes)
    }

    constructor ()
      ensures Valid() && View() == NO_REQUESTS
    {
      pending, outcomes := map[], [];
    }

    method Register(index: nat) returns (future: nat)
      requires Valid()
      modifies this
      ensures Valid() && View() == Registered(old(View()), index)
      ensures future == |old(outcomes)| && outcomes == old(outcomes) + [Waiting]
      ensures pending == old(pending)[index := future]
    {
      future := |outcomes|;
      outcomes := outcomes + [Waiting];
      pending := pending[index := future];
    }

    method Answer(index: nat)
      requires Valid()
      modifies this
      ensures Valid() && View() == Answered(old(View()), index)
      ensures pending == old(pending) - {index} && |outcomes| == |old(outcomes)|
      ensures forall t | 0 <= t < |outcomes| ::
                outcomes[t] == if index in old(pending) && old(pending)[index] == t && old(outcomes)[t] == Waiting
                               then Confirmed else old(outcomes)[t]
    {
      if index in pending {
        var future := pending[index];
        pending := pending - {index};
        if outcomes[future] == Waiting {
          outcomes := outcomes[future := Confirmed];
        }
      }
    }

    /** The wait for `future` has lasted too long. */
    method TimeOut(future: nat)
      requires Valid()
      modifies this`outcomes
      ensures Valid() && View() == TimedOut(old(View()), future) && |outcomes| == |old(outcomes)|
      ensures forall t | 0 <= t < |outcomes| ::
                outcomes[t] == if t == future && old(outcomes)[t] == Waiting then Cancelled else old(outcomes)[t]
    {
      if future < |outcomes| && outcomes[future] == Waiting {
        outcomes := outcomes[future := Cancelled];
      }
    }

    /** The wait for `future` is over: the answer is true exactly if the future was confirmed. */
    method Conclude(future: nat, index: nat) returns (answer: bool)
      requires Valid() && future < |outcomes| && outcomes[future] != Waiting
      modifies this`pending
      ensures Valid() && answer == (outcomes[future] == Confirmed)
      ensures View() == if answer then old(View()) else Withdrawn(old(View()), index)
      ensures pending == if answer then old(pending) else old(pending) - {index}
    {
      answer := outcomes[future] == Confirmed;
      if !answer {
        pending := pending - {index};
      }
    }
  }
}
