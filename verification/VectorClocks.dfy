/** `VectorClock` of src/geo/replicator.py: its loops over dictionaries, and the order they compute.
    A node missing from a clock counts as zero. */
module VectorClocks {

  type NodeId = string
  type Clock = map<NodeId, nat>

  function Get(c: Clock, k: NodeId): nat {
    if k in c then c[k] else 0
  }

  // ----- The order -----

  /** `a` is nowhere ahead of `b`. */
  ghost predicate Leq(a: Clock, b: Clock) {
    forall k :: Get(a, k) <= Get(b, k)
  }

  /** Equal, with missing entries as zero. */
  ghost predicate Same(a: Clock, b: Clock) {
    forall k :: Get(a, k) == Get(b, k)
  }

  /** `a` happened after `b`: what the source calls `a` dominates `b`. */
  ghost predicate Ahead(a: Clock, b: Clock) {
    Leq(b, a) && !Leq(a, b)
  }

  ghost predicate Concurrent(a: Clock, b: Clock) {
    !Leq(a, b) && !Leq(b, a)
  }

  function Incremented(c: Clock, k: NodeId): Clock {
    c[k := Get(c, k) + 1]
  }

  function Max(a: nat, b: nat): nat {
    if a < b then b else a
  }

  function Merged(a: Clock, b: Clock): Clock {
    map k | k in a.Keys + b.Keys :: Max(Get(a, k), Get(b, k))
  }

  /** Exactly one of: equal, after, before, concurrent. */
  lemma ExactlyOne(a: Clock, b: Clock)
    ensures multiset{Same(a, b), Ahead(a, b), Ahead(b, a), Concurrent(a, b)}[true] == 1
    ensures Same(a, b) <==> Leq(a, b) && Leq(b, a)
  {
    if Leq(a, b) && Leq(b, a) {
      assert forall k :: Get(a, k) <= Get(b, k) && Get(b, k) <= Get(a, k);
    }
  }

  lemma AheadIsStrictOrder(a: Clock, b: Clock, c: Clock)
    ensures !Ahead(a, a)
    ensures Ahead(a, b) && Ahead(b, c) ==> Ahead(a, c)
  {
    if Ahead(a, b) && Ahead(b, c) {
      assert forall k :: Get(c, k) <= Get(b, k) && Get(b, k) <= Get(a, k);
      var k :| Get(a, k) > Get(b, k);
      assert Get(a, k) > Get(c, k);
    }
  }

  /** `merge` is the least upper bound. */
  lemma MergedIsLeast(a: Clock, b: Clock, c: Clock)
    ensures Leq(a, Merged(a, b)) && Leq(b, Merged(a, b))
    ensures Leq(Merged(a, b), c) <==> Leq(a, c) && Leq(b, c)
  {
    MergedGet(a, b);
    forall k ensures Get(a, k) <= Get(Merged(a, b), k) && Get(b, k) <= Get(Merged(a, b), k) {
      assert Get(Merged(a, b), k) == Max(Get(a, k), Get(b, k));
    }
    if Leq(a, c) && Leq(b, c) {
      forall k ensures Get(Merged(a, b), k) <= Get(c, k) {
        assert Get(a, k) <= Get(c, k) && Get(b, k) <= Get(c, k);
      }
    }
  }

  lemma MergedGet(a: Clock, b: Clock)
    ensures forall k :: Get(Merged(a, b), k) == Max(Get(a, k), Get(b, k))
  {
  }

  // ----- The object -----

  /** The other clock of a method is only read, so it is passed by value. */
  class VectorClock {
    var clock: Clock

    constructor (clock: Clock)
      ensures this.clock == clock
    {
      this.clock := clock;
    }

    method Increment(node: NodeId)
      modifies this
      ensures clock == Incremented(old(clock), node)
    {
      clock := clock[node := (if node in clock then clock[node] else 0) + 1];
    }

    method Merge(other: Clock)
      modifies this
      ensures clock == Merged(old(clock), other)
    {
      var todo := other.Keys;
      while todo != {}
        invariant todo <= other.Keys
        invariant clock.Keys == old(clock).Keys + (other.Keys - todo)
        invariant forall k | k in clock ::
            clock[k] == if k in todo then old(clock)[k] else Max(Get(old(clock), k), Get(other, k))
        decreases todo
      {
        var k :| k in todo;
        clock := clock[k := Max(if k in clock then clock[k] else 0, other[k])];
        todo := todo - {k};
      }
    }

    method IsConcurrent(other: Clock) returns (answer: bool)
      ensures answer <==> Concurrent(clock, other)
    {
      var selfGte, otherGte := true, true;
      var all := clock.Keys + other.Keys;
      var todo := all;
      while todo != {}
        invariant todo <= all
        invariant selfGte <==> forall k | k in all - todo :: Get(other, k) <= Get(clock, k)
        invariant otherGte <==> forall k | k in all - todo :: Get(clock, k) <= Get(other, k)
        decreases todo
      {
        var k :| k in todo;
        todo := todo - {k};
        var sv, ov := Get(clock, k), Get(other, k);
        if sv < ov { selfGte := false; }
        if ov < sv { otherGte := false; }
      }
      LeqOnKeys(clock, other);
      LeqOnKeys(other, clock);
      answer := !selfGte && !otherGte;
    }

    method Dominates(other: Clock) returns (answer: bool)
      ensures answer <==> Ahead(clock, other)
    {
      var dominated := false;
      var all := clock.Keys + other.Keys;
      var todo := all;
      LeqOnKeys(clock, other);
      LeqOnKeys(other, clock);
      while todo != {}
        invariant todo <= all
        invariant forall k | k in all - todo :: Get(other, k) <= Get(clock, k)
        invariant dominated <==> exists k :: k in all - todo && Get(clock, k) > Get(other, k)
        decreases todo
      {
        var k :| k in todo;
        todo := todo - {k};
        var sv, ov := Get(clock, k), Get(other, k);
        if sv < ov { return false; }
        if sv > ov { dominated := true; }
      }
      answer := dominated;
    }
  }

  lemma LeqOnKeys(a: Clock, b: Clock)
    ensures Leq(a, b) <==> forall k | k in a.Keys + b.Keys :: Get(a, k) <= Get(b, k)
  {
    if forall k | k in a.Keys + b.Keys :: Get(a, k) <= Get(b, k) {
      forall k ensures Get(a, k) <= Get(b, k) {
        if k in a { assert k in a.Keys + b.Keys; }
      }
    }
  }
}
