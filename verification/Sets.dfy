/** Facts about finite sets and prefixes of sequences that the protocol proofs share. */
module Sets {

  lemma SubsetSize<T>(small: set<T>, large: set<T>)
    requires small <= large
    ensures |small| <= |large|
  {
    assert large == small + (large - small);
  }

  /** Two majorities of one membership share a member. */
  lemma MajoritiesMeet<T>(all: set<T>, a: set<T>, b: set<T>) returns (common: T)
    requires a <= all && b <= all
    requires |a| >= |all| / 2 + 1 && |b| >= |all| / 2 + 1
    ensures common in a && common in b
  {
    if a * b == {} {
      assert |a + b| == |a| + |b|;
      SubsetSize(a + b, all);
      assert false;
    }
    common :| common in a * b;
  }
}
