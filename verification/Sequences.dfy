/** Sequences without repetition, and the set of what occurs in one. */
module Sequences {

  predicate Distinct<T(==)>(s: seq<T>) {
    forall i, j | 0 <= i < j < |s| :: s[i] != s[j]
  }

  function Members<T(==)>(s: seq<T>): set<T> {
    set i | 0 <= i < |s| :: s[i]
  }

  lemma MembersIn<T>(s: seq<T>)
    ensures forall x :: x in Members(s) <==> x in s
  {
  }

  lemma MembersSnoc<T>(s: seq<T>, x: T)
    ensures Members(s + [x]) == Members(s) + {x}
  {
    forall m ensures m in Members(s + [x]) <==> m in Members(s) + {x} {
      if m in Members(s) {
        var i :| 0 <= i < |s| && s[i] == m;
        assert (s + [x])[i] == m;
      }
      assert (s + [x])[|s|] == x;
    }
  }
}
