/** Least recently used: what the order of a cache says, what is evicted, and what is sure to stay. */
module Recency {
  import opened Options
  import opened Sequences
  import opened Sets
  import opened Lru

  // ----- Field by field -----

  /** `t` is `s` with `key` moved to the end, the others left in their order. */
  ghost predicate MovedLast(s: seq<Key>, key: Key, t: seq<Key>) {
    exists i | 0 <= i < |s| :: s[i] == key && t == s[..i] + s[i + 1..] + [key]
  }

  lemma {:induction false} WithoutAt(s: seq<Key>, i: nat)
    requires Distinct(s) && i < |s|
    ensures Without(s, s[i]) == s[..i] + s[i + 1..]
  {
    var front := s[..|s| - 1];
    if i == |s| - 1 {
      WithoutAbsent(front, s[i]);
      assert s[..i] + s[i + 1..] == front;
    } else {
      WithoutAt(front, i);
      assert front[..i] + front[i + 1..] + [s[|s| - 1]] == s[..i] + s[i + 1..];
    }
  }

  lemma TouchedMovesLast(s: seq<Key>, key: Key)
    requires Distinct(s)
    ensures if key in s then MovedLast(s, key, Touched(s, key)) else Touched(s, key) == s + [key]
  {
    if key in s {
      var i :| 0 <= i < |s| && s[i] == key;
      WithoutAt(s, i);
    } else {
      WithoutAbsent(s, key);
    }
  }

  /** A look-up that hits is a use: it makes the key the newest, and leaves all lines as they are. */
  lemma LookupExactly(c: Cache, size: nat, key: Key)
    requires WellFormed(c, size)
    ensures var d := Get(c, key);
            d.lines == c.lines && if key in c.lines then MovedLast(c.order, key, d.order) else d.order == c.order
  {
    hide Without;
    TouchedMovesLast(c.order, key);
  }

  // ----- The order is that of last uses -----

  /** When `key` was last stored or found, counted from one; zero if never. */
  function LastUse(size: nat, uses: seq<Use>, key: Key): (n: nat)
    ensures n <= |uses|
  {
    if uses == [] then 0
    else
      var before, last := uses[..|uses| - 1], uses[|uses| - 1];
      if last.key == key && (last.Store? || key in After(size, before).lines) then |uses|
      else LastUse(size, before, key)
  }

  ghost predicate ByLastUse(size: nat, uses: seq<Use>, s: seq<Key>) {
    && (forall i | 0 <= i < |s| :: LastUse(size, uses, s[i]) > 0)
    && forall i, j | 0 <= i < j < |s| :: LastUse(size, uses, s[i]) < LastUse(size, uses, s[j])
  }

  lemma {:induction false} WithoutByLastUse(size: nat, uses: seq<Use>, s: seq<Key>, key: Key)
    requires Distinct(s) && ByLastUse(size, uses, s)
    ensures ByLastUse(size, uses, Without(s, key))
  {
    hide LastUse, Without;
    if key in s {
      var i :| 0 <= i < |s| && s[i] == key;
      WithoutAt(s, i);
    } else {
      WithoutAbsent(s, key);
    }
  }

  /** One more use, of `key`, is later than all others. */
  lemma TouchedByLastUse(size: nat, uses: seq<Use>, before: seq<Use>, s: seq<Key>, key: Key)
    requires uses != [] && before == uses[..|uses| - 1] && uses[|uses| - 1].key == key
    requires Distinct(s) && ByLastUse(size, before, s)
    requires LastUse(size, uses, key) == |uses|
    ensures ByLastUse(size, uses, Touched(s, key))
  {
    hide Without;
    WithoutFacts(s, key);
    WithoutByLastUse(size, before, s, key);
    var t := Without(s, key);
    assert forall i | 0 <= i < |t| :: t[i] in t && LastUse(size, uses, t[i]) == LastUse(size, before, t[i]);
  }

  lemma SameLastUse(size: nat, uses: seq<Use>, s: seq<Key>)
    requires uses != [] && ByLastUse(size, uses[..|uses| - 1], s)
    requires uses[|uses| - 1].Lookup? && uses[|uses| - 1].key !in After(size, uses[..|uses| - 1]).lines
    ensures ByLastUse(size, uses, s)
  {
  }

  /** After every sequence of uses, the order lists exactly the stored keys, by the time of their last
      use: a look-up that hits counts as one, a look-up that misses does not. */
  lemma {:induction false} OrderIsByLastUse(size: nat, uses: seq<Use>)
    ensures WellFormed(After(size, uses), size) && ByLastUse(size, uses, After(size, uses).order)
  {
    hide Touched, WellFormed, LastUse;
    LargerCacheKeepsMore(size, size, uses);
    if uses != [] {
      var before, last := uses[..|uses| - 1], uses[|uses| - 1];
      OrderIsByLastUse(size, before);
      var c := After(size, before);
      WellFormedOrder(c, size);
      UsedNow(size, uses);
      if last.Store? || last.key in c.lines {
        TouchedByLastUse(size, uses, before, c.order, last.key);
      } else {
        SameLastUse(size, uses, c.order);
      }
    }
  }

  lemma WellFormedOrder(c: Cache, size: nat)
    requires WellFormed(c, size)
    ensures Distinct(c.order)
  {
  }

  lemma UsedNow(size: nat, uses: seq<Use>)
    requires uses != []
    ensures var before, last := uses[..|uses| - 1], uses[|uses| - 1];
            last.Store? || last.key in After(size, before).lines ==> LastUse(size, uses, last.key) == |uses|
  {
  }

  /** What a store evicts was used before everything that stays, and only a full cache evicts. */
  lemma EvictsLeastRecent(size: nat, uses: seq<Use>, gone: Key)
    requires uses != [] && uses[|uses| - 1].Store? && gone != uses[|uses| - 1].key
    requires gone in After(size, uses[..|uses| - 1]).lines && gone !in After(size, uses).lines
    ensures |After(size, uses).order| == size
    ensures forall k | k in After(size, uses).lines && k != uses[|uses| - 1].key ::
              LastUse(size, uses[..|uses| - 1], gone) < LastUse(size, uses[..|uses| - 1], k)
  {
    hide Touched, LastUse, After, Newest;
    var before, last := uses[..|uses| - 1], uses[|uses| - 1];
    var c, d := After(size, before), After(size, uses);
    OrderIsByLastUse(size, before);
    OrderIsByLastUse(size, uses);
    StoredOrder(size, uses);
    Dropped(c.order, last.key, size, gone);
    forall k | k in d.lines && k != last.key ensures LastUse(size, before, gone) < LastUse(size, before, k) {
      DroppedIsOlder(size, before, c.order, last.key, size, gone, k);
    }
  }

  lemma StoredOrder(size: nat, uses: seq<Use>)
    requires uses != [] && uses[|uses| - 1].Store?
    ensures var c := After(size, uses[..|uses| - 1]);
            After(size, uses).order == Newest(Touched(c.order, uses[|uses| - 1].key), size)
  {
  }

  /** The newest `n` are the last `n`. */
  lemma NewestAre(s: seq<Key>, n: nat)
    ensures forall i | 0 <= i < |s| && i >= |s| - n :: s[i] in Newest(s, n)
    ensures forall k | k in Newest(s, n) :: exists i | 0 <= i < |s| && i >= |s| - n :: s[i] == k
    ensures |Newest(s, n)| == if |s| <= n then |s| else n
  {
    if |s| > n {
      assert forall i | |s| - n <= i < |s| :: Newest(s, n)[i - (|s| - n)] == s[i];
    }
  }

  lemma Dropped(s: seq<Key>, key: Key, n: nat, gone: Key)
    requires Distinct(s) && gone in s && gone != key && gone !in Newest(Touched(s, key), n)
    ensures |Newest(Touched(s, key), n)| == n
    ensures var t := Without(s, key);
            n <= |t| && gone in t && forall i | 0 <= i < |t| && t[i] == gone :: i < |t| + 1 - n
  {
    hide Without, Newest;
    WithoutFacts(s, key);
    NewestAre(Touched(s, key), n);
    var t := Without(s, key);
    assert forall i | 0 <= i < |t| :: Touched(s, key)[i] == t[i];
  }

  lemma DroppedIsOlder(size: nat, uses: seq<Use>, s: seq<Key>, key: Key, n: nat, gone: Key, k: Key)
    requires Distinct(s) && ByLastUse(size, uses, s)
    requires gone in s && gone != key && gone !in Newest(Touched(s, key), n)
    requires k in Newest(Touched(s, key), n) && k != key
    ensures LastUse(size, uses, gone) < LastUse(size, uses, k)
  {
    hide Without, LastUse, Newest;
    Dropped(s, key, n, gone);
    WithoutByLastUse(size, uses, s, key);
    NewestAre(Touched(s, key), n);
    var t := Without(s, key);
    var i :| 0 <= i < |t| && t[i] == gone;
    var j :| 0 <= j < |t| + 1 && j >= |t| + 1 - n && Touched(s, key)[j] == k;
    assert t[j] == k;
  }

  // ----- What is sure to stay -----

  /** The keys other than `key` that have been used since. */
  function OthersUsed(uses: seq<Use>, from: nat, key: Key): set<Key> {
    set j | from <= j < |uses| && uses[j].key != key :: uses[j].key
  }

  /** `key` is in the order, with nothing but `others` behind it. */
  ghost predicate OnlyBehind(s: seq<Key>, key: Key, others: set<Key>) {
    exists p | 0 <= p < |s| :: s[p] == key && forall q | p < q < |s| :: s[q] in others
  }

  lemma WithoutBehind(s: seq<Key>, key: Key, others: set<Key>, k: Key)
    requires Distinct(s) && OnlyBehind(s, key, others) && k != key
    ensures OnlyBehind(Without(s, k), key, others)
  {
    hide Without;
    if k in s {
      var i :| 0 <= i < |s| && s[i] == k;
      var p :| 0 <= p < |s| && s[p] == key && forall q | p < q < |s| :: s[q] in others;
      WithoutAt(s, i);
      assert Without(s, k)[if i < p then p - 1 else p] == key;
    } else {
      WithoutAbsent(s, k);
    }
  }

  lemma TouchedBehind(s: seq<Key>, key: Key, others: set<Key>, k: Key)
    requires Distinct(s) && OnlyBehind(s, key, others) && k != key
    ensures OnlyBehind(Touched(s, k), key, others + {k})
  {
    hide Without;
    WithoutBehind(s, key, others, k);
    var t := Without(s, k);
    var p :| 0 <= p < |t| && t[p] == key && forall q | p < q < |t| :: t[q] in others;
    assert Touched(s, k)[p] == key;
  }

  /** Distinct keys out of `others` are at most as many. */
  lemma {:induction false} AtMostOthers(s: seq<Key>, others: set<Key>)
    requires Distinct(s) && forall q | 0 <= q < |s| :: s[q] in others
    ensures |s| <= |others|
  {
    if s != [] {
      AtMostOthers(s[..|s| - 1], others - {s[|s| - 1]});
    }
  }

  lemma NewestBehind(s: seq<Key>, key: Key, others: set<Key>, n: nat)
    requires Distinct(s) && OnlyBehind(s, key, others) && |others| < n
    ensures OnlyBehind(Newest(s, n), key, others)
  {
    var p :| 0 <= p < |s| && s[p] == key && forall q | p < q < |s| :: s[q] in others;
    AtMostOthers(s[p + 1..], others);
    if |s| > n { assert Newest(s, n)[p - (|s| - n)] == key; }
  }

  lemma UseBehind(size: nat, c: Cache, use: Use, key: Key, others: set<Key>)
    requires WellFormed(c, size) && size >= 1 && OnlyBehind(c.order, key, others)
    requires |if use.key == key then others else others + {use.key}| < size
    ensures OnlyBehind(Used(c, size, use).order, key, if use.key == key then others else others + {use.key})
  {
    hide Touched, Newest, Without;
    if use.key != key {
      TouchedBehind(c.order, key, others, use.key);
      MoreBehind(c.order, key, others, others + {use.key});
    } else {
      LastBehind(c.order, key, others);
    }
    TouchedFacts(c.order, use.key);
    if use.Store? {
      NewestBehind(Touched(c.order, use.key), key, if use.key == key then others else others + {use.key}, size);
    }
  }

  lemma MoreBehind(s: seq<Key>, key: Key, others: set<Key>, more: set<Key>)
    requires OnlyBehind(s, key, others) && others <= more
    ensures OnlyBehind(s, key, more)
  {
  }

  lemma LastBehind(s: seq<Key>, key: Key, others: set<Key>)
    ensures OnlyBehind(Touched(s, key), key, others)
  {
    hide Without;
    assert Touched(s, key)[|Without(s, key)|] == key;
  }

  /** What has just been found or stored stays until as many different other keys have been used as the
      cache has room for. */
  lemma {:induction false} StaysUntilOthersUsed(size: nat, uses: seq<Use>, i: nat, key: Key)
    requires i < |uses| && uses[i].key == key && (uses[i].Store? || key in After(size, uses[..i]).lines)
    requires |OthersUsed(uses, i + 1, key)| < size
    ensures key in After(size, uses).lines
    ensures OnlyBehind(After(size, uses).order, key, OthersUsed(uses, i + 1, key))
  {
    hide After, Used, OnlyBehind;
    var before, last := uses[..|uses| - 1], uses[|uses| - 1];
    OrderIsByLastUse(size, before);
    OrderIsByLastUse(size, uses);
    AfterLast(size, uses);
    if i == |uses| - 1 {
      JustUsed(size, After(size, before), last);
      MoreBehind(After(size, uses).order, key, {}, OthersUsed(uses, i + 1, key));
    } else {
      assert before[..i] == uses[..i];
      OneMoreUsed(uses, i + 1, key);
      StaysUntilOthersUsed(size, before, i, key);
      UseBehind(size, After(size, before), last, key, OthersUsed(before, i + 1, key));
    }
    BehindStored(After(size, uses), size, key, OthersUsed(uses, i + 1, key));
  }

  lemma AfterLast(size: nat, uses: seq<Use>)
    requires uses != []
    ensures After(size, uses) == Used(After(size, uses[..|uses| - 1]), size, uses[|uses| - 1])
  {
  }

  lemma JustUsed(size: nat, c: Cache, use: Use)
    requires WellFormed(c, size) && size >= 1 && (use.Store? || use.key in c.lines)
    ensures OnlyBehind(Used(c, size, use).order, use.key, {})
  {
    hide Touched, Newest;
    LastBehind(c.order, use.key, {});
    TouchedFacts(c.order, use.key);
    if use.Store? { NewestBehind(Touched(c.order, use.key), use.key, {}, size); }
  }

  lemma OneMoreUsed(uses: seq<Use>, from: nat, key: Key)
    requires from < |uses|
    ensures var before, last := uses[..|uses| - 1], uses[|uses| - 1];
            && OthersUsed(uses, from, key)
            == OthersUsed(before, from, key) + (if last.key == key then {} else {last.key})
            && |OthersUsed(before, from, key)| <= |OthersUsed(uses, from, key)|
  {
    var before, last := uses[..|uses| - 1], uses[|uses| - 1];
    forall k | k in OthersUsed(before, from, key) ensures k in OthersUsed(uses, from, key) {
      var j :| from <= j < |before| && before[j].key != key && before[j].key == k;
      assert uses[j].key == k;
    }
    forall k | k in OthersUsed(uses, from, key)
      ensures k in OthersUsed(before, from, key) || (k == last.key && k != key)
    {
      var j :| from <= j < |uses| && uses[j].key != key && uses[j].key == k;
      assert j < |before| ==> before[j].key == k;
    }
    SubsetSize(OthersUsed(before, from, key), OthersUsed(uses, from, key));
  }

  lemma BehindStored(c: Cache, size: nat, key: Key, others: set<Key>)
    requires WellFormed(c, size) && OnlyBehind(c.order, key, others)
    ensures key in c.lines
  {
  }
}
