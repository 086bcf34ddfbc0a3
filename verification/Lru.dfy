/** `LRUCache` of src/nodes/cache_node.py: recency order, eviction, and what a larger cache keeps. */
module Lru {
  import opened Options
  import opened Sequences

  type Key = string

  /** `Null` is a stored Python `None`. */
  datatype Value = Null | Data(text: string)
  datatype LineState = Modified | Exclusive | Shared | Invalid
  datatype Line = Line(value: Value, state: LineState)

  /** `order` lists the keys from the least to the most recently used. */
  datatype Cache = Cache(order: seq<Key>, lines: map<Key, Line>)

  const EMPTY := Cache([], map[])

  function Without(s: seq<Key>, key: Key): seq<Key> {
    if s == [] then []
    else Without(s[..|s| - 1], key) + if s[|s| - 1] == key then [] else [s[|s| - 1]]
  }

  function Touched(s: seq<Key>, key: Key): seq<Key> {
    Without(s, key) + [key]
  }

  function Newest(s: seq<Key>, size: nat): seq<Key> {
    if |s| <= size then s else s[|s| - size..]
  }

  function Restricted(lines: map<Key, Line>, s: seq<Key>): map<Key, Line> {
    map k | k in lines && k in s :: lines[k]
  }

  function Get(c: Cache, key: Key): Cache {
    if key in c.lines then c.(order := Touched(c.order, key)) else c
  }

  /** `put`: the key becomes the newest, and the oldest go until `size` are left. */
  function Put(c: Cache, size: nat, key: Key, line: Line): Cache {
    var kept := Newest(Touched(c.order, key), size);
    Cache(kept, Restricted(c.lines[key := line], kept))
  }

  function Invalidated(c: Cache, key: Key): Cache {
    if key in c.lines then c.(lines := c.lines[key := c.lines[key].(state := Invalid)]) else c
  }

  // ----- Order and lines agree -----

  ghost predicate WellFormed(c: Cache, size: nat) {
    Distinct(c.order) && (forall k :: k in c.order <==> k in c.lines) && |c.order| <= size
  }

  lemma {:induction false} WithoutFacts(s: seq<Key>, key: Key)
    requires Distinct(s)
    ensures Distinct(Without(s, key)) && forall k :: k in Without(s, key) <==> k in s && k != key
    ensures |Without(s, key)| == if key in s then |s| - 1 else |s|
  {
    if s != [] {
      var front := s[..|s| - 1];
      WithoutFacts(front, key);
      assert s == front + [s[|s| - 1]];
      assert forall i | 0 <= i < |Without(front, key)| :: Without(front, key)[i] in front;
    }
  }

  lemma TouchedFacts(s: seq<Key>, key: Key)
    requires Distinct(s)
    ensures Distinct(Touched(s, key)) && forall k :: k in Touched(s, key) <==> k in s || k == key
    ensures |Touched(s, key)| == if key in s then |s| else |s| + 1
  {
    hide Without;
    WithoutFacts(s, key);
    assert forall i | 0 <= i < |Without(s, key)| :: Without(s, key)[i] in Without(s, key);
  }

  lemma NewestFacts(s: seq<Key>, size: nat)
    requires Distinct(s)
    ensures Distinct(Newest(s, size)) && |Newest(s, size)| <= size && forall k | k in Newest(s, size) :: k in s
  {
  }

  lemma GetKeeps(c: Cache, size: nat, key: Key)
    requires WellFormed(c, size)
    ensures WellFormed(Get(c, key), size)
  {
    hide Touched;
    TouchedFacts(c.order, key);
  }

  /** The size never exceeds the limit, and the order lists exactly the stored keys. */
  lemma PutKeeps(c: Cache, size: nat, key: Key, line: Line)
    requires WellFormed(c, size)
    ensures WellFormed(Put(c, size, key, line), size)
  {
    hide Touched, Newest;
    TouchedFacts(c.order, key);
    NewestFacts(Touched(c.order, key), size);
  }

  // ----- A larger cache keeps more -----

  /** A use of the cache: a look-up, or a store. */
  datatype Use = Lookup(key: Key) | Store(key: Key, line: Line)

  function Used(c: Cache, size: nat, use: Use): Cache {
    match use
    case Lookup(key) => Get(c, key)
    case Store(key, line) => Put(c, size, key, line)
  }

  function After(size: nat, uses: seq<Use>): Cache {
    if uses == [] then EMPTY else Used(After(size, uses[..|uses| - 1]), size, uses[|uses| - 1])
  }

  predicate Subsequence(s: seq<Key>, t: seq<Key>) {
    s == [] || (t != []
      && if s[|s| - 1] == t[|t| - 1] then Subsequence(s[..|s| - 1], t[..|t| - 1]) else Subsequence(s, t[..|t| - 1]))
  }

  lemma {:induction false} SubsequenceMembers(s: seq<Key>, t: seq<Key>)
    requires Subsequence(s, t)
    ensures (forall k | k in s :: k in t) && |s| <= |t|
  {
    if s != [] {
      if s[|s| - 1] == t[|t| - 1] {
        SubsequenceMembers(s[..|s| - 1], t[..|t| - 1]);
        assert s == s[..|s| - 1] + [s[|s| - 1]];
      } else {
        SubsequenceMembers(s, t[..|t| - 1]);
      }
    }
  }

  lemma SubsequenceSnoc(s: seq<Key>, t: seq<Key>, key: Key)
    requires Subsequence(s, t)
    ensures Subsequence(s + [key], t + [key])
  {
    assert (s + [key])[..|s|] == s && (t + [key])[..|t|] == t;
  }

  lemma SubsequenceFront(s: seq<Key>, t: seq<Key>)
    requires Subsequence(s, t) && s != []
    ensures Subsequence(s[..|s| - 1], t)
    decreases |t|
  {
    var front := s[..|s| - 1];
    if s[|s| - 1] == t[|t| - 1] {
      if front != [] && front[|front| - 1] == t[|t| - 1] {
        SubsequenceFront(front, t[..|t| - 1]);
      }
    } else {
      SubsequenceFront(s, t[..|t| - 1]);
      if front != [] && front[|front| - 1] == t[|t| - 1] {
        SubsequenceFront(front, t[..|t| - 1]);
      }
    }
  }

  lemma WithoutLast(s: seq<Key>, key: Key)
    ensures Without([], key) == []
    ensures s != [] ==>
              Without(s, key) == if s[|s| - 1] == key then Without(s[..|s| - 1], key)
                  else Without(s[..|s| - 1], key) + [s[|s| - 1]]
  {
    if s != [] && s[|s| - 1] == key {
      assert Without(s[..|s| - 1], key) + [] == Without(s[..|s| - 1], key);
    }
  }

  lemma {:induction false} SubsequenceWithout(s: seq<Key>, t: seq<Key>, key: Key)
    requires Subsequence(s, t)
    ensures Subsequence(Without(s, key), Without(t, key))
  {
    hide Without;
    WithoutLast(s, key);
    WithoutLast(t, key);
    if s != [] {
      var s', t' := s[..|s| - 1], t[..|t| - 1];
      if s[|s| - 1] == t[|t| - 1] {
        SubsequenceWithout(s', t', key);
        SubsequenceSnoc(Without(s', key), Without(t', key), s[|s| - 1]);
      } else {
        SubsequenceWithout(s, t', key);
        SubsequenceLonger(Without(s, key), Without(t', key), t[|t| - 1]);
      }
    }
  }

  lemma SubsequenceLonger(s: seq<Key>, t: seq<Key>, key: Key)
    requires Subsequence(s, t)
    ensures Subsequence(s, t + [key])
  {
    assert (t + [key])[..|t|] == t;
    if s != [] && s[|s| - 1] == key { SubsequenceFront(s, t); }
  }

  lemma {:induction false} WithoutAbsent(s: seq<Key>, key: Key)
    requires key !in s
    ensures Without(s, key) == s
  {
    if s != [] {
      assert s[|s| - 1] in s;
      WithoutAbsent(s[..|s| - 1], key);
    }
  }

  /** Dropping the oldest of both, or of the shorter alone, or of the longer if the shorter lacks it. */
  lemma {:induction false} SubsequenceDropBoth(s: seq<Key>, t: seq<Key>)
    requires Subsequence(s, t) && s != [] && t != []
    ensures Subsequence(s[1..], t[1..])
  {
    if |s| > 1 {
      SubsequenceMembers(s, t);
      var s', t' := s[..|s| - 1], t[..|t| - 1];
      if s[|s| - 1] == t[|t| - 1] {
        SubsequenceDropBoth(s', t');
        assert s[1..][..|s| - 2] == s'[1..] && t[1..][..|t| - 2] == t'[1..];
      } else {
        SubsequenceDropBoth(s, t');
        assert t[1..][..|t| - 2] == t'[1..];
      }
    }
  }

  lemma {:induction false} SubsequenceDropShort(s: seq<Key>, t: seq<Key>)
    requires Subsequence(s, t) && s != []
    ensures Subsequence(s[1..], t)
  {
    if |s| > 1 {
      var s', t' := s[..|s| - 1], t[..|t| - 1];
      if s[|s| - 1] == t[|t| - 1] {
        SubsequenceDropShort(s', t');
        assert s[1..][..|s| - 2] == s'[1..];
      } else {
        SubsequenceDropShort(s, t');
      }
    }
  }

  lemma {:induction false} SubsequenceDropLong(s: seq<Key>, t: seq<Key>)
    requires Subsequence(s, t) && t != [] && t[0] !in s
    ensures Subsequence(s, t[1..])
  {
    if s != [] {
      assert s[|s| - 1] in s;
      var s', t' := s[..|s| - 1], t[..|t| - 1];
      if s[|s| - 1] == t[|t| - 1] {
        SubsequenceDropLong(s', t');
      } else {
        SubsequenceDropLong(s, t');
      }
      assert t[1..][..|t| - 2] == t'[1..];
    }
  }

  /** Either the smaller cache holds all that the larger one holds, or it is full. */
  ghost predicate Inclusion(small: nat, s: seq<Key>, t: seq<Key>, large: nat) {
    && Distinct(s) && Distinct(t) && |s| <= small <= large && |t| <= large
    && Subsequence(s, t) && (s == t || |s| == small)
  }

  lemma StoreKeepsInclusion(small: nat, s: seq<Key>, t: seq<Key>, large: nat, key: Key)
    requires Inclusion(small, s, t, large)
    ensures Inclusion(small, Newest(Touched(s, key), small), Newest(Touched(t, key), large), large)
  {
    hide Subsequence, Without;
    TouchedFacts(s, key);
    TouchedFacts(t, key);
    SubsequenceWithout(s, t, key);
    var s', t' := Touched(s, key), Touched(t, key);
    SubsequenceSnoc(Without(s, key), Without(t, key), key);
    NewestFacts(s', small);
    NewestFacts(t', large);
    SubsequenceMembers(s, t);
    if |t'| > large {
      WithoutAbsent(t, key);
      WithoutAbsent(s, key);
      if |s'| > small { SubsequenceDropBoth(s', t'); }
    } else if |s'| > small {
      SubsequenceDropShort(s', t');
    }
    NewestDropsOne(s', small);
    NewestDropsOne(t', large);
  }

  lemma NewestDropsOne(s: seq<Key>, size: nat)
    requires |s| <= size + 1
    ensures Newest(s, size) == if |s| == size + 1 then s[1..] else s
  {
  }

  lemma LookupKeepsInclusion(small: nat, s: seq<Key>, t: seq<Key>, large: nat, key: Key)
    requires Inclusion(small, s, t, large)
    ensures var s', t' := if key in s then Touched(s, key) else s, if key in t then Touched(t, key) else t;
            Inclusion(small, s', t', large)
  {
    hide Subsequence, Without, Newest;
    SubsequenceMembers(s, t);
    TouchedFacts(s, key);
    TouchedFacts(t, key);
    SubsequenceWithout(s, t, key);
    SubsequenceSnoc(Without(s, key), Without(t, key), key);
    if key !in s {
      WithoutAbsent(s, key);
      SubsequenceLonger(s, Without(t, key), key);
    }
  }

  /** The larger cache also holds the same lines. */
  ghost predicate Keeps(small: nat, c: Cache, d: Cache, large: nat) {
    && WellFormed(c, small) && WellFormed(d, large) && Inclusion(small, c.order, d.order, large)
    && forall k | k in c.lines :: k in d.lines && c.lines[k] == d.lines[k]
  }

  lemma UseKeeps(small: nat, c: Cache, d: Cache, large: nat, use: Use)
    requires Keeps(small, c, d, large)
    ensures Keeps(small, Used(c, small, use), Used(d, large, use), large)
  {
    hide Subsequence, Touched, Newest, Distinct;
    match use
    case Lookup(key) =>
      GetKeeps(c, small, key);
      GetKeeps(d, large, key);
      LookupKeepsInclusion(small, c.order, d.order, large, key);
    case Store(key, line) =>
      PutKeeps(c, small, key, line);
      PutKeeps(d, large, key, line);
      StoreKeepsInclusion(small, c.order, d.order, large, key);
      SubsequenceMembers(Used(c, small, use).order, Used(d, large, use).order);
  }

  /** The inclusion property: on the same uses from empty caches, the recency order of the smaller
      cache is a subsequence of that of the larger, every hit of the one is a hit of the other, on
      an equal line, and neither exceeds its size. */
  lemma {:induction false} LargerCacheKeepsMore(small: nat, large: nat, uses: seq<Use>)
    requires small <= large
    ensures var c, d := After(small, uses), After(large, uses);
            && Subsequence(c.order, d.order)
            && (forall k | k in c.lines :: k in d.lines && c.lines[k] == d.lines[k])
            && |c.order| <= small && |d.order| <= large
    ensures Keeps(small, After(small, uses), After(large, uses), large)
  {
    hide Subsequence, Used;
    if uses == [] {
      EmptyKept(small, large);
    } else {
      var before, last := uses[..|uses| - 1], uses[|uses| - 1];
      LargerCacheKeepsMore(small, large, before);
      UseKeeps(small, After(small, before), After(large, before), large, last);
    }
  }

  lemma EmptyKept(small: nat, large: nat)
    requires small <= large
    ensures Keeps(small, EMPTY, EMPTY, large)
  {
  }
}
