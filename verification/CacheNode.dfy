/** The cache objects of src/nodes/cache_node.py: lines, the LRU cache, and the handlers of a node
    on either side of a broadcast. */
module CacheNode {
  import opened Options
  import opened Lru
  import opened Coherence
  import opened Sequences
  import opened Recency

  /** `CacheLine`. */
  class CacheLine {
    const key: Key
    var value: Value
    var state: LineState

    constructor (key: Key, value: Value, state: LineState)
      ensures this.key == key && View() == Line(value, state)
    {
      this.key, this.value, this.state := key, value, state;
    }

    ghost function View(): Line
      reads this
    {
      Line(value, state)
    }
  }

  class LRUCache {
    const maxSize: nat
    var order: seq<Key>
    var lines: map<Key, CacheLine>
    var evictions: nat

    constructor (maxSize: nat)
      ensures Valid() && View() == EMPTY && this.maxSize == maxSize && evictions == 0
    {
      this.maxSize := maxSize;
      order, lines, evictions := [], map[], 0;
    }

    ghost predicate Valid()
      reads this, lines.Values
    {
      WellFormed(View(), maxSize) && forall k | k in lines :: lines[k].key == k
    }

    ghost function View(): Cache
      reads this, lines.Values
    {
      Cache(order, Lines())
    }

    ghost function Lines(): map<Key, Line>
      reads this, lines.Values
    {
      map k | k in lines :: lines[k].View()
    }

    method Get(key: Key) returns (line: CacheLine?)
      requires Valid()
      modifies this`order
      ensures Valid() && View() == Lru.Get(old(View()), key)
      ensures line == if key in lines then lines[key] else null
      ensures if key in lines then MovedLast(old(order), key, order) else order == old(order)
    {
      hide Touched, MovedLast, WellFormed;
      GetKeeps(View(), maxSize, key);
      LookupExactly(View(), maxSize, key);
      if key in lines {
        order := Touched(order, key);
        assert View() == old(View()).(order := order);
        return lines[key];
      }
      return null;
    }

    /** The key becomes the newest. */
    method Insert(key: Key, line: CacheLine)
      modifies this`order, this`lines
      requires forall k :: k in order <==> k in lines
      ensures order == Touched(old(order), key) && lines == old(lines)[key := line]
    {
      hide Touched;
      if key in lines {
        order := Touched(order, key);
      } else {
        TouchedAbsent(order, key);
        order := order + [key];
      }
      lines := lines[key := line];
    }

    /** The oldest lines go until the cache fits. */
    method Evict()
      requires Distinct(order) && Members(order) == lines.Keys
      modifies this
      ensures order == Newest(old(order), maxSize)
      ensures lines.Keys == Members(order) && forall k | k in lines :: k in old(lines) && lines[k] == old(lines)[k]
      ensures evictions == old(evictions) + |old(order)| - |order|
    {
      hide Newest;
      ghost var gone := 0;
      while |order| > maxSize
        invariant gone <= |old(order)| && order == old(order)[gone..] && (gone > 0 ==> |order| >= maxSize)
        invariant evictions == old(evictions) + gone
        invariant lines.Keys == Members(order) && forall k | k in lines :: k in old(lines) && lines[k] == old(lines)[k]
        decreases |order|
      {
        Drop(old(order), gone);
        lines := lines - {order[0]};
        order := order[1..];
        evictions := evictions + 1;
        gone := gone + 1;
      }
      NewestIs(old(order), maxSize, gone);
    }

    method Put(key: Key, line: CacheLine)
      requires Valid() && line.key == key
      modifies this
      ensures Valid() && View() == Lru.Put(old(View()), maxSize, key, line.View())
      ensures lines.Values <= old(lines.Values) + {line}
      ensures maxSize > 0 ==> key in lines && lines[key] == line && order != [] && order[|order| - 1] == key
      ensures forall k | k in lines && k != key :: k in old(lines) && lines[k] == old(lines)[k]
    {
      hide Touched, Newest, Lru.Put, Distinct, WellFormed, Members;
      ghost var before := View();
      TouchedEndsIn(before.order, key, maxSize);
      OrderListsLines(before, maxSize);
      PutKeeps(before, maxSize, key, line.View());
      TouchedFacts(order, key);
      MembersIn(Touched(order, key));
      Insert(key, line);
      Evict();
      assert order == Newest(Touched(before.order, key), maxSize);
      PutIs(before, maxSize, key, line.View(), View());
    }

    method Invalidate(key: Key) returns (line: CacheLine?)
      requires Valid()
      modifies lines.Values
      ensures Valid() && View() == Invalidated(old(View()), key)
      ensures line == if key in lines then lines[key] else null
      ensures forall k | k in lines ::
                lines[k].View() == if k == key then old(lines[k].View()).(state := Invalid) else old(lines[k].View())
    {
      if key in lines {
        line := lines[key];
        line.state := Invalid;
        return;
      }
      return null;
    }
  }

  lemma PutIs(before: Cache, size: nat, key: Key, line: Line, after: Cache)
    requires after.order == Newest(Touched(before.order, key), size) && after.lines.Keys == Members(after.order)
    requires var lines := before.lines[key := line];
             forall k | k in after.lines :: k in lines && after.lines[k] == lines[k]
    ensures after == Lru.Put(before, size, key, line)
  {
    hide Touched;
    MembersIn(after.order);
    NewestMembers(Touched(before.order, key), size);
    assert forall k :: k in after.order <==> k in after.lines;
    assert after.lines == Restricted(before.lines[key := line], after.order);
  }

  lemma OrderListsLines(c: Cache, size: nat)
    requires WellFormed(c, size)
    ensures Distinct(c.order) && forall k :: k in c.order <==> k in c.lines
  {
  }

  lemma TouchedEndsIn(s: seq<Key>, key: Key, size: nat)
    ensures size > 0 ==>
              var t := Newest(Touched(s, key), size); t != [] && t[|t| - 1] == key && key in Members(t)
  {
    MembersIn(Newest(Touched(s, key), size));
  }

  lemma NewestMembers(s: seq<Key>, size: nat)
    ensures forall k | k in Newest(s, size) :: k in s
  {
  }

  lemma TouchedAbsent(s: seq<Key>, key: Key)
    requires key !in s
    ensures Touched(s, key) == s + [key]
  {
    WithoutAbsent(s, key);
  }

  lemma Drop(s: seq<Key>, gone: nat)
    requires Distinct(s) && gone < |s|
    ensures s[gone..][1..] == s[gone + 1..]
    ensures Members(s[gone + 1..]) == Members(s[gone..]) - {s[gone]}
  {
    var t := s[gone..];
    assert t[1..] == s[gone + 1..];
    assert forall i | 0 <= i < |t[1..]| :: t[1..][i] == t[i + 1];
    forall k | k in Members(t) && k != s[gone] ensures k in Members(t[1..]) {
      var i :| 0 <= i < |t| && t[i] == k;
      assert t[1..][i - 1] == k;
    }
  }

  lemma NewestIs(s: seq<Key>, size: nat, gone: nat)
    requires gone <= |s| && |s| - gone <= size && (gone > 0 ==> |s| - gone >= size)
    ensures Newest(s, size) == s[gone..]
  {
  }

  class CacheNode {
    const cache: LRUCache
    var hits: nat
    var misses: nat
    var invalidations: nat

    constructor (maxSize: nat)
      ensures cache.Valid() && cache.View() == EMPTY && cache.maxSize == maxSize && fresh(cache)
      ensures hits == misses == invalidations == 0
    {
      cache := new LRUCache(maxSize);
      hits, misses, invalidations := 0, 0, 0;
    }

    /** The start of `cache_read`: a line that counts is a hit, and no message is sent. */
    method ReadLocal(key: Key) returns (hit: Option<Value>)
      requires cache.Valid()
      modifies this, cache
      ensures cache.Valid() && cache.View() == Get(old(cache.View()), key)
      ensures hit == match Copy(old(cache.View()), key) case None => None case Some(line) => Some(line.value)
      ensures hits + misses == old(hits) + old(misses) + 1 && hits == old(hits) + if hit.Some? then 1 else 0
    {
      hide Touched, MovedLast, WellFormed, Get;
      var line := cache.Get(key);
      if line != null && line.state != Invalid {
        hits := hits + 1;
        return Some(line.value);
      }
      misses := misses + 1;
      return None;
    }

    /** The rest of `cache_read`, when the broadcast has returned: `responses` are the answers in the
        order of the dictionary, `None` for a node that had no copy; the last value found counts. */
    method FinishRead(key: Key, responses: seq<Option<Value>>) returns (found: Value)
      requires cache.Valid()
      modifies cache
      ensures cache.Valid() && cache.View() == ReadBack(old(cache.View()), cache.maxSize, key, found)
      ensures found == LastFound(responses)
      ensures found == Null ==> cache.View() == old(cache.View())
      ensures found != Null && cache.maxSize > 0 ==>
                key in cache.lines && cache.lines[key].View() == Line(found, Shared)
                && cache.order != [] && cache.order[|cache.order| - 1] == key
    {
      hide WellFormed, Put;
      found := Null;
      for i := 0 to |responses|
        invariant found == LastFound(responses[..i])
      {
        assert responses[..i + 1][..i] == responses[..i];
        if responses[i].Some? {
          found := responses[i].value;
        }
      }
      assert responses[..|responses|] == responses;
      if found != Null {
        var line := new CacheLine(key, found, Shared);
        cache.Put(key, line);
      }
    }

    /** The end of `cache_write`, when every other node has been told to invalidate. */
    method FinishWrite(key: Key, value: Value)
      requires cache.Valid()
      modifies cache, cache.lines.Values
      ensures cache.Valid() && cache.View() == WrittenTo(old(cache.View()), cache.maxSize, key, value)
      ensures cache.maxSize > 0 ==>
                key in cache.lines && cache.lines[key].View() == Line(value, Modified)
                && cache.order != [] && cache.order[|cache.order| - 1] == key
    {
      hide Touched, Newest, Restricted, MovedLast, WellFormed, Get, Put;
      var line := cache.Get(key);
      ghost var looked := cache.View();
      if line != null {
        line.value := value;
        line.state := Modified;
        LinesReplaced(looked, cache.View(), cache.maxSize);
        PutForgets(looked, cache.maxSize, key, line.View(), cache.View());
      } else {
        line := new CacheLine(key, value, Modified);
      }
      cache.Put(key, line);
    }

    method ProcessInvalidate(key: Key) returns (hadCopy: bool)
      requires cache.Valid()
      modifies this`invalidations, cache.lines.Values
      ensures cache.Valid() && cache.View() == Invalidated(old(cache.View()), key)
      ensures invalidations == old(invalidations) + 1 && !hadCopy
    {
      var line := cache.Invalidate(key);
      invalidations := invalidations + 1;
      hadCopy := line != null && line.state != Invalid;
    }

    method ProcessRemoteRead(key: Key) returns (answer: Option<Value>)
      requires cache.Valid()
      modifies cache, cache.lines.Values
      ensures cache.Valid() && cache.View() == Served(old(cache.View()), key)
      ensures answer == match Copy(old(cache.View()), key) case None => None case Some(line) => Some(line.value)
      ensures if key in cache.lines then MovedLast(old(cache.order), key, cache.order)
              else cache.order == old(cache.order)
      ensures cache.lines == old(cache.lines) && forall k | k in cache.lines ::
                var line := old(cache.lines[k].View());
                cache.lines[k].View()
                == if k == key && line.state in {Modified, Exclusive} then line.(state := Shared) else line
    {
      hide Touched, MovedLast, WellFormed, Get;
      var line := cache.Get(key);
      ghost var looked := cache.View();
      if line != null && line.state != Invalid {
        if line.state == Modified || line.state == Exclusive {
          line.state := Shared;
          LinesReplaced(looked, cache.View(), cache.maxSize);
        }
        return Some(line.value);
      }
      return None;
    }
  }

  /** What a key held before does not matter to a store. */
  lemma PutForgets(c: Cache, size: nat, key: Key, line: Line, d: Cache)
    requires d.order == c.order && d.lines.Keys == c.lines.Keys
    requires forall k | k in c.lines && k != key :: d.lines[k] == c.lines[k]
    ensures Put(d, size, key, line) == Put(c, size, key, line)
  {
    assert d.lines[key := line] == c.lines[key := line];
  }

  function LastFound(responses: seq<Option<Value>>): Value {
    if responses == [] then Null
    else
      var last := responses[|responses| - 1];
      if last.Some? then last.value else LastFound(responses[..|responses| - 1])
  }

  /** The end of a read in `Coherence` allows any of the answers, and this is one of them. */
  lemma {:induction false} LastFoundIsAnAnswer(responses: seq<Option<Value>>)
    ensures if exists r :: r in responses && r.Some?
            then exists i | 0 <= i < |responses| ::
                   responses[i] == Some(LastFound(responses)) && forall j | i < j < |responses| :: responses[j] == None
            else LastFound(responses) == Null
  {
    if responses != [] {
      var front, last := responses[..|responses| - 1], responses[|responses| - 1];
      LastFoundIsAnAnswer(front);
      assert responses == front + [last];
    }
  }
}
