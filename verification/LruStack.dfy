// The replacement order of the inode cache: least recently used, with the inclusion property.

module LruStack {
  import opened Common
  import opened DataStructures
  import opened CacheSpec

  function Minus(s: seq<int>, i: int): seq<int> {
    if s == [] then [] else if s[0] == i then Minus(s[1..], i) else [s[0]] + Minus(s[1..], i)
  }

  // The distinct inumbers of a trace, most recently used last.
  function Recency(trace: seq<int>): seq<int> {
    if trace == [] then []
    else
      var i := trace[|trace| - 1];
      Minus(Recency(trace[..|trace| - 1]), i) + [i]
  }

  // The last k elements of s, all of s if it is shorter.
  function Last(s: seq<int>, k: nat): seq<int> {
    if k >= |s| then s else s[|s| - k..]
  }

  function Inumbers(entries: seq<Entry>): seq<int> {
    seq(|entries|, k requires 0 <= k < |entries| => entries[k].inumber)
  }

  datatype TraceResult = TraceResult(disk: Disk, cache: Cache, loads: nat)

  // get_inode for every inumber of the trace in turn; loads counts the calls of inode_load.
  function Gets(disk: Disk, numinodes: int, c: Cache, trace: seq<int>, junk: seq<bool>): TraceResult
    requires |junk| == |trace|
  {
    if trace == [] then TraceResult(disk, c, 0)
    else
      var n := |trace| - 1;
      var r := Gets(disk, numinodes, c, trace[..n], junk[..n]);
      var g := Get(r.disk, numinodes, r.cache, trace[n], junk[n]);
      TraceResult(g.disk, g.cache, r.loads + if Resident(r.cache, trace[n]) then 0 else 1)
  }

  lemma {:induction false} MinusAbsent(s: seq<int>, i: int)
    requires i !in s
    ensures Minus(s, i) == s
  {
    if s != [] { MinusAbsent(s[1..], i); }
  }

  lemma {:induction false} MinusAt(s: seq<int>, k: nat)
    requires Distinct(s) && k < |s|
    ensures Minus(s, s[k]) == s[..k] + s[k + 1..]
  {
    hide Distinct;
    DistinctTail(s);
    if k == 0 {
      MinusAbsent(s[1..], s[0]);
    } else {
      assert s[k] == s[1..][k - 1];
      MinusAt(s[1..], k - 1);
      assert s[..k] + s[k + 1..] == [s[0]] + (s[1..][..k - 1] + s[1..][k..]);
    }
  }

  lemma DistinctTail(s: seq<int>)
    requires Distinct(s) && s != []
    ensures Distinct(s[1..]) && s[0] !in s[1..]
  {
  }

  lemma RecencyStep(r: seq<int>, i: int)
    requires Distinct(r)
    ensures var r' := Minus(r, i) + [i];
      && Distinct(r')
      && (forall x :: x in r' <==> x in r || x == i)
      && |r'| == |r| + (if i in r then 0 else 1)
  {
    if i in r {
      var k :| 0 <= k < |r| && r[k] == i;
      MinusAt(r, k);
      var r' := r[..k] + r[k + 1..] + [i];
      forall x | x in r ensures x in r' {
        var a :| 0 <= a < |r| && r[a] == x;
        assert x == r'[if a < k then a else if a == k then |r| - 1 else a - 1];
      }
    } else {
      MinusAbsent(r, i);
    }
  }

  lemma {:induction false} RecencyDistinct(trace: seq<int>)
    ensures Distinct(Recency(trace))
    ensures forall x :: x in Recency(trace) <==> x in trace
  {
    if trace != [] {
      var n := |trace| - 1;
      RecencyDistinct(trace[..n]);
      RecencyStep(Recency(trace[..n]), trace[n]);
      assert trace == trace[..n] + [trace[n]];
    }
  }

  lemma {:induction false} FindInumber(entries: seq<Entry>, i: int)
    ensures Find(entries, i) < |entries| <==> i in Inumbers(entries)
  {
    var k := Find(entries, i);
    if k < |entries| { assert Inumbers(entries)[k] == i; }
  }

  // What get_inode does to the list of inumbers.
  function Touch(s: seq<int>, i: int, capacity: int): seq<int> {
    if i in s then Minus(s, i) + [i]
    else if |s| + 1 > capacity then (s + [i])[1..]
    else s + [i]
  }

  // Entries that remove_if_present took out still count against the capacity.
  lemma GetIsTouch(disk: Disk, numinodes: int, c: Cache, i: int, junk: bool)
    requires Usable(numinodes, i) && |c.entries| <= c.currentSize <= c.capacity && Distinct(Inumbers(c.entries))
    ensures var g, removed := Get(disk, numinodes, c, i, junk), c.currentSize - |c.entries|;
      && g.cache.capacity == c.capacity && g.cache.currentSize - |g.cache.entries| == removed
      && |g.cache.entries| <= g.cache.currentSize <= c.capacity
      && Inumbers(g.cache.entries) == Touch(Inumbers(c.entries), i, c.capacity - removed)
  {
    var s, k, g := Inumbers(c.entries), Find(c.entries, i), Get(disk, numinodes, c, i, junk);
    FindInumber(c.entries, i);
    if k < |c.entries| {
      MinusAt(s, k);
      assert Inumbers(g.cache.entries) == s[..k] + s[k + 1..] + [i];
    } else {
      var es := c.entries + [Entry(i, DiskInode(disk, i), junk)];
      assert Inumbers(es) == s + [i];
      if c.currentSize + 1 > c.capacity {
        assert g.cache.entries == es[1..];
        assert Inumbers(g.cache.entries) == (s + [i])[1..];
      } else {
        assert g.cache.entries == es;
      }
    }
  }

  // remove_if_present takes the inumber off the list.
  lemma RemoveIsMinus(disk: Disk, numinodes: int, c: Cache, i: int)
    requires Distinct(Inumbers(c.entries))
    ensures Inumbers(RemoveIfPresent(disk, numinodes, c, i).cache.entries) == Minus(Inumbers(c.entries), i)
  {
    var s, k := Inumbers(c.entries), Find(c.entries, i);
    FindInumber(c.entries, i);
    if k < |c.entries| {
      MinusAt(s, k);
      assert Inumbers(Without(c.entries, k)) == s[..k] + s[k + 1..];
    } else {
      MinusAbsent(s, i);
    }
  }

  // Changing an inode in place leaves the list in order.
  lemma UpdateKeepsOrder(disk: Disk, numinodes: int, c: Cache, i: int, n: Inode, touched: bool)
    ensures Inumbers(Update(disk, numinodes, c, i, n, touched).cache.entries) == Inumbers(c.entries)
  {
  }

  // Touching the last capacity elements is the same as touching all and keeping the last capacity.
  lemma TouchLast(r: seq<int>, i: int, capacity: nat)
    requires Distinct(r)
    ensures Touch(Last(r, capacity), i, capacity) == Last(Minus(r, i) + [i], capacity)
  {
    hide Touch, Last, Minus, Distinct;
    if i in r {
      var x :| 0 <= x < |r| && r[x] == i;
      MinusAt(r, x);
      TouchLastAt(r, x, capacity);
    } else {
      TouchLastAbsent(r, i, capacity);
    }
  }

  lemma TouchLastAbsent(r: seq<int>, i: int, capacity: nat)
    requires i !in r
    ensures Touch(Last(r, capacity), i, capacity) == Last(Minus(r, i) + [i], capacity)
  {
    hide Minus;
    MinusAbsent(r, i);
    AbsentLast(r, i, capacity);
    if capacity <= |r| {
      var m := |r| - capacity;
      assert Last(r, capacity) == r[m..];
      assert (r[m..] + [i])[1..] == (r + [i])[m + 1..];
    }
  }

  lemma AbsentLast(r: seq<int>, i: int, capacity: nat)
    requires i !in r
    ensures i !in Last(r, capacity)
  {
  }

  lemma TouchLastAt(r: seq<int>, x: nat, capacity: nat)
    requires Distinct(r) && x < |r|
    ensures Touch(Last(r, capacity), r[x], capacity) == Last(r[..x] + r[x + 1..] + [r[x]], capacity)
  {
    var m := if capacity >= |r| then 0 else |r| - capacity;
    var s, r' := r[m..], r[..x] + r[x + 1..] + [r[x]];
    assert s == Last(r, capacity) && r'[m..] == Last(r', capacity);
    if x >= m {
      assert s[x - m] == r[x];
      MinusAt(s, x - m);
      assert s[..x - m] + s[x - m + 1..] + [r[x]] == r'[m..];
    } else {
      assert (s + [r[x]])[1..] == r'[m..];
    }
  }

  // Over any trace the list holds the capacity most recently used inumbers, in recency order.
  lemma {:induction false} TraceIsLru(disk: Disk, numinodes: int, capacity: nat, trace: seq<int>, junk: seq<bool>)
    requires |junk| == |trace| && forall k :: 0 <= k < |trace| ==> Usable(numinodes, trace[k])
    ensures var c := Gets(disk, numinodes, Cache(capacity, 0, []), trace, junk).cache;
      && c.capacity == capacity && c.currentSize == |c.entries|
      && Inumbers(c.entries) == Last(Recency(trace), capacity)
  {
    if trace != [] {
      var n := |trace| - 1;
      TraceIsLru(disk, numinodes, capacity, trace[..n], junk[..n]);
      RecencyDistinct(trace[..n]);
      var r := Gets(disk, numinodes, Cache(capacity, 0, []), trace[..n], junk[..n]);
      GetIsTouch(r.disk, numinodes, r.cache, trace[n], junk[n]);
      TouchLast(Recency(trace[..n]), trace[n], capacity);
    }
  }

  // Inclusion: what a smaller cache holds is the tail of what a larger one holds, so enlarging the
  // cache never makes a trace load more inodes.
  lemma {:induction false} LargerCacheLoadsNoMore(disk: Disk, numinodes: int, small: nat, large: nat, trace: seq<int>,
                                                  junk: seq<bool>, junk': seq<bool>)
    requires small <= large && |junk| == |junk'| == |trace|
    requires forall k :: 0 <= k < |trace| ==> Usable(numinodes, trace[k])
    ensures var s, l := Gets(disk, numinodes, Cache(small, 0, []), trace, junk), Gets(disk, numinodes, Cache(large, 0, []), trace, junk');
      && Inumbers(s.cache.entries) == Last(Inumbers(l.cache.entries), small)
      && l.loads <= s.loads
  {
    TraceIsLru(disk, numinodes, small, trace, junk);
    TraceIsLru(disk, numinodes, large, trace, junk');
    if trace != [] {
      var n := |trace| - 1;
      LargerCacheLoadsNoMore(disk, numinodes, small, large, trace[..n], junk[..n], junk'[..n]);
      var s, l := Gets(disk, numinodes, Cache(small, 0, []), trace[..n], junk[..n]),
                  Gets(disk, numinodes, Cache(large, 0, []), trace[..n], junk'[..n]);
      FindInumber(s.cache.entries, trace[n]);
      FindInumber(l.cache.entries, trace[n]);
    }
  }
}
