// The cache is transparent: none of its operations changes the inode that a later get_inode
// returns, except as the caller asked.

module CacheProof {
  import opened Common
  import opened DataStructures
  import opened CacheSpec

  ghost predicate IsInodeBlock(disk: Disk, b: int) { 0 <= b < |disk| && disk[b].InodeBlock? }

  ghost predicate InodeRegion(disk: Disk, numinodes: int) {
    0 <= numinodes && forall b :: 1 <= b <= numinodes / INODES_PER_BLOCK ==> IsInodeBlock(disk, b)
  }

  ghost predicate EntryOk(disk: Disk, numinodes: int, e: Entry) {
    Usable(numinodes, e.inumber) && (!e.dirty ==> e.inode == DiskInode(disk, e.inumber))
  }

  ghost predicate OncePerInumber(entries: seq<Entry>) {
    forall a, b :: 0 <= a < b < |entries| ==> entries[a].inumber != entries[b].inumber
  }

  ghost predicate EntriesOk(disk: Disk, numinodes: int, entries: seq<Entry>) {
    && InodeRegion(disk, numinodes)
    && OncePerInumber(entries)
    && forall k :: 0 <= k < |entries| ==> EntryOk(disk, numinodes, entries[k])
  }

  // Every list entry is counted in currentSize; the difference is the number of resident entries
  // that remove_if_present has taken out since mount.
  ghost predicate Coherent(disk: Disk, numinodes: int, c: Cache) {
    && EntriesOk(disk, numinodes, c.entries)
    && |c.entries| <= c.currentSize <= c.capacity
  }

  function Removed(c: Cache): int { c.currentSize - |c.entries| }

  // get_inode hands out live memory.
  predicate Live(c: Cache) { c.capacity == 0 || Removed(c) < c.capacity }

  lemma FindAt(entries: seq<Entry>, k: nat)
    requires OncePerInumber(entries) && k < |entries|
    ensures Find(entries, entries[k].inumber) == k
  {
  }

  lemma SaveLoad(disk: Disk, numinodes: int, i: int, n: Inode, j: int)
    requires InodeRegion(disk, numinodes) && 0 <= j && Usable(numinodes, i)
    ensures DiskInode(InodeSave(disk, numinodes, i, n), j) == if j == i then n else DiskInode(disk, j)
  {
    var b := InodeBlockNumber(i);
    assert IsInodeBlock(disk, b);
    if b == InodeBlockNumber(j) && i % INODES_PER_BLOCK == j % INODES_PER_BLOCK {
      assert i == j;
    }
  }

  // Exactly which inumbers inode_load and inode_save refuse, and which slot of which block the others
  // mean.
  lemma UsableExactly(disk: Disk, numinodes: int, i: int, n: Inode)
    requires InodeRegion(disk, numinodes)
    ensures var d := InodeSave(disk, numinodes, i, n);
      if 0 <= i < 128 * (numinodes / 128 - 1) then
        && 1 + i / 128 < |disk| && disk[1 + i / 128].InodeBlock?
        && InodeLoad(disk, numinodes, i) == Some(disk[1 + i / 128].inodes[i % 128])
        && d == disk[1 + i / 128 := InodeBlock(disk[1 + i / 128].inodes[i % 128 := n])]
      else InodeLoad(disk, numinodes, i) == None && d == disk
  {
    if Usable(numinodes, i) { assert IsInodeBlock(disk, 1 + i / 128); }
  }

  // Saving an inode changes only the inode region.
  lemma SaveFrame(disk: Disk, numinodes: int, i: int, n: Inode)
    requires InodeRegion(disk, numinodes) && Usable(numinodes, i)
    ensures var d := InodeSave(disk, numinodes, i, n);
      && |d| == |disk| && InodeRegion(d, numinodes)
      && forall b :: 0 <= b < |disk| && !(1 <= b <= numinodes / INODES_PER_BLOCK) ==> d[b] == disk[b]
  {
    var b := InodeBlockNumber(i);
    assert IsInodeBlock(disk, b);
    var d := InodeSave(disk, numinodes, i, n);
    forall x | 1 <= x <= numinodes / INODES_PER_BLOCK ensures IsInodeBlock(d, x) {
      assert IsInodeBlock(disk, x);
    }
  }

  // The two views agree on every inode.
  ghost predicate SameInodes(disk: Disk, c: Cache, disk': Disk, c': Cache) {
    forall j :: 0 <= j ==> Logical(disk', c', j) == Logical(disk, c, j)
  }

  ghost predicate SameData(disk: Disk, disk': Disk, numinodes: int) {
    && |disk'| == |disk| && InodeRegion(disk', numinodes)
    && forall b :: 0 <= b < |disk| && !(1 <= b <= numinodes / INODES_PER_BLOCK) ==> disk'[b] == disk[b]
  }

  // Evicting the first entry.
  lemma EvictFirst(disk: Disk, numinodes: int, c: Cache)
    requires EntriesOk(disk, numinodes, c.entries) && c.entries != []
    ensures var d, c' := WriteBack(disk, numinodes, c.entries[0]), c.(entries := c.entries[1..]);
      && EntriesOk(d, numinodes, c'.entries)
      && SameInodes(disk, c, d, c') && SameData(disk, d, numinodes)
  {
    var e := c.entries[0];
    assert EntryOk(disk, numinodes, e);
    var d, c' := WriteBack(disk, numinodes, e), c.(entries := c.entries[1..]);
    SaveFrame(disk, numinodes, e.inumber, e.inode);
    forall j | 0 <= j ensures DiskInode(d, j) == if j == e.inumber then e.inode else DiskInode(disk, j) {
      SaveLoad(disk, numinodes, e.inumber, e.inode, j);
    }
    forall k | 0 <= k < |c'.entries| ensures EntryOk(d, numinodes, c'.entries[k]) {
      assert EntryOk(disk, numinodes, c.entries[k + 1]);
    }
    assert forall k :: 0 <= k < |c'.entries| ==> c'.entries[k].inumber != e.inumber;
  }

  // Appending an inode that was just loaded, whatever its is_dirty field contains.
  lemma AppendLoaded(disk: Disk, numinodes: int, c: Cache, i: int, junk: bool)
    requires EntriesOk(disk, numinodes, c.entries) && Usable(numinodes, i) && !Resident(c, i)
    ensures var c' := c.(entries := c.entries + [Entry(i, DiskInode(disk, i), junk)]);
      EntriesOk(disk, numinodes, c'.entries) && SameInodes(disk, c, disk, c')
  {
    var e := Entry(i, DiskInode(disk, i), junk);
    var entries' := c.entries + [e];
    forall k | 0 <= k < |entries'| ensures EntryOk(disk, numinodes, entries'[k]) {
      if k < |c.entries| { assert EntryOk(disk, numinodes, c.entries[k]); }
    }
    forall j | 0 <= j ensures Logical(disk, c.(entries := entries'), j) == Logical(disk, c, j) {
      var k := Find(c.entries, j);
      if k < |c.entries| { FindAt(entries', k); }
      else if j == i { FindAt(entries', |c.entries|); }
    }
  }

  // The order of the list does not matter for the view.
  lemma Reordered(disk: Disk, numinodes: int, c: Cache, s': seq<Entry>)
    requires EntriesOk(disk, numinodes, c.entries) && OncePerInumber(s')
    requires forall e :: e in s' <==> e in c.entries
    ensures EntriesOk(disk, numinodes, s') && SameInodes(disk, c, disk, c.(entries := s'))
  {
    assert forall b :: 0 <= b < |s'| ==> s'[b] in c.entries;
    forall j | 0 <= j ensures Logical(disk, c.(entries := s'), j) == Logical(disk, c, j) {
      var a := Find(c.entries, j);
      if a < |c.entries| {
        assert c.entries[a] in s';
        var x :| 0 <= x < |s'| && s'[x] == c.entries[a];
        FindAt(s', x);
      }
    }
    forall k | 0 <= k < |s'| ensures EntryOk(disk, numinodes, s'[k]) {
      assert s'[k] in c.entries;
      var x :| 0 <= x < |c.entries| && c.entries[x] == s'[k];
      assert EntryOk(disk, numinodes, c.entries[x]);
    }
  }

  lemma RemoveSame(s: seq<Entry>, k: nat)
    requires OncePerInumber(s) && k < |s|
    ensures OncePerInumber(Without(s, k)) && s[k] !in Without(s, k)
    ensures forall e :: e in Without(s, k) <==> e in s && e != s[k]
    ensures forall e :: e in Without(s, k) ==> e.inumber != s[k].inumber
  {
    var r := Without(s, k);
    forall e | e in r ensures e in s && e.inumber != s[k].inumber {
      var a :| 0 <= a < |r| && r[a] == e;
      assert s[if a < k then a else a + 1] == e;
    }
    forall e | e in s && e != s[k] ensures e in r {
      var a :| 0 <= a < |s| && s[a] == e;
      assert r[if a < k then a else a - 1] == e;
    }
    forall a, b | 0 <= a < b < |r| ensures r[a].inumber != r[b].inumber {
      assert r[a] == s[if a < k then a else a + 1] && r[b] == s[if b < k then b else b + 1];
    }
  }

  // get_inode changes no logical inode and no data block, and returns the logical inode.
  lemma GetCorrect(disk: Disk, numinodes: int, c: Cache, i: nat, junk: bool)
    requires Coherent(disk, numinodes, c) && Live(c)
    ensures var g := Get(disk, numinodes, c, i, junk);
      && Coherent(g.disk, numinodes, g.cache) && Removed(g.cache) == Removed(c) && g.cache.capacity == c.capacity
      && SameInodes(disk, c, g.disk, g.cache) && SameData(disk, g.disk, numinodes)
      && (g.inode.Some? <==> Usable(numinodes, i))
      && (g.inode.Some? ==> g.inode.value == Logical(disk, c, i))
      && (g.inode.Some? ==> (Resident(g.cache, i) <==> c.capacity != 0))
      && (g.inode.None? ==> g == GetResult(disk, c, None))
  {
    var k := Find(c.entries, i);
    if k < |c.entries| {
      assert EntryOk(disk, numinodes, c.entries[k]);
      RemoveSame(c.entries, k);
      Reordered(disk, numinodes, c, Without(c.entries, k) + [c.entries[k]]);
      FindAt(Without(c.entries, k) + [c.entries[k]], |c.entries| - 1);
    } else if Usable(numinodes, i) {
      AppendLoaded(disk, numinodes, c, i, junk);
      var c1 := c.(entries := c.entries + [Entry(i, DiskInode(disk, i), junk)]);
      FindAt(c1.entries, |c.entries|);
      if c.currentSize + 1 > c.capacity {
        EvictFirst(disk, numinodes, c1);
        if |c1.entries| > 1 { FindAt(c1.entries[1..], |c.entries| - 1); }
      }
    }
  }

  // The caller changed the inode it got to n and called set_dirty if it says so; a change without
  // set_dirty would be lost when nothing is cached.
  lemma UpdateCorrect(disk: Disk, numinodes: int, c: Cache, i: nat, n: Inode, touched: bool)
    requires Coherent(disk, numinodes, c) && Usable(numinodes, i)
    requires !touched ==> n == Logical(disk, c, i)
    ensures var u := Update(disk, numinodes, c, i, n, touched);
      && Coherent(u.disk, numinodes, u.cache) && Removed(u.cache) == Removed(c) && u.cache.capacity == c.capacity
      && SameData(disk, u.disk, numinodes)
      && (forall j :: 0 <= j ==> Logical(u.disk, u.cache, j) == if j == i then n else Logical(disk, c, j))
      && (forall e :: e in u.cache.entries ==> exists e' :: e' in c.entries && e'.inumber == e.inumber)
  {
    var k := Find(c.entries, i);
    var u := Update(disk, numinodes, c, i, n, touched);
    if k < |c.entries| {
      var s, s' := c.entries, u.cache.entries;
      forall a | 0 <= a < |s'| ensures EntryOk(disk, numinodes, s'[a]) { assert EntryOk(disk, numinodes, s[a]); }
      forall j | 0 <= j ensures Logical(disk, u.cache, j) == if j == i then n else Logical(disk, c, j) {
        var a := Find(s, j);
        if a < |s| { FindAt(s', a); }
      }
    } else if touched {
      SaveUnlisted(disk, numinodes, c, i, n);
    }
  }

  // Saving an inode that is not in the list.
  lemma SaveUnlisted(disk: Disk, numinodes: int, c: Cache, i: nat, n: Inode)
    requires EntriesOk(disk, numinodes, c.entries) && Usable(numinodes, i) && !Resident(c, i)
    ensures var d := InodeSave(disk, numinodes, i, n);
      && EntriesOk(d, numinodes, c.entries) && SameData(disk, d, numinodes)
      && forall j :: 0 <= j ==> Logical(d, c, j) == if j == i then n else Logical(disk, c, j)
  {
    var d := InodeSave(disk, numinodes, i, n);
    SaveFrame(disk, numinodes, i, n);
    forall j | 0 <= j ensures DiskInode(d, j) == if j == i then n else DiskInode(disk, j) {
      SaveLoad(disk, numinodes, i, n, j);
    }
    forall k | 0 <= k < |c.entries| ensures EntryOk(d, numinodes, c.entries[k]) {
      assert EntryOk(disk, numinodes, c.entries[k]);
    }
  }

  // remove_if_present leaves the empty inode, in the cache's view too.
  lemma RemoveCorrect(disk: Disk, numinodes: int, c: Cache, i: nat)
    requires Coherent(disk, numinodes, c) && Usable(numinodes, i)
    ensures var u := RemoveIfPresent(disk, numinodes, c, i);
      && Coherent(u.disk, numinodes, u.cache) && !Resident(u.cache, i) && u.cache.capacity == c.capacity
      && Removed(u.cache) == Removed(c) + (if Resident(c, i) then 1 else 0)
      && SameData(disk, u.disk, numinodes)
      && (forall j :: 0 <= j ==> Logical(u.disk, u.cache, j) == if j == i then ZERO_INODE else Logical(disk, c, j))
  {
    var k := Find(c.entries, i);
    if k < |c.entries| {
      // as if the entry were first moved to the front and evicted
      var c1 := c.(entries := [c.entries[k]] + Without(c.entries, k));
      RemoveSame(c.entries, k);
      Reordered(disk, numinodes, c, c1.entries);
      EvictFirst(disk, numinodes, c1);
      var d := WriteBack(disk, numinodes, c.entries[k]);
      var c2 := c.(entries := c1.entries[1..]);
      assert c1.entries[1..] == Without(c.entries, k);
      assert !Resident(c2, i);
      SaveUnlisted(d, numinodes, c2, i, ZERO_INODE);
    } else {
      SaveUnlisted(disk, numinodes, c, i, ZERO_INODE);
    }
  }

  // After flushing, the disk alone holds every logical inode.
  lemma {:induction false} FlushCorrect(disk: Disk, numinodes: int, c: Cache)
    requires EntriesOk(disk, numinodes, c.entries)
    ensures var d := Flush(disk, numinodes, c.entries);
      && SameData(disk, d, numinodes)
      && forall j :: 0 <= j ==> DiskInode(d, j) == Logical(disk, c, j)
    decreases |c.entries|
  {
    if c.entries != [] {
      EvictFirst(disk, numinodes, c);
      var d, c' := WriteBack(disk, numinodes, c.entries[0]), c.(entries := c.entries[1..]);
      FlushCorrect(d, numinodes, c');
    }
  }
}
