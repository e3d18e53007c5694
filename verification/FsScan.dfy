// The pointer scans of fs_delete and fs_mount reach exactly the blocks the file owns.

module FsScan {
  import opened DataStructures
  import opened CacheSpec
  import opened FsSpec
  import opened FsInvariant
  import opened FsSpace

  predicate OwnedBy(o: Owner, i: int) { (o.DataOf? || o.IndirectOf?) && o.inumber == i }

  // ptrs holds slots base, base + 1, ... of file i; the first z of them are in use.
  ghost predicate SlotsOwned(own: seq<Owner>, i: int, base: int, ptrs: seq<int>, z: int) {
    && 0 <= z <= |ptrs|
    && (forall x :: 0 <= x < |ptrs| ==> (ptrs[x] != 0 <==> x < z))
    && (forall x :: 0 <= x < z ==> 0 < ptrs[x] < |own| && own[ptrs[x]] == DataOf(i, base + x))
    && (forall b :: 0 <= b < |own| && own[b].DataOf? && own[b].inumber == i && base <= own[b].slot < base + |ptrs| ==>
          own[b].slot - base < z && ptrs[own[b].slot - base] == b)
  }

  predicate InSlots(o: Owner, i: int, lo: int, hi: int) { o.DataOf? && o.inumber == i && lo <= o.slot < hi }

  lemma {:induction false} SetWhileCorrect(bmap: seq<bool>, own: seq<Owner>, i: int, base: int, ptrs: seq<int>, z: int,
                                           k: nat, v: bool)
    requires |bmap| == |own| && SlotsOwned(own, i, base, ptrs, z) && k <= |ptrs|
    ensures var r := SetWhile(bmap, ptrs, k, v);
      forall b :: 0 <= b < |own| ==> r[b] == if InSlots(own[b], i, base + k, base + |ptrs|) then v else bmap[b]
    decreases |ptrs| - k
  {
    if k < z {
      SetWhileCorrect(SetBit(bmap, ptrs[k], v), own, i, base, ptrs, z, k + 1, v);
      assert own[ptrs[k]] == DataOf(i, base + k);
    }
  }

  lemma {:induction false} SetWhileCount(bmap: seq<bool>, own: seq<Owner>, i: int, base: int, ptrs: seq<int>, z: int, k: nat)
    requires |bmap| == |own| && SlotsOwned(own, i, base, ptrs, z) && k <= z
    requires forall b :: 0 <= b < |own| && InSlots(own[b], i, base + k, base + z) ==> bmap[b]
    ensures CountFree(SetWhile(bmap, ptrs, k, false)) == CountFree(bmap) + (z - k)
    decreases z - k
  {
    if k < z {
      var b := ptrs[k];
      assert own[b] == DataOf(i, base + k) && bmap[b];
      CountUpdate(bmap, b, false);
      SetWhileCount(SetBit(bmap, b, false), own, i, base, ptrs, z, k + 1);
    }
  }

  // The two pointer arrays of a well-formed file.
  lemma FileSlots(disk: Disk, bmap: seq<bool>, tab: seq<Inode>, own: seq<Owner>, i: int, c: int)
    requires Owned(disk, bmap, tab, own) && 0 <= i < |tab| && tab[i].isvalid && Contiguous(disk, tab[i], c)
    ensures SlotsOwned(own, i, 0, tab[i].direct, Min(c, POINTERS_PER_INODE))
    ensures tab[i].indirect != 0 ==>
      SlotsOwned(own, i, POINTERS_PER_INODE, PointersOf(disk, tab[i].indirect), c - POINTERS_PER_INODE)
  {
    var n := tab[i];
    assert InodeOwned(disk, n, i, own);
    forall b | 0 <= b < |own| && own[b].DataOf? && own[b].inumber == i
      ensures 0 <= own[b].slot < c && Slot(disk, n, own[b].slot) == b
    {
      assert OwnerPoints(disk, tab, own[b], b);
    }
    forall x | 0 <= x < POINTERS_PER_INODE
      ensures (n.direct[x] != 0 <==> x < c) && (x < c ==> 0 < n.direct[x] < |own| && own[n.direct[x]] == DataOf(i, x))
    {
      assert Slot(disk, n, x) == n.direct[x] && SlotOwned(disk, n, i, x, own);
    }
    if n.indirect != 0 {
      var p := PointersOf(disk, n.indirect);
      forall x | 0 <= x < POINTERS_PER_BLOCK
        ensures (p[x] != 0 <==> POINTERS_PER_INODE + x < c)
        ensures POINTERS_PER_INODE + x < c ==> 0 < p[x] < |own| && own[p[x]] == DataOf(i, POINTERS_PER_INODE + x)
      {
        assert Slot(disk, n, POINTERS_PER_INODE + x) == p[x] && SlotOwned(disk, n, i, POINTERS_PER_INODE + x, own);
      }
    }
  }

  // The scan of file i sets exactly the blocks that file i owns.
  lemma SetBlocksCorrect(disk: Disk, bmap0: seq<bool>, tab: seq<Inode>, own: seq<Owner>, i: int, c: int,
                         bmap: seq<bool>, v: bool)
    requires Owned(disk, bmap0, tab, own) && 0 <= i < |tab| && tab[i].isvalid && Contiguous(disk, tab[i], c)
    requires |bmap| == |own|
    ensures var r := SetBlocks(disk, bmap, tab[i], v);
      forall b :: 0 <= b < |own| ==> r[b] == if OwnedBy(own[b], i) then v else bmap[b]
  {
    var n := tab[i];
    FileSlots(disk, bmap0, tab, own, i, c);
    assert InodeOwned(disk, n, i, own);
    forall b | 0 <= b < |own| && OwnedBy(own[b], i)
      ensures own[b].IndirectOf? ==> b == n.indirect
      ensures own[b].DataOf? ==> 0 <= own[b].slot < c
    {
      assert OwnerPoints(disk, tab, own[b], b);
    }
    var bmap1 := SetWhile(bmap, n.direct, 0, v);
    SetWhileCorrect(bmap, own, i, 0, n.direct, Min(c, POINTERS_PER_INODE), 0, v);
    if n.indirect != 0 {
      var p := PointersOf(disk, n.indirect);
      var bmap2 := if v then SetBit(bmap1, n.indirect, v) else bmap1;
      SetWhileCorrect(bmap2, own, i, POINTERS_PER_INODE, p, c - POINTERS_PER_INODE, 0, v);
    }
  }

  // fs_delete returns every block of the file to the free map.
  lemma ClearBlocksCount(disk: Disk, bmap: seq<bool>, tab: seq<Inode>, own: seq<Owner>, i: int, c: int)
    requires Owned(disk, bmap, tab, own) && 0 <= i < |tab| && tab[i].isvalid && Contiguous(disk, tab[i], c)
    ensures CountFree(SetBlocks(disk, bmap, tab[i], false)) == CountFree(bmap) + Cost(c)
  {
    hide CountFree, SetWhile, SlotsOwned;
    var n := tab[i];
    FileSlots(disk, bmap, tab, own, i, c);
    assert InodeOwned(disk, n, i, own);
    var bmap1 := SetWhile(bmap, n.direct, 0, false);
    var z := Min(c, POINTERS_PER_INODE);
    SetWhileCount(bmap, own, i, 0, n.direct, z, 0);
    SetWhileCorrect(bmap, own, i, 0, n.direct, z, 0, false);
    if n.indirect != 0 {
      var p := PointersOf(disk, n.indirect);
      SetWhileCount(bmap1, own, i, POINTERS_PER_INODE, p, c - POINTERS_PER_INODE, 0);
      SetWhileCorrect(bmap1, own, i, POINTERS_PER_INODE, p, c - POINTERS_PER_INODE, 0, false);
      CountUpdate(SetWhile(bmap1, p, 0, false), n.indirect, false);
    }
  }
}
