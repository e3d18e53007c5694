// What a write that leaves a hole does to its callers: the file cannot be read to its end, and its
// blocks behind the hole are leaked by delete and forgotten by mount.

module FsHoles {
  import opened Common
  import opened DataStructures
  import opened CacheSpec
  import opened FsSpec
  import opened FsInvariant
  import opened FsSpace
  import opened FsWriteProof
  import opened FsFile
  import opened FsSparse

  // fs_read at the hole finds no data, although the file goes on behind it.
  lemma HoleCutsRead(disk: Disk, bmap: seq<bool>, tab: seq<Inode>, own: seq<Owner>, i: int, data: seq<byte>, offset: int, length: nat)
    requires Owned(disk, bmap, tab, own) && 0 <= i < |tab| && tab[i].isvalid && FileShape(disk, tab[i])
    requires 0 <= offset <= MAX_FILE_SIZE && !NoHole(tab[i].size, CountFree(bmap), offset, |data|)
    ensures var r, hole := WriteInode(disk, bmap, tab[i], data, offset), DISK_BLOCK_SIZE * NumBlocks(tab[i].size);
      && tab[i].size <= hole < r.n.size
      && ReadLoop(r.disk, r.n, Min(r.n.size - hole, length), hole) == []
  {
    HoleStays(disk, bmap, tab, own, i, data, offset);
    var r, c := WriteInode(disk, bmap, tab[i], data, offset), NumBlocks(tab[i].size);
    assert BlockOf(DISK_BLOCK_SIZE * c) == c;
  }

  // A write that begins at the end of the largest file leaves its arrays at once, exactly when the file has
  // an indirect block or two blocks are free for one and a data block.
  lemma RunsOffAtOnce(disk: Disk, bmap: seq<bool>, own: seq<Owner>, n: Inode, data: seq<byte>)
    requires |disk| == |bmap| && MapAgrees(bmap, own) && data != []
    ensures RunsOff(disk, bmap, n, data, MAX_FILE_SIZE) <==> n.indirect != 0 || CountFree(bmap) >= 2
  {
    FindFreeFails(bmap, own);
    var b := FindFreeBlock(bmap);
    if b != 0 {
      CountUpdate(bmap, b, true);
      FindFreeFails(bmap[b := true], own[b := DataOf(0, 0)]);
    }
  }

  // Slot k is in use behind an unused slot of the same array of pointers.
  ghost predicate BehindHole(disk: Disk, n: Inode, k: int) {
    && 0 <= k < POINTERS_PER_FILE && Slot(disk, n, k) != 0
    && exists q :: 0 <= q < k && (q < POINTERS_PER_INODE <==> k < POINTERS_PER_INODE) && Slot(disk, n, q) == 0
  }

  // A write that leaves a hole puts its first block behind it, unless that is the first block of the
  // indirect ones.
  lemma HoleWriteSkips(disk: Disk, bmap: seq<bool>, tab: seq<Inode>, own: seq<Owner>, i: int, data: seq<byte>, offset: int)
    returns (own': seq<Owner>)
    requires Owned(disk, bmap, tab, own) && 0 <= i < |tab| && tab[i].isvalid && FileShape(disk, tab[i])
    requires 0 <= offset <= MAX_FILE_SIZE && !NoHole(tab[i].size, CountFree(bmap), offset, |data|)
    requires WriteInode(disk, bmap, tab[i], data, offset).written > 0 && BlockOf(offset) != POINTERS_PER_INODE
    ensures var r := WriteInode(disk, bmap, tab[i], data, offset);
      && Owned(r.disk, r.bmap, tab[i := r.n], own') && r.n.isvalid
      && BehindHole(r.disk, r.n, BlockOf(offset))
  {
    var n, c, k := tab[i], NumBlocks(tab[i].size), BlockOf(offset);
    assert n.(isvalid := true) == n;
    if k == c { AllocSpace(disk, bmap, tab, own, i, c); }
    var q := if c < POINTERS_PER_INODE < k then POINTERS_PER_INODE else c;
    own' := LoopSkips(disk, bmap, tab, own, i, data, offset, q);
    var l, r := WriteLoop(disk, bmap, n, data, offset), WriteInode(disk, bmap, n, data, offset);
    ResizeKeepsOwned(l.disk, l.bmap, tab[i := l.n], own', i, r.n.size);
    assert tab[i := l.n][i := r.n] == tab[i := r.n];
    assert forall x :: Slot(r.disk, r.n, x) == Slot(l.disk, l.n, x);
    assert Slot(r.disk, r.n, q) == 0;
  }

  lemma {:induction false} ScanMisses(bmap: seq<bool>, ptrs: seq<int>, k: nat, v: bool, z: nat, b: nat)
    requires k <= z <= |ptrs| && (z < |ptrs| ==> ptrs[z] == 0) && b < |bmap|
    requires forall x :: k <= x < z ==> ptrs[x] != b
    ensures SetWhile(bmap, ptrs, k, v)[b] == bmap[b]
    decreases z - k
  {
    if k < z && ptrs[k] != 0 { ScanMisses(SetBit(bmap, ptrs[k], v), ptrs, k + 1, v, z, b); }
  }

  // Where a block of file i is pointed to.
  lemma OnlySlot(disk: Disk, bmap: seq<bool>, tab: seq<Inode>, own: seq<Owner>, i: int, k: int, j: int)
    requires Owned(disk, bmap, tab, own) && 0 <= i < |tab| && tab[i].isvalid && 0 <= j < |tab| && tab[j].isvalid
    requires 0 <= k < POINTERS_PER_FILE && Slot(disk, tab[i], k) != 0
    ensures var b := Slot(disk, tab[i], k);
      && 0 < b < |own| && own[b] == DataOf(i, k) && bmap[b] && tab[j].indirect != b
      && (forall x :: 0 <= x < POINTERS_PER_INODE && (j != i || x != k) ==> tab[j].direct[x] != b)
      && (tab[j].indirect != 0 ==> forall x :: 0 <= x < POINTERS_PER_BLOCK && (j != i || POINTERS_PER_INODE + x != k) ==>
            PointersOf(disk, tab[j].indirect)[x] != b)
  {
    assert InodeOwned(disk, tab[i], i, own) && SlotOwned(disk, tab[i], i, k, own);
    var n, b := tab[j], Slot(disk, tab[i], k);
    assert InodeOwned(disk, n, j, own);
    forall x | 0 <= x < POINTERS_PER_INODE && n.direct[x] == b ensures j == i && x == k { assert SlotOwned(disk, n, j, x, own); }
    if n.indirect != 0 {
      forall x | 0 <= x < POINTERS_PER_BLOCK && PointersOf(disk, n.indirect)[x] == b ensures j == i && POINTERS_PER_INODE + x == k {
        assert SlotOwned(disk, n, j, POINTERS_PER_INODE + x, own);
      }
    }
  }

  // No scan reaches a block behind a hole.
  lemma ScanSkips(disk: Disk, bmap0: seq<bool>, tab: seq<Inode>, own: seq<Owner>, i: int, k: int, j: int, bmap: seq<bool>, v: bool)
    requires Owned(disk, bmap0, tab, own) && 0 <= i < |tab| && tab[i].isvalid && 0 <= j < |tab| && tab[j].isvalid
    requires BehindHole(disk, tab[i], k) && |bmap| == |bmap0|
    ensures var b := Slot(disk, tab[i], k); 0 <= b < |bmap| && SetBlocks(disk, bmap, tab[j], v)[b] == bmap[b]
  {
    OnlySlot(disk, bmap0, tab, own, i, k, j);
    hide Owned;
    var n, b := tab[j], Slot(disk, tab[i], k);
    var q :| 0 <= q < k && (q < POINTERS_PER_INODE <==> k < POINTERS_PER_INODE) && Slot(disk, tab[i], q) == 0;
    var z := if j == i && k < POINTERS_PER_INODE then q else POINTERS_PER_INODE;
    ScanMisses(bmap, n.direct, 0, v, z, b);
    if n.indirect != 0 {
      var bmap1 := SetWhile(bmap, n.direct, 0, v);
      var bmap2 := if v then SetBit(bmap1, n.indirect, v) else bmap1;
      var y := if j == i && k >= POINTERS_PER_INODE then q - POINTERS_PER_INODE else POINTERS_PER_BLOCK;
      ScanMisses(bmap2, PointersOf(disk, n.indirect), 0, v, y, b);
    }
  }

  // fs_delete does not return the block: it stays marked with no file to reach it.
  lemma DeleteLeaks(disk: Disk, bmap: seq<bool>, tab: seq<Inode>, own: seq<Owner>, i: int, k: int)
    requires Owned(disk, bmap, tab, own) && 0 <= i < |tab| && tab[i].isvalid && BehindHole(disk, tab[i], k)
    ensures var b := Slot(disk, tab[i], k); 0 <= b < |bmap| && SetBlocks(disk, bmap, tab[i], false)[b]
  {
    OnlySlot(disk, bmap, tab, own, i, k, i);
    ScanSkips(disk, bmap, tab, own, i, k, i, bmap, false);
  }

  // fs_mount does not mark the block, although the file reaches it.
  lemma {:induction false} MountForgets(disk: Disk, bmap: seq<bool>, tab: seq<Inode>, own: seq<Owner>, i: int, k: int,
                                        m: Maps, count: nat)
    requires Owned(disk, bmap, tab, own) && 0 <= i < |tab| && tab[i].isvalid && BehindHole(disk, tab[i], k)
    requires count <= |tab| == NumInodes(|disk|) && |m.bmap| == |bmap| && |m.inomap| == |tab|
    requires forall j :: 0 <= j < |tab| ==> tab[j] == DiskInode(disk, j)
    requires var b := Slot(disk, tab[i], k); 0 <= b < |m.bmap| && !m.bmap[b]
    ensures !MountScan(disk, m, count).bmap[Slot(disk, tab[i], k)]
  {
    hide Owned, BehindHole, SetBlocks, Slot;
    if count > 0 {
      var j := count - 1;
      MountForgets(disk, bmap, tab, own, i, k, m, j);
      var r, b := MountScan(disk, m, j), Slot(disk, tab[i], k);
      DataIsNotReserved(disk, bmap, tab, own, i, k, j);
      var bmap1 := if j % INODES_PER_BLOCK == 0 then SetBit(r.bmap, InodeBlockNumber(j), true) else r.bmap;
      if tab[j].isvalid { ScanSkips(disk, bmap, tab, own, i, k, j, bmap1, true); }
    }
  }

  lemma DataIsNotReserved(disk: Disk, bmap: seq<bool>, tab: seq<Inode>, own: seq<Owner>, i: int, k: int, j: int)
    requires Owned(disk, bmap, tab, own) && 0 <= i < |tab| && tab[i].isvalid && BehindHole(disk, tab[i], k)
    requires 0 <= j < |tab| == NumInodes(|disk|)
    ensures Slot(disk, tab[i], k) != InodeBlockNumber(j)
  {
    OnlySlot(disk, bmap, tab, own, i, k, i);
  }

  // Once the block counts as free, the next file that asks for a block gets it, and writes over the
  // data of the first one.
  lemma ThenOverwritten(disk: Disk, bmap0: seq<bool>, tab: seq<Inode>, own: seq<Owner>, i: int, k: int,
                        bmap: seq<bool>, n: Inode, data: seq<byte>)
    requires Owned(disk, bmap0, tab, own) && 0 <= i < |tab| && tab[i].isvalid && BehindHole(disk, tab[i], k)
    requires |bmap| == |disk| && FindFreeBlock(bmap) == Slot(disk, tab[i], k) && n.direct[0] == 0 && data != []
    ensures var a := WriteChunk(disk, bmap, n, data, 0);
      && a.block == Slot(disk, tab[i], k)
      && forall x :: 0 <= x < ChunkSize(0, |data|) ==> Cell(a.disk, tab[i], k, x) == data[x]
  {
    OnlySlot(disk, bmap0, tab, own, i, k, i);
    hide Owned;
    assert Slot(disk, n, 0) == 0;
    var a, b := WriteChunk(disk, bmap, n, data, 0), Slot(disk, tab[i], k);
    assert forall x :: x != b && 0 <= x < |disk| ==> a.disk[x] == disk[x];
    assert Slot(a.disk, tab[i], k) == b;
  }
}
