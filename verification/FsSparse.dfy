// fs_write accepts any offset up to the largest file.  Exactly when the write leaves a hole, the
// result is no longer a file that fs_read, fs_delete and fs_mount can scan to its end.

module FsSparse {
  import opened DataStructures
  import opened CacheSpec
  import opened FsSpec
  import opened FsInvariant
  import opened FsSpace
  import opened FsWriteProof
  import opened FsFile

  // One iteration leaves the unused slot q in front of it unused.
  lemma ChunkSkips(disk: Disk, bmap: seq<bool>, tab: seq<Inode>, own: seq<Owner>, i: int,
                   data: seq<byte>, offset: int, q: int)
    returns (own': seq<Owner>)
    requires Owned(disk, bmap, tab, own) && 0 <= i < |tab| && tab[i].isvalid
    requires data != [] && 0 <= offset < MAX_FILE_SIZE
    requires 0 <= q < BlockOf(offset) && Slot(disk, tab[i], q) == 0
    requires WriteChunk(disk, bmap, tab[i], data, offset).block != 0
    ensures var a := WriteChunk(disk, bmap, tab[i], data, offset);
      && Owned(a.disk, a.bmap, tab[i := a.n], own') && a.n.isvalid
      && Slot(a.disk, a.n, q) == 0 && Slot(a.disk, a.n, BlockOf(offset)) != 0
      && forall x :: 0 <= x < POINTERS_PER_FILE && Slot(disk, tab[i], x) != 0 ==> Slot(a.disk, a.n, x) != 0
  {
    hide CreateDataBlock, BytesOf;
    var k := BlockOf(offset);
    var n, b, disk1, bmap1, own1 := tab[i], Slot(disk, tab[i], k), disk, bmap, own;
    assert InodeOwned(disk, tab[i], i, own) && SlotOwned(disk, tab[i], i, k, own);
    if b == 0 {
      var a := CreateDataBlock(disk, bmap, n, k);
      if k < POINTERS_PER_INODE { own1 := AllocDirect(disk, bmap, tab, own, i, k); }
      else { own1 := AllocIndirect(disk, bmap, tab, own, i, k); }
      GrowsKeepsOwned(disk, bmap, tab, own, i, k, a.block, a.disk, a.bmap, a.n, own1);
      n, b, disk1, bmap1 := a.n, a.block, a.disk, a.bmap;
    }
    var tab1 := tab[i := n];
    assert tab[i := tab[i]] == tab;
    var bytes := Overwrite(BytesOf(disk1, b), offset % DISK_BLOCK_SIZE, data[..ChunkSize(offset, |data|)]);
    DataWriteKeepsOwned(disk1, bmap1, tab1, own1, b, bytes);
    assert InodeOwned(disk1, tab1[i], i, own1);
    own' := own1;
  }

  // The write loop leaves the unused slot q unused, and fills the slot it starts at unless it finds no space.
  lemma {:induction false} LoopSkips(disk: Disk, bmap: seq<bool>, tab: seq<Inode>, own: seq<Owner>, i: int,
                                     data: seq<byte>, offset: int, q: int)
    returns (own': seq<Owner>)
    requires |disk| == |bmap| && 0 <= i < |tab| && tab[i].isvalid && Owned(disk, bmap, tab, own)
    requires 0 <= offset
    requires 0 <= q < BlockOf(offset) && Slot(disk, tab[i], q) == 0
    ensures var r := WriteLoop(disk, bmap, tab[i], data, offset);
      && Owned(r.disk, r.bmap, tab[i := r.n], own') && r.n.isvalid && Slot(r.disk, r.n, q) == 0
      && (r.written > 0 ==> Slot(r.disk, r.n, BlockOf(offset)) != 0)
      && forall x :: 0 <= x < POINTERS_PER_FILE && Slot(disk, tab[i], x) != 0 ==> Slot(r.disk, r.n, x) != 0
    decreases |data|
  {
    hide Owned, Slot, BlockOf, ChunkSize, WriteChunk;
    own' := own;
    assert tab[i := tab[i]] == tab;
    if data != [] && offset < MAX_FILE_SIZE {
      var a, m := WriteChunk(disk, bmap, tab[i], data, offset), ChunkSize(offset, |data|);
      if a.block != 0 {
        var own1 := ChunkSkips(disk, bmap, tab, own, i, data, offset, q);
        BlockOfMonotone(offset, offset + m);
        BlockInside(offset);
        own' := LoopSkips(a.disk, a.bmap, tab[i := a.n], own1, i, data[m..], offset + m, q);
        var r := WriteLoop(a.disk, a.bmap, a.n, data[m..], offset + m);
        assert tab[i := a.n][i := r.n] == tab[i := r.n];
      } else {
        ChunkFails(disk, bmap, tab, own, i, data, offset);
      }
    }
  }

  lemma BlockInside(offset: int)
    requires 0 <= offset < MAX_FILE_SIZE
    ensures 0 <= BlockOf(offset) < POINTERS_PER_FILE
  {
  }

  lemma BlockOfMonotone(x: int, y: int)
    requires x <= y
    ensures BlockOf(x) <= BlockOf(y)
  {
  }

  // An iteration that finds no space changes nothing.
  lemma ChunkFails(disk: Disk, bmap: seq<bool>, tab: seq<Inode>, own: seq<Owner>, i: int, data: seq<byte>, offset: int)
    requires Owned(disk, bmap, tab, own) && 0 <= i < |tab| && tab[i].isvalid
    requires data != [] && 0 <= offset < MAX_FILE_SIZE
    requires WriteChunk(disk, bmap, tab[i], data, offset).block == 0
    ensures WriteChunk(disk, bmap, tab[i], data, offset) == Alloc(disk, bmap, tab[i], 0, false)
  {
    var b := FindFreeBlock(bmap);
    if b != 0 { assert bmap[b := true][b := false] == bmap; }
  }

  // The exact condition under which fs_write turns a well-formed file into a well-formed file.
  lemma WriteKeepsShapeExactly(disk: Disk, bmap: seq<bool>, tab: seq<Inode>, own: seq<Owner>, i: int,
                               data: seq<byte>, offset: int)
    requires Owned(disk, bmap, tab, own) && 0 <= i < |tab| && tab[i].isvalid && FileShape(disk, tab[i])
    requires 0 <= offset <= MAX_FILE_SIZE
    ensures var r := WriteInode(disk, bmap, tab[i], data, offset);
      FileShape(r.disk, r.n) <==> NoHole(tab[i].size, CountFree(bmap), offset, |data|)
  {
    var r := WriteInode(disk, bmap, tab[i], data, offset);
    if NoHole(tab[i].size, CountFree(bmap), offset, |data|) {
      var r', own' := WriteCorrect(disk, bmap, tab, own, i, data, offset);
    } else {
      HoleStays(disk, bmap, tab, own, i, data, offset);
    }
  }

  lemma HoleStays(disk: Disk, bmap: seq<bool>, tab: seq<Inode>, own: seq<Owner>, i: int, data: seq<byte>, offset: int)
    requires Owned(disk, bmap, tab, own) && 0 <= i < |tab| && tab[i].isvalid && FileShape(disk, tab[i])
    requires 0 <= offset <= MAX_FILE_SIZE
    requires !NoHole(tab[i].size, CountFree(bmap), offset, |data|)
    ensures var r, c := WriteInode(disk, bmap, tab[i], data, offset), NumBlocks(tab[i].size);
      && r.n.size >= offset && NumBlocks(r.n.size) > c
      && Slot(r.disk, r.n, c) == 0
      && !FileShape(r.disk, r.n)
  {
    var n, c := tab[i], NumBlocks(tab[i].size);
    var l := WriteLoop(disk, bmap, n, data, offset);
    assert n.(isvalid := true) == n;
    if BlockOf(offset) > c {
      var own' := LoopSkips(disk, bmap, tab, own, i, data, offset, c);
    } else if data != [] {
      AllocSpace(disk, bmap, tab, own, i, c);
    }
    assert Slot(l.disk, l.n, c) == 0;
    var r := WriteInode(disk, bmap, n, data, offset);
    assert Slot(r.disk, r.n, c) == Slot(l.disk, l.n, c);
  }
}
