// One file: what fs_read returns and what fs_write leaves, in terms of its byte content.

module FsFile {
  import opened DataStructures
  import opened CacheSpec
  import opened FsSpec
  import opened FsInvariant
  import opened FsSpace
  import opened FsWriteProof

  // A file of n.size bytes has exactly the blocks it needs, and zeros after its last byte.
  ghost predicate FileShape(disk: Disk, n: Inode) {
    && 0 <= n.size <= MAX_FILE_SIZE
    && Contiguous(disk, n, NumBlocks(n.size))
    && forall p :: n.size <= p < DISK_BLOCK_SIZE * NumBlocks(n.size) ==> ByteAt(disk, n, p) == 0
  }

  function Content(disk: Disk, n: Inode): (s: seq<byte>)
    requires 0 <= n.size
    ensures |s| == n.size
  {
    seq(n.size, p requires 0 <= p => ByteAt(disk, n, p))
  }

  // s with d written at position at, zeros filling the gap if at is past the end.
  function Spliced(s: seq<byte>, at: nat, d: seq<byte>): (r: seq<byte>)
    ensures |r| == Max(|s|, at + |d|)
  {
    seq(Max(|s|, at + |d|), p requires 0 <= p < Max(|s|, at + |d|) =>
      if at <= p < at + |d| then d[p - at] else if p < |s| then s[p] else 0)
  }

  // ---------- fs_read ----------

  lemma SlotInside(disk: Disk, n: Inode, c: int, offset: int)
    requires Contiguous(disk, n, c) && 0 <= offset < DISK_BLOCK_SIZE * c
    ensures Slot(disk, n, BlockOf(offset)) != 0
  {
  }

  // Bytes transferred together are in one block.
  lemma ByteInChunk(disk: Disk, n: Inode, offset: int, total: int, x: int)
    requires 0 <= offset && 0 <= x < ChunkSize(offset, total)
    ensures offset % DISK_BLOCK_SIZE + x < DISK_BLOCK_SIZE
    ensures ByteAt(disk, n, offset + x) == BytesOf(disk, Slot(disk, n, BlockOf(offset)))[offset % DISK_BLOCK_SIZE + x]
  {
    assert (offset + x) / DISK_BLOCK_SIZE == BlockOf(offset);
  }

  lemma {:induction false} ReadLoopLength(disk: Disk, n: Inode, c: int, total: int, offset: int)
    requires Contiguous(disk, n, c) && 0 <= offset && 0 <= total && offset + total <= DISK_BLOCK_SIZE * c
    ensures |ReadLoop(disk, n, total, offset)| == total
    decreases total
  {
    hide Contiguous, Slot, BlockOf, BytesOf;
    if total > 0 {
      SlotInside(disk, n, c, offset);
      var m := ChunkSize(offset, total);
      ReadLoopLength(disk, n, c, total - m, offset + m);
    }
  }

  lemma {:induction false} ReadLoopAt(disk: Disk, n: Inode, c: int, total: int, offset: int, x: int)
    requires Contiguous(disk, n, c) && 0 <= offset && 0 <= x < total && offset + total <= DISK_BLOCK_SIZE * c
    ensures x < |ReadLoop(disk, n, total, offset)|
    ensures ReadLoop(disk, n, total, offset)[x] == ByteAt(disk, n, offset + x)
    decreases total
  {
    hide Contiguous, Slot, BlockOf, BytesOf, ByteAt;
    SlotInside(disk, n, c, offset);
    ReadLoopLength(disk, n, c, total, offset);
    var m := ChunkSize(offset, total);
    if x >= m {
      ReadLoopAt(disk, n, c, total - m, offset + m, x - m);
    } else {
      ByteInChunk(disk, n, offset, total, x);
    }
  }

  // fs_read returns the requested slice of the file, cut off at its end.
  lemma ReadCorrect(disk: Disk, n: Inode, length: int, offset: int)
    requires FileShape(disk, n) && 0 <= length && 0 <= offset
    ensures var s := Content(disk, n);
      ReadLoop(disk, n, Min(n.size - offset, length), offset)
        == if offset <= |s| then s[offset..Min(|s|, offset + length)] else []
  {
    hide Contiguous, Slot, ByteAt, BlockOf;
    var s, total := Content(disk, n), Min(n.size - offset, length);
    if total > 0 {
      var c := NumBlocks(n.size);
      ReadLoopLength(disk, n, c, total, offset);
      var r := ReadLoop(disk, n, total, offset);
      forall x | 0 <= x < total ensures r[x] == s[offset + x] {
        ReadLoopAt(disk, n, c, total, offset, x);
      }
      assert r == s[offset..offset + total];
    }
  }

  // ---------- fs_write ----------

  // The write leaves no unallocated block inside the file: it starts at most at the end of the
  // last block, or in the very next block and that block can be allocated.
  predicate NoHole(size: int, free: int, offset: int, length: int) {
    || offset <= DISK_BLOCK_SIZE * NumBlocks(size)
    || (BlockOf(offset) == NumBlocks(size) && length > 0 && free >= NextCost(NumBlocks(size)))
  }

  lemma StartsInside(size: nat, free: int, offset: int, length: int)
    requires NoHole(size, free, offset, length)
    ensures BlockOf(offset) <= NumBlocks(size)
  {
  }

  ghost predicate WriteDone(disk: Disk, bmap: seq<bool>, tab: seq<Inode>, own: seq<Owner>, i: int,
                            data: seq<byte>, offset: int, r: WriteResult, own': seq<Owner>)
    requires 0 <= i < |tab| && 0 <= offset && r.written <= |data| && 0 <= tab[i].size
  {
    var n := tab[i];
    && Owned(r.disk, r.bmap, tab[i := r.n], own') && r.n.isvalid
    && FileShape(r.disk, r.n)
    && SameElsewhere(disk, r.disk, own, i) && Kept(own, own')
    && Content(r.disk, r.n) == Spliced(Content(disk, n), offset, data[..r.written])
    && CountFree(r.bmap) == CountFree(bmap) - (Cost(NumBlocks(r.n.size)) - Cost(NumBlocks(n.size)))
    && r.written == Writable(CountFree(bmap), NumBlocks(n.size), offset, |data|)
    && (!r.touched ==> r.n == n)
  }

  // fs_write on a well-formed file: every byte of the result, the blocks it took, and how much of
  // the data was written.
  lemma WriteCorrect(disk: Disk, bmap: seq<bool>, tab: seq<Inode>, own: seq<Owner>, i: int, data: seq<byte>, offset: int)
    returns (r: WriteResult, own': seq<Owner>)
    requires |disk| == |bmap| && 0 <= i < |tab| && tab[i].isvalid
    requires Owned(disk, bmap, tab, own) && FileShape(disk, tab[i])
    requires 0 <= offset <= MAX_FILE_SIZE
    requires NoHole(tab[i].size, CountFree(bmap), offset, |data|)
    ensures r == WriteInode(disk, bmap, tab[i], data, offset)
    ensures WriteDone(disk, bmap, tab, own, i, data, offset, r, own')
  {
    hide Owned, Contiguous, Slot, ByteAt, CountFree, WriteLoop;
    var n, c := tab[i], NumBlocks(tab[i].size);
    var l;
    assert n.(isvalid := true) == n;
    l, own' := WriteLoopCorrect(disk, bmap, tab, own, i, c, data, offset);
    r := WriteInode(disk, bmap, n, data, offset);
    WritableFits(CountFree(bmap), c, offset, |data|);
    ResizeKeepsOwned(l.disk, l.bmap, tab[i := l.n], own', i, r.n.size);
    assert tab[i := l.n][i := r.n] == tab[i := r.n];
    ResizeShape(disk, n, c, data[..l.written], offset, l.disk, l.n, BlocksAfter(c, offset, l.written), r.n.size);
  }

  // Pointers in use stay as they are.
  predicate PointersStay(n: Inode, n': Inode) {
    && n'.isvalid == n.isvalid && n'.size == n.size && (n.indirect != 0 ==> n'.indirect == n.indirect)
    && forall k :: 0 <= k < POINTERS_PER_INODE && n.direct[k] != 0 ==> n'.direct[k] == n.direct[k]
  }

  lemma {:induction false} LoopTouches(disk: Disk, bmap: seq<bool>, n: Inode, data: seq<byte>, offset: int)
    requires 0 <= offset && |disk| == |bmap|
    ensures var r := WriteLoop(disk, bmap, n, data, offset); PointersStay(n, r.n) && (r.touched <==> r.n != n)
    decreases |data|
  {
    hide WriteChunk;
    if data != [] && offset < MAX_FILE_SIZE {
      var a, m := WriteChunk(disk, bmap, n, data, offset), ChunkSize(offset, |data|);
      ChunkTouches(disk, bmap, n, data, offset);
      if a.block != 0 { LoopTouches(a.disk, a.bmap, a.n, data[m..], offset + m); }
    }
  }

  // An iteration asks for set_dirty exactly when it puts a pointer where none was.
  lemma ChunkTouches(disk: Disk, bmap: seq<bool>, n: Inode, data: seq<byte>, offset: int)
    requires data != [] && 0 <= offset < MAX_FILE_SIZE && |disk| == |bmap|
    ensures var a, k := WriteChunk(disk, bmap, n, data, offset), BlockOf(offset);
      && PointersStay(n, a.n)
      && (!a.touched ==> a.n == n)
      && (a.touched ==> if k < POINTERS_PER_INODE then n.direct[k] == 0 && a.n.direct[k] != 0 else n.indirect == 0 && a.n.indirect != 0)
  {
  }

  // fs_write makes the inode valid, only lets it grow, and calls set_dirty exactly when it has changed it.
  lemma SetDirtyExactly(disk: Disk, bmap: seq<bool>, n: Inode, data: seq<byte>, offset: int)
    requires 0 <= offset && |disk| == |bmap|
    ensures var r := WriteInode(disk, bmap, n, data, offset);
      r.n.isvalid && r.n.size == Max(n.size, offset + r.written) && (r.touched <==> r.n != n)
  {
    LoopTouches(disk, bmap, n.(isvalid := true), data, offset);
  }

  // Nothing is written past the largest file.
  lemma WritableFits(free: int, c: int, offset: int, length: int)
    requires 0 <= length && offset <= MAX_FILE_SIZE
    ensures offset + Writable(free, c, offset, length) <= MAX_FILE_SIZE
  {
  }

  // Changing only the size field changes no pointer.
  lemma ResizeKeepsOwned(disk: Disk, bmap: seq<bool>, tab: seq<Inode>, own: seq<Owner>, i: int, size: int)
    requires Owned(disk, bmap, tab, own) && 0 <= i < |tab|
    ensures Owned(disk, bmap, tab[i := tab[i].(size := size)], own)
  {
    var tab' := tab[i := tab[i].(size := size)];
    forall j | 0 <= j < |tab'| && tab'[j].isvalid ensures InodeOwned(disk, tab'[j], j, own) {
      assert InodeOwned(disk, tab[j], j, own);
      forall k | 0 <= k < POINTERS_PER_FILE ensures SlotOwned(disk, tab'[j], j, k, own) {
        assert SlotOwned(disk, tab[j], j, k, own);
      }
    }
    forall b | 0 <= b < |own| ensures OwnerPoints(disk, tab', own[b], b) {
      assert OwnerPoints(disk, tab, own[b], b);
    }
  }

  lemma ResizeShape(disk: Disk, n: Inode, c: int, d: seq<byte>, offset: int,
                    disk': Disk, n': Inode, c': int, size': int)
    requires FileShape(disk, n) && c == NumBlocks(n.size)
    requires 0 <= offset && offset + |d| <= MAX_FILE_SIZE
    requires Contiguous(disk', n', c') && BytesWritten(disk, n, c, d, offset, disk', n', c')
    requires c' == BlocksAfter(c, offset, |d|)
    requires size' == Max(offset + |d|, n.size) && c' == NumBlocks(size')
    ensures FileShape(disk', n'.(size := size'))
    ensures Content(disk', n'.(size := size')) == Spliced(Content(disk, n), offset, d)
  {
    var m := n'.(size := size');
    assert forall q :: Slot(disk', m, q) == Slot(disk', n', q);
    assert forall p :: 0 <= p ==> ByteAt(disk', m, p) == ByteAt(disk', n', p);
  }
}
