// The write loop: every byte of the file afterwards, what stays unchanged, and how far it gets.

module FsWriteProof {
  import opened DataStructures
  import opened CacheSpec
  import opened FsSpec
  import opened FsInvariant
  import opened FsSpace

  // Byte x of data block q of a file.
  function Cell(disk: Disk, n: Inode, q: int, x: int): byte
    requires 0 <= x < DISK_BLOCK_SIZE
  {
    BytesOf(disk, Slot(disk, n, q))[x]
  }

  // Byte p of a file.
  function ByteAt(disk: Disk, n: Inode, p: int): byte
    requires 0 <= p
  {
    Cell(disk, n, p / DISK_BLOCK_SIZE, p % DISK_BLOCK_SIZE)
  }

  ghost predicate Kept(own: seq<Owner>, own': seq<Owner>) {
    |own'| == |own| && forall b :: 0 <= b < |own| && own[b] != Free ==> own'[b] == own[b]
  }

  ghost predicate FileOk(disk: Disk, bmap: seq<bool>, tab: seq<Inode>, own: seq<Owner>, i: int, c: int) {
    Owned(disk, bmap, tab, own) && 0 <= i < |tab| && tab[i].isvalid && Contiguous(disk, tab[i], c)
  }

  // Disk and inode after a step that affects only file i, and of its fixed fields only pointers.
  ghost predicate Confined(disk: Disk, n: Inode, own: seq<Owner>, i: int,
                           disk': Disk, n': Inode, own': seq<Owner>, touched: bool) {
    && SameElsewhere(disk, disk', own, i)
    && Kept(own, own')
    && n'.size == n.size && n'.isvalid
    && (!touched ==> n' == n)
  }

  lemma DataWriteKeepsOwned(disk: Disk, bmap: seq<bool>, tab: seq<Inode>, own: seq<Owner>, b: int, bytes: Bytes)
    requires Owned(disk, bmap, tab, own) && 0 <= b < |disk| && own[b].DataOf?
    ensures Owned(disk[b := DataBlock(bytes)], bmap, tab, own)
  {
    var disk' := disk[b := DataBlock(bytes)];
    forall j | 0 <= j < |tab| && tab[j].isvalid
      ensures InodeOwned(disk', tab[j], j, own)
    {
      assert InodeOwned(disk, tab[j], j, own);
      forall k | 0 <= k < POINTERS_PER_FILE ensures SlotOwned(disk', tab[j], j, k, own) {
        assert SlotOwned(disk, tab[j], j, k, own);
      }
    }
    forall x | 0 <= x < |own| ensures OwnerPoints(disk', tab, own[x], x) {
      assert OwnerPoints(disk, tab, own[x], x);
    }
  }

  // create_new_data_block at the first unused slot.
  lemma AllocCorrect(disk: Disk, bmap: seq<bool>, tab: seq<Inode>, own: seq<Owner>, i: int, c: int)
    returns (own': seq<Owner>)
    requires FileOk(disk, bmap, tab, own, i, c) && c < POINTERS_PER_FILE
    requires CreateDataBlock(disk, bmap, tab[i], c).block != 0
    ensures var a := CreateDataBlock(disk, bmap, tab[i], c);
      && FileOk(a.disk, a.bmap, tab[i := a.n], own', i, c + 1)
      && Confined(disk, tab[i], own, i, a.disk, a.n, own', a.touched)
      && 0 < a.block < |own'| && own'[a.block] == DataOf(i, c)
      && (forall q, x :: 0 <= q <= c && 0 <= x < DISK_BLOCK_SIZE ==>
            Cell(a.disk, a.n, q, x) == if q < c then Cell(disk, tab[i], q, x) else 0)
  {
    var a := CreateDataBlock(disk, bmap, tab[i], c);
    if c < POINTERS_PER_INODE {
      own' := AllocDirect(disk, bmap, tab, own, i, c);
    } else {
      own' := AllocIndirect(disk, bmap, tab, own, i, c);
    }
    GrowsKeepsOwned(disk, bmap, tab, own, i, c, a.block, a.disk, a.bmap, a.n, own');
    assert InodeOwned(disk, tab[i], i, own);
    forall q, x | 0 <= q <= c && 0 <= x < DISK_BLOCK_SIZE
      ensures Cell(a.disk, a.n, q, x) == if q < c then Cell(disk, tab[i], q, x) else 0
    {
      assert SlotOwned(disk, tab[i], i, q, own);
    }
  }

  // Writing part of a data block that file i owns as its slot k.
  lemma StoreCorrect(disk: Disk, bmap: seq<bool>, tab: seq<Inode>, own: seq<Owner>, i: int, c: int,
                     k: int, bytes: Bytes)
    requires FileOk(disk, bmap, tab, own, i, c) && 0 <= k < c
    ensures var b := Slot(disk, tab[i], k);
      && 0 <= b < |disk| && own[b] == DataOf(i, k)
      && var disk' := disk[b := DataBlock(bytes)];
      && FileOk(disk', bmap, tab, own, i, c)
      && SameElsewhere(disk, disk', own, i)
      && forall q, x :: 0 <= q < c && 0 <= x < DISK_BLOCK_SIZE ==>
           Cell(disk', tab[i], q, x) == if q == k then bytes[x] else Cell(disk, tab[i], q, x)
  {
    var b := Slot(disk, tab[i], k);
    assert InodeOwned(disk, tab[i], i, own) && SlotOwned(disk, tab[i], i, k, own);
    DataWriteKeepsOwned(disk, bmap, tab, own, b, bytes);
    var disk' := disk[b := DataBlock(bytes)];
    assert forall q :: Slot(disk', tab[i], q) == Slot(disk, tab[i], q);
    forall q, x | 0 <= q < c && 0 <= x < DISK_BLOCK_SIZE
      ensures Cell(disk', tab[i], q, x) == if q == k then bytes[x] else Cell(disk, tab[i], q, x)
    {
      assert SlotOwned(disk, tab[i], i, q, own);
    }
  }

  // What one iteration of the write loop does to a file that had c data blocks.
  ghost predicate ChunkDone(disk: Disk, n: Inode, own: seq<Owner>, i: int, c: int, data: seq<byte>, offset: int,
                            a: Alloc, own': seq<Owner>)
    requires 0 <= offset && data != []
  {
    var k, s := BlockOf(offset), offset % DISK_BLOCK_SIZE;
    && Confined(disk, n, own, i, a.disk, a.n, own', a.touched)
    && forall q, x :: 0 <= q < Max(c, k + 1) && 0 <= x < DISK_BLOCK_SIZE ==>
         Cell(a.disk, a.n, q, x) ==
           if q == k && s <= x < s + ChunkSize(offset, |data|) then data[x - s]
           else if q < c then Cell(disk, n, q, x) else 0
  }

  lemma ChunkExisting(disk: Disk, bmap: seq<bool>, tab: seq<Inode>, own: seq<Owner>, i: int, c: int,
                      data: seq<byte>, offset: int)
    requires FileOk(disk, bmap, tab, own, i, c)
    requires data != [] && 0 <= offset < MAX_FILE_SIZE && BlockOf(offset) < c
    ensures var a := WriteChunk(disk, bmap, tab[i], data, offset);
      && a.block != 0 && a.bmap == bmap && a.n == tab[i]
      && FileOk(a.disk, a.bmap, tab, own, i, c)
      && ChunkDone(disk, tab[i], own, i, c, data, offset, a, own)
  {
    hide FileOk, Slot;
    var k := BlockOf(offset);
    UsedSlot(disk, bmap, tab, own, i, c, k);
    var b := Slot(disk, tab[i], k);
    var bytes := Overwrite(BytesOf(disk, b), offset % DISK_BLOCK_SIZE, data[..ChunkSize(offset, |data|)]);
    StoreCorrect(disk, bmap, tab, own, i, c, k, bytes);
    forall x | 0 <= x < DISK_BLOCK_SIZE ensures BytesOf(disk, b)[x] == Cell(disk, tab[i], k, x) { }
  }

  lemma ChunkNew(disk: Disk, bmap: seq<bool>, tab: seq<Inode>, own: seq<Owner>, i: int, c: int,
                 data: seq<byte>, offset: int)
    returns (own': seq<Owner>)
    requires FileOk(disk, bmap, tab, own, i, c)
    requires data != [] && 0 <= offset < MAX_FILE_SIZE && BlockOf(offset) == c
    requires WriteChunk(disk, bmap, tab[i], data, offset).block != 0
    ensures var a := WriteChunk(disk, bmap, tab[i], data, offset);
      && FileOk(a.disk, a.bmap, tab[i := a.n], own', i, c + 1)
      && ChunkDone(disk, tab[i], own, i, c, data, offset, a, own')
  {
    hide FileOk, Slot, CreateDataBlock;
    UnusedSlot(disk, bmap, tab, own, i, c);
    var a := CreateDataBlock(disk, bmap, tab[i], c);
    own' := AllocCorrect(disk, bmap, tab, own, i, c);
    SlotOfOwner(a.disk, a.bmap, tab[i := a.n], own', i, c + 1, a.block, c);
    forall x | 0 <= x < DISK_BLOCK_SIZE ensures BytesOf(a.disk, a.block)[x] == 0 { assert Cell(a.disk, a.n, c, x) == 0; }
    var bytes := Overwrite(BytesOf(a.disk, a.block), offset % DISK_BLOCK_SIZE, data[..ChunkSize(offset, |data|)]);
    StoreCorrect(a.disk, a.bmap, tab[i := a.n], own', i, c + 1, c, bytes);
  }

  lemma UsedSlot(disk: Disk, bmap: seq<bool>, tab: seq<Inode>, own: seq<Owner>, i: int, c: int, k: int)
    requires FileOk(disk, bmap, tab, own, i, c) && 0 <= k < c
    ensures 0 <= i < |tab| && |disk| == |bmap| == |own| && Slot(disk, tab[i], k) != 0 && tab[i].isvalid
  {
  }

  lemma UnusedSlot(disk: Disk, bmap: seq<bool>, tab: seq<Inode>, own: seq<Owner>, i: int, c: int)
    requires FileOk(disk, bmap, tab, own, i, c)
    ensures 0 <= i < |tab| && |disk| == |bmap| == |own| && 0 <= c <= POINTERS_PER_FILE && Slot(disk, tab[i], c) == 0
  {
  }

  lemma SlotOfOwner(disk: Disk, bmap: seq<bool>, tab: seq<Inode>, own: seq<Owner>, i: int, c: int, b: int, k: int)
    requires FileOk(disk, bmap, tab, own, i, c) && 0 <= b < |own| && own[b] == DataOf(i, k)
    ensures 0 <= i < |tab| && Slot(disk, tab[i], k) == b
  {
    assert OwnerPoints(disk, tab, own[b], b);
  }

  // Bytes 0 .. DISK_BLOCK_SIZE * c' of a file that had c data blocks, after data was written at offset.
  ghost predicate BytesWritten(disk: Disk, n: Inode, c: int, data: seq<byte>, offset: int,
                               disk': Disk, n': Inode, c': int) {
    forall p :: 0 <= p < DISK_BLOCK_SIZE * c' ==>
      ByteAt(disk', n', p) ==
        if offset <= p < offset + |data| then data[p - offset]
        else if p < DISK_BLOCK_SIZE * c then ByteAt(disk, n, p) else 0
  }

  lemma ChunkBytes(disk: Disk, n: Inode, own: seq<Owner>, i: int, c: int, data: seq<byte>, offset: int,
                   a: Alloc, own': seq<Owner>)
    requires 0 <= offset && data != [] && ChunkDone(disk, n, own, i, c, data, offset, a, own')
    ensures BytesWritten(disk, n, c, data[..ChunkSize(offset, |data|)], offset,
                         a.disk, a.n, Max(c, BlockOf(offset) + 1))
  {
    var m := ChunkSize(offset, |data|);
    forall p | 0 <= p < DISK_BLOCK_SIZE * Max(c, BlockOf(offset) + 1)
      ensures ByteAt(a.disk, a.n, p) ==
        if offset <= p < offset + m then data[p - offset]
        else if p < DISK_BLOCK_SIZE * c then ByteAt(disk, n, p) else 0
    {
      var q, x := p / DISK_BLOCK_SIZE, p % DISK_BLOCK_SIZE;
      assert Cell(a.disk, a.n, q, x) == Cell(a.disk, a.n, q, x);
    }
  }

  lemma BytesWrittenTwice(disk: Disk, n: Inode, c: int, data: seq<byte>, m: int, offset: int,
                          disk1: Disk, n1: Inode, c1: int, w: int, disk2: Disk, n2: Inode, c2: int)
    requires 0 <= offset && 0 <= m <= m + w <= |data| && c <= c1 && offset + m <= DISK_BLOCK_SIZE * c1
    requires BytesWritten(disk, n, c, data[..m], offset, disk1, n1, c1)
    requires BytesWritten(disk1, n1, c1, data[m..][..w], offset + m, disk2, n2, c2)
    ensures BytesWritten(disk, n, c, data[..m + w], offset, disk2, n2, c2)
  {
  }

  // Data blocks a file can have when x blocks are available to it in all.
  function SlotsFor(x: int): int {
    if x <= POINTERS_PER_INODE then x else Min(POINTERS_PER_FILE, Max(POINTERS_PER_INODE, x - 1))
  }

  // Bytes that fs_write writes into a file of c data blocks with free blocks left: everything, or
  // up to the end of the last block the file can get.
  function Writable(free: int, c: int, offset: int, length: int): (w: int)
    ensures 0 <= length ==> 0 <= w <= length
  {
    Min(length, Max(0, DISK_BLOCK_SIZE * SlotsFor(free + Cost(c)) - offset))
  }

  function BlocksAfter(c: int, offset: int, written: int): int {
    if written == 0 then c else Max(c, NumBlocks(offset + written))
  }

  ghost predicate LoopDone(disk: Disk, bmap: seq<bool>, tab: seq<Inode>, own: seq<Owner>, i: int, c: int,
                           data: seq<byte>, offset: int, r: WriteResult, own': seq<Owner>)
    requires 0 <= i < |tab| && 0 <= offset && r.written <= |data|
  {
    var c' := BlocksAfter(c, offset, r.written);
    && FileOk(r.disk, r.bmap, tab[i := r.n], own', i, c')
    && Confined(disk, tab[i], own, i, r.disk, r.n, own', r.touched)
    && BytesWritten(disk, tab[i], c, data[..r.written], offset, r.disk, r.n, c')
    && CountFree(r.bmap) == CountFree(bmap) - (Cost(c') - Cost(c))
    && r.written == Writable(CountFree(bmap), c, offset, |data|)
  }

  // One iteration at block k <= c, transferring m bytes.
  ghost predicate StepDone(disk: Disk, bmap: seq<bool>, n: Inode, own: seq<Owner>, i: int, c: int,
                           data: seq<byte>, offset: int, a: Alloc, own1: seq<Owner>)
    requires 0 <= offset && data != []
  {
    var c1 := Max(c, BlockOf(offset) + 1);
    && Confined(disk, n, own, i, a.disk, a.n, own1, a.touched)
    && BytesWritten(disk, n, c, data[..ChunkSize(offset, |data|)], offset, a.disk, a.n, c1)
    && CountFree(a.bmap) == CountFree(bmap) - (Cost(c1) - Cost(c))
  }

  lemma StepCorrect(disk: Disk, bmap: seq<bool>, tab: seq<Inode>, own: seq<Owner>, i: int, c: int,
                    data: seq<byte>, offset: int, a: Alloc)
    returns (own1: seq<Owner>)
    requires FileOk(disk, bmap, tab, own, i, c) && data != []
    requires 0 <= offset < MAX_FILE_SIZE && BlockOf(offset) <= c
    requires a == WriteChunk(disk, bmap, tab[i], data, offset)
    ensures var k := BlockOf(offset);
      && (a.block == 0 <==> k == c && CountFree(bmap) < NextCost(c))
      && (a.block == 0 ==> a == Alloc(disk, bmap, tab[i], 0, false))
      && (a.block != 0 ==>
            && BlockOf(offset + ChunkSize(offset, |data|)) <= Max(c, k + 1)
            && FileOk(a.disk, a.bmap, tab[i := a.n], own1, i, Max(c, k + 1))
            && StepDone(disk, bmap, tab[i], own, i, c, data, offset, a, own1))
  {
    hide Owned, Contiguous, Slot, CreateDataBlock, BytesWritten;
    own1 := own;
    var k := BlockOf(offset);
    FileBounds(disk, bmap, tab, own, i, c);
    if k < c {
      ChunkExisting(disk, bmap, tab, own, i, c, data, offset);
      assert tab[i := tab[i]] == tab;
    } else {
      UnusedSlot(disk, bmap, tab, own, i, c);
      AllocSpace(disk, bmap, tab, own, i, c);
      if a.block != 0 { own1 := ChunkNew(disk, bmap, tab, own, i, c, data, offset); }
    }
    if a.block != 0 { ChunkBytes(disk, tab[i], own, i, c, data, offset, a, own1); }
  }

  lemma ConfinedTwice(disk: Disk, n: Inode, own: seq<Owner>, i: int, disk1: Disk, n1: Inode, own1: seq<Owner>,
                      t1: bool, disk2: Disk, n2: Inode, own2: seq<Owner>, t2: bool)
    requires Confined(disk, n, own, i, disk1, n1, own1, t1) && Confined(disk1, n1, own1, i, disk2, n2, own2, t2)
    ensures Confined(disk, n, own, i, disk2, n2, own2, t1 || t2)
  {
  }

  lemma WritableStep(free: int, c: int, offset: int, length: int)
    requires 0 < length && 0 <= free && 0 <= c <= POINTERS_PER_FILE && 0 <= offset < MAX_FILE_SIZE && BlockOf(offset) <= c
    ensures var k, m := BlockOf(offset), ChunkSize(offset, length);
      if k == c && free < NextCost(c) then Writable(free, c, offset, length) == 0
      else
        var c1 := Max(c, k + 1);
        Writable(free, c, offset, length) == m + Writable(free - (Cost(c1) - Cost(c)), c1, offset + m, length - m)
  {
  }

  lemma JoinCounts(free: int, c: int, offset: int, length: int, w: int)
    requires 0 < length && 0 <= free && 0 <= c <= POINTERS_PER_FILE && 0 <= offset < MAX_FILE_SIZE && BlockOf(offset) <= c && 0 <= w
    requires !(BlockOf(offset) == c && free < NextCost(c))
    ensures var m, c1 := ChunkSize(offset, length), Max(c, BlockOf(offset) + 1);
      && 0 < m <= length
      && offset + m <= DISK_BLOCK_SIZE * c1
      && BlocksAfter(c, offset, m + w) == BlocksAfter(c1, offset + m, w)
      && (w == Writable(free - (Cost(c1) - Cost(c)), c1, offset + m, length - m) ==>
            m + w == Writable(free, c, offset, length))
  {
    WritableStep(free, c, offset, length);
  }

  // The first iteration followed by the rest of the loop.
  lemma LoopJoin(disk: Disk, bmap: seq<bool>, tab: seq<Inode>, own: seq<Owner>, i: int, c: int,
                 data: seq<byte>, offset: int, m: int, a: Alloc, own1: seq<Owner>, c1: int, r1: WriteResult, own2: seq<Owner>,
                 r: WriteResult)
    requires 0 <= i < |tab| && data != []
    requires 0 <= offset < MAX_FILE_SIZE && 0 <= c <= POINTERS_PER_FILE && BlockOf(offset) <= c
    requires m == ChunkSize(offset, |data|) && c1 == Max(c, BlockOf(offset) + 1)
    requires StepDone(disk, bmap, tab[i], own, i, c, data, offset, a, own1)
    requires !(BlockOf(offset) == c && CountFree(bmap) < NextCost(c))
    requires r1.written <= |data| - m && LoopDone(a.disk, a.bmap, tab[i := a.n], own1, i, c1, data[m..], offset + m, r1, own2)
    requires r == r1.(written := m + r1.written, touched := a.touched || r1.touched)
    ensures LoopDone(disk, bmap, tab, own, i, c, data, offset, r, own2)
  {
    hide FileOk, Slot, CountFree, ByteAt, Writable, NumBlocks;
    var c2 := BlocksAfter(c1, offset + m, r1.written);
    JoinCounts(CountFree(bmap), c, offset, |data|, r1.written);
    ConfinedTwice(disk, tab[i], own, i, a.disk, a.n, own1, a.touched, r1.disk, r1.n, own2, r1.touched);
    BytesWrittenTwice(disk, tab[i], c, data, m, offset, a.disk, a.n, c1, r1.written, r1.disk, r1.n, c2);
    assert tab[i := a.n][i := r1.n] == tab[i := r1.n];
  }

  lemma {:induction false} WriteLoopCorrect(disk: Disk, bmap: seq<bool>, tab: seq<Inode>, own: seq<Owner>, i: int, c: int,
                                            data: seq<byte>, offset: int)
    returns (r: WriteResult, own': seq<Owner>)
    requires 0 <= i < |tab| && |disk| == |bmap| && 0 <= c
    requires FileOk(disk, bmap, tab, own, i, c)
    requires 0 <= offset && BlockOf(offset) <= c
    ensures r == WriteLoop(disk, bmap, tab[i], data, offset)
    ensures LoopDone(disk, bmap, tab, own, i, c, data, offset, r, own')
    decreases |data|
  {
    hide LoopDone, StepDone, FileOk, WriteChunk, Slot, CountFree, NextCost, BlockOf, ChunkSize;
    r := WriteLoop(disk, bmap, tab[i], data, offset);
    FileBounds(disk, bmap, tab, own, i, c);
    if data == [] || offset >= MAX_FILE_SIZE || WriteChunk(disk, bmap, tab[i], data, offset).block == 0 {
      own' := LoopBase(disk, bmap, tab, own, i, c, data, offset, r);
      return;
    }
    var a := WriteChunk(disk, bmap, tab[i], data, offset);
    var own1 := StepCorrect(disk, bmap, tab, own, i, c, data, offset, a);
    var m, c1 := ChunkSize(offset, |data|), Max(c, BlockOf(offset) + 1);
    var r1, own2 := WriteLoopCorrect(a.disk, a.bmap, tab[i := a.n], own1, i, c1, data[m..], offset + m);
    LoopJoin(disk, bmap, tab, own, i, c, data, offset, m, a, own1, c1, r1, own2, r);
    return r, own2;
  }

  lemma LoopBase(disk: Disk, bmap: seq<bool>, tab: seq<Inode>, own: seq<Owner>, i: int, c: int,
                 data: seq<byte>, offset: int, r: WriteResult)
    returns (own': seq<Owner>)
    requires FileOk(disk, bmap, tab, own, i, c)
    requires 0 <= offset && BlockOf(offset) <= c
    requires r == WriteLoop(disk, bmap, tab[i], data, offset)
    requires data == [] || offset >= MAX_FILE_SIZE || WriteChunk(disk, bmap, tab[i], data, offset).block == 0
    ensures LoopDone(disk, bmap, tab, own, i, c, data, offset, r, own')
  {
    own' := own;
    assert tab[i := tab[i]] == tab;
    if data != [] && offset < MAX_FILE_SIZE {
      var a := WriteChunk(disk, bmap, tab[i], data, offset);
      var own1 := StepCorrect(disk, bmap, tab, own, i, c, data, offset, a);
      WritableStep(CountFree(bmap), c, offset, |data|);
    }
  }

  lemma FileBounds(disk: Disk, bmap: seq<bool>, tab: seq<Inode>, own: seq<Owner>, i: int, c: int)
    requires FileOk(disk, bmap, tab, own, i, c)
    ensures 0 <= c <= POINTERS_PER_FILE && (tab[i].indirect != 0 <==> c > POINTERS_PER_INODE)
  {
  }

  // ---------- Exactly when the loop runs off the pointers ----------

  lemma {:induction false} RunsOffExactly(disk: Disk, bmap: seq<bool>, tab: seq<Inode>, own: seq<Owner>, i: int, c: int,
                                          data: seq<byte>, offset: int)
    requires 0 <= i < |tab| && |disk| == |bmap| && FileOk(disk, bmap, tab, own, i, c)
    requires 0 <= offset <= MAX_FILE_SIZE && BlockOf(offset) <= c
    ensures RunsOff(disk, bmap, tab[i], data, offset) <==>
      offset + |data| > MAX_FILE_SIZE && CountFree(bmap) + Cost(c) >= Cost(POINTERS_PER_FILE)
    decreases |data|
  {
    hide FileOk, WriteChunk, Slot, CountFree, StepDone, FindFreeBlock;
    FileBounds(disk, bmap, tab, own, i, c);
    if data != [] && offset < MAX_FILE_SIZE {
      var a := WriteChunk(disk, bmap, tab[i], data, offset);
      var own1 := StepCorrect(disk, bmap, tab, own, i, c, data, offset, a);
      if a.block != 0 {
        var m, c1 := ChunkSize(offset, |data|), Max(c, BlockOf(offset) + 1);
        assert StepDone(disk, bmap, tab[i], own, i, c, data, offset, a, own1);
        RunsOffExactly(a.disk, a.bmap, tab[i := a.n], own1, i, c1, data[m..], offset + m);
        CountAfter(disk, bmap, tab[i], own, i, c, data, offset, a, own1);
      }
    }
  }

  lemma CountAfter(disk: Disk, bmap: seq<bool>, n: Inode, own: seq<Owner>, i: int, c: int,
                   data: seq<byte>, offset: int, a: Alloc, own1: seq<Owner>)
    requires 0 <= offset && data != [] && StepDone(disk, bmap, n, own, i, c, data, offset, a, own1)
    ensures CountFree(a.bmap) + Cost(Max(c, BlockOf(offset) + 1)) == CountFree(bmap) + Cost(c)
  {
  }
}
