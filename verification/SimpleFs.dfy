// The file system of project_4/fs.c as a program: the globals of fs.c are the fields of the class,
// and every operation updates disk, freemaps and cached inodes in place.
//
// Valid ties the state to the abstract file system abs, so "Valid() && abs == AbsStep(...)" is the
// specification of every operation.

module SimpleFs {
  import opened Common
  import opened DataStructures
  import CacheSpec
  import opened CacheProof
  import FsSpec
  import opened FsInvariant
  import opened FsSpace
  import opened FsWriteProof
  import opened FsFile
  import opened FsScan
  import opened FsAbstract
  import opened FsRefinement
  import opened FsUpdates
  import opened FsMounting
  import opened LruCache
  import opened LruStack

  // copy_data.
  method CopyData(dst: array<byte>, to: nat, src: seq<byte>, from: nat, length: nat)
    requires to + length <= dst.Length && from + length <= |src|
    modifies dst
    ensures dst[..] == FsSpec.Overwrite(old(dst[..]), to, src[from..from + length])
  {
    ghost var d := dst[..];
    for i := 0 to length
      invariant dst[..] == FsSpec.Overwrite(d, to, src[from..from + i])
    {
      dst[to + i] := src[from + i];
    }
  }

  class FileSystem {
    const disk: array<Block>
    var blockFreemap: array?<bool>
    var inodeFreemap: array?<bool>
    var numblocks: int
    var numinodes: int
    var cache: Cache?
    ghost var abs: AbsFs
    ghost var own: seq<Owner>

    // The structure the C code relies on while mounted; says nothing about the contents.
    ghost predicate Ready()
      reads this`blockFreemap, this`inodeFreemap, this`numblocks, this`numinodes, this`cache
      reads cache, if cache != null then set n: Node | n in cache.chain else {}
      reads if cache != null then set k | 1 <= k < |cache.chain| - 1 :: cache.chain[k].inode else {}
    {
      if blockFreemap == null then inodeFreemap == null && numblocks == -1 && numinodes == -1
      else
        && inodeFreemap != null && cache != null && blockFreemap != inodeFreemap
        && numblocks == blockFreemap.Length && numinodes == inodeFreemap.Length
        && cache.Valid()
        && cache.repr !! {this, disk, blockFreemap, inodeFreemap}
    }

    ghost function Model(): FsSpec.Fs
      reads this, disk, blockFreemap, inodeFreemap, cache
    {
      if blockFreemap == null || inodeFreemap == null || cache == null then FsSpec.Unmounted(disk[..])
      else FsSpec.Mounted(disk[..], blockFreemap[..], inodeFreemap[..], cache.Model())
    }

    ghost predicate Valid()
      reads this, disk, blockFreemap, inodeFreemap
      reads cache, if cache != null then set n: Node | n in cache.chain else {}
      reads if cache != null then set k | 1 <= k < |cache.chain| - 1 :: cache.chain[k].inode else {}
    {
      Ready() && RefinesWith(Model(), abs, own)
    }

    // inode_freemap, empty when unmounted.
    ghost function Marks(): seq<bool>
      reads this`inodeFreemap, inodeFreemap
    {
      if inodeFreemap == null then [] else inodeFreemap[..]
    }

    // Everything an operation may change.
    ghost function Footprint(): set<object>
      reads this, cache
    {
      {this, disk}
      + (if blockFreemap != null then {blockFreemap} else {})
      + (if inodeFreemap != null then {inodeFreemap} else {})
      + (if cache != null then cache.repr else {})
    }

    // The globals of fs.c before the first call.
    constructor (disk: array<Block>)
      ensures this.disk == disk && Ready() && blockFreemap == null && fresh(Footprint() - {disk})
    {
      this.disk := disk;
      blockFreemap, inodeFreemap, cache := null, null, null;
      numblocks, numinodes := -1, -1;
      abs, own := AbsFs(0, NotMounted, []), [];
    }

    method IsMounted() returns (r: bool)
      requires Valid()
      ensures r <==> abs.mount.MountedWith?
      ensures r ==> blockFreemap != null && inodeFreemap != null && cache != null
      ensures r <==> Model().Mounted?
    {
      MountAgrees(Model(), abs, own);
      return blockFreemap != null || inodeFreemap != null;
    }

    method IsArgValid(i: nat, length: int, offset: int) returns (r: bool)
      requires Valid() && blockFreemap != null
      ensures r == AbsArgValid(abs, i, length, offset)
    {
      ArgsAgree(Model(), abs, own, i, length, offset);
      if length < 0 || offset < 0 { return false; }
      if i >= numinodes { return false; }
      if !inodeFreemap[i] { return false; }
      if offset > MAX_FILE_SIZE { return false; }
      return true;
    }

    // get_inode as the operations call it.
    method Fetch(i: nat, junk: bool) returns (inode: FsInode?)
      requires Valid() && blockFreemap != null && cache != null && abs.mount.MountedWith?
      requires CacheSpec.Usable(|abs.files|, i) ==> LiveAbs(abs)
      modifies this`abs, cache, cache.repr, disk
      ensures Valid() && abs == Fetched(old(abs), i) && fresh(Footprint() - old(Footprint())) && cache.repr <= Footprint()
      ensures Model() == AfterGet(old(Model()), i, junk)
      ensures inode == null <==> !CacheSpec.Usable(|abs.files|, i)
      ensures inode != null ==> inode in old(Footprint()) || fresh(inode)
      ensures inode != null ==> cache.Handle(inode, i) && inode.live
      ensures inode != null ==> (CacheSpec.Resident(cache.Model(), i) <==> cache.capacity != 0)
      ensures inode != null ==> i < |View(Model())| && inode.Value() == View(Model())[i]
    {
      hide RefinesWith, CacheSpec.Get, CacheSpec.Usable, CacheSpec.Resident, CacheSpec.ReturnsFreed, View, Fetched, LiveAbs,
        Cache.ValidBut, Cache.Handle;
      MountedFacts(Model(), abs, own);
      GetRefines(Model(), abs, own, i, junk);
      NotFreed(Model(), abs, own, i);
      inode := cache.GetInode(disk, numinodes, i, junk);
      SameSpace(abs, i);
      abs := Fetched(abs, i);
    }

    method GetSize(i: nat, junk: bool) returns (size: int)
      requires Valid() && Legal(abs, OpGetSize(i, junk))
      modifies Footprint()
      ensures Valid() && fresh(Footprint() - old(Footprint()))
      ensures AbsStep(old(abs), OpGetSize(i, junk)) == (abs, Code(size))
    {
      hide RefinesWith, View, CacheSpec.Usable, CacheSpec.Get, Touch, CacheSpec.Resident, Cache.ValidBut;
      var mounted := IsMounted();
      if !mounted { return -1; }
      cache.InFootprint();
      var inode := Fetch(i, junk);
      if inode == null { UnusableHasNoFile(Model(), abs, own, i); return -1; }
      ValidIsFile(Model(), abs, own, i);
      if !inode.isvalid { return -1; }
      FileAt(Model(), abs, own, i);
      return inode.size;
    }

    // find_free_block.
    method FindFreeBlock() returns (b: int)
      requires blockFreemap != null && numblocks == blockFreemap.Length
      ensures b == FsSpec.FindFreeBlock(blockFreemap[..])
    {
      var i := 1 + NumInodeBlocks(numblocks);
      while i < numblocks
        invariant i >= FirstDataBlock(numblocks)
        invariant FsSpec.FindFreeFrom(blockFreemap[..], i) == FsSpec.FindFreeBlock(blockFreemap[..])
        decreases numblocks - i
      {
        if !blockFreemap[i] { return i; }
        i := i + 1;
      }
      return 0;
    }

    // The inode the code is working on can be followed: its pointer block is one.
    ghost predicate Followable(n: Inode)
      reads disk
    {
      n.indirect != 0 ==> 0 <= n.indirect < disk.Length && disk[n.indirect].PointerBlock?
    }

    // get_block_number_for_offset.
    method GetBlockNumberForOffset(inode: FsInode, offset: int) returns (b: int)
      requires 0 <= offset < MAX_FILE_SIZE && Followable(inode.Value())
      ensures b == FsSpec.Slot(disk[..], inode.Value(), FsSpec.BlockOf(offset))
    {
      var pointerNumber := offset / DISK_BLOCK_SIZE;
      if pointerNumber < POINTERS_PER_INODE { return inode.direct[pointerNumber]; }
      else if inode.indirect == 0 { return inode.indirect; }
      else {
        var block := disk[inode.indirect];
        return block.pointers[pointerNumber - POINTERS_PER_INODE];
      }
    }

    // create_new_data_block.
    method CreateNewDataBlock(inode: FsInode, offset: int) returns (block: int, touched: bool)
      requires blockFreemap != null && numblocks == blockFreemap.Length == disk.Length
      requires 0 <= offset < MAX_FILE_SIZE && Followable(inode.Value()) && FirstDataBlock(numblocks) > 0
      modifies disk, blockFreemap, inode
      ensures inode.live == old(inode.live)
      ensures FsSpec.CreateDataBlock(old(disk[..]), old(blockFreemap[..]), old(inode.Value()), FsSpec.BlockOf(offset))
           == FsSpec.Alloc(disk[..], blockFreemap[..], inode.Value(), block, touched)
      ensures block != 0 ==> 0 <= block < disk.Length && disk[block] == DataBlock(ZERO_BYTES)
    {
      var pointerNumber := offset / DISK_BLOCK_SIZE;
      touched := false;
      block := FindFreeBlock();
      if block == 0 { return; }
      if pointerNumber < POINTERS_PER_INODE {
        inode.direct := inode.direct[pointerNumber := block];
        touched := true;
      } else {
        var ptrs := ZERO_POINTERS;
        var indirect := inode.indirect;
        if indirect == 0 {
          indirect := block;
          blockFreemap[indirect] := true;
          block := FindFreeBlock();
        }
        if block == 0 {
          blockFreemap[indirect] := false;
          return;
        }
        if inode.indirect != indirect {
          inode.indirect := indirect;
          touched := true;
        } else {
          ptrs := disk[indirect].pointers;
        }
        disk[indirect] := PointerBlock(ptrs[pointerNumber - POINTERS_PER_INODE := block]);
      }
      blockFreemap[block] := true;
      disk[block] := DataBlock(ZERO_BYTES);
    }

    // disk_read into a block buffer.
    method DiskRead(block: int) returns (buffer: array<byte>)
      requires 0 <= block < disk.Length && disk[block].DataBlock?
      ensures fresh(buffer) && buffer[..] == BytesOf(disk[..], block)
    {
      var bytes := disk[block].bytes;
      buffer := new byte[DISK_BLOCK_SIZE](i requires 0 <= i < DISK_BLOCK_SIZE => bytes[i]);
    }

    // The body of the loop in fs_write, for the bytes of data from position from on.
    method WriteBlock(inode: FsInode, data: seq<byte>, from: nat, offset: int) returns (block: int, count: nat, touched: bool)
      requires blockFreemap != null && numblocks == blockFreemap.Length == disk.Length
      requires from < |data| && 0 <= offset < MAX_FILE_SIZE
      requires Followable(inode.Value()) && FirstDataBlock(numblocks) > 0
      requires var b := FsSpec.Slot(disk[..], inode.Value(), FsSpec.BlockOf(offset));
        b != 0 ==> 0 <= b < disk.Length && disk[b].DataBlock?
      modifies disk, blockFreemap, inode
      ensures inode.live == old(inode.live)
      ensures FsSpec.WriteChunk(old(disk[..]), old(blockFreemap[..]), old(inode.Value()), data[from..], offset)
           == FsSpec.Alloc(disk[..], blockFreemap[..], inode.Value(), block, touched)
      ensures count == FsSpec.ChunkSize(offset, |data| - from)
    {
      hide FsSpec.CreateDataBlock, FsSpec.Slot, FsSpec.Overwrite;
      var start := offset % DISK_BLOCK_SIZE;
      block := GetBlockNumberForOffset(inode, offset);
      touched := false;
      count := Min(DISK_BLOCK_SIZE - start, |data| - from);
      if block == 0 { block, touched := CreateNewDataBlock(inode, offset); }
      if block == 0 { return; }
      var buffer := DiskRead(block);
      CopyData(buffer, start, data, from, count);
      assert data[from..from + count] == data[from..][..count];
      disk[block] := DataBlock(buffer[..]);
    }

    // The loop of fs_write.
    method WriteBlocks(inode: FsInode, data: seq<byte>, offset: int,
                       ghost tab: seq<Inode>, ghost own0: seq<Owner>, ghost i: int, ghost c0: int)
      returns (written: nat, touched: bool)
      requires blockFreemap != null && numblocks == blockFreemap.Length == disk.Length && FirstDataBlock(numblocks) > 0
      requires 0 <= i < |tab| && tab[i] == inode.Value() && FileOk(disk[..], blockFreemap[..], tab, own0, i, c0)
      requires 0 <= offset <= MAX_FILE_SIZE && FsSpec.BlockOf(offset) <= c0
      requires !FsSpec.RunsOff(disk[..], blockFreemap[..], inode.Value(), data, offset)
      modifies disk, blockFreemap, inode
      ensures inode.live == old(inode.live)
      ensures FsSpec.WriteLoop(old(disk[..]), old(blockFreemap[..]), old(inode.Value()), data, offset)
           == FsSpec.WriteResult(disk[..], blockFreemap[..], inode.Value(), written, touched)
    {
      hide FileOk, FsSpec.Slot, FsSpec.WriteChunk, FsSpec.BlockOf, StepDone, FsSpec.RunsOff, FsSpec.WriteLoop, Cost, CountFree, Rest;
      ghost var d0, b0, n0 := disk[..], blockFreemap[..], inode.Value();
      ghost var own1, c1 := own0, c0;
      var at := offset;
      written, touched := 0, false;
      assert tab[i := tab[i]] == tab;
      Started(d0, b0, n0, data, offset);
      RunsOffExactly(d0, b0, tab, own0, i, c0, data, offset);
      while written < |data|
        invariant 0 <= written <= |data| && at == offset + written && inode.live == old(inode.live)
        invariant FsSpec.BlockOf(at) <= c1 && 0 <= i < |tab|
        invariant offset + |data| <= MAX_FILE_SIZE || CountFree(blockFreemap[..]) + Cost(c1) < Cost(POINTERS_PER_FILE)
        invariant FileOk(disk[..], blockFreemap[..], tab[i := inode.Value()], own1, i, c1)
        invariant Rest(d0, b0, n0, data, offset, disk[..], blockFreemap[..], inode.Value(), written, touched)
        decreases |data| - written
      {
        ghost var d, b, n, t := disk[..], blockFreemap[..], inode.Value(), tab[i := inode.Value()];
        Reachable(d, b, t, own1, i, c1, at);
        StaysInside(d, b, t, own1, i, c1, |data| - written, at);
        var block, count, touchedNow := WriteBlock(inode, data, written, at);
        ghost var a := FsSpec.WriteChunk(d, b, n, data[written..], at);
        ghost var own2 := StepCorrect(d, b, t, own1, i, c1, data[written..], at, a);
        RestStep(d0, b0, n0, data, offset, d, b, n, written, touched);
        if block != 0 { CountAfter(d, b, n, own1, i, c1, data[written..], at, a, own2); }
        touched := touched || touchedNow;
        if block == 0 { return; }
        own1, c1 := own2, Max(c1, FsSpec.BlockOf(at) + 1);
        assert t[i := a.n] == tab[i := a.n];
        written := written + count;
        at := at + count;
      }
      Finished(d0, b0, n0, data, offset, disk[..], blockFreemap[..], inode.Value(), written, touched);
    }

    // The part of fs_write that changes the inode in place.  Until set_dirty is called the list may be
    // out of step at the entry of i.
    method WriteInPlace(inode: FsInode, i: nat, data: seq<byte>, offset: int,
                        ghost fs: FsSpec.Fs, ghost c: int) returns (written: nat, touched: bool)
      requires blockFreemap != null && numblocks == blockFreemap.Length == disk.Length && FirstDataBlock(numblocks) > 0
      requires cache != null && cache.Valid() && cache.Handle(inode, i) && inode.live
      requires fs == Model() && i < |View(fs)| && inode.Value() == View(fs)[i]
      requires FileOk(disk[..], blockFreemap[..], View(fs), own, i, c)
      requires 0 <= offset <= MAX_FILE_SIZE && FsSpec.BlockOf(offset) <= c
      requires !FsSpec.RunsOff(disk[..], blockFreemap[..], inode.Value(), data, offset)
      modifies disk, blockFreemap, inode
      ensures FsSpec.WriteInode(old(disk[..]), old(blockFreemap[..]), old(inode.Value()), data, offset)
           == FsSpec.WriteResult(disk[..], blockFreemap[..], inode.Value(), written, touched)
      ensures cache.ValidBut(CacheSpec.Find(cache.entries, i)) && cache.Handle(inode, i) && inode.live
    {
      hide View, FileOk, FsSpec.WriteLoop, FsSpec.BlockOf, FsSpec.RunsOff, Cache.ValidBut, Cache.Apart;
      ghost var k := CacheSpec.Find(cache.entries, i);
      cache.ChangeBegins(inode, i);
      var wasValid := inode.isvalid;
      inode.isvalid := true;
      FileOkValid(disk[..], blockFreemap[..], View(fs), own, i, c);
      written, touched := WriteBlocks(inode, data, offset, View(fs), own, i, c);
      var end := written + offset;
      touched := !wasValid || touched || end > inode.size;
      inode.size := Max(end, inode.size);
      cache.ChangeEnds(inode, k);
    }

    // fs_write once it has its inode.
    method WriteFetched(inode: FsInode, i: nat, data: seq<byte>, offset: int) returns (written: nat)
      requires Valid() && blockFreemap != null && cache != null
      requires cache.Handle(inode, i) && inode.live && i < |View(Model())| && inode.Value() == View(Model())[i]
      requires i < |abs.files| && abs.files[i].Some?
      requires 0 <= offset <= MAX_FILE_SIZE && !PastLargest(abs, i, |data|, offset)
      requires NoHole(|abs.files[i].value|, FreeBlocks(abs), offset, |data|)
      modifies this`abs, this`own, disk, blockFreemap, inode, cache`entries, cache.chain`isDirty
      ensures Valid() && Footprint() == old(Footprint())
      ensures written == Writable(FreeBlocks(old(abs)), NumBlocks(|old(abs).files[i].value|), offset, |data|) && written <= |data|
      ensures abs == Written(old(abs), i, offset, data[..written])
    {
      hide RefinesWith, View, CacheSpec.Update, FileOk, NoHole, Writable, Spliced, FreeBlocks, InodeRegion,
        FsSpec.WriteInode, FsSpec.RunsOff, PastLargest, NumBlocks, LruCache.Cache.ValidBut, LruCache.Cache.Handle;
      ghost var fs0 := Model();
      ghost var k := CacheSpec.Find(cache.entries, i);
      MountedFacts(fs0, abs, own);
      FileOkAt(fs0, abs, own, i);
      StartsInside(|abs.files[i].value|, FreeBlocks(abs), offset, |data|);
      FileRunsOff(fs0, abs, own, i, data, offset);
      ghost var r, own1 := WriteMounted(fs0, abs, own, i, data, offset);
      var touched;
      written, touched := WriteInPlace(inode, i, data, offset, fs0, NumBlocks(|abs.files[i].value|));
      if touched {
        cache.SetDirty(disk, numinodes, i, inode);
      } else {
        Untouched(fs0, disk[..], i, r.n);
        cache.BackInStep(inode, i, k);
      }
      abs, own := Written(abs, i, offset, data[..written]), own1;
    }

    method Write(i: nat, data: seq<byte>, length: int, offset: int, junk: bool) returns (written: int)
      requires Valid() && Legal(abs, OpWrite(i, data, length, offset, junk))
      modifies Footprint()
      ensures Valid() && fresh(Footprint() - old(Footprint()))
      ensures AbsStep(old(abs), OpWrite(i, data, length, offset, junk)) == (abs, Code(written))
    {
      hide RefinesWith, AbsStep, NoHole, Writable, FreeBlocks, CacheSpec.Usable, CacheSpec.Resident, AfterGet, View,
        Written, NumBlocks, PastLargest, Fetched, Cache.ValidBut, Cache.Handle;
      var mounted := IsMounted();
      var valid := false;
      if mounted { valid := IsArgValid(i, length, offset); }
      WriteStep(abs, i, data, length, offset, junk);
      if !valid { return 0; }
      IsUsable();
      cache.InFootprint();
      var inode := Fetch(i, junk);
      cache.InFootprint();
      written := WriteFetched(inode, i, data[..length], offset);
      PrefixTwice(data, length, written);
    }

    // The body of the loop in fs_read.
    method ReadBlock(inode: FsInode, data: array<byte>, n: nat, left: int, at: int) returns (block: int, m: nat)
      requires 0 < left && n + left <= data.Length && 0 <= at < MAX_FILE_SIZE && Followable(inode.Value())
      requires var b := FsSpec.Slot(disk[..], inode.Value(), FsSpec.BlockOf(at));
        b != 0 ==> 0 <= b < disk.Length && disk[b].DataBlock?
      modifies data
      ensures block == FsSpec.Slot(disk[..], inode.Value(), FsSpec.BlockOf(at)) && m == FsSpec.ChunkSize(at, left)
      ensures 0 < m <= left && at % DISK_BLOCK_SIZE + m <= DISK_BLOCK_SIZE
      ensures block == 0 ==> data[..] == old(data[..])
      ensures block != 0 ==>
        var s := at % DISK_BLOCK_SIZE; data[..] == FsSpec.Overwrite(old(data[..]), n, BytesOf(disk[..], block)[s..s + m])
    {
      hide FsSpec.Slot, FsSpec.Overwrite;
      var start := at % DISK_BLOCK_SIZE;
      m := Min(left, DISK_BLOCK_SIZE - start);
      block := GetBlockNumberForOffset(inode, at);
      if block == 0 { return; }
      CopyData(data, n, disk[block].bytes, start, m);
    }

    // The loop of fs_read.
    method ReadBlocks(inode: FsInode, data: array<byte>, total: int, offset: int,
                      ghost b: seq<bool>, ghost tab: seq<Inode>, ghost i: int, ghost c: int) returns (n: nat)
      requires FileOk(disk[..], b, tab, own, i, c) && inode.Value() == tab[i]
      requires 0 <= offset && offset + total <= MAX_FILE_SIZE && total <= data.Length
      modifies data
      ensures var r := FsSpec.ReadLoop(disk[..], inode.Value(), total, offset);
        n == |r| <= data.Length && data[..] == FsSpec.Overwrite(old(data[..]), 0, r)
    {
      hide FileOk, FsSpec.Slot, FsSpec.BlockOf, FsSpec.ReadLoop, FsSpec.Overwrite, BytesOf, FsSpec.ChunkSize;
      n := 0;
      var left, at := total, offset;
      ghost var d, v, got := disk[..], inode.Value(), [];
      while left > 0
        invariant at == offset + n && n == |got| && (total > 0 ==> 0 <= left == total - n) && n <= data.Length
        invariant FsSpec.ReadLoop(d, v, total, offset) == got + FsSpec.ReadLoop(d, v, left, at)
        invariant data[..] == FsSpec.Overwrite(old(data[..]), 0, got)
        decreases left
      {
        Reachable(d, b, tab, own, i, c, at);
        var block, m := ReadBlock(inode, data, n, left, at);
        if block == 0 { ReadEnds(d, v, left, at); return; }
        ghost var piece := BytesOf(d, block)[at % DISK_BLOCK_SIZE..at % DISK_BLOCK_SIZE + m];
        ReadStep(d, v, left, at, got);
        OverwriteMore(old(data[..]), got, piece);
        got := got + piece;
        n, left, at := n + m, left - m, at + m;
      }
      ReadEnds(d, v, left, at);
    }

    // fs_read once it has its inode.
    method ReadFetched(inode: FsInode, i: nat, data: array<byte>, length: int, offset: int) returns (n: nat)
      requires Valid() && blockFreemap != null && length <= data.Length
      requires i < |View(Model())| && inode.Value() == View(Model())[i] && AbsArgValid(abs, i, length, offset)
      modifies data
      ensures n <= data.Length && data[..n] == AbsSlice(abs.files[i].value, length, offset)
      ensures data[n..] == old(data[n..])
    {
      hide RefinesWith, View, Content, FsSpec.ReadLoop;
      ghost var fs := Model();
      FileAt(fs, abs, own, i);
      n := 0;
      if !inode.isvalid { return; }
      FileOkAt(fs, abs, own, i);
      ReadCorrect(disk[..], inode.Value(), length, offset);
      var total := Min(inode.size - offset, length);
      n := ReadBlocks(inode, data, total, offset, blockFreemap[..], View(fs), i, NumBlocks(inode.size));
    }

    method Read(i: nat, data: array<byte>, length: int, offset: int, junk: bool) returns (n: nat)
      requires Valid() && Legal(abs, OpRead(i, length, offset, junk)) && length <= data.Length && data !in Footprint()
      modifies Footprint(), data
      ensures Valid() && fresh(Footprint() - old(Footprint()))
      ensures n <= data.Length && AbsStep(old(abs), OpRead(i, length, offset, junk)) == (abs, Data(data[..n]))
      ensures data[n..] == old(data[n..])
    {
      hide RefinesWith, AbsStep, AbsSlice, CacheSpec.Usable, CacheSpec.Resident, AfterGet, View, Fetched, Cache.ValidBut, Cache.Handle;
      var mounted := IsMounted();
      var valid := false;
      if mounted { valid := IsArgValid(i, length, offset); }
      ReadStepAbs(abs, i, length, offset, junk);
      if !valid { return 0; }
      IsUsable();
      cache.InFootprint();
      var inode := Fetch(i, junk);
      n := ReadFetched(inode, i, data, length, offset);
    }

    // fs_create once it has found an unused inode.
    method CreateAt(k: nat) returns (res: bool)
      requires Ready() && blockFreemap != null && inodeFreemap != null && cache != null && k < numinodes
      requires Model().Mounted? && InodeRegion(disk[..], numinodes) && disk !in cache.repr && inodeFreemap != blockFreemap
      modifies disk, inodeFreemap
      ensures Ready() && Footprint() == old(Footprint()) && Model().Mounted?
      ensures res <==> CacheSpec.Usable(numinodes, k)
      ensures !res ==> Model() == old(Model())
      ensures res ==> Model() == old(Model()).(
        disk := CacheSpec.InodeSave(old(disk[..]), numinodes, k, EMPTY_FILE), inomap := old(inodeFreemap[..])[k := true])
    {
      hide CacheSpec.Usable, Cache.ValidBut, InodeRegion, CacheSpec.DiskInode;
      var inode := new FsInode(EMPTY_FILE);
      res := InodeSave(disk, numinodes, k, inode);
      if res { inodeFreemap[k] := true; }
    }

    method Create() returns (i: int)
      requires Valid() && Legal(abs, OpCreate)
      modifies Footprint()
      ensures Valid() && Footprint() == old(Footprint())
      ensures AbsStep(old(abs), OpCreate) == (abs, Code(i))
      ensures FirstUnused(old(Marks()), 128 * (disk.Length / 10), i)
    {
      hide RefinesWith, AbsStep, CacheSpec.Usable, CacheSpec.InodeSave, Cache.ValidBut, InodeRegion, FsSpec.FirstFree,
        NumInodes, FirstDataBlock;
      ghost var fs := Model();
      CreateRefines(fs, abs, own);
      var mounted := IsMounted();
      if !mounted { CreateRefused(abs); return -1; }
      MountedFacts(fs, abs, own);
      CreateReturns(fs, abs, own);
      abs := AbsStep(abs, OpCreate).0;
      for k := 0 to numinodes
        invariant Model() == fs && FsSpec.FirstFree(inodeFreemap[..]) >= k
      {
        if !inodeFreemap[k] {
          var res := CreateAt(k);
          return if res then k else -1;
        }
      }
      return -1;
    }

    // The scans of fs_delete and fs_mount: the blocks of ptrs up to the first zero.
    method MarkWhile(ptrs: seq<int>, v: bool)
      requires blockFreemap != null
      requires forall x :: 0 <= x < |ptrs| && ptrs[x] != 0 ==> 0 <= ptrs[x] < blockFreemap.Length
      modifies blockFreemap
      ensures blockFreemap[..] == FsSpec.SetWhile(old(blockFreemap[..]), ptrs, 0, v)
    {
      ghost var m := blockFreemap[..];
      for k := 0 to |ptrs|
        invariant FsSpec.SetWhile(blockFreemap[..], ptrs, k, v) == FsSpec.SetWhile(m, ptrs, 0, v)
      {
        if ptrs[k] == 0 { break; }
        blockFreemap[ptrs[k]] := v;
      }
    }

    // What fs_delete clears.
    method ClearBlocks(direct: Direct, indirect: int)
      requires blockFreemap != null && blockFreemap.Length == disk.Length
      requires ScanInRange(disk[..], direct, indirect)
      modifies blockFreemap
      ensures blockFreemap[..] == FsSpec.SetBlocks(disk[..], old(blockFreemap[..]), Inode(true, 0, direct, indirect), false)
    {
      MarkWhile(direct, false);
      if indirect != 0 {
        var block := disk[indirect];
        MarkWhile(block.pointers, false);
        blockFreemap[indirect] := false;
      }
    }

    // What fs_mount sets for an inode in use.
    method SetBlocks(direct: Direct, indirect: int)
      requires blockFreemap != null && blockFreemap.Length == disk.Length
      requires ScanInRange(disk[..], direct, indirect)
      modifies blockFreemap
      ensures blockFreemap[..] == FsSpec.SetBlocks(disk[..], old(blockFreemap[..]), Inode(true, 0, direct, indirect), true)
    {
      MarkWhile(direct, true);
      if indirect != 0 {
        blockFreemap[indirect] := true;
        var block := disk[indirect];
        MarkWhile(block.pointers, true);
      }
    }

    // What fs_delete does to an inode in use.
    method RemoveFile(inode: FsInode, i: nat) returns (removed: bool)
      requires Ready() && blockFreemap != null && inodeFreemap != null && cache != null && inode.live
      requires cache.Handle(inode, i) && i < |View(Model())| && inode.Value() == View(Model())[i]
      requires blockFreemap.Length == disk.Length && i < numinodes
      requires InodeRegion(disk[..], numinodes) && ScanInRange(disk[..], inode.direct, inode.indirect)
      modifies disk, blockFreemap, inodeFreemap, cache, cache.repr, inode`live
      ensures Ready() && Footprint() <= old(Footprint()) && Model().Mounted?
      ensures removed <==> CacheSpec.Usable(numinodes, i)
      ensures removed ==> Model() == AfterDelete(old(Model()), i)
    {
      hide View, Cache.ValidBut, Cache.Handle, CacheSpec.RemoveIfPresent, CacheSpec.Usable, FsSpec.SetBlocks, InodeRegion;
      BlocksOnly(disk[..], blockFreemap[..], inode.Value());
      ClearBlocks(inode.direct, inode.indirect);
      cache.InFootprint();
      removed := cache.RemoveIfPresent(disk, numinodes, i, inode);
      if removed { inodeFreemap[i] := false; }
    }

    // fs_delete once it has its inode.
    method DeleteFetched(inode: FsInode, i: nat) returns (res: int)
      requires Valid() && blockFreemap != null && cache != null && abs.mount.MountedWith?
      requires cache.Handle(inode, i) && inode.live && i < |View(Model())| && inode.Value() == View(Model())[i]
      requires i < |abs.files| && CacheSpec.Usable(|abs.files|, i)
      modifies this`abs, this`own, disk, blockFreemap, inodeFreemap, cache, cache.repr, inode`live
      ensures Valid() && Footprint() <= old(Footprint())
      ensures if old(abs).files[i].Some? then res == 1 && abs == AbsDeleted(old(abs), i) else res == 0 && abs == old(abs)
    {
      hide RefinesWith, View, AfterDelete, AfterRemoval, Cache.ValidBut, Cache.Handle, InodeRegion, CacheSpec.Usable;
      ghost var fs := Model();
      MountedFacts(fs, abs, own);
      ValidIsFile(fs, abs, own, i);
      if !inode.isvalid { return 0; }
      FileAt(fs, abs, own, i);
      ScanReaches(fs, abs, own, i);
      AfterDeleteRefines(fs, abs, own, i);
      var removed := RemoveFile(inode, i);
      if !removed { return 0; }
      abs, own := AbsDeleted(abs, i), Freed(own, i);
      return 1;
    }

    method Delete(i: nat, junk: bool) returns (res: int)
      requires Valid() && Legal(abs, OpDelete(i, junk))
      modifies Footprint()
      ensures Valid() && fresh(Footprint() - old(Footprint()))
      ensures AbsStep(old(abs), OpDelete(i, junk)) == (abs, Code(res))
    {
      hide RefinesWith, AbsStep, AbsDeleted, CacheSpec.Usable, CacheSpec.Resident, AfterGet, View, Fetched, Cache.ValidBut, Cache.Handle;
      var mounted := IsMounted();
      DeleteStep(abs, i, junk);
      if !mounted { return 0; }
      cache.InFootprint();
      var inode := Fetch(i, junk);
      if inode == null { return 0; }
      cache.InFootprint();
      res := DeleteFetched(inode, i);
    }

    // fs_unmount when mounted.
    method Detach()
      requires Ready() && blockFreemap != null && cache != null && InodeRegion(disk[..], numinodes)
      modifies this`blockFreemap, this`inodeFreemap, this`numblocks, this`numinodes, disk, cache, cache.chain, cache.repr
      ensures Ready() && Footprint() <= old(Footprint())
      ensures Model() == FsSpec.Unmount(old(Model())).0
    {
      hide Cache.ValidBut, InodeRegion;
      cache.InFootprint();
      cache.Destroy(disk, numinodes);
      blockFreemap, numblocks := null, -1;
      inodeFreemap, numinodes := null, -1;
    }

    method Unmount() returns (res: int)
      requires Valid()
      modifies Footprint()
      ensures Valid() && Footprint() <= old(Footprint())
      ensures AbsStep(old(abs), OpUnmount) == (abs, Code(res))
    {
      hide RefinesWith, Cache.ValidBut, InodeRegion;
      ghost var fs := Model();
      UnmountRefines(fs, abs, own);
      var mounted := IsMounted();
      if mounted {
        MountedFacts(fs, abs, own);
        cache.InFootprint();
        Detach();
        abs := abs.(mount := NotMounted);
        return 1;
      }
      return 0;
    }

    // fs_format needs no file system on the disk, only room for the superblock and the inodes.
    method Format() returns (res: int)
      requires if blockFreemap == null then Ready() && FirstDataBlock(disk.Length) <= disk.Length else Valid()
      modifies Footprint()
      ensures Valid() && Footprint() == old(Footprint())
      ensures old(blockFreemap) == null ==>
        res == 1 && abs == AbsFs(disk.Length, NotMounted, Repeat(None, NumInodesNat(disk.Length)))
      ensures old(blockFreemap) == null ==> disk[..] == FsSpec.Format(FsSpec.Unmounted(old(disk[..]))).0.disk
      ensures old(blockFreemap) != null ==> res == 0 && abs == old(abs) && disk[..] == old(disk[..])
    {
      hide RefinesWith;
      if blockFreemap != null || inodeFreemap != null { return 0; }
      var n := disk.Length;
      FormatGood(disk[..]);
      var inodeBlocks := NumInodeBlocks(n);
      for i := 0 to inodeBlocks
        invariant blockFreemap == null && Ready() && Footprint() == old(Footprint())
        invariant disk[..] == FsSpec.FormatInodes(old(disk[..]), i)
      {
        disk[i + 1] := InodeBlock(ZERO_INODES);
      }
      disk[0] := SuperBlock(FS_MAGIC, n, inodeBlocks, inodeBlocks * INODES_PER_BLOCK);
      abs, own := AbsFs(n, NotMounted, Repeat(None, NumInodesNat(n))), FreshOwners(n);
      return 1;
    }

    // The scan of fs_mount.
    method ScanInodes(inodeBlocks: nat)
      requires blockFreemap != null && inodeFreemap != null && blockFreemap != inodeFreemap
      requires blockFreemap.Length == disk.Length > inodeBlocks && inodeFreemap.Length == inodeBlocks * INODES_PER_BLOCK
      requires forall b :: 1 <= b <= inodeBlocks ==> disk[b].InodeBlock?
      requires forall i :: 0 <= i < inodeFreemap.Length ==> InodeInRange(disk[..], i)
      modifies blockFreemap, inodeFreemap
      ensures FsSpec.Maps(blockFreemap[..], inodeFreemap[..])
           == FsSpec.MountScan(disk[..], old(FsSpec.Maps(blockFreemap[..], inodeFreemap[..])), inodeBlocks * INODES_PER_BLOCK)
    {
      hide FsSpec.MountScan, FsSpec.SetBlocks, InodeInRange, ScanInRange;
      ghost var d, m := disk[..], FsSpec.Maps(blockFreemap[..], inodeFreemap[..]);
      ScanNone(d, m);
      for i := 0 to inodeBlocks
        invariant FsSpec.Maps(blockFreemap[..], inodeFreemap[..]) == FsSpec.MountScan(d, m, i * INODES_PER_BLOCK)
      {
        var block := disk[i + 1];
        blockFreemap[i + 1] := true;
        for j := 0 to INODES_PER_BLOCK
          invariant FsSpec.Maps(blockFreemap[..], inodeFreemap[..]) == ScanAt(d, m, i, j)
        {
          var inode := block.inodes[j];
          ScanNext(d, m, i, j);
          if inode.isvalid {
            inodeFreemap[j + i * INODES_PER_BLOCK] := true;
            SetBlocks(inode.direct, inode.indirect);
          }
        }
      }
    }

    ghost predicate Formatted()
      reads disk
    {
      disk.Length > 0 && disk[0].SuperBlock? && disk[0].magic == FS_MAGIC
    }

    // fs_mount once it has recognised the superblock.
    method MountSuper(nblocks: nat, inodeBlocks: nat, ninodes: nat, capacity: int)
      requires disk.Length == nblocks > inodeBlocks && ninodes == inodeBlocks * INODES_PER_BLOCK
      requires forall b :: 1 <= b <= inodeBlocks ==> disk[b].InodeBlock?
      requires forall i :: 0 <= i < ninodes ==> InodeInRange(disk[..], i)
      modifies `blockFreemap, `inodeFreemap, `numblocks, `numinodes, `cache
      ensures Ready() && blockFreemap != null && inodeFreemap != null && cache != null
      ensures fresh(blockFreemap) && fresh(inodeFreemap) && fresh(cache.repr)
      ensures var r := FsSpec.MountScan(disk[..], EmptyMaps(nblocks, ninodes), ninodes);
        Model() == FsSpec.Mounted(disk[..], r.bmap, r.inomap, CacheSpec.Cache(capacity, 0, []))
    {
      hide FsSpec.MountScan, InodeInRange, Cache.ValidBut;
      numblocks, numinodes := nblocks, ninodes;
      blockFreemap := new bool[numblocks](_ => false);
      inodeFreemap := new bool[numinodes](_ => false);
      blockFreemap[0] := true;
      assert FsSpec.Maps(blockFreemap[..], inodeFreemap[..]) == EmptyMaps(nblocks, ninodes);
      cache := new Cache(capacity);
      ScanInodes(inodeBlocks);
    }

    method Mount(capacity: int) returns (res: int)
      requires Ready() && blockFreemap == null && disk.Length > 0 && capacity >= 0
      requires Formatted() ==> Valid()
      modifies Footprint()
      ensures Ready() && fresh(Footprint() - old(Footprint()))
      ensures !old(Formatted()) ==> res == 0 && blockFreemap == null && disk[..] == old(disk[..])
      ensures old(Formatted()) ==> Valid() && AbsStep(old(abs), OpMount(capacity)) == (abs, Code(res))
    {
      hide RefinesWith, NumInodes, NumInodeBlocks, FsSpec.MountScan, FsSpec.Mount, View, InodeInRange, Ready;
      var super := disk[0];
      if !super.SuperBlock? || super.magic != FS_MAGIC { return 0; }
      ghost var fs := Model();
      MountAgrees(fs, abs, own);
      MountRefines(fs, abs, own, capacity);
      MountReady(disk[..], abs, own, capacity);
      MountSuper(super.nblocks, super.ninodeblocks, super.ninodes, capacity);
      abs := abs.(mount := MountedWith(capacity, 0, []));
      return 1;
    }

    // A created file has an inumber that inode_load accepts.
    lemma IsUsable()
      requires Valid() && blockFreemap != null
      ensures forall i: nat :: i < |abs.files| && abs.files[i].Some? ==> CacheSpec.Usable(|abs.files|, i)
    {
    }
  }

  // One iteration of the read loop.
  lemma ReadStep(d: Disk, n: Inode, left: int, at: int, got: seq<byte>)
    requires left > 0 && at >= 0 && FsSpec.Slot(d, n, FsSpec.BlockOf(at)) != 0
    ensures var m, s := FsSpec.ChunkSize(at, left), at % DISK_BLOCK_SIZE;
      got + FsSpec.ReadLoop(d, n, left, at)
        == got + BytesOf(d, FsSpec.Slot(d, n, FsSpec.BlockOf(at)))[s..s + m] + FsSpec.ReadLoop(d, n, left - m, at + m)
  {
    hide FsSpec.Slot, FsSpec.BlockOf;
  }

  lemma ReadEnds(d: Disk, n: Inode, left: int, at: int)
    requires at >= 0 && (left <= 0 || FsSpec.Slot(d, n, FsSpec.BlockOf(at)) == 0)
    ensures FsSpec.ReadLoop(d, n, left, at) == []
  {
  }

  lemma OverwriteMore(s: seq<byte>, d: seq<byte>, e: seq<byte>)
    requires |d| + |e| <= |s|
    ensures FsSpec.Overwrite(FsSpec.Overwrite(s, 0, d), |d|, e) == FsSpec.Overwrite(s, 0, d + e)
  {
  }

  lemma ReadStepAbs(a: AbsFs, i: nat, length: int, offset: int, junk: bool)
    requires Legal(a, OpRead(i, length, offset, junk))
    ensures var op := OpRead(i, length, offset, junk);
      if a.mount.MountedWith? && AbsArgValid(a, i, length, offset) then
        LiveAbs(a) && Fetched(a, i).files == a.files
        && AbsStep(a, op) == (Fetched(a, i), Data(AbsSlice(a.files[i].value, length, offset)))
      else AbsStep(a, op) == (a, Data([]))
  {
  }

  // What create returns when the inumbers below m can be used.
  predicate FirstUnused(marks: seq<bool>, m: int, i: int) {
    if marks == [] then i == -1
    else
      && 0 <= m <= |marks| && (i == -1 <==> forall k :: 0 <= k < m ==> marks[k])
      && (i != -1 ==> 0 <= i < m && !marks[i] && forall k :: 0 <= k < i ==> marks[k])
  }

  lemma CreateRefused(a: AbsFs)
    requires a.mount.NotMounted?
    ensures AbsStep(a, OpCreate) == (a, Code(-1))
  {
  }

  // The pointers of a file lead to blocks of the right kind.
  ghost predicate ScanInRange(d: Disk, direct: Direct, indirect: int) {
    && (forall x :: 0 <= x < |direct| && direct[x] != 0 ==> 0 <= direct[x] < |d|)
    && (indirect != 0 ==>
          && 0 <= indirect < |d| && d[indirect].PointerBlock?
          && var p := d[indirect].pointers; forall x :: 0 <= x < |p| && p[x] != 0 ==> 0 <= p[x] < |d|)
  }

  lemma InRange(d: Disk, b: seq<bool>, tab: seq<Inode>, own: seq<Owner>, i: nat)
    requires Owned(d, b, tab, own) && i < |tab| && tab[i].isvalid
    ensures ScanInRange(d, tab[i].direct, tab[i].indirect)
  {
    var n := tab[i];
    assert InodeOwned(d, n, i, own);
    forall x | 0 <= x < POINTERS_PER_INODE && n.direct[x] != 0 ensures 0 <= n.direct[x] < |d| {
      assert SlotOwned(d, n, i, x, own);
    }
    if n.indirect != 0 {
      forall x | 0 <= x < POINTERS_PER_BLOCK && d[n.indirect].pointers[x] != 0 ensures 0 <= d[n.indirect].pointers[x] < |d| {
        assert SlotOwned(d, n, i, POINTERS_PER_INODE + x, own);
      }
    }
  }

  lemma ScanReaches(fs: FsSpec.Fs, a: AbsFs, own: seq<Owner>, i: nat)
    requires fs.Mounted? && RefinesWith(fs, a, own) && i < |View(fs)| && View(fs)[i].isvalid
    ensures ScanInRange(fs.disk, View(fs)[i].direct, View(fs)[i].indirect)
  {
    InRange(fs.disk, fs.bmap, View(fs), own, i);
  }

  ghost predicate InodeInRange(d: Disk, i: int) {
    var n := CacheSpec.DiskInode(d, i);
    n.isvalid ==> ScanInRange(d, n.direct, n.indirect)
  }

  // The freemaps before inode j of inode block i + 1 is looked at.
  ghost function ScanAt(d: Disk, m: FsSpec.Maps, i: nat, j: nat): FsSpec.Maps {
    var r := FsSpec.MountScan(d, m, i * INODES_PER_BLOCK + j);
    if j == 0 then FsSpec.Maps(FsSpec.SetBit(r.bmap, i + 1, true), r.inomap) else r
  }

  lemma ScanNone(d: Disk, m: FsSpec.Maps)
    ensures FsSpec.MountScan(d, m, 0) == m
  {
  }

  lemma ScanNext(d: Disk, m: FsSpec.Maps, i: nat, j: nat)
    requires j < INODES_PER_BLOCK && i + 1 < |d| && d[i + 1].InodeBlock? && InodeInRange(d, i * INODES_PER_BLOCK + j)
    ensures var n := d[i + 1].inodes[j]; n.isvalid ==> ScanInRange(d, n.direct, n.indirect)
    ensures var n, r := d[i + 1].inodes[j], ScanAt(d, m, i, j);
      && n == CacheSpec.DiskInode(d, i * INODES_PER_BLOCK + j)
      && ScanAt(d, m, i, j + 1) == (
           if n.isvalid then
             FsSpec.Maps(FsSpec.SetBlocks(d, r.bmap, Inode(true, 0, n.direct, n.indirect), true),
                         FsSpec.SetBit(r.inomap, i * INODES_PER_BLOCK + j, true))
           else r)
  {
    hide FsSpec.SetBlocks, ScanInRange;
    var k := i * INODES_PER_BLOCK + j;
    assert k / INODES_PER_BLOCK == i && k % INODES_PER_BLOCK == j;
    var r := ScanAt(d, m, i, j);
    BlocksOnly(d, r.bmap, d[i + 1].inodes[j]);
  }

  // A formatted disk: its superblock, and that the scan of fs_mount stays inside it.
  lemma MountReady(d: Disk, a: AbsFs, own: seq<Owner>, capacity: int)
    requires RefinesWith(FsSpec.Unmounted(d), a, own)
    ensures |d| > NumInodeBlocks(|d|) >= 0 && NumInodes(|d|) == NumInodeBlocks(|d|) * INODES_PER_BLOCK
    ensures d[0] == SuperBlock(FS_MAGIC, |d|, NumInodeBlocks(|d|), NumInodes(|d|))
    ensures forall b :: 1 <= b <= NumInodeBlocks(|d|) ==> d[b].InodeBlock?
    ensures forall i :: 0 <= i < NumInodes(|d|) ==> InodeInRange(d, i)
    ensures var r := FsSpec.MountScan(d, EmptyMaps(|d|, NumInodes(|d|)), NumInodes(|d|));
      FsSpec.Mount(FsSpec.Unmounted(d), capacity)
        == (FsSpec.Mounted(d, r.bmap, r.inomap, CacheSpec.Cache(capacity, 0, [])), 1)
  {
    hide ScanInRange, FsSpec.MountScan;
    MountUnfold(d, capacity);
    var tab := View(FsSpec.Unmounted(d));
    forall i | 0 <= i < NumInodes(|d|) ensures InodeInRange(d, i) {
      assert tab[i] == CacheSpec.DiskInode(d, i);
      if tab[i].isvalid { InRange(d, MapOf(own), tab, own, i); }
    }
    forall b | 1 <= b <= NumInodeBlocks(|d|) ensures d[b].InodeBlock? { assert IsInodeBlock(d, b); }
  }

  // The scan does not look at the size.
  lemma BlocksOnly(d: Disk, b: seq<bool>, n: Inode)
    ensures forall v :: FsSpec.SetBlocks(d, b, n, v) == FsSpec.SetBlocks(d, b, Inode(true, 0, n.direct, n.indirect), v)
  {
  }

  lemma DeleteStep(a: AbsFs, i: nat, junk: bool)
    requires Legal(a, OpDelete(i, junk))
    ensures a.mount.NotMounted? ==> AbsStep(a, OpDelete(i, junk)) == (a, Code(0))
    ensures a.mount.MountedWith? ==>
      var a1 := Fetched(a, i);
      && (CacheSpec.Usable(|a.files|, i) ==> LiveAbs(a) && i < |a.files|)
      && a1.files == a.files && a1.mount.MountedWith?
      && AbsStep(a, OpDelete(i, junk)) == if CacheSpec.Usable(|a.files|, i) && a.files[i].Some? then (AbsDeleted(a1, i), Code(1)) else (a1, Code(0))
  {
    hide Touch, AfterRemoval;
  }

  lemma PrefixTwice(s: seq<byte>, m: nat, n: nat)
    requires n <= m <= |s|
    ensures s[..m][..n] == s[..n]
  {
  }

  lemma WriteStep(a: AbsFs, i: nat, data: seq<byte>, length: int, offset: int, junk: bool)
    requires Legal(a, OpWrite(i, data, length, offset, junk))
    ensures var op := OpWrite(i, data, length, offset, junk);
      if a.mount.MountedWith? && AbsArgValid(a, i, length, offset) then
        var w, a1 := Writable(FreeBlocks(a), NumBlocks(|a.files[i].value|), offset, length), Fetched(a, i);
        && LiveAbs(a) && a1.files == a.files && FreeBlocks(a1) == FreeBlocks(a)
        && NoHole(|a.files[i].value|, FreeBlocks(a1), offset, length) && !PastLargest(a1, i, length, offset)
        && AbsStep(a, op) == (Written(a1, i, offset, data[..w]), Code(w))
      else AbsStep(a, op) == (a, Code(0))
  {
    hide Touch;
  }

  // What the code relies on while mounted.
  lemma MountedFacts(fs: FsSpec.Fs, a: AbsFs, own: seq<Owner>)
    requires fs.Mounted? && RefinesWith(fs, a, own)
    ensures |fs.inomap| == |a.files| == |View(fs)| == NumInodes(|fs.disk|) && |fs.bmap| == |fs.disk| == |own|
    ensures FirstDataBlock(|fs.disk|) > 0
    ensures InodeRegion(fs.disk, |fs.inomap|) && EntriesOk(fs.disk, |fs.inomap|, fs.cache.entries)
    ensures a.mount.MountedWith?
  {
  }

  lemma FileOkAt(fs: FsSpec.Fs, a: AbsFs, own: seq<Owner>, i: nat)
    requires fs.Mounted? && RefinesWith(fs, a, own) && i < |a.files| && a.files[i].Some?
    ensures i < |View(fs)| && FileShape(fs.disk, View(fs)[i]) && View(fs)[i].size == |a.files[i].value|
    ensures FileOk(fs.disk, fs.bmap, View(fs), own, i, NumBlocks(|a.files[i].value|))
  {
  }

  // The files after d has been written into file i.
  ghost function Written(a: AbsFs, i: nat, offset: nat, d: seq<byte>): AbsFs
    requires i < |a.files| && a.files[i].Some?
  {
    a.(files := a.files[i := Some(Spliced(a.files[i].value, offset, d))])
  }

  // Without set_dirty nothing is recorded, and there is nothing to record.
  lemma Untouched(fs: FsSpec.Fs, disk: Disk, i: nat, n: Inode)
    requires fs.Mounted? && i < |View(fs)| && n == View(fs)[i]
    ensures CacheSpec.Update(disk, |fs.inomap|, fs.cache, i, n, false) == CacheSpec.DiskCache(disk, fs.cache)
    ensures CacheSpec.Resident(fs.cache, i) ==> n == fs.cache.entries[CacheSpec.Find(fs.cache.entries, i)].inode
  {
    var k := CacheSpec.Find(fs.cache.entries, i);
    if k < |fs.cache.entries| {
      var e := fs.cache.entries[k];
      assert fs.cache.entries[k := CacheSpec.Entry(i, n, e.dirty)] == fs.cache.entries;
    }
  }

  // Marking the inode valid, which it is, changes nothing.
  lemma FileOkValid(d: Disk, b: seq<bool>, tab: seq<Inode>, own: seq<Owner>, i: int, c: int)
    requires FileOk(d, b, tab, own, i, c)
    ensures 0 <= i < |tab| && tab[i].isvalid && tab[i] == tab[i].(isvalid := true)
  {
  }

  lemma NotFreed(fs: FsSpec.Fs, a: AbsFs, own: seq<Owner>, i: nat)
    requires fs.Mounted? && RefinesWith(fs, a, own) && a.mount.MountedWith? && (CacheSpec.Usable(|a.files|, i) ==> LiveAbs(a))
    ensures !CacheSpec.ReturnsFreed(|fs.inomap|, fs.cache, i)
  {
    hide RefinesWith;
    MountAgrees(fs, a, own);
    if CacheSpec.Usable(|fs.inomap|, i) { ReturnsFreedExactly(fs, a, own, i); }
  }

  // The whole loop is what has been done followed by the loop on what is left.
  ghost predicate Rest(d0: Disk, b0: seq<bool>, n0: Inode, data: seq<byte>, offset: int,
                       d: Disk, b: seq<bool>, n: Inode, written: nat, touched: bool)
    requires 0 <= offset && |d0| == |b0| && written <= |data|
  {
    && |d| == |b|
    && var r := FsSpec.WriteLoop(d, b, n, data[written..], offset + written);
       FsSpec.WriteLoop(d0, b0, n0, data, offset)
         == FsSpec.WriteResult(r.disk, r.bmap, r.n, written + r.written, touched || r.touched)
  }

  lemma Started(d0: Disk, b0: seq<bool>, n0: Inode, data: seq<byte>, offset: int)
    requires 0 <= offset && |d0| == |b0|
    ensures Rest(d0, b0, n0, data, offset, d0, b0, n0, 0, false)
  {
    assert data[0..] == data;
  }

  lemma RestStep(d0: Disk, b0: seq<bool>, n0: Inode, data: seq<byte>, offset: int,
                 d: Disk, b: seq<bool>, n: Inode, written: nat, touched: bool)
    requires 0 <= offset && offset + written < MAX_FILE_SIZE && |d0| == |b0| && written < |data|
    requires Rest(d0, b0, n0, data, offset, d, b, n, written, touched)
    ensures |d| == |b|
    ensures var a, m := FsSpec.WriteChunk(d, b, n, data[written..], offset + written), FsSpec.ChunkSize(offset + written, |data| - written);
      && (a.block == 0 ==>
            FsSpec.WriteLoop(d0, b0, n0, data, offset) == FsSpec.WriteResult(a.disk, a.bmap, a.n, written, touched || a.touched))
      && (a.block != 0 ==> Rest(d0, b0, n0, data, offset, a.disk, a.bmap, a.n, written + m, touched || a.touched))
  {
    hide FsSpec.WriteChunk;
    var m := FsSpec.ChunkSize(offset + written, |data| - written);
    assert data[written..][m..] == data[written + m..];
  }

  lemma Finished(d0: Disk, b0: seq<bool>, n0: Inode, data: seq<byte>, offset: int,
                 d: Disk, b: seq<bool>, n: Inode, written: nat, touched: bool)
    requires 0 <= offset && |d0| == |b0| && written == |data|
    requires Rest(d0, b0, n0, data, offset, d, b, n, written, touched)
    ensures FsSpec.WriteLoop(d0, b0, n0, data, offset) == FsSpec.WriteResult(d, b, n, written, touched)
  {
  }

  // While it does not run off the pointers, the loop is inside the largest file.
  lemma StaysInside(d: Disk, b: seq<bool>, tab: seq<Inode>, own: seq<Owner>, i: int, c: int, left: int, at: int)
    requires FileOk(d, b, tab, own, i, c) && FsSpec.BlockOf(at) <= c && left > 0
    requires at + left <= MAX_FILE_SIZE || CountFree(b) + Cost(c) < Cost(POINTERS_PER_FILE)
    ensures at < MAX_FILE_SIZE
  {
    FileBounds(d, b, tab, own, i, c);
  }

  // What the loop body reads is there.
  lemma Reachable(d: Disk, b: seq<bool>, tab: seq<Inode>, own: seq<Owner>, i: int, c: int, offset: int)
    requires FileOk(d, b, tab, own, i, c) && 0 <= offset
    ensures |d| == |b| && 0 <= i < |tab|
    ensures tab[i].indirect != 0 ==> 0 <= tab[i].indirect < |d| && d[tab[i].indirect].PointerBlock?
    ensures var p := FsSpec.Slot(d, tab[i], FsSpec.BlockOf(offset)); p != 0 ==> 0 <= p < |d| && d[p].DataBlock?
  {
    assert InodeOwned(d, tab[i], i, own);
    var k := FsSpec.BlockOf(offset);
    if k < POINTERS_PER_FILE { assert SlotOwned(d, tab[i], i, k, own); }
  }
}
