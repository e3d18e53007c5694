// The file system operations of project_4/fs.c on values.  Class FileSystem implements them.

module FsSpec {
  import opened Common
  import opened DataStructures
  import opened CacheSpec

  // Unmounted: block_freemap and inode_freemap are NULL.  A freemap entry is true when in use.
  datatype Fs =
    | Unmounted(disk: Disk)
    | Mounted(disk: Disk, bmap: seq<bool>, inomap: seq<bool>, cache: Cache)

  // The data block of a file that the byte at offset is in.
  function BlockOf(offset: int): int { offset / DISK_BLOCK_SIZE }

  // Block number of data block k of a file, 0 if there is none.
  function Slot(disk: Disk, n: Inode, k: int): int {
    if k < 0 || k >= POINTERS_PER_FILE then 0
    else if k < POINTERS_PER_INODE then n.direct[k]
    else if n.indirect == 0 then n.indirect
    else PointersOf(disk, n.indirect)[k - POINTERS_PER_INODE]
  }

  function FindFreeFrom(bmap: seq<bool>, i: int): (b: int)
    requires 0 < i
    ensures b == 0 || i <= b < |bmap|
    ensures b != 0 ==> !bmap[b]
    ensures forall j :: i <= j < (if b == 0 then |bmap| else b) ==> bmap[j]
    decreases |bmap| - i
  {
    if i >= |bmap| then 0 else if !bmap[i] then i else FindFreeFrom(bmap, i + 1)
  }

  function FindFreeBlock(bmap: seq<bool>): int {
    FindFreeFrom(bmap, FirstDataBlock(|bmap|))
  }

  datatype Alloc = Alloc(disk: Disk, bmap: seq<bool>, n: Inode, block: int, touched: bool)

  // create_new_data_block.
  function CreateDataBlock(disk: Disk, bmap: seq<bool>, n: Inode, k: int): Alloc
    requires 0 <= k < POINTERS_PER_FILE && |disk| == |bmap|
  {
    var b := FindFreeBlock(bmap);
    if b == 0 then Alloc(disk, bmap, n, 0, false)
    else if k < POINTERS_PER_INODE then
      Alloc(disk[b := DataBlock(ZERO_BYTES)], bmap[b := true], n.(direct := n.direct[k := b]), b, true)
    else if n.indirect == 0 then
      var bmap1 := bmap[b := true];
      var d := FindFreeBlock(bmap1);
      if d == 0 then Alloc(disk, bmap1[b := false], n, 0, false)
      else
        var ptrs := ZERO_POINTERS[k - POINTERS_PER_INODE := d];
        Alloc(disk[b := PointerBlock(ptrs)][d := DataBlock(ZERO_BYTES)], bmap1[d := true],
              n.(indirect := b), d, true)
    else
      var ptrs := PointersOf(disk, n.indirect)[k - POINTERS_PER_INODE := b];
      var disk1 := if 0 <= n.indirect < |disk| then disk[n.indirect := PointerBlock(ptrs)] else disk;
      Alloc(disk1[b := DataBlock(ZERO_BYTES)], bmap[b := true], n, b, false)
  }

  // s with d written over it from position at on.
  function Overwrite<T>(s: seq<T>, at: nat, d: seq<T>): (r: seq<T>)
    requires at + |d| <= |s|
    ensures |r| == |s|
    ensures forall p :: 0 <= p < |s| ==> r[p] == if at <= p < at + |d| then d[p - at] else s[p]
  {
    s[..at] + d + s[at + |d|..]
  }

  // Bytes the next iteration of the write or read loop transfers.
  function ChunkSize(offset: int, length: int): (m: int)
    ensures 0 <= length ==> 0 <= m <= length
    ensures 0 < length ==> 0 < m
  {
    Min(DISK_BLOCK_SIZE - offset % DISK_BLOCK_SIZE, length)
  }

  // One iteration of the loop in fs_write; block == 0 means the loop breaks.
  function WriteChunk(disk: Disk, bmap: seq<bool>, n: Inode, data: seq<byte>, offset: int): (a: Alloc)
    requires 0 < |data| && 0 <= offset < MAX_FILE_SIZE && |disk| == |bmap|
    ensures |a.disk| == |a.bmap| == |disk|
  {
    var k := BlockOf(offset);
    var b := Slot(disk, n, k);
    var a := if b == 0 then CreateDataBlock(disk, bmap, n, k) else Alloc(disk, bmap, n, b, false);
    if a.block == 0 then a
    else if !(0 <= a.block < |a.disk|) then a
    else
      var bytes := Overwrite(BytesOf(a.disk, a.block), offset % DISK_BLOCK_SIZE,
                             data[..ChunkSize(offset, |data|)]);
      a.(disk := a.disk[a.block := DataBlock(bytes)])
  }

  datatype WriteResult = WriteResult(disk: Disk, bmap: seq<bool>, n: Inode, written: nat, touched: bool)

  // The loop in fs_write, up to the end of the largest file.
  function WriteLoop(disk: Disk, bmap: seq<bool>, n: Inode, data: seq<byte>, offset: int): (r: WriteResult)
    requires 0 <= offset && |disk| == |bmap|
    ensures |r.disk| == |r.bmap| == |disk|
    ensures r.written <= |data|
    decreases |data|
  {
    if data == [] || offset >= MAX_FILE_SIZE then WriteResult(disk, bmap, n, 0, false)
    else
      var a := WriteChunk(disk, bmap, n, data, offset);
      if a.block == 0 then WriteResult(a.disk, a.bmap, a.n, 0, a.touched)
      else
        var m := ChunkSize(offset, |data|);
        var r := WriteLoop(a.disk, a.bmap, a.n, data[m..], offset + m);
        r.(written := m + r.written, touched := a.touched || r.touched)
  }

  // An iteration at the end of the largest file indexes an array of pointers out of its bounds: the
  // pointer block there is, or the one create_new_data_block makes when two blocks are free.
  predicate OutOfPointers(bmap: seq<bool>, n: Inode) {
    n.indirect != 0 || (var b := FindFreeBlock(bmap); b != 0 && FindFreeBlock(bmap[b := true]) != 0)
  }

  // The loop in fs_write, which does not check for the end of the largest file, gets there with data left.
  predicate RunsOff(disk: Disk, bmap: seq<bool>, n: Inode, data: seq<byte>, offset: int)
    requires 0 <= offset && |disk| == |bmap|
    decreases |data|
  {
    data != [] &&
    if offset >= MAX_FILE_SIZE then OutOfPointers(bmap, n)
    else
      var a, m := WriteChunk(disk, bmap, n, data, offset), ChunkSize(offset, |data|);
      a.block != 0 && RunsOff(a.disk, a.bmap, a.n, data[m..], offset + m)
  }

  // The loop in fs_read.
  function ReadLoop(disk: Disk, n: Inode, total: int, offset: int): (r: seq<byte>)
    requires 0 <= offset
    ensures |r| <= Max(total, 0)
    decreases total
  {
    if total <= 0 then []
    else
      var b := Slot(disk, n, BlockOf(offset));
      if b == 0 then []
      else
        var m := ChunkSize(offset, total);
        var s := offset % DISK_BLOCK_SIZE;
        BytesOf(disk, b)[s..s + m] + ReadLoop(disk, n, total - m, offset + m)
  }

  // Sets bmap at ptrs[k], ptrs[k + 1], ... up to the first zero pointer (the scans of fs_mount and
  // fs_delete).
  function SetWhile(bmap: seq<bool>, ptrs: seq<int>, k: nat, v: bool): (r: seq<bool>)
    requires k <= |ptrs|
    ensures |r| == |bmap|
    decreases |ptrs| - k
  {
    if k == |ptrs| || ptrs[k] == 0 then bmap
    else SetWhile(SetBit(bmap, ptrs[k], v), ptrs, k + 1, v)
  }

  function SetBit(bmap: seq<bool>, b: int, v: bool): (r: seq<bool>)
    ensures |r| == |bmap|
  {
    if 0 <= b < |bmap| then bmap[b := v] else bmap
  }

  // Sets bmap at every block the scan reaches from n.
  function SetBlocks(disk: Disk, bmap: seq<bool>, n: Inode, v: bool): (r: seq<bool>)
    ensures |r| == |bmap|
  {
    var bmap1 := SetWhile(bmap, n.direct, 0, v);
    if n.indirect == 0 then bmap1
    else if v then SetWhile(SetBit(bmap1, n.indirect, v), PointersOf(disk, n.indirect), 0, v)
    else SetBit(SetWhile(bmap1, PointersOf(disk, n.indirect), 0, v), n.indirect, v)
  }

  // fs_format.
  function FormatInodes(disk: Disk, k: nat): (r: Disk)
    ensures |r| == |disk|
  {
    if k == 0 then disk
    else
      var d := FormatInodes(disk, k - 1);
      if k < |d| then d[k := InodeBlock(ZERO_INODES)] else d
  }

  function Format(fs: Fs): (Fs, int) {
    if fs.Mounted? || |fs.disk| == 0 then (fs, 0)
    else
      var n := |fs.disk|;
      var super := SuperBlock(FS_MAGIC, n, NumInodeBlocks(n), NumInodes(n));
      (Unmounted(FormatInodes(fs.disk, NumInodeBlocks(n))[0 := super]), 1)
  }

  datatype Maps = Maps(bmap: seq<bool>, inomap: seq<bool>)

  // The freemaps after fs_mount has scanned the first count inodes of the table.
  function MountScan(disk: Disk, m: Maps, count: nat): (r: Maps)
    ensures |r.bmap| == |m.bmap| && |r.inomap| == |m.inomap|
  {
    if count == 0 then m
    else
      var r := MountScan(disk, m, count - 1);
      var i := count - 1;
      var bmap := if i % INODES_PER_BLOCK == 0 then SetBit(r.bmap, InodeBlockNumber(i), true) else r.bmap;
      var n := DiskInode(disk, i);
      if n.isvalid then Maps(SetBlocks(disk, bmap, n, true), SetBit(r.inomap, i, true))
      else Maps(bmap, r.inomap)
  }

  function Mount(fs: Fs, capacity: int): (Fs, int) {
    if |fs.disk| == 0 || !fs.disk[0].SuperBlock? || fs.disk[0].magic != FS_MAGIC
       || fs.disk[0].nblocks < 1 || fs.disk[0].ninodes < 0 || fs.disk[0].ninodeblocks < 0 then (fs, 0)
    else
      var s := fs.disk[0];
      var m := Maps(Repeat(false, s.nblocks)[0 := true], Repeat(false, s.ninodes));
      var r := MountScan(fs.disk, m, s.ninodeblocks * INODES_PER_BLOCK);
      (Mounted(fs.disk, r.bmap, r.inomap, Cache(capacity, 0, [])), 1)
  }

  function Unmount(fs: Fs): (Fs, int) {
    if fs.Unmounted? then (fs, 0)
    else (Unmounted(Flush(fs.disk, |fs.inomap|, fs.cache.entries)), 1)
  }

  // Index of the first false entry, |inomap| if there is none.
  function FirstFree(inomap: seq<bool>): (i: nat)
    ensures i <= |inomap|
    ensures i < |inomap| ==> !inomap[i]
    ensures forall j :: 0 <= j < i ==> inomap[j]
  {
    if inomap == [] || !inomap[0] then 0 else 1 + FirstFree(inomap[1..])
  }

  function Create(fs: Fs): (Fs, int) {
    if fs.Unmounted? then (fs, -1)
    else
      var i: int := FirstFree(fs.inomap);
      if i == |fs.inomap| || !Usable(|fs.inomap|, i) then (fs, -1)
      else (fs.(disk := InodeSave(fs.disk, |fs.inomap|, i, EMPTY_FILE), inomap := fs.inomap[i := true]), i)
  }

  function Delete(fs: Fs, i: nat, junk: bool): (Fs, int) {
    if fs.Unmounted? then (fs, 0)
    else
      var g := Get(fs.disk, |fs.inomap|, fs.cache, i, junk);
      var fs1 := fs.(disk := g.disk, cache := g.cache);
      if g.inode.None? || !g.inode.value.isvalid then (fs1, 0)
      else
        var bmap := SetBlocks(g.disk, fs.bmap, g.inode.value, false);
        var r := RemoveIfPresent(g.disk, |fs.inomap|, g.cache, i);
        if !Usable(|fs.inomap|, i) then (fs1.(disk := r.disk, cache := r.cache, bmap := bmap), 0)
        else (Mounted(r.disk, bmap, SetBit(fs.inomap, i, false), r.cache), 1)
  }

  function GetSize(fs: Fs, i: nat, junk: bool): (Fs, int) {
    if fs.Unmounted? then (fs, -1)
    else
      var g := Get(fs.disk, |fs.inomap|, fs.cache, i, junk);
      var fs1 := fs.(disk := g.disk, cache := g.cache);
      if g.inode.None? || !g.inode.value.isvalid then (fs1, -1) else (fs1, g.inode.value.size)
  }

  predicate ArgValid(inomap: seq<bool>, i: nat, length: int, offset: int) {
    length >= 0 && offset >= 0 && i < |inomap| && inomap[i] && offset <= MAX_FILE_SIZE
  }

  function Read(fs: Fs, i: nat, length: int, offset: int, junk: bool): (Fs, seq<byte>) {
    if fs.Unmounted? || !ArgValid(fs.inomap, i, length, offset) then (fs, [])
    else
      var g := Get(fs.disk, |fs.inomap|, fs.cache, i, junk);
      var fs1 := fs.(disk := g.disk, cache := g.cache);
      if g.inode.None? || !g.inode.value.isvalid then (fs1, [])
      else
        var n := g.inode.value;
        (fs1, ReadLoop(g.disk, n, Min(n.size - offset, length), offset))
  }

  // What fs_write makes of the inode it got: the final inode and whether set_dirty is called.
  function WriteInode(disk: Disk, bmap: seq<bool>, n: Inode, data: seq<byte>, offset: int): WriteResult
    requires 0 <= offset && |disk| == |bmap|
  {
    var r := WriteLoop(disk, bmap, n.(isvalid := true), data, offset);
    var end := r.written + offset;
    r.(n := r.n.(size := Max(end, r.n.size)), touched := !n.isvalid || r.touched || end > r.n.size)
  }

  // fs_write of the first length bytes of data, when it does not run off the pointers.
  function Write(fs: Fs, i: nat, data: seq<byte>, length: int, offset: int, junk: bool): (Fs, int)
    requires length <= |data|
    requires fs.Mounted? ==> |fs.disk| == |fs.bmap|
  {
    if fs.Unmounted? || !ArgValid(fs.inomap, i, length, offset) then (fs, 0)
    else
      var g := Get(fs.disk, |fs.inomap|, fs.cache, i, junk);
      var fs1 := fs.(disk := g.disk, cache := g.cache);
      if g.inode.None? || |g.disk| != |fs.bmap| then (fs1, 0)
      else
        var r := WriteInode(g.disk, fs.bmap, g.inode.value, data[..length], offset);
        var u := Update(r.disk, |fs.inomap|, g.cache, i, r.n, r.touched);
        (Mounted(u.disk, r.bmap, fs.inomap, u.cache), r.written)
  }

  // fs_write of these arguments indexes the pointers out of bounds.
  predicate WriteRunsOff(fs: Fs, i: nat, data: seq<byte>, length: int, offset: int, junk: bool)
    requires length <= |data|
    requires fs.Mounted? ==> |fs.disk| == |fs.bmap|
  {
    fs.Mounted? && ArgValid(fs.inomap, i, length, offset) &&
    var g := Get(fs.disk, |fs.inomap|, fs.cache, i, junk);
    g.inode.Some? && |g.disk| == |fs.bmap| && RunsOff(g.disk, fs.bmap, g.inode.value, data[..length], offset)
  }
}
