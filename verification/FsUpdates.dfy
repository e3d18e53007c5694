// fs_create and fs_write refine the abstract machine.

module FsUpdates {
  import opened Common
  import opened DataStructures
  import opened CacheSpec
  import opened CacheProof
  import opened FsSpec
  import opened FsInvariant
  import opened FsSpace
  import opened FsWriteProof
  import opened FsFile
  import opened FsScan
  import opened FsAbstract
  import opened FsRefinement
  import opened LruStack

  // ---------- create ----------

  lemma FirstFreeIsFirstNone(fs: Fs, a: AbsFs, own: seq<Owner>)
    requires fs.Mounted? && RefinesWith(fs, a, own)
    ensures FirstFree(fs.inomap) == FirstNone(a.files)
  {
    var i, j := FirstFree(fs.inomap), FirstNone(a.files);
    assert i < |a.files| ==> a.files[i] == FileOf(fs.disk, View(fs)[i]);
    assert j < |a.files| ==> a.files[j] == FileOf(fs.disk, View(fs)[j]);
  }

  lemma CreateOwned(disk: Disk, bmap: seq<bool>, tab: seq<Inode>, own: seq<Owner>, i: nat)
    requires Owned(disk, bmap, tab, own) && i < |tab| && !tab[i].isvalid
    ensures Owned(disk, bmap, tab[i := EMPTY_FILE], own)
  {
    var tab' := tab[i := EMPTY_FILE];
    forall j | 0 <= j < |tab'| && tab'[j].isvalid ensures InodeOwned(disk, tab'[j], j, own) {
      if j != i { assert InodeOwned(disk, tab[j], j, own); }
    }
    forall b | 0 <= b < |own| ensures OwnerPoints(disk, tab', own[b], b) {
      assert OwnerPoints(disk, tab, own[b], b);
    }
  }

  lemma CreateGood(disk: Disk, bmap: seq<bool>, tab: seq<Inode>, own: seq<Owner>, a: AbsFs, i: nat)
    requires Good(disk, bmap, tab, own, a) && i < |tab| && !tab[i].isvalid && Usable(|tab|, i)
    ensures Good(disk, bmap, tab[i := EMPTY_FILE], own, a.(files := a.files[i := Some([])]))
  {
    hide Owned;
    CreateOwned(disk, bmap, tab, own, i);
    UsedUpdate(a.files, i, Some([]));
    assert Content(disk, EMPTY_FILE) == [];
    assert TableOk(disk, tab[i := EMPTY_FILE], a.(files := a.files[i := Some([])]));
  }

  // Saving straight to the disk is safe when the inumber is not in the list.
  lemma CreateMount(fs: Fs, m: AbsMount, i: nat)
    requires fs.Mounted? && MountOk(fs.disk, fs.inomap, fs.cache, View(fs), m)
    requires i < |View(fs)| && Usable(|fs.inomap|, i) && !Resident(fs.cache, i)
    ensures var fs' := fs.(disk := InodeSave(fs.disk, |fs.inomap|, i, EMPTY_FILE), inomap := fs.inomap[i := true]);
      && View(fs') == View(fs)[i := EMPTY_FILE] && SameData(fs.disk, fs'.disk, |fs.inomap|)
      && MountOk(fs'.disk, fs'.inomap, fs'.cache, View(fs'), m)
  {
    hide Usable, SameData, DiskInode, InodeSave, EntriesOk, Logical, Resident;
    SaveUnlisted(fs.disk, |fs.inomap|, fs.cache, i, EMPTY_FILE);
    var fs' := fs.(disk := InodeSave(fs.disk, |fs.inomap|, i, EMPTY_FILE), inomap := fs.inomap[i := true]);
    assert View(fs') == View(fs)[i := EMPTY_FILE];
  }

  lemma ListedIsResident(fs: Fs, a: AbsFs, own: seq<Owner>, i: int)
    requires fs.Mounted? && RefinesWith(fs, a, own)
    ensures a.mount.MountedWith? && (i in a.mount.recent <==> Resident(fs.cache, i))
  {
    hide Good;
    FindInumber(fs.cache.entries, i);
  }

  lemma CreateRefines(fs: Fs, a: AbsFs, own: seq<Owner>)
    requires RefinesWith(fs, a, own) && Legal(a, OpCreate)
    ensures var (fs', r) := Create(fs); StepRefines(fs, a, OpCreate, fs', Code(r), own)
  {
    hide Good, MountOk, View, InodeSave, Usable, SameData, Resident;
    MountAgrees(fs, a, own);
    if fs.Mounted? {
      FirstFreeIsFirstNone(fs, a, own);
      var i: nat := FirstFree(fs.inomap);
      if i < |fs.inomap| && Usable(|fs.inomap|, i) {
        FreeIsInvalid(fs, a, own, i);
        ListedIsResident(fs, a, own, i);
        CreateMount(fs, a.mount, i);
        var fs' := Create(fs).0;
        CreateGood(fs.disk, fs.bmap, View(fs), own, a, i);
        GoodSameData(fs.disk, fs'.disk, fs.bmap, View(fs'), own, a.(files := a.files[i := Some([])]));
      }
    }
  }

  // Which inumber create returns, in numbers: of the inodes of all blocks but the last one, the first that
  // is not marked; -1 iff all of them are, although the inodes of the last block are not.
  lemma CreateReturns(fs: Fs, a: AbsFs, own: seq<Owner>)
    requires fs.Mounted? && RefinesWith(fs, a, own)
    ensures var m, (fs', r) := 128 * (|fs.disk| / 10), Create(fs);
      && |fs.inomap| == m + 128
      && (r == -1 <==> forall k :: 0 <= k < m ==> fs.inomap[k])
      && (r != -1 ==>
            && 0 <= r < m && !fs.inomap[r] && (forall k :: 0 <= k < r ==> fs.inomap[k])
            && fs' == fs.(disk := fs'.disk, inomap := fs.inomap[r := true]))
      && (r == -1 ==> fs' == fs)
  {
    hide Good, MountOk, View, InodeSave;
    MountAgrees(fs, a, own);
  }

  // No file is ever in the last inode block.
  lemma FilesBelow(fs: Fs, a: AbsFs, own: seq<Owner>)
    requires RefinesWith(fs, a, own)
    ensures |a.files| == 128 * (|fs.disk| / 10) + 128
    ensures forall j :: 0 <= j < |a.files| && j >= 128 * (|fs.disk| / 10) ==> a.files[j].None?
  {
    hide RefinesWith, Usable;
    TableSize(fs, a, own);
    forall j | 0 <= j < |a.files| && j >= 128 * (|fs.disk| / 10) ensures a.files[j].None? {
      NotUsable(|fs.disk|, j);
      UnusableHasNoFile(fs, a, own, j);
    }
  }

  lemma TableSize(fs: Fs, a: AbsFs, own: seq<Owner>)
    requires RefinesWith(fs, a, own)
    ensures |a.files| == NumInodes(|fs.disk|)
  {
  }

  lemma NotUsable(n: nat, j: int)
    requires 128 * (n / 10) <= j
    ensures !Usable(NumInodes(n), j)
  {
  }

  lemma FreeIsInvalid(fs: Fs, a: AbsFs, own: seq<Owner>, i: nat)
    requires fs.Mounted? && RefinesWith(fs, a, own) && i < |fs.inomap|
    ensures i < |View(fs)| && View(fs)[i].isvalid == fs.inomap[i]
  {
  }

  // Exactly when fs_create really creates: the inumber it picks is not in the cache.
  lemma CreateExact(fs: Fs, a: AbsFs, own: seq<Owner>)
    requires fs.Mounted? && RefinesWith(fs, a, own)
    requires FirstFree(fs.inomap) < |fs.inomap| && Usable(|fs.inomap|, FirstFree(fs.inomap))
    ensures var i, (fs', r) := FirstFree(fs.inomap), Create(fs);
      && r == i && fs'.Mounted? && i < |View(fs')|
      && (View(fs')[i] == EMPTY_FILE <==> !Resident(fs.cache, i))
      && (View(fs')[i].isvalid <==> !Resident(fs.cache, i))
  {
    hide Good, Usable, InodeSave, DiskInode, SameData;
    var i := FirstFree(fs.inomap);
    FreeIsInvalid(fs, a, own, i);
    if !Resident(fs.cache, i) { CreateMount(fs, a.mount, i); }
  }

  // getsize on an inumber that is not in use, followed by the create that picks it: the new file
  // is not there.
  lemma GetSizeHidesCreate(fs: Fs, a: AbsFs, own: seq<Owner>, j1: bool, j2: bool)
    requires fs.Mounted? && RefinesWith(fs, a, own) && a.mount.MountedWith? && LiveAbs(a) && fs.cache.capacity > 0
    requires FirstFree(fs.inomap) < |fs.inomap| && Usable(|fs.inomap|, FirstFree(fs.inomap))
    ensures var i: nat := FirstFree(fs.inomap);
      var (fs1, r1) := GetSize(fs, i, j1);
      var (fs2, r2) := Create(fs1);
      var (fs3, r3) := GetSize(fs2, i, j2);
      r1 == -1 && r2 == i && r3 == -1
  {
    var i: nat := FirstFree(fs.inomap);
    GetCorrect(fs.disk, |fs.inomap|, fs.cache, i, j1);
    var g := Get(fs.disk, |fs.inomap|, fs.cache, i, j1);
    assert !View(fs)[i].isvalid;
    var d := InodeSave(g.disk, |fs.inomap|, i, EMPTY_FILE);
    assert Resident(g.cache, i);
    assert !Logical(d, g.cache, i).isvalid;
  }

  // ---------- write ----------

  // Everything but file i after the write loop.
  lemma WriteGood(disk: Disk, bmap: seq<bool>, tab: seq<Inode>, own: seq<Owner>, a: AbsFs, i: nat,
                  data: seq<byte>, offset: int, r: WriteResult, own': seq<Owner>)
    requires Good(disk, bmap, tab, own, a) && i < |tab| && tab[i].isvalid && 0 <= offset && r.written <= |data|
    requires WriteDone(disk, bmap, tab, own, i, data, offset, r, own')
    ensures |r.disk| == |disk|
    ensures Good(r.disk, r.bmap, tab[i := r.n], own',
                 a.(files := a.files[i := Some(Spliced(a.files[i].value, offset, data[..r.written]))]))
    ensures forall b :: 0 <= b < FirstDataBlock(|disk|) ==> r.disk[b] == disk[b]
  {
    hide Contiguous, Slot, ByteAt, Content;
    var a', tab' := a.(files := a.files[i := Some(Spliced(a.files[i].value, offset, data[..r.written]))]), tab[i := r.n];
    assert a.files[i] == Some(Content(disk, tab[i])) && FileShape(disk, tab[i]);
    UsedUpdate(a.files, i, a'.files[i]);
    forall j | 0 <= j < |tab| && j != i && tab[j].isvalid
      ensures FileShape(r.disk, tab[j]) && FileOf(r.disk, tab[j]) == FileOf(disk, tab[j])
    {
      SameFileBy(disk, r.disk, bmap, tab, own, j);
      SameFileKept(disk, r.disk, tab[j]);
    }
    InodeRegionKept(disk, r.disk, bmap, own);
    assert TableOk(r.disk, tab', a');
  }

  lemma InodeRegionKept(disk: Disk, disk': Disk, bmap: seq<bool>, own: seq<Owner>)
    requires MapAgrees(bmap, own) && |bmap| == |disk| == |disk'| && Layout(disk)
    requires forall b :: 0 <= b < |own| && own[b] == Reserved ==> disk'[b] == disk[b]
    ensures Layout(disk') && forall b :: 0 <= b < FirstDataBlock(|disk|) ==> disk'[b] == disk[b]
  {
    forall b | 1 <= b <= NumInodes(|disk|) / INODES_PER_BLOCK ensures IsInodeBlock(disk', b) {
      assert IsInodeBlock(disk, b);
    }
  }

  // The write loop works on blocks only; the cache and the inode table do not notice.
  lemma MountOkBlocks(disk: Disk, disk': Disk, inomap: seq<bool>, c: Cache, tab: seq<Inode>, m: AbsMount)
    requires MountOk(disk, inomap, c, tab, m) && |disk'| == |disk| && Layout(disk) && |inomap| == NumInodes(|disk|)
    requires forall b :: 0 <= b < FirstDataBlock(|disk|) ==> disk'[b] == disk[b]
    ensures MountOk(disk', inomap, c, tab, m)
    ensures forall j :: 0 <= j < |inomap| ==> Logical(disk', c, j) == Logical(disk, c, j)
  {
    forall b | 1 <= b <= |inomap| / INODES_PER_BLOCK ensures IsInodeBlock(disk', b) { assert IsInodeBlock(disk, b); }
    forall j | 0 <= j < |inomap| ensures DiskInode(disk', j) == DiskInode(disk, j) {
      assert IsInodeBlock(disk, InodeBlockNumber(j));
    }
    forall k | 0 <= k < |c.entries| ensures EntryOk(disk', |inomap|, c.entries[k]) {
      assert EntryOk(disk, |inomap|, c.entries[k]);
      assert c.entries[k] in c.entries;
    }
  }

  lemma MountOkRegion(disk: Disk, inomap: seq<bool>, c: Cache, tab: seq<Inode>, m: AbsMount)
    requires MountOk(disk, inomap, c, tab, m)
    ensures InodeRegion(disk, |inomap|)
  {
  }

  // set_dirty, or saving directly when nothing is cached, records the new inode.
  lemma UpdateMountOk(disk: Disk, inomap: seq<bool>, c: Cache, tab: seq<Inode>, m: AbsMount, i: nat, n: Inode, touched: bool)
    requires MountOk(disk, inomap, c, tab, m) && i < |tab| && Usable(|inomap|, i) && inomap[i] && n.isvalid
    requires !touched ==> n == Logical(disk, c, i)
    ensures var u := Update(disk, |inomap|, c, i, n, touched);
      && MountOk(u.disk, inomap, u.cache, tab[i := n], m) && SameData(disk, u.disk, |inomap|)
      && forall j :: 0 <= j ==> Logical(u.disk, u.cache, j) == if j == i then n else Logical(disk, c, j)
  {
    hide Usable, SameData, DiskInode, InodeSave, EntriesOk, Logical, Update;
    UpdateCorrect(disk, |inomap|, c, i, n, touched);
    UpdateKeepsOrder(disk, |inomap|, c, i, n, touched);
  }

  // fs_write from the state in which it has its inode.
  lemma WriteFromInode(fs: Fs, a: AbsFs, own: seq<Owner>, i: nat, data: seq<byte>, offset: int)
    returns (r: WriteResult, own': seq<Owner>)
    requires fs.Mounted? && |fs.disk| == |fs.bmap| && |fs.inomap| == |View(fs)| == |a.files|
    requires |fs.inomap| == NumInodes(|fs.disk|) && i < |fs.inomap|
    requires Good(fs.disk, fs.bmap, View(fs), own, a) && MountOk(fs.disk, fs.inomap, fs.cache, View(fs), a.mount)
    requires View(fs)[i].isvalid && FileShape(fs.disk, View(fs)[i]) && Usable(|fs.inomap|, i)
    requires a.files[i] == Some(Content(fs.disk, View(fs)[i]))
    requires 0 <= offset <= MAX_FILE_SIZE
    requires NoHole(|a.files[i].value|, FreeBlocks(a), offset, |data|)
    ensures r == WriteInode(fs.disk, fs.bmap, View(fs)[i], data, offset)
    ensures r.written == Writable(FreeBlocks(a), NumBlocks(|a.files[i].value|), offset, |data|)
    ensures InodeRegion(r.disk, |fs.inomap|) && (!r.touched ==> r.n == View(fs)[i])
    ensures var u := Update(r.disk, |fs.inomap|, fs.cache, i, r.n, r.touched);
      RefinesWith(Mounted(u.disk, r.bmap, fs.inomap, u.cache),
                  a.(files := a.files[i := Some(Spliced(a.files[i].value, offset, data[..r.written]))]), own')
  {
    hide MountOk, Update, FileShape, WriteInode, Owned, TableOk, Usable, Logical;
    var tab := View(fs);
    assert FreeBlocks(a) == CountFree(fs.bmap);
    r, own' := WriteCorrect(fs.disk, fs.bmap, tab, own, i, data, offset);
    WriteGood(fs.disk, fs.bmap, tab, own, a, i, data, offset, r, own');
    MountOkBlocks(fs.disk, r.disk, fs.inomap, fs.cache, tab, a.mount);
    MountOkRegion(r.disk, fs.inomap, fs.cache, tab, a.mount);
    MapShowsValid(fs, a.mount, i);
    UpdateMountOk(r.disk, fs.inomap, fs.cache, tab, a.mount, i, r.n, r.touched);
    var u := Update(r.disk, |fs.inomap|, fs.cache, i, r.n, r.touched);
    var fs' := Mounted(u.disk, r.bmap, fs.inomap, u.cache);
    assert View(fs') == tab[i := r.n];
    GoodSameData(r.disk, u.disk, r.bmap, tab[i := r.n], own',
                 a.(files := a.files[i := Some(Spliced(a.files[i].value, offset, data[..r.written]))]));
  }

  lemma MapShowsValid(fs: Fs, m: AbsMount, i: nat)
    requires fs.Mounted? && MountOk(fs.disk, fs.inomap, fs.cache, View(fs), m) && i < |View(fs)|
    ensures i < |fs.inomap| && View(fs)[i].isvalid == fs.inomap[i]
  {
  }

  lemma WriteRefines(fs: Fs, a: AbsFs, own: seq<Owner>, i: nat, data: seq<byte>, length: int, offset: int, junk: bool)
    returns (own': seq<Owner>)
    requires RefinesWith(fs, a, own) && Legal(a, OpWrite(i, data, length, offset, junk))
    requires fs.Mounted? ==> |fs.disk| == |fs.bmap|
    ensures var (fs', r) := Write(fs, i, data, length, offset, junk);
      StepRefines(fs, a, OpWrite(i, data, length, offset, junk), fs', Code(r), own')
  {
    hide RefinesWith, Get, View, FileShape, Content, Usable, WriteInode, Update, Spliced, Writable, NoHole, FreeBlocks, Touch, Resident;
    own' := own;
    MountAgrees(fs, a, own);
    if fs.Mounted? {
      ArgsAgree(fs, a, own, i, length, offset);
      if ArgValid(fs.inomap, i, length, offset) {
        FileAt(fs, a, own, i);
        GetRefines(fs, a, own, i, junk);
        var r;
        SameSpace(a, i);
        r, own' := WriteMounted(AfterGet(fs, i, junk), Fetched(a, i), own, i, data[..length], offset);
        assert data[..length][..r.written] == data[..r.written];
      }
    }
  }

  lemma SameSpace(a: AbsFs, i: int)
    requires a.mount.MountedWith?
    ensures FreeBlocks(Fetched(a, i)) == FreeBlocks(a) && Fetched(a, i).files == a.files
  {
  }

  lemma WriteMounted(fs: Fs, a: AbsFs, own: seq<Owner>, i: nat, data: seq<byte>, offset: int)
    returns (r: WriteResult, own': seq<Owner>)
    requires fs.Mounted? && RefinesWith(fs, a, own) && i < |View(fs)| && |fs.disk| == |fs.bmap|
    requires i < |a.files| && a.files[i].Some?
    requires 0 <= offset <= MAX_FILE_SIZE
    requires NoHole(|a.files[i].value|, FreeBlocks(a), offset, |data|)
    ensures r == WriteInode(fs.disk, fs.bmap, View(fs)[i], data, offset)
    ensures r.written == Writable(FreeBlocks(a), NumBlocks(|a.files[i].value|), offset, |data|) && r.written <= |data|
    ensures InodeRegion(r.disk, |fs.inomap|) && (!r.touched ==> r.n == View(fs)[i])
    ensures var u := Update(r.disk, |fs.inomap|, fs.cache, i, r.n, r.touched);
      RefinesWith(Mounted(u.disk, r.bmap, fs.inomap, u.cache),
                  a.(files := a.files[i := Some(Spliced(a.files[i].value, offset, data[..r.written]))]), own')
  {
    hide Good, MountOk, Update, WriteInode, Usable, View, FileShape, Content;
    MountAgrees(fs, a, own);
    FileAt(fs, a, own, i);
    r, own' := WriteFromInode(fs, a, own, i, data, offset);
  }

  lemma FileBlocksOk(fs: Fs, a: AbsFs, own: seq<Owner>, i: nat)
    requires fs.Mounted? && RefinesWith(fs, a, own) && i < |a.files| && a.files[i].Some?
    ensures FileOk(fs.disk, fs.bmap, View(fs), own, i, NumBlocks(|a.files[i].value|)) && CountFree(fs.bmap) == FreeBlocks(a)
  {
  }

  // Writing to a file runs off its pointers exactly when it goes on past the largest file and the disk
  // has the blocks for that.
  lemma FileRunsOff(fs: Fs, a: AbsFs, own: seq<Owner>, i: nat, data: seq<byte>, offset: int)
    requires fs.Mounted? && RefinesWith(fs, a, own) && i < |a.files| && a.files[i].Some?
    requires 0 <= offset <= MAX_FILE_SIZE && NoHole(|a.files[i].value|, FreeBlocks(a), offset, |data|)
    ensures |fs.disk| == |fs.bmap| && i < |View(fs)|
    ensures RunsOff(fs.disk, fs.bmap, View(fs)[i], data, offset) <==> PastLargest(a, i, |data|, offset)
  {
    hide RefinesWith, View, RunsOff, NoHole, FreeBlocks, Cost, NumBlocks, FileOk;
    MountAgrees(fs, a, own);
    FileAt(fs, a, own, i);
    FileBlocksOk(fs, a, own, i);
    StartsInside(|a.files[i].value|, FreeBlocks(a), offset, |data|);
    RunsOffExactly(fs.disk, fs.bmap, View(fs), own, i, NumBlocks(|a.files[i].value|), data, offset);
  }
}
