// Every run of the file system refines the abstract machine of module FsAbstract.

module FsRefinement {
  import opened Common
  import opened DataStructures
  import opened CacheSpec
  import opened CacheProof
  import opened FsSpec
  import opened FsInvariant
  import opened FsSpace
  import opened FsWriteProof
  import opened FsFile
  import opened FsScan
  import opened FsAbstract
  import opened LruStack

  // ---------- The refinement relation ----------

  // The inodes as get_inode would return them.
  function View(fs: Fs): seq<Inode> {
    match fs
    case Unmounted(disk) => seq(NumInodesNat(|disk|), i => DiskInode(disk, i))
    case Mounted(disk, bmap, inomap, cache) => seq(|inomap|, i => Logical(disk, cache, i))
  }

  function MapOf(own: seq<Owner>): seq<bool> { seq(|own|, b requires 0 <= b < |own| => own[b] != Free) }

  ghost predicate Layout(disk: Disk) {
    var n := |disk|;
    && FirstDataBlock(n) <= n
    && disk[0] == SuperBlock(FS_MAGIC, n, NumInodeBlocks(n), NumInodes(n))
    && InodeRegion(disk, NumInodes(n))
  }

  function FileOf(disk: Disk, n: Inode): File {
    if n.isvalid && n.size >= 0 then Some(Content(disk, n)) else None
  }

  ghost predicate TableOk(disk: Disk, tab: seq<Inode>, a: AbsFs) {
    && |tab| == |a.files| == NumInodes(|disk|)
    && forall j :: 0 <= j < |tab| ==>
         && (tab[j].isvalid ==> FileShape(disk, tab[j]) && Usable(|tab|, j))
         && a.files[j] == FileOf(disk, tab[j])
  }

  ghost predicate Good(disk: Disk, bmap: seq<bool>, tab: seq<Inode>, own: seq<Owner>, a: AbsFs) {
    && a.nblocks == |disk| && Layout(disk)
    && Owned(disk, bmap, tab, own)
    && TableOk(disk, tab, a)
    && CountFree(bmap) == FreeBlocks(a)
  }

  ghost predicate MountOk(disk: Disk, inomap: seq<bool>, cache: Cache, tab: seq<Inode>, m: AbsMount) {
    && |inomap| == |tab|
    && (forall j :: 0 <= j < |tab| ==> inomap[j] == tab[j].isvalid)
    && Coherent(disk, |inomap|, cache)
    && m == MountedWith(cache.capacity, Removed(cache), Inumbers(cache.entries))
  }

  ghost predicate RefinesWith(fs: Fs, a: AbsFs, own: seq<Owner>) {
    match fs
    case Unmounted(disk) => a.mount.NotMounted? && Good(disk, MapOf(own), View(fs), own, a)
    case Mounted(disk, bmap, inomap, cache) =>
      Good(disk, bmap, View(fs), own, a) && MountOk(disk, inomap, cache, View(fs), a.mount)
  }

  // ---------- Files that a step does not touch ----------

  ghost predicate SameFile(disk: Disk, disk': Disk, n: Inode) {
    && (forall k :: 0 <= k < POINTERS_PER_FILE ==> Slot(disk', n, k) == Slot(disk, n, k))
    && (forall k :: 0 <= k < POINTERS_PER_FILE && Slot(disk, n, k) != 0 ==>
          BytesOf(disk', Slot(disk, n, k)) == BytesOf(disk, Slot(disk, n, k)))
  }

  lemma SameFileKept(disk: Disk, disk': Disk, n: Inode)
    requires SameFile(disk, disk', n) && FileShape(disk, n)
    ensures FileShape(disk', n) && FileOf(disk', n) == FileOf(disk, n)
  {
    hide Slot;
    forall p | 0 <= p < DISK_BLOCK_SIZE * NumBlocks(n.size) ensures ByteAt(disk', n, p) == ByteAt(disk, n, p) {
      assert Slot(disk, n, p / DISK_BLOCK_SIZE) != 0;
    }
    assert n.size <= DISK_BLOCK_SIZE * NumBlocks(n.size);
    assert Content(disk', n) == Content(disk, n);
  }

  // A file stays the same when the blocks it owns do.
  lemma SameFileBy(disk: Disk, disk': Disk, bmap: seq<bool>, tab: seq<Inode>, own: seq<Owner>, j: int)
    requires Owned(disk, bmap, tab, own) && 0 <= j < |tab| && tab[j].isvalid && |disk'| == |disk|
    requires forall b :: 0 <= b < |own| && OwnedBy(own[b], j) ==> disk'[b] == disk[b]
    ensures SameFile(disk, disk', tab[j]) && InodeOwned(disk', tab[j], j, own)
  {
    assert InodeOwned(disk, tab[j], j, own);
    forall k | 0 <= k < POINTERS_PER_FILE
      ensures Slot(disk', tab[j], k) == Slot(disk, tab[j], k)
      ensures Slot(disk, tab[j], k) != 0 ==> BytesOf(disk', Slot(disk, tab[j], k)) == BytesOf(disk, Slot(disk, tab[j], k))
      ensures SlotOwned(disk', tab[j], j, k, own)
    {
      assert SlotOwned(disk, tab[j], j, k, own);
    }
  }

  // A step that changes only the inode region of the disk and no logical inode.
  lemma GoodSameData(disk: Disk, disk': Disk, bmap: seq<bool>, tab: seq<Inode>, own: seq<Owner>, a: AbsFs)
    requires Good(disk, bmap, tab, own, a) && SameData(disk, disk', NumInodes(|disk|))
    ensures Good(disk', bmap, tab, own, a)
  {
    forall j | 0 <= j < |tab| && tab[j].isvalid
      ensures SameFile(disk, disk', tab[j]) && InodeOwned(disk', tab[j], j, own)
      ensures FileShape(disk', tab[j]) && FileOf(disk', tab[j]) == FileOf(disk, tab[j])
    {
      SameFileBy(disk, disk', bmap, tab, own, j);
      SameFileKept(disk, disk', tab[j]);
    }
    forall b | 0 <= b < |own| ensures OwnerPoints(disk', tab, own[b], b) {
      assert OwnerPoints(disk, tab, own[b], b);
    }
  }

  // ---------- One lemma per call ----------

  // The state after the get_inode that delete, getsize, read and write start with.
  function AfterGet(fs: Fs, i: nat, junk: bool): Fs
    requires fs.Mounted?
  {
    var g := Get(fs.disk, |fs.inomap|, fs.cache, i, junk);
    fs.(disk := g.disk, cache := g.cache)
  }

  // get_inode changes no file, only what is in the cache, and returns the file's inode.
  lemma GetRefines(fs: Fs, a: AbsFs, own: seq<Owner>, i: nat, junk: bool)
    requires fs.Mounted? && RefinesWith(fs, a, own) && a.mount.MountedWith? && (Usable(|a.files|, i) ==> LiveAbs(a))
    ensures var g, fs1 := Get(fs.disk, |fs.inomap|, fs.cache, i, junk), AfterGet(fs, i, junk);
      && RefinesWith(fs1, Fetched(a, i), own) && View(fs1) == View(fs)
      && |g.disk| == |fs.bmap| == |fs.disk| && |fs.inomap| == |a.files| == |View(fs)|
      && (g.inode.Some? <==> Usable(|a.files|, i))
      && (g.inode.Some? ==>
            && i < |a.files| && g.inode.value == View(fs)[i] && (g.inode.value.isvalid <==> a.files[i].Some?)
            && (Resident(g.cache, i) <==> g.cache.capacity != 0))
  {
    hide Touch, FileShape, Owned, Usable, Get, Logical, Resident, SameData, MountOk, Layout;
    var g, fs1 := Get(fs.disk, |fs.inomap|, fs.cache, i, junk), AfterGet(fs, i, junk);
    MountAgrees(fs, a, own);
    if Usable(|fs.inomap|, i) {
      GetMountOk(fs.disk, fs.inomap, fs.cache, View(fs), a.mount, i, junk);
      assert View(fs1) == View(fs);
      GoodSameData(fs.disk, g.disk, fs.bmap, View(fs), own, a);
      GoodAnyMount(g.disk, fs.bmap, View(fs), own, a, Fetched(a, i).mount);
      UsableInside(|fs.inomap|, i);
      ValidIsFile(fs, a, own, i);
    } else {
      GetRefused(fs.disk, fs.inomap, fs.cache, View(fs), a.mount, i, junk);
      assert fs1 == fs;
    }
  }

  lemma UsableInside(numinodes: int, i: int)
    requires Usable(numinodes, i)
    ensures i < numinodes
  {
  }

  lemma ValidIsFile(fs: Fs, a: AbsFs, own: seq<Owner>, i: nat)
    requires RefinesWith(fs, a, own) && i < |View(fs)|
    ensures i < |a.files| && (View(fs)[i].isvalid <==> a.files[i].Some?)
  {
    hide Content;
  }

  lemma GetRefused(disk: Disk, inomap: seq<bool>, c: Cache, tab: seq<Inode>, m: AbsMount, i: nat, junk: bool)
    requires MountOk(disk, inomap, c, tab, m) && !Usable(|inomap|, i)
    ensures Get(disk, |inomap|, c, i, junk) == GetResult(disk, c, None)
  {
    var k := Find(c.entries, i);
    assert k < |c.entries| ==> EntryOk(disk, |inomap|, c.entries[k]);
  }

  lemma GetMountOk(disk: Disk, inomap: seq<bool>, c: Cache, tab: seq<Inode>, m: AbsMount, i: nat, junk: bool)
    requires MountOk(disk, inomap, c, tab, m) && Usable(|inomap|, i) && (m.capacity == 0 || m.removed < m.capacity)
    ensures var g := Get(disk, |inomap|, c, i, junk);
      && MountOk(g.disk, inomap, g.cache, tab, m.(recent := Touch(m.recent, i, m.capacity - m.removed)))
      && SameData(disk, g.disk, |inomap|) && g.inode == Some(Logical(disk, c, i))
      && (forall j :: 0 <= j ==> Logical(g.disk, g.cache, j) == Logical(disk, c, j))
      && (Resident(g.cache, i) <==> g.cache.capacity != 0)
  {
    hide Touch, Usable, Get, Logical, Resident;
    GetCorrect(disk, |inomap|, c, i, junk);
    DistinctInumbers(c.entries);
    GetIsTouch(disk, |inomap|, c, i, junk);
  }

  lemma DistinctInumbers(entries: seq<Entry>)
    requires OncePerInumber(entries)
    ensures Distinct(Inumbers(entries))
  {
  }

  ghost predicate StepRefines(fs: Fs, a: AbsFs, op: Op, fs': Fs, r: Result, own': seq<Owner>) {
    RefinesWith(fs', AbsStep(a, op).0, own') && r == AbsStep(a, op).1
  }

  lemma MountAgrees(fs: Fs, a: AbsFs, own: seq<Owner>)
    requires RefinesWith(fs, a, own)
    ensures fs.Mounted? <==> a.mount.MountedWith?
    ensures fs.Mounted? ==> |fs.inomap| == |a.files| == |View(fs)| && |fs.bmap| == |fs.disk| && |fs.inomap| == NumInodes(|fs.disk|)
  {
  }

  lemma GetSizeRefines(fs: Fs, a: AbsFs, own: seq<Owner>, i: nat, junk: bool)
    requires RefinesWith(fs, a, own) && Legal(a, OpGetSize(i, junk))
    ensures var (fs', r) := GetSize(fs, i, junk); StepRefines(fs, a, OpGetSize(i, junk), fs', Code(r), own)
  {
    hide RefinesWith, Get, View, FileShape, Content, Usable, Touch, Resident;
    MountAgrees(fs, a, own);
    if fs.Mounted? {
      GetRefines(fs, a, own, i, junk);
      if !Usable(|a.files|, i) { UnusableHasNoFile(fs, a, own, i); }
      else if a.files[i].Some? { FileAt(fs, a, own, i); }
    }
  }

  // A created file is the content of its inode.
  lemma FileAt(fs: Fs, a: AbsFs, own: seq<Owner>, i: nat)
    requires RefinesWith(fs, a, own) && i < |a.files| && a.files[i].Some?
    ensures i < |View(fs)|
    ensures var n := View(fs)[i];
      && n.isvalid && FileShape(fs.disk, n) && Usable(|a.files|, i)
      && a.files[i] == Some(Content(fs.disk, n)) && |a.files[i].value| == n.size
  {
  }

  lemma UnusableHasNoFile(fs: Fs, a: AbsFs, own: seq<Owner>, i: nat)
    requires RefinesWith(fs, a, own) && !Usable(|a.files|, i)
    ensures i < |a.files| ==> a.files[i].None?
  {
  }

  lemma ReadRefines(fs: Fs, a: AbsFs, own: seq<Owner>, i: nat, length: int, offset: int, junk: bool)
    requires RefinesWith(fs, a, own) && Legal(a, OpRead(i, length, offset, junk))
    ensures var (fs', r) := Read(fs, i, length, offset, junk);
      StepRefines(fs, a, OpRead(i, length, offset, junk), fs', Data(r), own)
  {
    hide RefinesWith, Get, View, FileShape, Content, Usable, ReadLoop, Touch, Resident;
    MountAgrees(fs, a, own);
    if fs.Mounted? {
      ArgsAgree(fs, a, own, i, length, offset);
      if ArgValid(fs.inomap, i, length, offset) {
        FileAt(fs, a, own, i);
        GetRefines(fs, a, own, i, junk);
        var fs1 := AfterGet(fs, i, junk);
        FileAt(fs1, Fetched(a, i), own, i);
        ReadCorrect(fs1.disk, View(fs)[i], length, offset);
      }
    }
  }

  lemma ArgsAgree(fs: Fs, a: AbsFs, own: seq<Owner>, i: nat, length: int, offset: int)
    requires fs.Mounted? && RefinesWith(fs, a, own)
    ensures ArgValid(fs.inomap, i, length, offset) <==> AbsArgValid(a, i, length, offset)
  {
  }

  // ---------- delete ----------

  function Freed(own: seq<Owner>, i: int): seq<Owner> {
    seq(|own|, b requires 0 <= b < |own| => if OwnedBy(own[b], i) then Free else own[b])
  }

  lemma DeleteGood(disk: Disk, bmap: seq<bool>, tab: seq<Inode>, own: seq<Owner>, a: AbsFs, i: nat)
    requires Good(disk, bmap, tab, own, a) && i < |tab| && tab[i].isvalid
    ensures Good(disk, SetBlocks(disk, bmap, tab[i], false), tab[i := ZERO_INODE], Freed(own, i),
                 a.(files := a.files[i := None]))
  {
    var c := NumBlocks(tab[i].size);
    var bmap', tab', own', a' := SetBlocks(disk, bmap, tab[i], false), tab[i := ZERO_INODE], Freed(own, i), a.(files := a.files[i := None]);
    SetBlocksCorrect(disk, bmap, tab, own, i, c, bmap, false);
    ClearBlocksCount(disk, bmap, tab, own, i, c);
    UsedUpdate(a.files, i, None);
    DeleteOwned(disk, bmap, tab, own, i, bmap');
    assert TableOk(disk, tab', a');
  }

  lemma DeleteOwned(disk: Disk, bmap: seq<bool>, tab: seq<Inode>, own: seq<Owner>, i: nat, bmap': seq<bool>)
    requires Owned(disk, bmap, tab, own) && i < |tab| && |bmap'| == |bmap|
    requires forall b :: 0 <= b < |own| ==> bmap'[b] == if OwnedBy(own[b], i) then false else bmap[b]
    ensures Owned(disk, bmap', tab[i := ZERO_INODE], Freed(own, i))
  {
    var tab', own' := tab[i := ZERO_INODE], Freed(own, i);
    forall j | 0 <= j < |tab'| && tab'[j].isvalid ensures InodeOwned(disk, tab'[j], j, own') {
      assert InodeOwned(disk, tab[j], j, own);
      forall k | 0 <= k < POINTERS_PER_FILE ensures SlotOwned(disk, tab'[j], j, k, own') {
        assert SlotOwned(disk, tab[j], j, k, own);
      }
    }
    forall b | 0 <= b < |own| ensures OwnerPoints(disk, tab', own'[b], b) {
      assert OwnerPoints(disk, tab, own[b], b);
    }
  }

  // What fs_delete does once it has the inode.
  function AfterDelete(fs: Fs, i: nat): Fs
    requires fs.Mounted? && i < |View(fs)|
  {
    var u := RemoveIfPresent(fs.disk, |fs.inomap|, fs.cache, i);
    Mounted(u.disk, SetBlocks(fs.disk, fs.bmap, View(fs)[i], false), SetBit(fs.inomap, i, false), u.cache)
  }

  lemma RemoveMountOk(disk: Disk, inomap: seq<bool>, c: Cache, tab: seq<Inode>, m: AbsMount, i: nat)
    requires MountOk(disk, inomap, c, tab, m) && i < |tab| && Usable(|inomap|, i)
    ensures var u := RemoveIfPresent(disk, |inomap|, c, i);
      && MountOk(u.disk, SetBit(inomap, i, false), u.cache, tab[i := ZERO_INODE], AfterRemoval(m, i))
      && SameData(disk, u.disk, |inomap|)
      && (forall j :: 0 <= j ==> Logical(u.disk, u.cache, j) == if j == i then ZERO_INODE else Logical(disk, c, j))
  {
    hide Usable, SameData, DiskInode, InodeSave, EntriesOk, Logical, RemoveIfPresent, Minus;
    RemoveCorrect(disk, |inomap|, c, i);
    MountDistinct(disk, inomap, c, tab, m);
    RemoveIsMinus(disk, |inomap|, c, i);
    FindInumber(c.entries, i);
  }

  lemma MountDistinct(disk: Disk, inomap: seq<bool>, c: Cache, tab: seq<Inode>, m: AbsMount)
    requires MountOk(disk, inomap, c, tab, m)
    ensures Distinct(Inumbers(c.entries))
  {
    DistinctInumbers(c.entries);
  }

  lemma AfterDeleteMount(fs: Fs, m: AbsMount, i: nat)
    requires fs.Mounted? && MountOk(fs.disk, fs.inomap, fs.cache, View(fs), m)
    requires i < |View(fs)| && Usable(|fs.inomap|, i)
    ensures var fs' := AfterDelete(fs, i);
      && View(fs') == View(fs)[i := ZERO_INODE] && SameData(fs.disk, fs'.disk, |fs.inomap|)
      && MountOk(fs'.disk, fs'.inomap, fs'.cache, View(fs'), AfterRemoval(m, i))
  {
    hide SetBlocks, Usable, MountOk, SameData, RemoveIfPresent, Logical, Resident;
    RemoveMountOk(fs.disk, fs.inomap, fs.cache, View(fs), m, i);
    assert View(AfterDelete(fs, i)) == View(fs)[i := ZERO_INODE];
  }

  // What fs_delete does to the abstract files once the inode has been fetched.
  function AbsDeleted(a: AbsFs, i: nat): AbsFs
    requires i < |a.files| && a.mount.MountedWith?
  {
    a.(files := a.files[i := None], mount := AfterRemoval(a.mount, i))
  }

  lemma AfterDeleteRefines(fs: Fs, a: AbsFs, own: seq<Owner>, i: nat)
    requires fs.Mounted? && |fs.inomap| == |a.files| == |View(fs)| && |fs.inomap| == NumInodes(|fs.disk|)
    requires RefinesWith(fs, a, own) && i < |a.files| && a.files[i].Some? && a.mount.MountedWith?
    ensures RefinesWith(AfterDelete(fs, i), AbsDeleted(a, i), Freed(own, i))
  {
    hide Good, MountOk, View, SetBlocks, Usable, RemoveIfPresent, SameData, FileShape, AfterRemoval;
    var a1, fs' := a.(files := a.files[i := None]), AfterDelete(fs, i);
    FileAt(fs, a, own, i);
    MountAgrees(fs, a, own);
    AfterDeleteMount(fs, a.mount, i);
    DeleteGood(fs.disk, fs.bmap, View(fs), own, a, i);
    GoodSameData(fs.disk, fs'.disk, fs'.bmap, View(fs'), Freed(own, i), a1);
    GoodAnyMount(fs'.disk, fs'.bmap, View(fs'), Freed(own, i), a1, AfterRemoval(a.mount, i));
  }

  lemma GoodAnyMount(disk: Disk, bmap: seq<bool>, tab: seq<Inode>, own: seq<Owner>, a: AbsFs, m: AbsMount)
    requires Good(disk, bmap, tab, own, a)
    ensures Good(disk, bmap, tab, own, a.(mount := m))
  {
  }

  lemma DeleteRefines(fs: Fs, a: AbsFs, own: seq<Owner>, i: nat, junk: bool)
    returns (own': seq<Owner>)
    requires RefinesWith(fs, a, own) && Legal(a, OpDelete(i, junk))
    ensures var (fs', r) := Delete(fs, i, junk); StepRefines(fs, a, OpDelete(i, junk), fs', Code(r), own')
  {
    hide RefinesWith, Get, View, Usable, RemoveIfPresent, SetBlocks, Touch, AfterRemoval, Resident;
    own' := own;
    MountAgrees(fs, a, own);
    if fs.Mounted? {
      GetRefines(fs, a, own, i, junk);
      if Usable(|a.files|, i) && a.files[i].Some? {
        own' := Freed(own, i);
        AfterDeleteRefines(AfterGet(fs, i, junk), Fetched(a, i), own, i);
      }
    }
  }

  // ---------- Freed inodes ----------

  // Exactly when a call would go on with an inode that get_inode has just freed.
  lemma ReturnsFreedExactly(fs: Fs, a: AbsFs, own: seq<Owner>, i: nat)
    requires fs.Mounted? && RefinesWith(fs, a, own) && a.mount.MountedWith? && Usable(|fs.inomap|, i)
    ensures ReturnsFreed(|fs.inomap|, fs.cache, i) <==> !LiveAbs(a)
  {
    hide Good, View;
  }
}
