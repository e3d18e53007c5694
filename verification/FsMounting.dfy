// fs_format, fs_mount and fs_unmount refine the abstract machine; mounting rebuilds the freemaps.

module FsMounting {
  import opened Common
  import opened DataStructures
  import opened CacheSpec
  import opened CacheProof
  import opened FsSpec
  import opened FsInvariant
  import opened FsSpace
  import opened FsWriteProof
  import opened FsFile
  import opened FsScan
  import opened FsAbstract
  import opened FsRefinement

  // ---------- unmount ----------

  lemma MapIsMapOf(bmap: seq<bool>, own: seq<Owner>)
    requires MapAgrees(bmap, own)
    ensures bmap == MapOf(own)
  {
  }

  lemma UnmountRefines(fs: Fs, a: AbsFs, own: seq<Owner>)
    requires RefinesWith(fs, a, own)
    ensures var (fs', r) := Unmount(fs); StepRefines(fs, a, OpUnmount, fs', Code(r), own)
  {
    MountAgrees(fs, a, own);
    if fs.Mounted? {
      UnmountView(fs, a, own);
      var d := Unmount(fs).0.disk;
      MapIsMapOf(fs.bmap, own);
      GoodSameData(fs.disk, d, fs.bmap, View(fs), own, a);
      GoodAnyMount(d, fs.bmap, View(fs), own, a, NotMounted);
    }
  }

  // unmount flushes: afterwards the disk alone shows every inode.
  lemma UnmountView(fs: Fs, a: AbsFs, own: seq<Owner>)
    requires fs.Mounted? && RefinesWith(fs, a, own)
    ensures var fs' := Unmount(fs).0;
      SameData(fs.disk, fs'.disk, NumInodes(|fs.disk|)) && View(fs') == View(fs)
  {
    FlushCorrect(fs.disk, |fs.inomap|, fs.cache);
    var fs' := Unmount(fs).0;
    assert View(fs') == View(fs);
  }

  // ---------- mount ----------

  // What the scan has marked after the first count inodes of the table.
  predicate Scanned(o: Owner, b: int, count: int) {
    match o
    case Free => false
    case Reserved => b == 0 || b <= (count + INODES_PER_BLOCK - 1) / INODES_PER_BLOCK
    case DataOf(j, _) => j < count
    case IndirectOf(j) => j < count
  }

  ghost predicate Scan(m: Maps, disk: Disk, tab: seq<Inode>, own: seq<Owner>, count: int) {
    && |m.bmap| == |own| && |m.inomap| == |tab|
    && (forall b :: 0 <= b < |own| ==> (m.bmap[b] <==> Scanned(own[b], b, count)))
    && (forall j :: 0 <= j < |tab| ==> (m.inomap[j] <==> j < count && tab[j].isvalid))
  }

  lemma {:induction false} MountScanCorrect(disk: Disk, bmap: seq<bool>, tab: seq<Inode>, own: seq<Owner>, a: AbsFs,
                                            m: Maps, count: nat)
    requires Good(disk, bmap, tab, own, a) && count <= |tab|
    requires forall j :: 0 <= j < |tab| ==> tab[j] == DiskInode(disk, j)
    requires Scan(m, disk, tab, own, 0)
    ensures Scan(MountScan(disk, m, count), disk, tab, own, count)
  {
    if count > 0 {
      var i := count - 1;
      MountScanCorrect(disk, bmap, tab, own, a, m, i);
      var r := MountScan(disk, m, i);
      var bmap1 := if i % INODES_PER_BLOCK == 0 then SetBit(r.bmap, InodeBlockNumber(i), true) else r.bmap;
      ScanFacts(disk, bmap, tab, own, a, i);
      var bmap2 := if tab[i].isvalid then SetBlocks(disk, bmap1, tab[i], true) else bmap1;
      if tab[i].isvalid {
        SetBlocksCorrect(disk, bmap, tab, own, i, NumBlocks(tab[i].size), bmap1, true);
      }
      ScanStep(disk, tab, own, r, bmap1, bmap2, count);
    }
  }

  // Reaching the first inode of a block marks that block.
  lemma ScanReserved(bmap: seq<bool>, own: seq<Owner>, i: nat)
    requires |bmap| == |own|
    ensures i % INODES_PER_BLOCK == 0 ==>
      i / INODES_PER_BLOCK == (i + INODES_PER_BLOCK - 1) / INODES_PER_BLOCK
      && (i + INODES_PER_BLOCK) / INODES_PER_BLOCK == InodeBlockNumber(i)
    ensures i % INODES_PER_BLOCK != 0 ==>
      (i + INODES_PER_BLOCK) / INODES_PER_BLOCK == (i + INODES_PER_BLOCK - 1) / INODES_PER_BLOCK
  {
  }

  // What inode i and its block are to the owner map.
  lemma ScanFacts(disk: Disk, bmap: seq<bool>, tab: seq<Inode>, own: seq<Owner>, a: AbsFs, i: nat)
    requires Good(disk, bmap, tab, own, a) && i < |tab|
    ensures InodeBlockNumber(i) < |own| && own[InodeBlockNumber(i)] == Reserved
    ensures forall b :: 0 <= b < |own| && OwnedBy(own[b], i) ==> tab[i].isvalid
  {
    forall b | 0 <= b < |own| && OwnedBy(own[b], i) ensures tab[i].isvalid { assert OwnerPoints(disk, tab, own[b], b); }
  }

  lemma ScanStep(disk: Disk, tab: seq<Inode>, own: seq<Owner>, r: Maps, bmap1: seq<bool>, bmap2: seq<bool>, count: nat)
    requires 0 < count <= |tab| && Scan(r, disk, tab, own, count - 1)
    requires InodeBlockNumber(count - 1) < |own| && own[InodeBlockNumber(count - 1)] == Reserved
    requires forall b :: 0 <= b < |own| && OwnedBy(own[b], count - 1) ==> tab[count - 1].isvalid
    requires var i := count - 1;
      bmap1 == if i % INODES_PER_BLOCK == 0 then SetBit(r.bmap, InodeBlockNumber(i), true) else r.bmap
    requires |bmap2| == |own| && forall b :: 0 <= b < |own| ==> bmap2[b] == if OwnedBy(own[b], count - 1) then true else bmap1[b]
    ensures var i := count - 1;
      Scan(if tab[i].isvalid then Maps(bmap2, SetBit(r.inomap, i, true)) else Maps(bmap1, r.inomap), disk, tab, own, count)
  {
    ScanReserved(r.bmap, own, count - 1);
  }

  // The freemaps fs_mount starts from, and those it ends with.
  function EmptyMaps(nblocks: nat, ninodes: nat): Maps
    requires 0 < nblocks
  {
    Maps(Repeat(false, nblocks)[0 := true], Repeat(false, ninodes))
  }

  function MountedMaps(disk: Disk): Maps
    requires |disk| > 0
  {
    MountScan(disk, EmptyMaps(|disk|, NumInodesNat(|disk|)), NumInodesNat(|disk|))
  }

  lemma MountUnfold(disk: Disk, capacity: int)
    requires Layout(disk)
    ensures |disk| > 0
    ensures var r := MountedMaps(disk);
      Mount(Unmounted(disk), capacity) == (Mounted(disk, r.bmap, r.inomap, Cache(capacity, 0, [])), 1)
  {
  }

  lemma MountedMapsCorrect(disk: Disk, own: seq<Owner>, a: AbsFs)
    requires |disk| > 0
    requires Good(disk, MapOf(own), View(Unmounted(disk)), own, a)
    ensures var r, tab := MountedMaps(disk), View(Unmounted(disk));
      r.bmap == MapOf(own) && |r.inomap| == |tab| && forall j :: 0 <= j < |tab| ==> r.inomap[j] == tab[j].isvalid
  {
    hide SetBlocks, FileShape, DiskInode;
    var tab := View(Unmounted(disk));
    var m, r := EmptyMaps(|disk|, |tab|), MountedMaps(disk);
    forall b | 0 <= b < |own|
      ensures Scanned(own[b], b, 0) <==> b == 0
      ensures Scanned(own[b], b, |tab|) <==> own[b] != Free
    {
      assert OwnerPoints(disk, tab, own[b], b);
    }
    MountScanCorrect(disk, MapOf(own), tab, own, a, m, |tab|);
    assert r.bmap == MapOf(own);
  }

  // After unmount, mount finds the same files and rebuilds exactly the freemaps: block b is marked
  // iff it is reserved or owned, inode i iff it is in use.
  lemma MountRefines(fs: Fs, a: AbsFs, own: seq<Owner>, capacity: int)
    requires RefinesWith(fs, a, own) && Legal(a, OpMount(capacity))
    ensures var (fs', r) := Mount(fs, capacity);
      && StepRefines(fs, a, OpMount(capacity), fs', Code(r), own)
      && fs'.Mounted? && fs'.bmap == MapOf(own) && View(fs') == View(fs)
  {
    hide Owned, TableOk, MountScan, DiskInode;
    var disk, fs' := fs.disk, Mount(fs, capacity).0;
    MountUnfold(disk, capacity);
    MountedMapsCorrect(disk, own, a);
    assert View(fs') == View(fs);
    GoodAnyMount(disk, MapOf(own), View(fs), own, a, MountedWith(capacity, 0, []));
  }

  // The freemaps are a function of what is on the disk: mounting after unmounting restores them.
  lemma RemountRestores(fs: Fs, a: AbsFs, own: seq<Owner>, capacity: int)
    requires fs.Mounted? && RefinesWith(fs, a, own) && capacity >= 0
    ensures var fs' := Mount(Unmount(fs).0, capacity).0;
      fs'.Mounted? && fs'.bmap == fs.bmap && fs'.inomap == fs.inomap && View(fs') == View(fs)
  {
    hide Good, Flush, MountScan, Logical, DiskInode;
    var fs1 := Unmount(fs).0;
    var a1 := AbsStep(a, OpUnmount).0;
    UnmountRefines(fs, a, own);
    UnmountView(fs, a, own);
    MountedMapIs(fs, a, own);
    MountRefines(fs1, a1, own, capacity);
    InodeMapIs(fs, a, own);
    InodeMapIs(Mount(fs1, capacity).0, AbsStep(a1, OpMount(capacity)).0, own);
  }

  lemma MountedMapIs(fs: Fs, a: AbsFs, own: seq<Owner>)
    requires fs.Mounted? && RefinesWith(fs, a, own)
    ensures fs.bmap == MapOf(own)
  {
    MapIsMapOf(fs.bmap, own);
  }

  lemma InodeMapIs(fs: Fs, a: AbsFs, own: seq<Owner>)
    requires fs.Mounted? && RefinesWith(fs, a, own)
    ensures |fs.inomap| == |View(fs)| && forall j :: 0 <= j < |fs.inomap| ==> fs.inomap[j] == View(fs)[j].isvalid
  {
  }

  // Mount accepts exactly a disk with the magic number (the other conditions hold of every disk that format
  // has written); it does not change the disk, and the cache is empty.
  lemma MountExactly(fs: Fs, capacity: int)
    ensures var (fs', r) := Mount(fs, capacity); var ok := |fs.disk| > 0 && IsSuper(fs.disk[0]);
      if ok then
        && r == 1 && fs'.Mounted? && fs'.disk == fs.disk && fs'.cache == Cache(capacity, 0, [])
        && |fs'.bmap| == fs.disk[0].nblocks && |fs'.inomap| == fs.disk[0].ninodes
      else r == 0 && fs' == fs
  {
  }

  predicate IsSuper(b: Block) {
    b.SuperBlock? && b.magic == 0xf0f03410 && b.nblocks >= 1 && b.ninodes >= 0 && b.ninodeblocks >= 0
  }

  // ---------- format ----------

  function FreshOwners(n: int): seq<Owner>
    requires 0 <= n
  {
    seq(n, b requires 0 <= b < n => if b < FirstDataBlock(n) then Reserved else Free)
  }

  lemma {:induction false} FormatInodesCorrect(disk: Disk, k: nat)
    ensures forall b :: 0 <= b < |disk| ==>
              FormatInodes(disk, k)[b] == if 1 <= b <= k then InodeBlock(ZERO_INODES) else disk[b]
  {
    if k > 0 {
      FormatInodesCorrect(disk, k - 1);
      var d := FormatInodes(disk, k - 1);
      var d' := FormatInodes(disk, k);
      assert d' == if k < |d| then d[k := InodeBlock(ZERO_INODES)] else d;
      forall b | 0 <= b < |disk| ensures d'[b] == if 1 <= b <= k then InodeBlock(ZERO_INODES) else disk[b] {
        assert d[b] == if 1 <= b <= k - 1 then InodeBlock(ZERO_INODES) else disk[b];
      }
    }
  }

  lemma {:induction false} CountFrom(bmap: seq<bool>, first: nat)
    requires first <= |bmap| && forall b :: 0 <= b < |bmap| ==> (bmap[b] <==> b < first)
    ensures CountFree(bmap) == |bmap| - first
  {
    if bmap != [] {
      if first < |bmap| { CountFrom(bmap[..|bmap| - 1], first); }
      else { CountFrom(bmap[..|bmap| - 1], first - 1); }
    }
  }

  lemma {:induction false} UsedNone(files: seq<File>)
    requires forall j :: 0 <= j < |files| ==> files[j].None?
    ensures Used(files) == 0
  {
    if files != [] { UsedNone(files[..|files| - 1]); }
  }

  // fs_format on any disk with room for the superblock and the inode blocks.
  lemma FormatGood(disk: Disk)
    requires FirstDataBlock(|disk|) <= |disk|
    ensures var (fs', r) := Format(Unmounted(disk));
      && r == 1 && |fs'.disk| == |disk|
      && RefinesWith(fs', AbsFs(|disk|, NotMounted, Repeat(None, NumInodesNat(|disk|))), FreshOwners(|disk|))
  {
    hide FormatInodes, FirstDataBlock, NumInodes, NumInodeBlocks, DiskInode;
    var n := |disk|;
    FormatLayout(disk);
    var d, own, a := Format(Unmounted(disk)).0.disk, FreshOwners(n), AbsFs(n, NotMounted, Repeat(None, NumInodesNat(n)));
    CountFrom(MapOf(own), FirstDataBlock(n));
    UsedNone(a.files);
  }

  // Block for block: the superblock says how large the disk is and that it has one inode block, and one more
  // for every ten blocks; those are zeroed, and no other block changes.
  lemma FormatExactly(fs: Fs)
    requires |fs.disk| > 0
    ensures var (fs', r), n, k := Format(fs), |fs.disk|, 1 + |fs.disk| / 10;
      if fs.Mounted? then fs' == fs && r == 0
      else
        && fs'.Unmounted? && r == 1 && |fs'.disk| == n && fs'.disk[0] == SuperBlock(0xf0f03410, n, k, 128 * k)
        && (forall b :: 1 <= b <= k && b < n ==> fs'.disk[b] == InodeBlock(Repeat(Inode(false, 0, [0, 0, 0, 0, 0], 0), 128)))
        && (forall b :: k < b < n ==> fs'.disk[b] == fs.disk[b])
  {
    hide FormatInodes;
    var n := |fs.disk|;
    FormatInodesCorrect(fs.disk, NumInodeBlocks(n));
    var d := FormatInodes(fs.disk, NumInodeBlocks(n));
    forall b | 1 <= b < n ensures d[b] == if b <= 1 + n / 10 then InodeBlock(ZERO_INODES) else fs.disk[b] {}
  }

  lemma FormatLayout(disk: Disk)
    requires FirstDataBlock(|disk|) <= |disk|
    ensures var fs', n := Format(Unmounted(disk)).0, |disk|;
      && n > 0 && 0 <= FirstDataBlock(n) && 0 <= NumInodes(n)
      && fs'.Unmounted? && |fs'.disk| == n && Layout(fs'.disk)
      && |View(fs')| == NumInodes(n) && forall j :: 0 <= j < NumInodes(n) ==> View(fs')[j] == ZERO_INODE
  {
    var n := |disk|;
    var d := Format(Unmounted(disk)).0.disk;
    FormatInodesCorrect(disk, NumInodeBlocks(n));
    var e := FormatInodes(disk, NumInodeBlocks(n));
    forall b | 1 <= b <= NumInodeBlocks(n) ensures d[b] == InodeBlock(ZERO_INODES) {
      assert e[b] == InodeBlock(ZERO_INODES);
    }
    FormatView(d, n);
  }

  lemma FormatView(d: Disk, n: int)
    requires |d| == n && FirstDataBlock(n) <= n
    requires forall b :: 1 <= b <= NumInodeBlocks(n) ==> d[b] == InodeBlock(ZERO_INODES)
    ensures InodeRegion(d, NumInodes(n)) && |View(Unmounted(d))| == NumInodes(n)
    ensures forall j :: 0 <= j < NumInodes(n) ==> View(Unmounted(d))[j] == ZERO_INODE
  {
    assert NumInodes(n) / INODES_PER_BLOCK == NumInodeBlocks(n);
    forall b | 1 <= b <= NumInodeBlocks(n) ensures IsInodeBlock(d, b) { assert d[b].InodeBlock?; }
    forall j | 0 <= j < NumInodes(n) ensures DiskInode(d, j) == ZERO_INODE {
      assert 1 <= InodeBlockNumber(j) <= NumInodeBlocks(n);
      assert d[InodeBlockNumber(j)] == InodeBlock(ZERO_INODES);
    }
  }

  lemma Roomy(fs: Fs, a: AbsFs, own: seq<Owner>)
    requires fs.Unmounted? && RefinesWith(fs, a, own)
    ensures FirstDataBlock(|fs.disk|) <= |fs.disk| && a.nblocks == |fs.disk|
  {
  }

  lemma FormatRefines(fs: Fs, a: AbsFs, own: seq<Owner>)
    returns (own': seq<Owner>)
    requires RefinesWith(fs, a, own)
    ensures var (fs', r) := Format(fs); StepRefines(fs, a, OpFormat, fs', Code(r), own')
  {
    hide FormatInodes, Good, NumInodes, View, MapOf;
    own' := own;
    if fs.Unmounted? {
      Roomy(fs, a, own);
      FormatGood(fs.disk);
      own' := FreshOwners(|fs.disk|);
    }
  }
}
