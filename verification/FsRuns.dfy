// Whole runs of the file system: the main theorems.

module FsRuns {
  import opened Common
  import opened DataStructures
  import opened CacheSpec
  import opened CacheProof
  import opened FsSpec
  import opened FsInvariant
  import opened FsSpace
  import opened FsWriteProof
  import opened FsFile
  import opened FsAbstract
  import opened FsRefinement
  import opened FsUpdates
  import opened FsMounting
  import opened LruStack

  // The C code stays inside its buffer, its freemap and its pointers.
  predicate InBounds(fs: Fs, op: Op) {
    op.OpWrite? ==>
      && op.length <= |op.data|
      && (fs.Mounted? ==> |fs.disk| == |fs.bmap|)
      && !WriteRunsOff(fs, op.i, op.data, op.length, op.offset, op.junk)
  }

  function Step(fs: Fs, op: Op): (Fs, Result) {
    if !InBounds(fs, op) then (fs, OutOfBounds)
    else match op
      case OpFormat => var (fs', r) := Format(fs); (fs', Code(r))
      case OpMount(capacity) => var (fs', r) := Mount(fs, capacity); (fs', Code(r))
      case OpUnmount => var (fs', r) := Unmount(fs); (fs', Code(r))
      case OpCreate => var (fs', r) := Create(fs); (fs', Code(r))
      case OpDelete(i, junk) => var (fs', r) := Delete(fs, i, junk); (fs', Code(r))
      case OpGetSize(i, junk) => var (fs', r) := GetSize(fs, i, junk); (fs', Code(r))
      case OpRead(i, length, offset, junk) => var (fs', r) := Read(fs, i, length, offset, junk); (fs', Data(r))
      case OpWrite(i, data, length, offset, junk) =>
        var (fs', r) := Write(fs, i, data, length, offset, junk); (fs', Code(r))
  }

  function Run(fs: Fs, ops: seq<Op>): (Fs, seq<Result>)
    decreases |ops|
  {
    if ops == [] then (fs, [])
    else
      var (fs1, r) := Step(fs, ops[0]);
      var (fs2, rs) := Run(fs1, ops[1..]);
      (fs2, [r] + rs)
  }

  // ---------- Writing past the largest file ----------

  // fs_write does not check for the end of the largest file.  It leaves its arrays exactly when the
  // write goes on past it on a disk that can supply every block of the largest file.
  lemma RunsOffOnly(fs: Fs, a: AbsFs, own: seq<Owner>, i: nat, data: seq<byte>, length: int, offset: int, junk: bool)
    requires RefinesWith(fs, a, own) && length <= |data|
    requires a.mount.MountedWith? && AbsArgValid(a, i, length, offset) ==>
      LiveAbs(a) && NoHole(|a.files[i].value|, FreeBlocks(a), offset, length)
    ensures fs.Mounted? ==> |fs.disk| == |fs.bmap|
    ensures WriteRunsOff(fs, i, data, length, offset, junk)
      <==> a.mount.MountedWith? && AbsArgValid(a, i, length, offset) && PastLargest(a, i, length, offset)
  {
    hide RefinesWith, Get, View, FileShape, RunsOff, NoHole, Touch, Usable, Resident, FreeBlocks, Cost, NumBlocks;
    MountAgrees(fs, a, own);
    if fs.Mounted? {
      ArgsAgree(fs, a, own, i, length, offset);
      if ArgValid(fs.inomap, i, length, offset) {
        FileAt(fs, a, own, i);
        GetRefines(fs, a, own, i, junk);
        var fs1 := AfterGet(fs, i, junk);
        SameSpace(a, i);
        FileRunsOff(fs1, Fetched(a, i), own, i, data[..length], offset);
      }
    }
  }

  // What project_4/fs.h promises of fs_write, that it writes what fits, holds exactly when it does not.
  lemma WriteKeepsPromiseExactly(fs: Fs, a: AbsFs, own: seq<Owner>, i: nat, data: seq<byte>, offset: int, junk: bool)
    requires fs.Mounted? && RefinesWith(fs, a, own) && a.mount.MountedWith? && LiveAbs(a)
    requires AbsArgValid(a, i, |data|, offset) && NoHole(|a.files[i].value|, FreeBlocks(a), offset, |data|)
    ensures var op := OpWrite(i, data, |data|, offset, junk);
      && (Step(fs, op).1 == AbsStep(a, op).1 <==> !PastLargest(a, i, |data|, offset))
      && (Step(fs, op).1 == OutOfBounds <==> PastLargest(a, i, |data|, offset))
  {
    hide RefinesWith, Write, WriteRunsOff, NoHole, PastLargest, Touch;
    RunsOffOnly(fs, a, own, i, data, |data|, offset, junk);
    if !PastLargest(a, i, |data|, offset) {
      var own' := StepCorrect(fs, a, own, OpWrite(i, data, |data|, offset, junk));
    }
  }

  lemma StepCorrect(fs: Fs, a: AbsFs, own: seq<Owner>, op: Op)
    returns (own': seq<Owner>)
    requires RefinesWith(fs, a, own) && Legal(a, op)
    ensures RefinesWith(Step(fs, op).0, AbsStep(a, op).0, own')
    ensures Step(fs, op).1 == AbsStep(a, op).1
  {
    hide RefinesWith, AbsStep, Format, Mount, Unmount, Create, Delete, GetSize, Read, Write, NoHole, Usable, WriteRunsOff, PastLargest;
    MountAgrees(fs, a, own);
    own' := own;
    match op
    case OpFormat => own' := FormatRefines(fs, a, own);
    case OpMount(capacity) => MountRefines(fs, a, own, capacity);
    case OpUnmount => UnmountRefines(fs, a, own);
    case OpCreate => CreateRefines(fs, a, own);
    case OpDelete(i, junk) => own' := DeleteRefines(fs, a, own, i, junk);
    case OpGetSize(i, junk) => GetSizeRefines(fs, a, own, i, junk);
    case OpRead(i, length, offset, junk) => ReadRefines(fs, a, own, i, length, offset, junk);
    case OpWrite(i, data, length, offset, junk) =>
      RunsOffOnly(fs, a, own, i, data, length, offset, junk);
      own' := WriteRefines(fs, a, own, i, data, length, offset, junk);
  }

  // Every result of every legal run, whatever the capacities and the uninitialised memory, is the
  // result of the abstract machine; and the refinement relation, so all its invariants, still hold.
  lemma {:induction false} RunCorrect(fs: Fs, a: AbsFs, own: seq<Owner>, ops: seq<Op>)
    returns (own': seq<Owner>)
    requires RefinesWith(fs, a, own) && LegalRun(a, ops)
    ensures RefinesWith(Run(fs, ops).0, AbsRun(a, ops).0, own')
    ensures Run(fs, ops).1 == AbsRun(a, ops).1
    decreases |ops|
  {
    hide RefinesWith, Step, AbsStep, Legal;
    own' := own;
    if ops != [] {
      var own1 := StepCorrect(fs, a, own, ops[0]);
      own' := RunCorrect(Step(fs, ops[0]).0, AbsStep(a, ops[0]).0, own1, ops[1..]);
    }
  }

  // From any disk with room for the metadata: format, then any legal run.
  lemma FormattedRunCorrect(disk: Disk, ops: seq<Op>)
    requires FirstDataBlock(|disk|) <= |disk|
    requires LegalRun(AbsFs(|disk|, NotMounted, Repeat(None, NumInodesNat(|disk|))), ops)
    ensures Run(Format(Unmounted(disk)).0, ops).1
         == AbsRun(AbsFs(|disk|, NotMounted, Repeat(None, NumInodesNat(|disk|))), ops).1
  {
    hide RefinesWith, Run, AbsRun, LegalRun, Format, FreshOwners;
    FormatGood(disk);
    var own' := RunCorrect(Format(Unmounted(disk)).0, AbsFs(|disk|, NotMounted, Repeat(None, NumInodesNat(|disk|))),
                           FreshOwners(|disk|), ops);
  }

  // ---------- Two runs in which the code fails ----------

  function Fresh(nblocks: nat): AbsFs { AbsFs(nblocks, NotMounted, Repeat(None, NumInodesNat(nblocks))) }

  lemma NothingUsed(nblocks: nat)
    ensures Used(Fresh(nblocks).files) == 0
  {
    UsedNone(Fresh(nblocks).files);
  }

  // The abstract state after a mount and a create on a fresh disk.
  lemma Created(nblocks: nat, capacity: nat)
    requires nblocks >= 10
    ensures LegalRun(Fresh(nblocks), [OpMount(capacity), OpCreate])
    ensures var (a, r) := AbsRun(Fresh(nblocks), [OpMount(capacity), OpCreate]);
      && r == [Code(1), Code(0)]
      && a == AbsFs(nblocks, MountedWith(capacity, 0, []), Fresh(nblocks).files[0 := Some([])])
      && FreeBlocks(a) == nblocks - FirstDataBlock(nblocks) && Usable(|a.files|, 0)
  {
    NothingUsed(nblocks);
    UsedUpdate(Fresh(nblocks).files, 0, Some([]));
    assert [OpMount(capacity), OpCreate][1..] == [OpCreate];
    assert [OpCreate][1..] == [];
  }

  // On a disk of 1300 blocks a write of one byte more than the largest file leaves the pointer block.
  lemma WriteLeavesPointers(disk: Disk, data: seq<byte>)
    requires |disk| == 1300 && |data| == MAX_FILE_SIZE + 1
    ensures Run(Format(Unmounted(disk)).0, [OpMount(0), OpCreate, OpWrite(0, data, |data|, 0, false)]).1
      == [Code(1), Code(0), OutOfBounds]
  {
    hide RefinesWith, Step, AbsRun, LegalRun, Format, FreshOwners;
    FormatGood(disk);
    Created(1300, 0);
    var ops, w := [OpMount(0), OpCreate], OpWrite(0, data, |data|, 0, false);
    var fs0 := Format(Unmounted(disk)).0;
    var own := RunCorrect(fs0, Fresh(1300), FreshOwners(1300), ops);
    var fs, a := Run(fs0, ops).0, AbsRun(Fresh(1300), ops).0;
    MountAgrees(fs, a, own);
    WriteKeepsPromiseExactly(fs, a, own, 0, data, 0, false);
    RunThen(fs0, ops, w);
    assert ops + [w] == [OpMount(0), OpCreate, w];
  }

  lemma {:induction false} RunThen(fs: Fs, ops: seq<Op>, op: Op)
    ensures Run(fs, ops + [op]).1 == Run(fs, ops).1 + [Step(Run(fs, ops).0, op).1]
    decreases |ops|
  {
    hide Step;
    if ops == [] {
      assert [op][1..] == [];
    } else {
      assert (ops + [op])[1..] == ops[1..] + [op];
      RunThen(Step(fs, ops[0]).0, ops[1..], op);
    }
  }

  // With a cache of one inode: a file is created and deleted, and another one created; the next call
  // on it gets an inode that has just been freed.
  lemma FreedInodeReturned(disk: Disk, junk: bool)
    requires |disk| == 20
    ensures LegalRun(Fresh(20), [OpMount(1), OpCreate, OpDelete(0, junk), OpCreate])
    ensures var fs := Run(Format(Unmounted(disk)).0, [OpMount(1), OpCreate, OpDelete(0, junk), OpCreate]).0;
      fs.Mounted? && fs.inomap != [] && fs.inomap[0] && ReturnsFreed(|fs.inomap|, fs.cache, 0)
  {
    hide RefinesWith, Step, Format, FreshOwners, ReturnsFreed, Usable, Used;
    FormatGood(disk);
    var ops := [OpMount(1), OpCreate, OpDelete(0, junk), OpCreate];
    DeletedOnce(junk);
    var fs0 := Format(Unmounted(disk)).0;
    var own := RunCorrect(fs0, Fresh(20), FreshOwners(20), ops);
    var fs, a := Run(fs0, ops).0, AbsRun(Fresh(20), ops).0;
    MountAgrees(fs, a, own);
    MapMarksFiles(fs, a, own);
    ReturnsFreedExactly(fs, a, own, 0);
  }

  lemma DeletedOnce(junk: bool)
    ensures var ops := [OpMount(1), OpCreate, OpDelete(0, junk), OpCreate]; var a := AbsRun(Fresh(20), ops).0;
      && LegalRun(Fresh(20), ops) && a.mount == MountedWith(1, 1, []) && |a.files| == NumInodes(20)
      && a.files[0].Some? && Usable(|a.files|, 0)
  {
    hide AbsStep, Legal, Usable, AbsRun, LegalRun;
    var ops2, d := [OpMount(1), OpCreate], OpDelete(0, junk);
    Created(20, 1);
    var a2 := AbsRun(Fresh(20), ops2).0;
    AbsRunThen(Fresh(20), ops2, d);
    var a3 := AbsStep(a2, d).0;
    DeleteFirst(a2, junk);
    AbsRunThen(Fresh(20), ops2 + [d], OpCreate);
    assert ops2 + [d] + [OpCreate] == [OpMount(1), OpCreate, d, OpCreate];
    CreateFirst(a3);
  }

  lemma DeleteFirst(a: AbsFs, junk: bool)
    requires a.mount == MountedWith(1, 0, []) && |a.files| > 0 && a.files[0].Some? && Usable(|a.files|, 0)
    ensures Legal(a, OpDelete(0, junk))
    ensures AbsStep(a, OpDelete(0, junk)).0 == AbsFs(a.nblocks, MountedWith(1, 1, []), a.files[0 := None])
  {
    assert Touch([], 0, 1) == [0] && Minus([0], 0) == [];
  }

  lemma CreateFirst(a: AbsFs)
    requires a.mount == MountedWith(1, 1, []) && |a.files| > 0 && a.files[0].None? && Usable(|a.files|, 0)
    ensures Legal(a, OpCreate)
    ensures AbsStep(a, OpCreate).0 == a.(files := a.files[0 := Some([])])
  {
  }

  lemma {:induction false} AbsRunThen(a: AbsFs, ops: seq<Op>, op: Op)
    ensures AbsRun(a, ops + [op]).0 == AbsStep(AbsRun(a, ops).0, op).0
    ensures LegalRun(a, ops + [op]) <==> LegalRun(a, ops) && Legal(AbsRun(a, ops).0, op)
    decreases |ops|
  {
    hide AbsStep, Legal;
    if ops == [] {
      assert [op][1..] == [];
    } else {
      assert (ops + [op])[1..] == ops[1..] + [op];
      AbsRunThen(AbsStep(a, ops[0]).0, ops[1..], op);
    }
  }

  // ---------- The cache is transparent ----------

  // The same calls, mounted with other capacities and other junk in uninitialised memory.
  predicate SameCall(x: Op, y: Op) {
    match x
    case OpMount(_) => y.OpMount?
    case OpDelete(i, _) => y.OpDelete? && y.i == i
    case OpGetSize(i, _) => y.OpGetSize? && y.i == i
    case OpRead(i, length, offset, _) => y.OpRead? && y.i == i && y.length == length && y.offset == offset
    case OpWrite(i, data, length, offset, _) =>
      y.OpWrite? && y.i == i && y.data == data && y.length == length && y.offset == offset
    case _ => x == y
  }

  predicate SameCalls(xs: seq<Op>, ys: seq<Op>) {
    |xs| == |ys| && forall k :: 0 <= k < |xs| ==> SameCall(xs[k], ys[k])
  }

  predicate SameFiles(a: AbsFs, b: AbsFs) {
    a.nblocks == b.nblocks && a.files == b.files && (a.mount.NotMounted? <==> b.mount.NotMounted?)
  }

  lemma SameStep(a: AbsFs, b: AbsFs, x: Op, y: Op)
    requires SameFiles(a, b) && SameCall(x, y)
    ensures SameFiles(AbsStep(a, x).0, AbsStep(b, y).0) && AbsStep(a, x).1 == AbsStep(b, y).1
  {
    hide Spliced, Writable, Used, NumBlocks;
  }

  lemma {:induction false} SameAbsRun(a: AbsFs, b: AbsFs, xs: seq<Op>, ys: seq<Op>)
    requires SameFiles(a, b) && SameCalls(xs, ys)
    ensures AbsRun(a, xs).1 == AbsRun(b, ys).1
    decreases |xs|
  {
    hide AbsStep;
    if xs != [] {
      SameStep(a, b, xs[0], ys[0]);
      SameAbsRun(AbsStep(a, xs[0]).0, AbsStep(b, ys[0]).0, xs[1..], ys[1..]);
    }
  }

  // No caller can tell one cache capacity from another.
  lemma CacheTransparent(disk: Disk, xs: seq<Op>, ys: seq<Op>)
    requires FirstDataBlock(|disk|) <= |disk| && SameCalls(xs, ys)
    requires var a := AbsFs(|disk|, NotMounted, Repeat(None, NumInodesNat(|disk|))); LegalRun(a, xs) && LegalRun(a, ys)
    ensures Run(Format(Unmounted(disk)).0, xs).1 == Run(Format(Unmounted(disk)).0, ys).1
  {
    hide Run, AbsRun, LegalRun, Format;
    FormattedRunCorrect(disk, xs);
    FormattedRunCorrect(disk, ys);
    var a := AbsFs(|disk|, NotMounted, Repeat(None, NumInodesNat(|disk|)));
    SameAbsRun(a, a, xs, ys);
  }

  // ---------- Invariants of every reachable state ----------

  // Pointer o of some valid inode leads to block b.
  ghost predicate Reaches(disk: Disk, tab: seq<Inode>, o: Owner, b: int) {
    && (o.DataOf? || o.IndirectOf?)
    && 0 <= o.inumber < |tab| && tab[o.inumber].isvalid
    && (o.DataOf? ==> 0 <= o.slot < POINTERS_PER_FILE && Slot(disk, tab[o.inumber], o.slot) == b)
    && (o.IndirectOf? ==> tab[o.inumber].indirect == b)
  }

  // A block is marked in the freemap iff it is reserved or a pointer leads to it, never two, and none
  // to a reserved block.
  ghost predicate OwnedOnce(fs: Fs, b: int)
    requires fs.Mounted? && 0 < b < |fs.bmap|
  {
    && (fs.bmap[b] <==> b < FirstDataBlock(|fs.bmap|) || exists o :: Reaches(fs.disk, View(fs), o, b))
    && (forall o, o' :: Reaches(fs.disk, View(fs), o, b) && Reaches(fs.disk, View(fs), o', b) ==> o == o')
    && (forall o :: Reaches(fs.disk, View(fs), o, b) ==> b >= FirstDataBlock(|fs.bmap|))
  }

  lemma ExactlyOneOwner(fs: Fs, a: AbsFs, own: seq<Owner>, b: int)
    requires fs.Mounted? && RefinesWith(fs, a, own) && 0 < b < |fs.bmap|
    ensures OwnedOnce(fs, b)
  {
    var tab := View(fs);
    assert OwnerPoints(fs.disk, tab, own[b], b);
    forall o | Reaches(fs.disk, tab, o, b) ensures own[b] == o {
      assert InodeOwned(fs.disk, tab[o.inumber], o.inumber, own);
      if o.DataOf? { assert SlotOwned(fs.disk, tab[o.inumber], o.inumber, o.slot, own); }
    }
    if own[b].DataOf? || own[b].IndirectOf? { assert Reaches(fs.disk, tab, own[b], b); }
  }

  // Free blocks, reserved blocks and the blocks the file sizes call for add up to the disk.
  lemma SpaceConserved(fs: Fs, a: AbsFs, own: seq<Owner>)
    requires fs.Mounted? && RefinesWith(fs, a, own)
    ensures CountFree(fs.bmap) + FirstDataBlock(|fs.disk|) + Used(a.files) == |fs.disk|
  {
  }

  // Format any disk, then make any legal calls: if the file system is mounted then, every block has
  // exactly one owner or is free, no space is lost, and the inode freemap marks exactly the files.
  lemma EveryReachableState(disk: Disk, ops: seq<Op>)
    requires FirstDataBlock(|disk|) <= |disk|
    requires LegalRun(AbsFs(|disk|, NotMounted, Repeat(None, NumInodesNat(|disk|))), ops)
    ensures var a := AbsRun(AbsFs(|disk|, NotMounted, Repeat(None, NumInodesNat(|disk|))), ops).0;
      var fs := Run(Format(Unmounted(disk)).0, ops).0;
      fs.Mounted? ==>
        && CountFree(fs.bmap) + FirstDataBlock(|fs.disk|) + Used(a.files) == |fs.disk|
        && (forall b :: 0 < b < |fs.bmap| ==> OwnedOnce(fs, b))
        && |fs.inomap| == |a.files| && (forall i :: 0 <= i < |fs.inomap| ==> (fs.inomap[i] <==> a.files[i].Some?))
  {
    hide RefinesWith, Run, AbsRun, LegalRun, Format, FreshOwners, OwnedOnce, Used;
    FormatGood(disk);
    var a0 := AbsFs(|disk|, NotMounted, Repeat(None, NumInodesNat(|disk|)));
    var own := RunCorrect(Format(Unmounted(disk)).0, a0, FreshOwners(|disk|), ops);
    var fs, a := Run(Format(Unmounted(disk)).0, ops).0, AbsRun(a0, ops).0;
    if fs.Mounted? {
      SpaceConserved(fs, a, own);
      forall b | 0 < b < |fs.bmap| ensures OwnedOnce(fs, b) { ExactlyOneOwner(fs, a, own, b); }
      MapMarksFiles(fs, a, own);
    }
  }

  lemma MapMarksFiles(fs: Fs, a: AbsFs, own: seq<Owner>)
    requires fs.Mounted? && RefinesWith(fs, a, own)
    ensures |fs.inomap| == |a.files| && forall i :: 0 <= i < |fs.inomap| ==> (fs.inomap[i] <==> a.files[i].Some?)
  {
    hide Content, Slot, Contiguous;
  }

  // ---------- How many files there can be ----------

  // The inode freemap marks n inumbers.
  function Marked(inomap: seq<bool>): int { |inomap| - CountFree(inomap) }

  lemma {:induction false} MarkedBelow(inomap: seq<bool>, m: nat)
    requires m <= |inomap| && forall j :: m <= j < |inomap| ==> !inomap[j]
    ensures Marked(inomap) == Marked(inomap[..m])
  {
    if m < |inomap| {
      var k := |inomap| - 1;
      MarkedBelow(inomap[..k], m);
      assert inomap[..k][..m] == inomap[..m];
    } else {
      assert inomap[..m] == inomap;
    }
  }

  // A formatted disk of n blocks never holds more than 128 * (n / 10) files, fewer than it has inodes;
  // create fails exactly when it holds that many, and otherwise returns the least unused inumber.
  lemma FilesBounded(disk: Disk, ops: seq<Op>)
    requires FirstDataBlock(|disk|) <= |disk|
    requires LegalRun(AbsFs(|disk|, NotMounted, Repeat(None, NumInodesNat(|disk|))), ops)
    ensures var fs, m := Run(Format(Unmounted(disk)).0, ops).0, 128 * (|disk| / 10);
      fs.Mounted? ==>
        && |fs.inomap| == m + 128 && (forall j :: m <= j < |fs.inomap| ==> !fs.inomap[j])
        && Marked(fs.inomap) <= m && (Create(fs).1 == -1 <==> Marked(fs.inomap) == m)
        && (Create(fs).1 != -1 ==> var r := Create(fs).1;
             0 <= r < m && !fs.inomap[r] && forall k :: 0 <= k < r ==> fs.inomap[k])
  {
    hide RefinesWith, Run, AbsRun, LegalRun, Format, FreshOwners, Create, CountFree;
    FormatGood(disk);
    var a0 := AbsFs(|disk|, NotMounted, Repeat(None, NumInodesNat(|disk|)));
    var own := RunCorrect(Format(Unmounted(disk)).0, a0, FreshOwners(|disk|), ops);
    var fs, a := Run(Format(Unmounted(disk)).0, ops).0, AbsRun(a0, ops).0;
    if fs.Mounted? {
      var m := 128 * (|disk| / 10);
      SameSize(a0, ops);
      DiskSize(fs, a, own);
      CreateReturns(fs, a, own);
      FilesBelow(fs, a, own);
      MapMarksFiles(fs, a, own);
      MarkedBelow(fs.inomap, m);
      FullMap(fs.inomap[..m]);
      assert forall k :: 0 <= k < m ==> fs.inomap[..m][k] == fs.inomap[k];
    }
  }

  lemma FullMap(inomap: seq<bool>)
    ensures Marked(inomap) <= |inomap| && (Marked(inomap) == |inomap| <==> forall k :: 0 <= k < |inomap| ==> inomap[k])
  {
    CountZero(inomap);
  }

  lemma DiskSize(fs: Fs, a: AbsFs, own: seq<Owner>)
    requires RefinesWith(fs, a, own)
    ensures |fs.disk| == a.nblocks
  {
  }

  lemma {:induction false} SameSize(a: AbsFs, ops: seq<Op>)
    ensures AbsRun(a, ops).0.nblocks == a.nblocks
    decreases |ops|
  {
    if ops != [] { SameSize(AbsStep(a, ops[0]).0, ops[1..]); }
  }

  // fs_write returns the whole length exactly when the free blocks can supply the blocks the whole
  // write needs.
  lemma WriteStopsExactly(fs: Fs, a: AbsFs, own: seq<Owner>, i: nat, data: seq<byte>, offset: int, junk: bool)
    requires fs.Mounted? && RefinesWith(fs, a, own)
    requires AbsArgValid(a, i, |data|, offset) && Legal(a, OpWrite(i, data, |data|, offset, junk))
    ensures var c := NumBlocks(|a.files[i].value|);
      Write(fs, i, data, |data|, offset, junk).1 == |data| <==>
        data == [] || CountFree(fs.bmap) >= Cost(Max(c, NumBlocks(offset + |data|))) - Cost(c)
  {
    hide RefinesWith, Write, NoHole, PastLargest, FreeBlocks, Cost, NumBlocks, Writable, LiveAbs;
    MountAgrees(fs, a, own);
    FileBlocksOk(fs, a, own, i);
    FileSmall(fs, a, own, i);
    var own' := WriteRefines(fs, a, own, i, data, |data|, offset, junk);
    FreeAgrees(fs, a, own);
    WholeWrite(a, i, data, offset, junk);
  }

  lemma FileSmall(fs: Fs, a: AbsFs, own: seq<Owner>, i: nat)
    requires fs.Mounted? && RefinesWith(fs, a, own) && i < |a.files| && a.files[i].Some?
    ensures |a.files[i].value| <= MAX_FILE_SIZE
  {
  }

  lemma WholeWrite(a: AbsFs, i: nat, data: seq<byte>, offset: int, junk: bool)
    requires a.mount.MountedWith? && AbsArgValid(a, i, |data|, offset) && |a.files[i].value| <= MAX_FILE_SIZE
    requires Legal(a, OpWrite(i, data, |data|, offset, junk)) && FreeBlocks(a) >= 0
    ensures var c := NumBlocks(|a.files[i].value|);
      AbsStep(a, OpWrite(i, data, |data|, offset, junk)).1 == Code(|data|) <==>
        data == [] || FreeBlocks(a) >= Cost(Max(c, NumBlocks(offset + |data|))) - Cost(c)
  {
  }

  lemma FreeAgrees(fs: Fs, a: AbsFs, own: seq<Owner>)
    requires fs.Mounted? && RefinesWith(fs, a, own)
    ensures FreeBlocks(a) == CountFree(fs.bmap) >= 0 && |fs.disk| == |fs.bmap|
  {
  }
}
