// The copyin and copyout commands of project_4/shell.c: whole files through a 16384-byte buffer.

module Shell {
  import opened Common
  import opened DataStructures
  import opened CacheSpec
  import opened FsSpace
  import opened FsWriteProof
  import opened FsFile
  import opened FsAbstract
  import opened FsRefinement
  import opened LruStack
  import FsSpec
  import FsInvariant
  import SimpleFs

  const BUFFER_SIZE := 16384

  // The loop of do_copyin from offset on, when rest is still to be read from the host file.
  function AbsCopyIn(a: AbsFs, i: nat, rest: seq<byte>, offset: nat): (r: (AbsFs, nat))
    decreases |rest|
  {
    if rest == [] then (a, offset)
    else
      var m := Min(|rest|, BUFFER_SIZE);
      var (a1, r) := AbsStep(a, OpWrite(i, rest[..m], m, offset, false));
      var actual := Max(r.code, 0);
      if actual != m then (a1, offset + actual) else AbsCopyIn(a1, i, rest[m..], offset + actual)
  }

  // The loop of do_copyout from offset on.
  function AbsCopyOut(a: AbsFs, i: nat, offset: nat): (r: seq<byte>)
    decreases if i < |a.files| && a.files[i].Some? then |a.files[i].value| - offset else 0
  {
    var r := AbsStep(a, OpRead(i, BUFFER_SIZE, offset, false)).1.data;
    if r == [] then [] else r + AbsCopyOut(a, i, offset + |r|)
  }

  predicate HasFile(a: AbsFs, i: nat) { i < |a.files| && a.files[i].Some? && |a.files[i].value| <= MAX_FILE_SIZE }

  // The files after d has been written into file i, and everything else that the users see.
  ghost predicate NowHolds(a: AbsFs, a': AbsFs, i: nat, offset: nat, d: seq<byte>)
    requires i < |a.files| && a.files[i].Some?
  {
    && a'.nblocks == a.nblocks && a'.mount.MountedWith? && |a'.files| == |a.files|
    && a'.files == a.files[i := Some(Spliced(a.files[i].value, offset, d))]
  }

  // Writing in two pieces is writing at once.
  lemma WrittenTwice(a: AbsFs, a1: AbsFs, a2: AbsFs, i: nat, at: nat, d: seq<byte>, e: seq<byte>)
    requires HasFile(a, i) && NowHolds(a, a1, i, at, d) && NowHolds(a1, a2, i, at + |d|, e)
    ensures NowHolds(a, a2, i, at, d + e)
  {
    var s := a.files[i].value;
    assert Spliced(Spliced(s, at, d), at + |d|, e) == Spliced(s, at, d + e);
  }

  // The room a file can grow into is not changed by growing into it.
  lemma RoomKept(a: AbsFs, a1: AbsFs, i: nat, offset: nat, d: seq<byte>)
    requires HasFile(a, i) && NowHolds(a, a1, i, offset, d)
    ensures a1.files[i].Some? && FreeBlocks(a1) + FileCost(a1.files[i]) == FreeBlocks(a) + FileCost(a.files[i])
  {
    UsedUpdate(a.files, i, Some(Spliced(a.files[i].value, offset, d)));
  }

  // The first call of fs_write.
  lemma FirstChunk(a: AbsFs, i: nat, rest: seq<byte>, offset: nat) returns (a1: AbsFs)
    requires a.mount.MountedWith? && HasFile(a, i) && offset <= MAX_FILE_SIZE && rest != []
    ensures var m := Min(|rest|, BUFFER_SIZE);
      var w := Writable(FreeBlocks(a), NumBlocks(|a.files[i].value|), offset, m);
      AbsStep(a, OpWrite(i, rest[..m], m, offset, false)) == (a1, Code(w)) && NowHolds(a, a1, i, offset, rest[..w])
      && offset + w <= MAX_FILE_SIZE && HasFile(a1, i)
  {
    hide FreeBlocks, NumBlocks, SlotsFor, Touch;
    var m := Min(|rest|, BUFFER_SIZE);
    var w := Writable(FreeBlocks(a), NumBlocks(|a.files[i].value|), offset, m);
    WritableFits(FreeBlocks(a), NumBlocks(|a.files[i].value|), offset, m);
    assert rest[..m][..w] == rest[..w];
    a1 := AbsStep(a, OpWrite(i, rest[..m], m, offset, false)).0;
  }

  // copyin is one write of the whole host file, however the buffer cuts it and however large it is.
  lemma {:induction false} CopyInCorrect(a: AbsFs, i: nat, rest: seq<byte>, offset: nat)
    requires a.mount.MountedWith? && HasFile(a, i) && offset <= MAX_FILE_SIZE
    ensures var w := Writable(FreeBlocks(a), NumBlocks(|a.files[i].value|), offset, |rest|);
      var r := AbsCopyIn(a, i, rest, offset);
      r.1 == offset + w && (if rest == [] then r.0 == a else NowHolds(a, r.0, i, offset, rest[..w]))
    decreases |rest|
  {
    hide FreeBlocks, NumBlocks, SlotsFor, AbsStep, NowHolds;
    if rest == [] { return; }
    var a1 := FirstChunk(a, i, rest, offset);
    var m := Min(|rest|, BUFFER_SIZE);
    var c := NumBlocks(|a.files[i].value|);
    var w, w1 := Writable(FreeBlocks(a), c, offset, |rest|), Writable(FreeBlocks(a), c, offset, m);
    if w1 == m {
      RoomKept(a, a1, i, offset, rest[..m]);
      StillMounted(a, a1, i, offset, rest[..m]);
      CopyInCorrect(a1, i, rest[m..], offset + m);
      if rest[m..] != [] { WrittenTwice(a, a1, AbsCopyIn(a1, i, rest[m..], offset + m).0, i, offset, rest[..m], rest[m..][..w - m]); }
      assert rest[..m] + rest[m..][..w - m] == rest[..w];
    }
  }

  lemma StillMounted(a: AbsFs, a1: AbsFs, i: nat, offset: nat, d: seq<byte>)
    requires HasFile(a, i) && NowHolds(a, a1, i, offset, d)
    ensures a1.mount.MountedWith?
  {
  }

  // copyout returns the file from offset on.
  lemma {:induction false} CopyOutCorrect(a: AbsFs, i: nat, offset: nat)
    requires a.mount.MountedWith? && HasFile(a, i) && offset <= |a.files[i].value|
    ensures AbsCopyOut(a, i, offset) == a.files[i].value[offset..]
    decreases |a.files[i].value| - offset
  {
    var s := a.files[i].value;
    var r := AbsStep(a, OpRead(i, BUFFER_SIZE, offset, false)).1.data;
    if offset < |s| {
      assert r == s[offset..offset + |r|];
      CopyOutCorrect(a, i, offset + |r|);
      assert s[offset..] == r + s[offset + |r|..];
    }
  }

  lemma SplicedFirst(d: seq<byte>)
    ensures Spliced([], 0, d) == d
  {
  }

  // copyin into an empty file followed by copyout returns the prefix that fitted.
  lemma RoundTrip(a: AbsFs, i: nat, file: seq<byte>)
    requires a.mount.MountedWith? && HasFile(a, i) && a.files[i].value == []
    ensures var (a1, copied) := AbsCopyIn(a, i, file, 0);
      && copied == Writable(FreeBlocks(a), 0, 0, |file|) <= |file|
      && AbsCopyOut(a1, i, 0) == file[..copied]
  {
    hide AbsCopyIn, AbsCopyOut, Writable, FreeBlocks, Spliced;
    CopyInCorrect(a, i, file, 0);
    var (a1, copied) := AbsCopyIn(a, i, file, 0);
    WritableFits(FreeBlocks(a), 0, 0, |file|);
    assert copied <= MAX_FILE_SIZE && |file[..copied]| == copied;
    SplicedFirst(file[..copied]);
    CopyOutCorrect(a1, i, 0);
  }

  // The whole file comes back exactly when the disk has room for its blocks.
  lemma RoundTripWhole(a: AbsFs, i: nat, file: seq<byte>)
    requires a.mount.MountedWith? && HasFile(a, i) && a.files[i].value == [] && FreeBlocks(a) >= 0
    ensures AbsCopyOut(AbsCopyIn(a, i, file, 0).0, i, 0) == file
      <==> |file| <= MAX_FILE_SIZE && FreeBlocks(a) >= Cost(NumBlocks(|file|))
  {
    RoundTrip(a, i, file);
    var copied := AbsCopyIn(a, i, file, 0).1;
    assert |file[..copied]| == copied;
    if copied == |file| { assert file[..copied] == file; }
  }

  // ---------- The commands ----------

  // Writing on from inside the file is legal as long as the whole copy does not go past the largest
  // file; left is what is left to be copied, chunk the first part of it.
  lemma NextWrite(a: AbsFs, i: nat, chunk: seq<byte>, left: int, offset: nat, junk: bool)
    requires |chunk| <= left && (a.mount.MountedWith? ==> LiveAbs(a))
    requires i < |a.files| && a.files[i].Some? ==> offset <= |a.files[i].value| && !PastLargest(a, i, left, offset)
    ensures Legal(a, OpWrite(i, chunk, |chunk|, offset, junk))
    ensures var (a1, r) := AbsStep(a, OpWrite(i, chunk, |chunk|, offset, junk));
      && (a1.mount.MountedWith? ==> LiveAbs(a1)) && r.Code? && 0 <= r.code <= |chunk|
      && (r.code > 0 && i < |a1.files| && a1.files[i].Some? ==>
            offset + r.code <= |a1.files[i].value| && !PastLargest(a1, i, left - r.code, offset + r.code))
      && AbsStep(a, OpWrite(i, chunk, |chunk|, offset, false)) == (a1, r)
  {
    hide FreeBlocks, Cost, NumBlocks, NoHole, SlotsFor, Touch;
    var (a1, r) := AbsStep(a, OpWrite(i, chunk, |chunk|, offset, junk));
    if a.mount.MountedWith? && AbsArgValid(a, i, |chunk|, offset) {
      UsedUpdate(a.files, i, a1.files[i]);
      FreeOf(a);
      FreeOf(a1);
      NoHoleInside(|a.files[i].value|, FreeBlocks(a), offset, |chunk|);
    }
  }

  lemma NoHoleInside(size: nat, free: int, offset: nat, length: nat)
    requires offset <= size
    ensures NoHole(size, free, offset, length)
  {
  }

  lemma FreeOf(a: AbsFs)
    ensures FreeBlocks(a) == a.nblocks - FirstDataBlock(a.nblocks) - Used(a.files)
  {
  }

  method CopyIn(fs: SimpleFs.FileSystem, file: seq<byte>, i: nat) returns (offset: nat)
    requires fs.Valid() && (fs.abs.mount.MountedWith? ==> LiveAbs(fs.abs))
    requires i < |fs.abs.files| && fs.abs.files[i].Some? ==> !PastLargest(fs.abs, i, |file|, 0)
    modifies fs.Footprint()
    ensures fs.Valid() && fresh(fs.Footprint() - old(fs.Footprint()))
    ensures (fs.abs, offset) == AbsCopyIn(old(fs.abs), i, file, 0)
  {
    hide SimpleFs.FileSystem.Valid, AbsStep, Legal, PastLargest;
    offset := 0;
    assert file[0..] == file;
    while offset < |file|
      invariant fs.Valid() && fresh(fs.Footprint() - old(fs.Footprint()))
      invariant 0 <= offset <= |file| && (fs.abs.mount.MountedWith? ==> LiveAbs(fs.abs))
      invariant i < |fs.abs.files| && fs.abs.files[i].Some? ==>
        offset <= |fs.abs.files[i].value| && !PastLargest(fs.abs, i, |file| - offset, offset)
      invariant AbsCopyIn(fs.abs, i, file[offset..], offset) == AbsCopyIn(old(fs.abs), i, file, 0)
      decreases |file| - offset
    {
      var result := Min(|file| - offset, BUFFER_SIZE);
      var buffer := file[offset..][..result];
      var junk: bool := *;
      NextWrite(fs.abs, i, buffer, |file| - offset, offset, junk);
      var actual := fs.Write(i, buffer, result, offset, junk);
      assert file[offset..][result..] == file[offset + result..];
      offset := offset + actual;
      if actual != result { return; }
    }
  }

  // The same files, whatever is in the cache.
  predicate SameFiles(a: AbsFs, b: AbsFs) { a.files == b.files && (a.mount.MountedWith? <==> b.mount.MountedWith?) }

  lemma SameAsItself(a: AbsFs)
    ensures SameFiles(a, a)
  {
  }

  // a is the state of the file system now, a0 the one at the start.
  lemma NextRead(a0: AbsFs, a: AbsFs, i: nat, offset: nat, junk: bool)
    requires SameFiles(a, a0) && (a.mount.MountedWith? ==> LiveAbs(a))
    ensures Legal(a, OpRead(i, BUFFER_SIZE, offset, junk))
    ensures var (a1, r) := AbsStep(a, OpRead(i, BUFFER_SIZE, offset, junk));
      && SameFiles(a1, a0) && (a1.mount.MountedWith? ==> LiveAbs(a1))
      && r.Data? && AbsStep(a0, OpRead(i, BUFFER_SIZE, offset, false)).1 == r
      && (r.data != [] ==> i < |a0.files| && a0.files[i].Some? && offset + |r.data| <= |a0.files[i].value|)
      && AbsCopyOut(a0, i, offset) == if r.data == [] then [] else r.data + AbsCopyOut(a0, i, offset + |r.data|)
  {
    hide Touch;
  }

  function SizeOf(a: AbsFs, i: nat): nat { if i < |a.files| && a.files[i].Some? then |a.files[i].value| else 0 }

  // One turn of the loop of do_copyout.
  method ReadChunk(fs: SimpleFs.FileSystem, i: nat, buffer: array<byte>, offset: nat, ghost a0: AbsFs) returns (result: nat)
    requires fs.Valid() && SameFiles(fs.abs, a0) && (fs.abs.mount.MountedWith? ==> LiveAbs(fs.abs))
    requires buffer !in fs.Footprint() && buffer.Length == BUFFER_SIZE
    modifies fs.Footprint(), buffer
    ensures fs.Valid() && fresh(fs.Footprint() - old(fs.Footprint())) && buffer !in fs.Footprint()
    ensures SameFiles(fs.abs, a0) && (fs.abs.mount.MountedWith? ==> LiveAbs(fs.abs))
    ensures result <= BUFFER_SIZE && AbsStep(a0, OpRead(i, BUFFER_SIZE, offset, false)).1 == Data(buffer[..result])
    ensures result > 0 ==> offset + result <= SizeOf(a0, i)
    ensures AbsCopyOut(a0, i, offset) == if result == 0 then [] else buffer[..result] + AbsCopyOut(a0, i, offset + result)
  {
    hide SimpleFs.FileSystem.Valid, AbsStep, LiveAbs, Legal, AbsCopyOut;
    var junk: bool := *;
    NextRead(a0, fs.abs, i, offset, junk);
    result := fs.Read(i, buffer, BUFFER_SIZE, offset, junk);
    assert buffer !in fs.Footprint() - old(fs.Footprint()) by { assert old(allocated(buffer)); }
  }

  lemma Rejoin(x: seq<byte>, y: seq<byte>, z: seq<byte>)
    ensures (x + y) + z == x + (y + z)
  {
  }

  method CopyOut(fs: SimpleFs.FileSystem, i: nat) returns (file: seq<byte>)
    requires fs.Valid() && (fs.abs.mount.MountedWith? ==> LiveAbs(fs.abs))
    modifies fs.Footprint()
    ensures fs.Valid() && fresh(fs.Footprint() - old(fs.Footprint()))
    ensures SameFiles(fs.abs, old(fs.abs)) && file == AbsCopyOut(old(fs.abs), i, 0)
  {
    hide SimpleFs.FileSystem.Valid, AbsStep, LiveAbs, Legal, AbsCopyOut, SameFiles, SizeOf;
    var offset := 0;
    SameAsItself(fs.abs);
    file := [];
    var buffer := new byte[BUFFER_SIZE];
    ghost var a0 := fs.abs;
    ghost var size := SizeOf(a0, i);
    while true
      invariant fs.Valid() && fresh(fs.Footprint() - old(fs.Footprint())) && buffer !in fs.Footprint()
      invariant SameFiles(fs.abs, a0) && (fs.abs.mount.MountedWith? ==> LiveAbs(fs.abs)) && 0 <= offset <= size
      invariant file + AbsCopyOut(a0, i, offset) == AbsCopyOut(a0, i, 0)
      decreases size - offset
    {
      var result := ReadChunk(fs, i, buffer, offset, a0);
      if result <= 0 { return; }
      Rejoin(file, buffer[..result], AbsCopyOut(a0, i, offset + result));
      file := file + buffer[..result];
      offset := offset + result;
    }
  }
}
