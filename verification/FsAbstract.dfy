// What a file system is to its users: numbered files of bytes on a disk of limited size.

module FsAbstract {
  import opened Common
  import opened DataStructures
  import opened CacheSpec
  import opened FsSpec
  import opened FsSpace
  import opened FsWriteProof
  import opened FsFile
  import opened LruStack

  // removed counts the files deleted since mount while caching: it decides whether the code still
  // hands out live inodes (FsRefinement.ReturnsFreedExactly).  recent is the list of the inumbers in
  // the cache: it decides whether create works (FsUpdates.CreateExact).
  datatype AbsMount = NotMounted | MountedWith(capacity: int, removed: int, recent: seq<int>)

  type File = Option<seq<byte>>

  datatype AbsFs = AbsFs(nblocks: int, mount: AbsMount, files: seq<File>)

  function FileCost(f: File): int { if f.Some? then Cost(NumBlocks(|f.value|)) else 0 }

  function Used(files: seq<File>): int {
    if files == [] then 0 else Used(files[..|files| - 1]) + FileCost(files[|files| - 1])
  }

  lemma {:induction false} UsedUpdate(files: seq<File>, i: nat, f: File)
    requires i < |files|
    ensures Used(files[i := f]) == Used(files) - FileCost(files[i]) + FileCost(f)
  {
    var m := |files| - 1;
    if i < m {
      UsedUpdate(files[..m], i, f);
      assert files[i := f][..m] == files[..m][i := f];
    } else {
      assert files[i := f][..m] == files[..m];
    }
  }

  // Blocks that no file uses, computed from the file sizes alone.
  function FreeBlocks(a: AbsFs): int { a.nblocks - FirstDataBlock(a.nblocks) - Used(a.files) }

  function FirstNone(files: seq<File>): (i: nat)
    ensures i <= |files|
    ensures i < |files| ==> files[i].None?
    ensures forall j :: 0 <= j < i ==> files[j].Some?
  {
    if files == [] || files[0].None? then 0 else 1 + FirstNone(files[1..])
  }

  // The calls of fs.h.  junk is the uninitialised is_dirty field of a list node the call may allocate.
  datatype Op =
    | OpFormat
    | OpMount(capacity: int)
    | OpUnmount
    | OpCreate
    | OpDelete(i: nat, junk: bool)
    | OpGetSize(i: nat, junk: bool)
    | OpRead(i: nat, length: int, offset: int, junk: bool)
    | OpWrite(i: nat, data: seq<byte>, length: int, offset: int, junk: bool)

  // OutOfBounds: the call reads or writes outside its arrays.
  datatype Result = Code(code: int) | Data(data: seq<byte>) | OutOfBounds

  predicate AbsArgValid(a: AbsFs, i: nat, length: int, offset: int) {
    length >= 0 && offset >= 0 && i < |a.files| && a.files[i].Some? && offset <= MAX_FILE_SIZE
  }

  function AbsSlice(s: seq<byte>, length: nat, offset: nat): seq<byte> {
    if offset <= |s| then s[offset..Min(|s|, offset + length)] else []
  }

  // The inode of file i is asked for.
  function Fetched(a: AbsFs, i: int): AbsFs
    requires a.mount.MountedWith?
  {
    if Usable(|a.files|, i) then a.(mount := a.mount.(recent := Touch(a.mount.recent, i, a.mount.capacity - a.mount.removed)))
    else a
  }

  function AfterRemoval(m: AbsMount, i: int): AbsMount
    requires m.MountedWith?
  {
    m.(removed := m.removed + (if i in m.recent then 1 else 0), recent := Minus(m.recent, i))
  }

  function AbsStep(a: AbsFs, op: Op): (AbsFs, Result) {
    match op
    case OpFormat =>
      if a.mount.MountedWith? then (a, Code(0))
      else (AbsFs(a.nblocks, NotMounted, Repeat(None, NumInodesNat(a.nblocks))), Code(1))
    case OpMount(capacity) => (a.(mount := MountedWith(capacity, 0, [])), Code(1))
    case OpUnmount => if a.mount.NotMounted? then (a, Code(0)) else (a.(mount := NotMounted), Code(1))
    case OpCreate =>
      var i := FirstNone(a.files);
      if a.mount.NotMounted? || i == |a.files| || !Usable(|a.files|, i) then (a, Code(-1))
      else (a.(files := a.files[i := Some([])]), Code(i))
    case OpDelete(i, _) =>
      if a.mount.NotMounted? then (a, Code(0))
      else
        var a1 := Fetched(a, i);
        if !Usable(|a.files|, i) || i >= |a.files| || a.files[i].None? then (a1, Code(0))
        else (a1.(files := a.files[i := None], mount := AfterRemoval(a1.mount, i)), Code(1))
    case OpGetSize(i, _) =>
      if a.mount.NotMounted? then (a, Code(-1))
      else (Fetched(a, i), Code(if i >= |a.files| || a.files[i].None? then -1 else |a.files[i].value|))
    case OpRead(i, length, offset, _) =>
      if a.mount.NotMounted? || !AbsArgValid(a, i, length, offset) then (a, Data([]))
      else (Fetched(a, i), Data(AbsSlice(a.files[i].value, length, offset)))
    case OpWrite(i, data, length, offset, _) =>
      if a.mount.NotMounted? || !AbsArgValid(a, i, length, offset) || length > |data| then (a, Code(0))
      else
        var s := a.files[i].value;
        var w := Writable(FreeBlocks(a), NumBlocks(|s|), offset, length);
        (Fetched(a, i).(files := a.files[i := Some(Spliced(s, offset, data[..w]))]), Code(w))
  }

  function NumInodesNat(nblocks: int): nat { if NumInodes(nblocks) < 0 then 0 else NumInodes(nblocks) }

  // The write goes on past the largest file on a disk that has the blocks for it.
  predicate PastLargest(a: AbsFs, i: nat, length: int, offset: int)
    requires i < |a.files| && a.files[i].Some?
  {
    offset + length > MAX_FILE_SIZE && FreeBlocks(a) + FileCost(a.files[i]) >= Cost(POINTERS_PER_FILE)
  }

  // What the code asks of its callers.
  //  - get_inode must still hand out live inodes: not all of the capacity is used up by deletions.
  //  - create must not pick an inumber that getsize or delete has put into the cache.
  //  - a write leaves no hole, and does not go on past the largest file.
  //  - mount is called when unmounted.
  predicate Legal(a: AbsFs, op: Op) {
    match op
    case OpFormat => true
    case OpMount(capacity) => a.mount.NotMounted? && capacity >= 0
    case OpUnmount => true
    case OpCreate => a.mount.MountedWith? ==> FirstNone(a.files) !in a.mount.recent
    case OpDelete(i, _) => a.mount.MountedWith? && Usable(|a.files|, i) ==> LiveAbs(a)
    case OpGetSize(i, _) => a.mount.MountedWith? && Usable(|a.files|, i) ==> LiveAbs(a)
    case OpRead(i, length, offset, _) => a.mount.MountedWith? && AbsArgValid(a, i, length, offset) ==> LiveAbs(a)
    case OpWrite(i, data, length, offset, _) =>
      && length <= |data|
      && (a.mount.MountedWith? && AbsArgValid(a, i, length, offset) ==>
            && LiveAbs(a) && NoHole(|a.files[i].value|, FreeBlocks(a), offset, length)
            && !PastLargest(a, i, length, offset))
  }

  predicate LiveAbs(a: AbsFs)
    requires a.mount.MountedWith?
  {
    a.mount.capacity == 0 || a.mount.removed < a.mount.capacity
  }

  function AbsRun(a: AbsFs, ops: seq<Op>): (AbsFs, seq<Result>)
    decreases |ops|
  {
    if ops == [] then (a, [])
    else
      var (a1, r) := AbsStep(a, ops[0]);
      var (a2, rs) := AbsRun(a1, ops[1..]);
      (a2, [r] + rs)
  }

  predicate LegalRun(a: AbsFs, ops: seq<Op>)
    decreases |ops|
  {
    ops == [] || (Legal(a, ops[0]) && LegalRun(AbsStep(a, ops[0]).0, ops[1..]))
  }
}
