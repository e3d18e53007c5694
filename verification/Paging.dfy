// Demand paging with the rand, fifo and custom replacement policies (project_3/main.cpp,
// coremap.cpp, page_table.cpp) on values.  Class VirtualMemory implements these functions.

module Paging {
  type Word = int

  datatype Bits = NONE | READ | READ_WRITE

  datatype Policy = Rand | Fifo | Custom

  // CoreMapEntry; page is -1 while the frame is empty.
  datatype Entry = Entry(page: int, ts: int, used: bool, dirty: bool)

  // A page-in: which page went to which frame.
  datatype Load = Load(page: int, frame: int)

  datatype Vm = Vm(
    policy: Policy,
    mapping: seq<int>, bits: seq<Bits>, // the page table
    core: seq<Entry>, num: int,         // core_map and the static counter of CoreMapEntry
    notUsed: seq<int>, inMem: set<int>, queue: seq<int>,
    faults: int, diskReads: int, diskWrites: int,
    phys: seq<seq<Word>>, disk: seq<seq<Word>>,
    loads: seq<Load>)                   // history of page-ins; the code does not keep it

  function NFrames(vm: Vm): nat { |vm.core| }
  function NPages(vm: Vm): nat { |vm.bits| }

  // getPerms.
  function Perms(e: Entry): Bits { if e.dirty then READ_WRITE else READ }

  // isTooOld; num is the number of timestamps given out.
  predicate TooOld(core: seq<Entry>, num: int, e: Entry) { num - e.ts >= 4 * |core| }

  // page_table_set_entry.
  function SetEntry(vm: Vm, page: int, frame: int, bits: Bits): Vm {
    if 0 <= page < |vm.mapping| && page < |vm.bits| then
      vm.(mapping := vm.mapping[page := frame], bits := vm.bits[page := bits])
    else vm
  }

  function SetFrame(vm: Vm, frame: int, e: Entry): Vm {
    if 0 <= frame < |vm.core| then vm.(core := vm.core[frame := e]) else vm
  }

  function SetNotUsed(vm: Vm, frame: int, n: int): Vm {
    if 0 <= frame < |vm.notUsed| then vm.(notUsed := vm.notUsed[frame := n]) else vm
  }

  // ---------- The clock ----------

  // timer_handler, after it has looked at the first n frames.
  function TickFrames(vm: Vm, n: nat): Vm
    requires n <= |vm.core|
    ensures |TickFrames(vm, n).core| == |vm.core|
  {
    if n == 0 then vm
    else
      var v, i := TickFrames(vm, n - 1), n - 1;
      var e := v.core[i];
      if e.page == -1 then v
      else if e.used then SetEntry(SetFrame(SetNotUsed(v, i, 0), i, e.(used := false)), e.page, i, NONE)
      else if i < |v.notUsed| then SetNotUsed(v, i, v.notUsed[i] + 1)
      else v
  }

  function Tick(vm: Vm): Vm { TickFrames(vm, |vm.core|) }

  // ---------- Choosing a victim ----------

  function UpTo(n: nat): seq<int> { if n == 0 then [] else UpTo(n - 1) + [n - 1] }

  // The frames below n that the clock has found unused k times.
  function UnusedUpTo(notUsed: seq<int>, k: int, n: nat): seq<int>
    requires n <= |notUsed|
  {
    if n == 0 then []
    else UnusedUpTo(notUsed, k, n - 1) + if notUsed[n - 1] >= k then [n - 1] else []
  }

  // not_recently_used.
  function NotRecentlyUsed(notUsed: seq<int>, k: int): seq<int> {
    var s := UnusedUpTo(notUsed, k, |notUsed|);
    if s == [] then UpTo(|notUsed|) else s
  }

  predicate Evictable(core: seq<Entry>, num: int, f: int) {
    0 <= f < |core| && (!core[f].dirty || TooOld(core, num, core[f]))
  }

  function EvictableOf(core: seq<Entry>, num: int, frames: seq<int>): seq<int> {
    if frames == [] then []
    else
      var last := frames[|frames| - 1];
      EvictableOf(core, num, frames[..|frames| - 1]) + if Evictable(core, num, last) then [last] else []
  }

  // filter_dirty.
  function FilterDirty(core: seq<Entry>, num: int, frames: seq<int>): seq<int> {
    var s := EvictableOf(core, num, frames);
    if s == [] then frames else s
  }

  function TsOf(core: seq<Entry>, f: int): int { if 0 <= f < |core| then core[f].ts else 0 }

  // get_fifo: the first frame with the least timestamp, -1 if there is none.
  function GetFifo(core: seq<Entry>, frames: seq<int>): int {
    if frames == [] then -1
    else
      var best, last := GetFifo(core, frames[..|frames| - 1]), frames[|frames| - 1];
      if best == -1 || TsOf(core, last) < TsOf(core, best) then last else best
  }

  // get_frame_to_be_evicted_*_policy; pick is what rand() returns.
  function Victim(vm: Vm, pick: nat): int {
    match vm.policy
    case Rand => if |vm.core| == 0 then -1 else pick % |vm.core|
    case Fifo => if vm.queue == [] then -1 else vm.queue[0]
    case Custom => GetFifo(vm.core, FilterDirty(vm.core, vm.num, NotRecentlyUsed(vm.notUsed, 1)))
  }

  // ---------- Faults ----------

  datatype Outcome = Ok(vm: Vm) | AssertFailed

  datatype Eviction = Evicted(vm: Vm, frame: int) | NoVictim

  // evict_frame_from_memory.
  function Evict(vm: Vm, pick: nat): Eviction {
    if vm.diskReads < NFrames(vm) then Evicted(vm, vm.diskReads)
    else
      var f := Victim(vm, pick);
      var vm1 := if vm.policy == Fifo && vm.queue != [] then vm.(queue := vm.queue[1..]) else vm;
      if !(0 <= f < |vm.core|) || vm.core[f].page == -1 then NoVictim
      else
        var e := vm.core[f];
        var vm2 :=
          if Perms(e) == READ_WRITE && 0 <= e.page < |vm.disk| && f < |vm.phys| then
            vm1.(disk := vm.disk[e.page := vm.phys[f]], diskWrites := vm.diskWrites + 1)
          else vm1;
        Evicted(SetEntry(vm2, e.page, 0, NONE), f)
  }

  // is_page_in_memory.
  predicate IsPageInMemory(vm: Vm, page: int, bits: Bits) { page in vm.inMem || bits == READ }

  // set_perms.
  function SetPerms(vm: Vm, page: int, frame: nat, bits: Bits): Vm
    requires frame < |vm.core|
  {
    var e := vm.core[frame].(used := true);
    if bits == NONE then SetEntry(SetNotUsed(SetFrame(vm, frame, e), frame, 0), page, frame, Perms(e))
    else SetEntry(SetFrame(vm, frame, e.(dirty := true)), page, frame, READ_WRITE)
  }

  // read_from_disk_and_set_pt_entry and assignNewPage.
  function LoadPage(vm: Vm, page: nat, frame: int): Vm {
    var vm1 := if 0 <= frame < |vm.phys| && page < |vm.disk| then vm.(phys := vm.phys[frame := vm.disk[page]]) else vm;
    SetFrame(SetEntry(vm1, page, frame, READ), frame, Entry(page, vm.num, true, false))
      .(diskReads := vm.diskReads + 1, num := vm.num + 1, loads := vm.loads + [Load(page, frame)])
  }

  // page_fault_handler_rand, _fifo and _custom.
  function Handle(vm: Vm, page: nat, pick: nat): Outcome
    requires page < |vm.mapping| && page < |vm.bits|
  {
    var frame, bits := vm.mapping[page], vm.bits[page];
    if IsPageInMemory(vm, page, bits) then
      if 0 <= frame < |vm.core| && vm.core[frame].page == page then Ok(SetPerms(vm, page, frame, bits)) else AssertFailed
    else match Evict(vm.(faults := vm.faults + 1), pick)
      case NoVictim => AssertFailed
      case Evicted(vm1, f) =>
        match vm.policy
        case Rand => Ok(LoadPage(vm1, page, f))
        case Fifo => Ok(LoadPage(vm1, page, f).(queue := vm1.queue + [f]))
        case Custom =>
          var out := if 0 <= f < |vm1.core| then vm1.core[f].page else -1;
          Ok(SetNotUsed(LoadPage(vm1, page, f).(inMem := vm1.inMem - {out} + {page}), f, 0))
  }

  // ---------- The program's accesses ----------

  // Try: the program executes a load or store; if the page's bits forbid it, the fault handler runs
  // and the instruction is retried later.  Clock: the timer of the custom policy.
  datatype Event =
    | TryRead(page: nat, offset: nat, pick: nat)
    | TryWrite(page: nat, offset: nat, word: Word, pick: nat)
    | Clock

  predicate Allowed(vm: Vm, page: nat, write: bool) {
    page < |vm.bits| && (vm.bits[page] == READ_WRITE || (!write && vm.bits[page] == READ))
  }

  const PAGE_SIZE := 4096

  predicate InRange(vm: Vm, e: Event) {
    match e
    case TryRead(p, o, _) => p < NPages(vm) && o < PAGE_SIZE
    case TryWrite(p, o, _, _) => p < NPages(vm) && o < PAGE_SIZE
    case Clock => vm.policy == Custom
  }

  // The word at an offset of the frame that a page is mapped to.
  function PhysAt(vm: Vm, page: nat, offset: nat): Word {
    var f := if page < |vm.mapping| then vm.mapping[page] else -1;
    if 0 <= f < |vm.phys| && offset < |vm.phys[f]| then vm.phys[f][offset] else 0
  }

  function Store(vm: Vm, page: nat, offset: nat, word: Word): Vm {
    var f := if page < |vm.mapping| then vm.mapping[page] else -1;
    if 0 <= f < |vm.phys| && offset < |vm.phys[f]| then vm.(phys := vm.phys[f := vm.phys[f][offset := word]]) else vm
  }

  // What the program sees of a step: a word read, a word written, or nothing yet.
  datatype Seen = Got(page: nat, offset: nat, word: Word) | Put(page: nat, offset: nat, word: Word) | Nothing

  function Step(vm: Vm, e: Event): (Outcome, Seen)
    requires InRange(vm, e) && |vm.mapping| == |vm.bits|
  {
    match e
    case TryRead(p, o, pick) =>
      if Allowed(vm, p, false) then (Ok(vm), Got(p, o, PhysAt(vm, p, o))) else (Handle(vm, p, pick), Nothing)
    case TryWrite(p, o, w, pick) =>
      if Allowed(vm, p, true) then (Ok(Store(vm, p, o, w)), Put(p, o, w)) else (Handle(vm, p, pick), Nothing)
    case Clock => (Ok(Tick(vm)), Nothing)
  }

  // main before the program starts; mapping is the uninitialised page_mapping array.
  function Start(policy: Policy, nframes: nat, disk: seq<seq<Word>>, mapping: seq<int>, phys: seq<seq<Word>>): Vm {
    Vm(policy, mapping, seq(|disk|, _ => NONE),
       seq(nframes, i => Entry(-1, i, true, false)), nframes,
       if policy == Custom then seq(nframes, _ => 0) else [], {}, [], 0, 0, 0, phys, disk, [])
  }
}
