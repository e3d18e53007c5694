// The paging system as a program: the globals of project_3/main.cpp, the core map entries and the
// page table arrays are updated in place.

module PagingProgram {
  import opened Paging
  import opened PagingProof
  import opened PagingRuns

  // coremap.h; the static counter num is a field of VirtualMemory.
  class CoreMapEntry {
    var pageNumber: int
    var ts: int
    var used: bool
    var dirty: bool

    ghost function Value(): Entry
      reads this
    {
      Entry(pageNumber, ts, used, dirty)
    }

    constructor (ts: int)
      ensures Value() == Entry(-1, ts, true, false)
    {
      pageNumber, this.ts, used, dirty := -1, ts, true, false;
    }

    // assignNewPage; num is the static counter of timestamps.
    method AssignNewPage(page: int, num: int)
      modifies this
      ensures Value() == Entry(page, num, true, false)
    {
      pageNumber, ts, used, dirty := page, num, true, false;
    }

    method GetPerms() returns (bits: Bits)
      ensures bits == Perms(Value())
    {
      return if dirty then READ_WRITE else READ;
    }
  }

  class VirtualMemory {
    const policy: Policy
    const pageMapping: array<int>
    const pageBits: array<Bits>
    const coreMap: seq<CoreMapEntry>
    var num: int
    const notUsed: array<int>
    var pagesInMem: set<int>
    var frameQueue: seq<int>
    var pageFaults: int
    var diskReads: int
    var diskWrites: int
    const physmem: array<seq<Word>>
    const disk: array<seq<Word>>
    ghost var loads: seq<Load>

    ghost predicate Valid() {
      && (forall i, j :: 0 <= i < j < |coreMap| ==> coreMap[i] != coreMap[j])
      && pageMapping != notUsed && physmem != disk
    }

    ghost function Core(): (r: seq<Entry>)
      reads coreMap
      ensures |r| == |coreMap| && forall i :: 0 <= i < |coreMap| ==> r[i] == coreMap[i].Value()
    {
      seq(|coreMap|, i requires 0 <= i < |coreMap| reads coreMap => coreMap[i].Value())
    }

    ghost function Model(): Vm
      reads this, pageMapping, pageBits, coreMap, notUsed, physmem, disk
    {
      Vm(policy, pageMapping[..], pageBits[..], Core(), num, notUsed[..], pagesInMem, frameQueue,
         pageFaults, diskReads, diskWrites, physmem[..], disk[..], loads)
    }

    // The initialisations of main and page_table_create; physmem and page_mapping are left as they are.
    constructor (policy: Policy, nframes: nat, disk: array<seq<Word>>, physmem: array<seq<Word>>)
      requires nframes >= 1 && physmem.Length == nframes && disk != physmem
      requires (forall p :: 0 <= p < disk.Length ==> |disk[p]| == PAGE_SIZE) && (forall f :: 0 <= f < nframes ==> |physmem[f]| == PAGE_SIZE)
      ensures Valid() && this.policy == policy && this.disk == disk && this.physmem == physmem
      ensures fresh(pageMapping) && fresh(pageBits) && fresh(notUsed) && (forall e :: e in coreMap ==> fresh(e))
      ensures Model() == Start(policy, nframes, disk[..], pageMapping[..], physmem[..]) && AllOk(Model()) && Flat(Model()) == disk[..]
    {
      this.policy, this.disk, this.physmem := policy, disk, physmem;
      var core: seq<CoreMapEntry> := [];
      for i := 0 to nframes
        invariant |core| == i && forall j :: 0 <= j < i ==> fresh(core[j]) && core[j].Value() == Entry(-1, j, true, false)
        invariant forall j, k :: 0 <= j < k < i ==> core[j] != core[k]
      {
        var e := new CoreMapEntry(i);
        core := core + [e];
      }
      pageMapping := new int[disk.Length];
      pageBits := new Bits[disk.Length](_ => NONE);
      notUsed := new int[if policy == Custom then nframes else 0](_ => 0);
      coreMap, num := core, nframes;
      pagesInMem, frameQueue, loads := {}, [], [];
      pageFaults, diskReads, diskWrites := 0, 0, 0;
      new;
      StartOk(policy, nframes, disk[..], pageMapping[..], physmem[..]);
      ghost var vm := Start(policy, nframes, disk[..], pageMapping[..], physmem[..]);
      assert Core() == vm.core && pageBits[..] == vm.bits && notUsed[..] == vm.notUsed;
    }

    // page_table_set_entry.
    method SetEntry(page: int, frame: int, bits: Bits)
      requires Valid() && 0 <= page < pageMapping.Length == pageBits.Length
      modifies pageMapping, pageBits
      ensures Model() == Paging.SetEntry(old(Model()), page, frame, bits)
    {
      pageMapping[page] := frame;
      pageBits[page] := bits;
    }

    method TimerHandler()
      requires Valid() && VmOk(Model()) && policy == Custom
      modifies pageMapping, pageBits, coreMap, notUsed
      ensures Model() == Tick(old(Model()))
    {
      hide VmOk, TickFrames;
      ghost var vm := Model();
      SizesOk(vm);
      TickNone(vm);
      for i := 0 to |coreMap|
        invariant Model() == TickFrames(vm, i)
      {
        TickNext(vm, i);
        if coreMap[i].pageNumber != -1 {
          if coreMap[i].used {
            notUsed[i] := 0;
            coreMap[i].used := false;
            assert Core() == TickFrames(vm, i).core[i := coreMap[i].Value()];
            SetEntry(coreMap[i].pageNumber, i, NONE);
          } else {
            notUsed[i] := notUsed[i] + 1;
          }
        }
      }
    }

    method NotRecentlyUsed(k: int) returns (frames: seq<int>)
      ensures frames == Paging.NotRecentlyUsed(notUsed[..], k)
    {
      frames := [];
      for i := 0 to notUsed.Length
        invariant frames == UnusedUpTo(notUsed[..], k, i)
      {
        if notUsed[i] >= k { frames := frames + [i]; }
      }
      if frames == [] {
        for i := 0 to notUsed.Length
          invariant frames == UpTo(i)
        {
          frames := frames + [i];
        }
      }
    }

    method FilterDirty(frames: seq<int>) returns (r: seq<int>)
      requires forall f :: f in frames ==> 0 <= f < |coreMap|
      ensures r == Paging.FilterDirty(Core(), num, frames)
      ensures forall f :: f in r <==>
        f in frames && (Dispensable(Core(), num, f) || forall g :: g in frames ==> !Dispensable(Core(), num, g))
    {
      FilterDirtyIs(Core(), num, frames);
      r := [];
      for i := 0 to |frames|
        invariant r == EvictableOf(Core(), num, frames[..i])
      {
        assert frames[..i + 1][..i] == frames[..i] && frames[i] in frames;
        var e := coreMap[frames[i]];
        if !e.dirty || num - e.ts >= 4 * |coreMap| { r := r + [frames[i]]; }
      }
      assert frames[..|frames|] == frames;
      if r == [] { r := frames; }
    }

    method GetFifo(frames: seq<int>) returns (frame: int)
      requires forall f :: f in frames ==> 0 <= f < |coreMap|
      ensures frame == Paging.GetFifo(Core(), frames)
      ensures frames != [] ==> exists i :: OldestAt(Core(), frames, i) && frame == frames[i]
    {
      assert forall k :: 0 <= k < |frames| ==> frames[k] in frames;
      if frames != [] { ghost var first := GetFifoAt(Core(), frames); }
      frame := -1;
      for i := 0 to |frames|
        invariant frame == Paging.GetFifo(Core(), frames[..i]) && (frame == -1 || 0 <= frame < |coreMap|)
      {
        assert frames[..i + 1][..i] == frames[..i] && frames[i] in frames;
        if frame == -1 || coreMap[frames[i]].ts < coreMap[frame].ts { frame := frames[i]; }
      }
      assert frames[..|frames|] == frames;
    }

    // get_frame_to_be_evicted_random_policy, _fifo_policy and _custom_policy; pick is rand().
    method FrameToBeEvicted(pick: nat, ghost vm: Vm) returns (frame: int)
      requires Valid() && AllOk(vm) && Model() == vm.(faults := pageFaults) && diskReads >= |coreMap|
      modifies this`frameQueue
      ensures frame == Victim(vm, pick) && 0 <= frame < |coreMap|
      ensures frameQueue == if policy == Fifo then old(frameQueue)[1..] else old(frameQueue)
      ensures policy == Fifo ==> old(frameQueue) != []
    {
      hide VmOk, QueueOk, RoundRobin;
      VictimInRange(vm, pick);
      SizesOk(vm);
      match policy
      case Rand => return pick % |coreMap|;
      case Fifo =>
        assert frameQueue != [];
        frame := frameQueue[0];
        frameQueue := frameQueue[1..];
      case Custom =>
        CandidatesInRange(vm);
        var idle := NotRecentlyUsed(1);
        var candidates := FilterDirty(idle);
        frame := GetFifo(candidates);
    }

    // vm is the state before page_faults was increased.
    method EvictFrameFromMemory(pick: nat, ghost vm: Vm) returns (frame: int)
      requires Valid() && AllOk(vm) && Model() == vm.(faults := pageFaults)
      modifies this`frameQueue, this`diskWrites, pageMapping, pageBits, disk
      ensures Paging.Evict(old(Model()), pick) == Evicted(Model(), frame) && 0 <= frame < |coreMap|
    {
      hide VmOk, QueueOk, RoundRobin, Paging.Evict, Victim, Paging.SetEntry;
      ghost var vm0 := Model();
      SizesOk(vm);
      ReadsKnown(vm);
      EvictIs(vm0, pick);
      if diskReads < |coreMap| { return diskReads; }
      frame := FrameToBeEvicted(pick, vm);
      VictimSame(vm, pageFaults, pick);
      FramesKnown(vm, frame);
      assert coreMap[frame].pageNumber != -1;
      var perms := coreMap[frame].GetPerms();
      if perms == READ_WRITE {
        disk[coreMap[frame].pageNumber] := physmem[frame];
        diskWrites := diskWrites + 1;
      }
      assert Model() == WrittenBack(vm0, frame);
      SetEntry(coreMap[frame].pageNumber, 0, NONE);
    }

    method IsPageInMemory(page: int, bits: Bits) returns (r: bool)
      ensures r == Paging.IsPageInMemory(Model(), page, bits)
    {
      return page in pagesInMem || bits == READ;
    }

    method SetPerms(page: int, frame: int, bits: Bits)
      requires Valid() && 0 <= frame < |coreMap| && 0 <= page < pageMapping.Length == pageBits.Length
      requires bits == NONE ==> policy == Custom && notUsed.Length == |coreMap|
      modifies pageMapping, pageBits, coreMap, notUsed
      ensures Model() == Paging.SetPerms(old(Model()), page, frame, bits)
    {
      ghost var core := Core();
      var bitsToSet;
      coreMap[frame].used := true;
      if bits == NONE {
        bitsToSet := coreMap[frame].GetPerms();
        notUsed[frame] := 0;
      } else {
        bitsToSet := READ_WRITE;
        coreMap[frame].dirty := true;
      }
      assert Core() == core[frame := coreMap[frame].Value()];
      SetEntry(page, frame, bitsToSet);
    }

    // read_from_disk_and_set_pt_entry and assignNewPage.
    method LoadPage(page: nat, frame: int)
      requires Valid() && 0 <= frame < |coreMap| == physmem.Length && page < pageMapping.Length == pageBits.Length == disk.Length
      modifies this`num, this`diskReads, this`loads, pageMapping, pageBits, coreMap, physmem
      ensures Model() == Paging.LoadPage(old(Model()), page, frame)
    {
      ghost var core := Core();
      physmem[frame] := disk[page];
      SetEntry(page, frame, READ);
      diskReads := diskReads + 1;
      coreMap[frame].AssignNewPage(page, num);
      num := num + 1;
      loads := loads + [Load(page, frame)];
      assert Core() == core[frame := coreMap[frame].Value()];
    }

    // The bookkeeping of the three fault handlers for the page that is read into frame.
    method Occupy(page: nat, frame: nat)
      requires Valid() && frame < |coreMap| == physmem.Length && page < pageMapping.Length == pageBits.Length == disk.Length
      requires policy == Custom ==> notUsed.Length == |coreMap|
      modifies this`num, this`diskReads, this`loads, this`pagesInMem, this`frameQueue
      modifies pageMapping, pageBits, coreMap, notUsed, physmem
      ensures Model() == PagedBy(old(Model()), page, frame)
    {
      hide Paging.LoadPage;
      ghost var vm := Model();
      if policy == Custom { pagesInMem := pagesInMem - {coreMap[frame].pageNumber}; }
      SetAside(vm, page, frame, pagesInMem);
      LoadPage(page, frame);
      LoadKeeps(vm, page, frame);
      if policy == Fifo { frameQueue := frameQueue + [frame]; }
      if policy == Custom {
        pagesInMem := pagesInMem + {page};
        notUsed[frame] := 0;
      }
    }

    // The branch of the fault handlers for a page that is not in memory.
    method PageIn(page: nat, pick: nat, ghost vm: Vm)
      requires Valid() && AllOk(vm) && Model() == vm && page < pageBits.Length
      requires !Paging.IsPageInMemory(vm, page, vm.bits[page])
      modifies this, pageMapping, pageBits, coreMap, notUsed, physmem, disk
      ensures |vm.mapping| == |vm.bits| && Handle(vm, page, pick) == Ok(Model())
    {
      hide VmOk, QueueOk, RoundRobin, PagedBy, Paging.Evict, Handle;
      SizesOk(vm);
      pageFaults := pageFaults + 1;
      var frame := EvictFrameFromMemory(pick, vm);
      HandleIs(vm, page, pick, Model(), frame);
      Occupy(page, frame);
    }

    // page_fault_handler_rand, _fifo and _custom, called when an access is not allowed.
    method PageFaultHandler(page: nat, write: bool, pick: nat)
      requires Valid() && AllOk(Model()) && page < pageBits.Length && !Allowed(Model(), page, write)
      modifies this, pageMapping, pageBits, coreMap, notUsed, physmem, disk
      ensures |old(Model()).mapping| == |old(Model()).bits| && Handle(old(Model()), page, pick) == Ok(Model())
      ensures AllOk(Model()) && Flat(Model()) == old(Flat(Model()))
    {
      hide AllOk, Flat, Paging.SetPerms, Evict;
      ghost var vm := Model();
      HandlerReady(vm, page, write, pick);
      var frame, bits := pageMapping[page], pageBits[page];
      var inMemory := IsPageInMemory(page, bits);
      if inMemory {
        assert coreMap[frame].pageNumber == page;
        SetPerms(page, frame, bits);
      } else {
        PageIn(page, pick, vm);
      }
    }
  }

  lemma TickNone(vm: Vm)
    ensures TickFrames(vm, 0) == vm
  {
  }

  lemma TickNext(vm: Vm, i: nat)
    requires VmOk(vm) && vm.policy == Custom && i < |vm.core|
    ensures var v := TickFrames(vm, i);
      && |v.core| == |v.notUsed| == |vm.core| && |v.mapping| == |v.bits| && v.policy == Custom
      && (v.core[i].page != -1 ==> 0 <= v.core[i].page < |v.bits|)
      && TickFrames(vm, i + 1) ==
           if v.core[i].page == -1 then v
           else if v.core[i].used then
             Paging.SetEntry(SetFrame(SetNotUsed(v, i, 0), i, v.core[i].(used := false)), v.core[i].page, i, NONE)
           else SetNotUsed(v, i, v.notUsed[i] + 1)
  {
    TickFramesIs(vm, i);
    assert FrameOk(vm, i);
  }

  lemma CandidatesInRange(vm: Vm)
    requires VmOk(vm) && vm.policy == Custom
    ensures forall f :: f in Paging.NotRecentlyUsed(vm.notUsed, 1) ==> 0 <= f < |vm.core|
    ensures forall f :: f in Paging.FilterDirty(vm.core, vm.num, Paging.NotRecentlyUsed(vm.notUsed, 1)) ==> 0 <= f < |vm.core|
  {
    NotRecentlyUsedIs(vm.notUsed, 1);
    CandidatesAre(vm.core, vm.num, vm.notUsed);
  }

  lemma FramesKnown(vm: Vm, f: nat)
    requires VmOk(vm) && f < |vm.core|
    ensures vm.diskReads >= 0 && (vm.core[f].page == -1 <==> f >= vm.diskReads) && vm.core[f].page < |vm.disk|
    ensures vm.core[f].page != -1 ==> 0 <= vm.core[f].page
  {
    assert FrameOk(vm, f);
  }

  lemma NoBits(vm: Vm, page: nat)
    requires VmOk(vm) && page < NPages(vm) && Paging.IsPageInMemory(vm, page, vm.bits[page])
    ensures vm.bits[page] == NONE ==> vm.policy == Custom
    ensures Resident(vm, page)
  {
    assert PageOk(vm, page);
  }

  lemma ReadsKnown(vm: Vm)
    requires VmOk(vm)
    ensures vm.diskReads >= 0 && (vm.diskReads < |vm.core| ==> vm.core[vm.diskReads].page == -1)
  {
    if vm.diskReads < |vm.core| { assert FrameOk(vm, vm.diskReads); }
  }

  // Taking the old page off pages_in_mem before or after the page-in is the same.
  lemma SetAside(vm: Vm, page: nat, frame: int, inMem: set<int>)
    ensures Paging.LoadPage(vm.(inMem := inMem), page, frame) == Paging.LoadPage(vm, page, frame).(inMem := inMem)
  {
  }

  lemma HandlerReady(vm: Vm, page: nat, write: bool, pick: nat)
    requires AllOk(vm) && page < NPages(vm) && !Allowed(vm, page, write)
    ensures Sizes(vm)
    ensures Handle(vm, page, pick).Ok? && AllOk(Handle(vm, page, pick).vm) && Flat(Handle(vm, page, pick).vm) == Flat(vm)
    ensures Paging.IsPageInMemory(vm, page, vm.bits[page]) ==> Resident(vm, page)
    ensures Paging.IsPageInMemory(vm, page, vm.bits[page]) && vm.bits[page] == NONE ==> vm.policy == Custom
  {
    hide Flat, Handle;
    SizesOk(vm);
    HandleOk(vm, page, write, pick);
    if Paging.IsPageInMemory(vm, page, vm.bits[page]) { NoBits(vm, page); }
  }

  // The victim's frame has been written to the disk if it had to be.
  function WrittenBack(vm: Vm, f: int): Vm
    requires 0 <= f < |vm.core|
  {
    var e, vm1 := vm.core[f], if vm.policy == Fifo && vm.queue != [] then vm.(queue := vm.queue[1..]) else vm;
    if Perms(e) == READ_WRITE && 0 <= e.page < |vm.disk| && f < |vm.phys| then
      vm1.(disk := vm.disk[e.page := vm.phys[f]], diskWrites := vm.diskWrites + 1)
    else vm1
  }

  lemma EvictIs(vm: Vm, pick: nat)
    ensures var f := Victim(vm, pick);
      Paging.Evict(vm, pick) ==
        if vm.diskReads < NFrames(vm) then Evicted(vm, vm.diskReads)
        else if !(0 <= f < |vm.core|) || vm.core[f].page == -1 then NoVictim
        else Evicted(Paging.SetEntry(WrittenBack(vm, f), vm.core[f].page, 0, NONE), f)
  {
    hide Victim;
  }

  lemma VictimSame(vm: Vm, faults: int, pick: nat)
    ensures Victim(vm.(faults := faults), pick) == Victim(vm, pick)
  {
  }

  // The end of the fault handler.
  function PagedBy(vm: Vm, page: nat, f: nat): Vm
    requires f < |vm.core|
  {
    match vm.policy
    case Rand => Paging.LoadPage(vm, page, f)
    case Fifo => Paging.LoadPage(vm, page, f).(queue := vm.queue + [f])
    case Custom => SetNotUsed(Paging.LoadPage(vm, page, f).(inMem := vm.inMem - {vm.core[f].page} + {page}), f, 0)
  }

  lemma HandleIs(vm: Vm, page: nat, pick: nat, vm1: Vm, f: nat)
    requires page < |vm.mapping| == |vm.bits| && !Paging.IsPageInMemory(vm, page, vm.bits[page])
    requires Paging.Evict(vm.(faults := vm.faults + 1), pick) == Evicted(vm1, f) && f < |vm1.core| && vm1.policy == vm.policy
    ensures Handle(vm, page, pick) == Ok(PagedBy(vm1, page, f))
  {
    hide Paging.Evict, Paging.LoadPage;
  }

  lemma LoadKeeps(vm: Vm, page: nat, f: int)
    ensures var v := Paging.LoadPage(vm, page, f);
      v.queue == vm.queue && v.notUsed == vm.notUsed && v.policy == vm.policy && v.inMem == vm.inMem
  {
  }
}
