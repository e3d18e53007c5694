// Paging looks like flat memory; what every fault, access and clock tick keeps.

module PagingProof {
  import opened Paging

  // The page is in the frame that the page table names.
  predicate Resident(vm: Vm, p: int) {
    0 <= p < |vm.mapping| && 0 <= vm.mapping[p] < |vm.core| && vm.core[vm.mapping[p]].page == p
  }

  predicate Sizes(vm: Vm) {
    && |vm.mapping| == |vm.bits| == |vm.disk| && |vm.core| == |vm.phys| && NFrames(vm) >= 1
    && (forall p :: 0 <= p < |vm.disk| ==> |vm.disk[p]| == PAGE_SIZE)
    && (forall f :: 0 <= f < |vm.phys| ==> |vm.phys[f]| == PAGE_SIZE)
    && (vm.policy == Custom ==> |vm.notUsed| == |vm.core|)
  }

  // Frames are filled in order; a filled frame is the one its page is mapped to, and if it is clean
  // the disk has the same contents.
  predicate FrameOk(vm: Vm, f: int)
    requires Sizes(vm) && 0 <= f < |vm.core|
  {
    var e := vm.core[f];
    && (e.page == -1 <==> f >= vm.diskReads)
    && (e.page != -1 ==>
          && 0 <= e.page < |vm.mapping| && vm.mapping[e.page] == f
          && (!e.dirty ==> vm.phys[f] == vm.disk[e.page]))
    && e.ts < vm.num
    && (vm.policy == Custom ==> vm.notUsed[f] >= 0 && (e.used ==> vm.notUsed[f] == 0))
    && (vm.policy != Custom ==> e.used)
  }

  // The bits of a page follow from the core map: none unless it is resident and used since the last
  // tick, and write permission once it is dirty.
  function BitsOf(vm: Vm, p: int): Bits {
    if Resident(vm, p) && vm.core[vm.mapping[p]].used then Perms(vm.core[vm.mapping[p]]) else NONE
  }

  predicate PageOk(vm: Vm, p: int)
    requires 0 <= p < |vm.bits|
  {
    vm.bits[p] == BitsOf(vm, p) && (p in vm.inMem <==> vm.policy == Custom && Resident(vm, p))
  }

  predicate CountsOk(vm: Vm) {
    && 0 <= vm.faults == vm.diskReads == |vm.loads|
    && vm.num == NFrames(vm) + vm.diskReads
    && 0 <= vm.diskWrites && (vm.diskWrites == 0 || vm.diskWrites <= vm.faults - NFrames(vm))
  }

  predicate StampsDiffer(vm: Vm) {
    forall f, f' :: 0 <= f < f' < |vm.core| ==> vm.core[f].ts != vm.core[f'].ts
  }

  // frame_queue holds the filled frames, the one filled longest ago first.
  predicate QueueOk(vm: Vm) {
    var n, k := NFrames(vm), vm.diskReads;
    vm.policy == Fifo ==>
      if 0 <= k <= n then vm.queue == UpTo(k) else |vm.queue| == n && forall i :: 0 <= i < n ==> vm.queue[i] == (k + i) % n
  }

  ghost predicate VmOk(vm: Vm) {
    && Sizes(vm) && CountsOk(vm) && StampsDiffer(vm)
    && (forall f :: 0 <= f < |vm.core| ==> FrameOk(vm, f))
    && (forall p :: 0 <= p < |vm.bits| ==> PageOk(vm, p))
  }

  // ---------- What the program should see ----------

  function PageContent(vm: Vm, p: int): seq<Word> {
    if Resident(vm, p) then (if 0 <= vm.mapping[p] < |vm.phys| then vm.phys[vm.mapping[p]] else [])
    else if 0 <= p < |vm.disk| then vm.disk[p] else []
  }

  function Flat(vm: Vm): (m: seq<seq<Word>>)
    ensures |m| == NPages(vm)
    ensures forall p :: 0 <= p < |m| ==> m[p] == PageContent(vm, p)
  {
    seq(NPages(vm), p => PageContent(vm, p))
  }

  lemma StartOk(policy: Policy, nframes: nat, disk: seq<seq<Word>>, mapping: seq<int>, phys: seq<seq<Word>>)
    requires nframes >= 1 && |mapping| == |disk| && |phys| == nframes
    requires (forall p :: 0 <= p < |disk| ==> |disk[p]| == PAGE_SIZE) && (forall f :: 0 <= f < nframes ==> |phys[f]| == PAGE_SIZE)
    ensures VmOk(Start(policy, nframes, disk, mapping, phys)) && Flat(Start(policy, nframes, disk, mapping, phys)) == disk
  {
  }

  // ---------- Accesses ----------

  lemma ReadSees(vm: Vm, p: nat, o: nat)
    requires VmOk(vm) && p < NPages(vm) && o < PAGE_SIZE && Allowed(vm, p, false)
    ensures PhysAt(vm, p, o) == Flat(vm)[p][o]
  {
    assert PageOk(vm, p);
  }

  lemma StoreOk(vm: Vm, p: nat, o: nat, w: Word)
    requires VmOk(vm) && p < NPages(vm) && o < PAGE_SIZE && Allowed(vm, p, true)
    ensures |Flat(vm)[p]| == PAGE_SIZE
    ensures VmOk(Store(vm, p, o, w)) && Flat(Store(vm, p, o, w)) == Flat(vm)[p := Flat(vm)[p][o := w]]
  {
    assert PageOk(vm, p);
    var f, vm' := vm.mapping[p], Store(vm, p, o, w);
    assert FrameOk(vm, f);
    forall g | 0 <= g < |vm'.core| ensures FrameOk(vm', g) { assert FrameOk(vm, g); }
    forall q | 0 <= q < |vm'.bits| ensures PageOk(vm', q) { assert PageOk(vm, q); }
    forall q | 0 <= q < NPages(vm) ensures Flat(vm')[q] == if q == p then Flat(vm)[p][o := w] else Flat(vm)[q] {
      if q != p && Resident(vm, q) { assert vm.mapping[q] != f; }
    }
  }

  // ---------- A fault on a page that is in memory ----------

  lemma SetPermsOk(vm: Vm, p: nat, pick: nat)
    requires VmOk(vm) && p < NPages(vm) && Resident(vm, p) && vm.bits[p] != READ_WRITE
    ensures var r := Handle(vm, p, pick);
      && r.Ok? && VmOk(r.vm) && Flat(r.vm) == Flat(vm) && r.vm.queue == vm.queue && r.vm.loads == vm.loads
      && r.vm == SetPerms(vm, p, vm.mapping[p], vm.bits[p]) && r.vm.diskReads == vm.diskReads && r.vm.policy == vm.policy
      && Resident(r.vm, p) && r.vm.bits[p] == (if vm.bits[p] == NONE then Perms(vm.core[vm.mapping[p]]) else READ_WRITE)
  {
    assert PageOk(vm, p);
    var f, vm' := vm.mapping[p], SetPerms(vm, p, vm.mapping[p], vm.bits[p]);
    assert FrameOk(vm, f);
    forall g | 0 <= g < |vm'.core| ensures FrameOk(vm', g) { assert FrameOk(vm, g); }
    forall q | 0 <= q < |vm'.bits| ensures PageOk(vm', q) && PageContent(vm', q) == PageContent(vm, q) {
      assert PageOk(vm, q);
    }
  }

  // ---------- Which frame is evicted ----------

  lemma {:induction false} UpToIs(n: nat)
    ensures |UpTo(n)| == n && forall i :: 0 <= i < n ==> UpTo(n)[i] == i
  {
    if n > 0 { UpToIs(n - 1); }
  }

  lemma {:induction false} UnusedIs(notUsed: seq<int>, k: int, n: nat)
    requires n <= |notUsed|
    ensures forall f :: f in UnusedUpTo(notUsed, k, n) <==> 0 <= f < n && notUsed[f] >= k
  {
    if n > 0 { UnusedIs(notUsed, k, n - 1); }
  }

  // The frames the clock has caught unused, or all frames if it has caught none.
  predicate Idle(notUsed: seq<int>, k: int, f: int) {
    0 <= f < |notUsed| && (notUsed[f] >= k || forall g :: 0 <= g < |notUsed| ==> notUsed[g] < k)
  }

  lemma NotRecentlyUsedIs(notUsed: seq<int>, k: int)
    ensures forall f :: f in NotRecentlyUsed(notUsed, k) <==> Idle(notUsed, k, f)
    ensures notUsed != [] ==> NotRecentlyUsed(notUsed, k) != []
  {
    var n := |notUsed|;
    UnusedIs(notUsed, k, n);
    UpToIs(n);
    forall f ensures f in UpTo(n) <==> 0 <= f < n { if 0 <= f < n { assert UpTo(n)[f] == f; } }
    var s := UnusedUpTo(notUsed, k, n);
    if s == [] {
      forall g | 0 <= g < n ensures notUsed[g] < k { assert g in s <==> notUsed[g] >= k; }
    } else {
      var g := s[0];
      assert g in s && notUsed[g] >= k;
    }
  }

  lemma {:induction false} EvictableOfIs(core: seq<Entry>, num: int, frames: seq<int>)
    ensures forall f :: f in EvictableOf(core, num, frames) <==> f in frames && Evictable(core, num, f)
  {
    if frames != [] {
      var m := |frames| - 1;
      EvictableOfIs(core, num, frames[..m]);
      assert frames == frames[..m] + [frames[m]];
    }
  }

  // The frame is clean, or since its page-in four timestamps have been given out for every frame.
  predicate Dispensable(core: seq<Entry>, num: int, f: int) {
    0 <= f < |core| && (!core[f].dirty || core[f].ts + 4 * |core| <= num)
  }

  // Candidates of the custom policy: of the idle frames those that are clean or too old, or all idle
  // frames if there are none.
  ghost predicate Candidate(core: seq<Entry>, num: int, notUsed: seq<int>, f: int) {
    && Idle(notUsed, 1, f)
    && (Dispensable(core, num, f) || forall g :: Idle(notUsed, 1, g) ==> !Dispensable(core, num, g))
  }

  lemma FilterDirtyIs(core: seq<Entry>, num: int, frames: seq<int>)
    ensures forall f :: f in FilterDirty(core, num, frames) <==>
      f in frames && (Dispensable(core, num, f) || forall g :: g in frames ==> !Dispensable(core, num, g))
    ensures frames != [] ==> FilterDirty(core, num, frames) != []
  {
    EvictableOfIs(core, num, frames);
    var s := EvictableOf(core, num, frames);
    if s == [] {
      forall g | g in frames ensures !Dispensable(core, num, g) { assert g in s <==> Evictable(core, num, g); }
    } else {
      var g := s[0];
      assert g in s && g in frames && Dispensable(core, num, g);
    }
  }

  lemma CandidatesAre(core: seq<Entry>, num: int, notUsed: seq<int>)
    ensures var s := FilterDirty(core, num, NotRecentlyUsed(notUsed, 1));
      (forall f :: f in s <==> Candidate(core, num, notUsed, f)) && (notUsed != [] ==> s != [])
  {
    NotRecentlyUsedIs(notUsed, 1);
    FilterDirtyIs(core, num, NotRecentlyUsed(notUsed, 1));
  }

  // Place i of the list holds the first of the frames with the least timestamp.
  predicate OldestAt(core: seq<Entry>, frames: seq<int>, i: int) {
    && (forall k :: 0 <= k < |frames| ==> 0 <= frames[k] < |core|) && 0 <= i < |frames|
    && (forall j :: 0 <= j < i ==> core[frames[i]].ts < core[frames[j]].ts)
    && (forall j :: i < j < |frames| ==> core[frames[i]].ts <= core[frames[j]].ts)
  }

  lemma {:induction false} GetFifoAt(core: seq<Entry>, frames: seq<int>) returns (i: int)
    requires frames != [] && forall k :: 0 <= k < |frames| ==> 0 <= frames[k] < |core|
    ensures OldestAt(core, frames, i) && GetFifo(core, frames) == frames[i]
  {
    var m := |frames| - 1;
    i := m;
    if m > 0 {
      var rest := frames[..m];
      i := GetFifoAt(core, rest);
      assert rest[i] == frames[i] && forall j :: 0 <= j < m ==> rest[j] == frames[j];
      if core[frames[m]].ts < core[frames[i]].ts { i := m; }
    }
  }

  lemma GetFifoIs(core: seq<Entry>, frames: seq<int>)
    requires frames != [] && forall f :: f in frames ==> 0 <= f < |core|
    ensures var v := GetFifo(core, frames); v in frames && forall f :: f in frames ==> core[v].ts <= core[f].ts
  {
    assert forall k :: 0 <= k < |frames| ==> frames[k] in frames;
    var i := GetFifoAt(core, frames);
  }

  // The custom policy's victim is the one candidate with the oldest timestamp.
  lemma CustomVictim(vm: Vm, pick: nat)
    requires VmOk(vm) && vm.policy == Custom
    ensures var v := Victim(vm, pick);
      && Candidate(vm.core, vm.num, vm.notUsed, v)
      && (forall f :: Candidate(vm.core, vm.num, vm.notUsed, f) && f != v ==> vm.core[v].ts < vm.core[f].ts)
  {
    var s := FilterDirty(vm.core, vm.num, NotRecentlyUsed(vm.notUsed, 1));
    CandidatesAre(vm.core, vm.num, vm.notUsed);
    GetFifoIs(vm.core, s);
  }

  // If some frame has been idle for a tick, the victim has not been used since the last tick.
  lemma VictimIdle(vm: Vm, pick: nat)
    requires VmOk(vm) && vm.policy == Custom && exists g :: 0 <= g < |vm.notUsed| && vm.notUsed[g] >= 1
    ensures var v := Victim(vm, pick); 0 <= v < |vm.core| && vm.notUsed[v] >= 1 && !vm.core[v].used
  {
    CustomVictim(vm, pick);
    assert FrameOk(vm, Victim(vm, pick));
  }

  lemma VictimInRange(vm: Vm, pick: nat)
    requires VmOk(vm) && QueueOk(vm) && vm.diskReads >= NFrames(vm)
    ensures 0 <= Victim(vm, pick) < |vm.core|
    ensures vm.policy == Fifo ==> vm.queue != [] && Victim(vm, pick) == vm.diskReads % NFrames(vm)
  {
    if vm.policy == Custom { CustomVictim(vm, pick); }
    if vm.policy == Fifo {
      UpToIs(NFrames(vm));
      if vm.diskReads == NFrames(vm) { assert vm.queue[0] == 0; }
    }
  }

  // ---------- A fault on a page that is not in memory ----------

  // The page goes to frame f; what was there goes to the disk if it is dirty.
  ghost predicate PagedIn(vm: Vm, vm': Vm, p: int, f: int)
    requires Sizes(vm) && 0 <= p < NPages(vm) && 0 <= f < NFrames(vm)
  {
    var e := vm.core[f];
    && (e.page != -1 ==> 0 <= e.page < NPages(vm))
    && vm'.policy == vm.policy && vm'.num == vm.num + 1
    && vm'.faults == vm.faults + 1 && vm'.diskReads == vm.diskReads + 1
    && vm'.loads == vm.loads + [Load(p, f)]
    && vm'.core == vm.core[f := Entry(p, vm.num, true, false)]
    && vm'.mapping == (if e.page == -1 then vm.mapping else vm.mapping[e.page := 0])[p := f]
    && vm'.bits == (if e.page == -1 then vm.bits else vm.bits[e.page := NONE])[p := READ]
    && vm'.disk == (if e.page != -1 && e.dirty then vm.disk[e.page := vm.phys[f]] else vm.disk)
    && vm'.diskWrites == vm.diskWrites + (if e.page != -1 && e.dirty then 1 else 0)
    && vm'.phys == vm.phys[f := vm'.disk[p]]
    && vm'.inMem == (if vm.policy == Custom then vm.inMem - {e.page} + {p} else vm.inMem)
    && vm'.notUsed == (if vm.policy == Custom then vm.notUsed[f := 0] else vm.notUsed)
    && vm'.queue == if vm.policy == Fifo then (if vm.diskReads < NFrames(vm) || vm.queue == [] then vm.queue else vm.queue[1..]) + [f] else vm.queue
  }

  // The frame the next page-in takes.
  function NextFrame(vm: Vm, pick: nat): int {
    if vm.diskReads < NFrames(vm) then vm.diskReads else Victim(vm, pick)
  }

  // The choice does not depend on the fault counter.
  lemma VictimAlone(vm: Vm, pick: nat)
    ensures Victim(vm.(faults := vm.faults + 1), pick) == Victim(vm, pick)
  {
  }

  lemma HandlePagesIn(vm: Vm, p: nat, pick: nat)
    requires VmOk(vm) && QueueOk(vm) && p < NPages(vm) && !Resident(vm, p)
    ensures var f, r := NextFrame(vm, pick), Handle(vm, p, pick);
      && 0 <= f < NFrames(vm) && (vm.core[f].page == -1 <==> vm.diskReads < NFrames(vm))
      && r.Ok? && PagedIn(vm, r.vm, p, f)
  {
    hide StampsDiffer, Victim;
    assert PageOk(vm, p);
    if vm.diskReads >= NFrames(vm) { VictimInRange(vm, pick); VictimAlone(vm, pick); }
    var f := NextFrame(vm, pick);
    assert FrameOk(vm, f);
  }

  lemma PagedInFrames(vm: Vm, vm': Vm, p: int, f: int)
    requires VmOk(vm) && 0 <= p < NPages(vm) && !Resident(vm, p) && 0 <= f < NFrames(vm)
    requires (vm.core[f].page == -1 <==> vm.diskReads < NFrames(vm)) && (vm.diskReads < NFrames(vm) ==> f == vm.diskReads)
    requires PagedIn(vm, vm', p, f)
    ensures Sizes(vm') && CountsOk(vm') && StampsDiffer(vm')
    ensures forall g :: 0 <= g < |vm'.core| ==> FrameOk(vm', g)
  {
    assert FrameOk(vm, f);
    forall g | 0 <= g < |vm'.core| ensures FrameOk(vm', g) && vm.core[g].ts < vm.num { assert FrameOk(vm, g); }
  }

  lemma PagedInPages(vm: Vm, vm': Vm, p: int, f: int)
    requires VmOk(vm) && 0 <= p < NPages(vm) && !Resident(vm, p) && 0 <= f < NFrames(vm)
    requires (vm.core[f].page == -1 <==> vm.diskReads < NFrames(vm)) && PagedIn(vm, vm', p, f)
    ensures |vm'.bits| == NPages(vm)
    ensures forall q :: 0 <= q < NPages(vm) ==>
      PageOk(vm', q) && PageContent(vm', q) == PageContent(vm, q)
      && (Resident(vm', q) <==> q == p || (Resident(vm, q) && q != vm.core[f].page))
  {
    hide StampsDiffer, CountsOk;
    assert FrameOk(vm, f);
    forall q | 0 <= q < NPages(vm)
      ensures PageOk(vm', q) && PageContent(vm', q) == PageContent(vm, q)
      ensures Resident(vm', q) <==> q == p || (Resident(vm, q) && q != vm.core[f].page)
    {
      assert PageOk(vm, q);
      if vm.core[0].page != -1 { assert FrameOk(vm, 0); }
    }
  }

  lemma PageInOk(vm: Vm, p: nat, pick: nat)
    requires VmOk(vm) && QueueOk(vm) && p < NPages(vm) && !Resident(vm, p)
    ensures var f, r := NextFrame(vm, pick), Handle(vm, p, pick);
      && 0 <= f < NFrames(vm) && r.Ok? && PagedIn(vm, r.vm, p, f)
      && VmOk(r.vm) && Flat(r.vm) == Flat(vm) && Resident(r.vm, p) && r.vm.bits[p] == READ
  {
    hide PagedIn, FrameOk, PageOk, CountsOk, StampsDiffer, PageContent;
    HandlePagesIn(vm, p, pick);
    var f, vm' := NextFrame(vm, pick), Handle(vm, p, pick).vm;
    PagedInFrames(vm, vm', p, f);
    PagedInPages(vm, vm', p, f);
    assert Flat(vm') == Flat(vm);
    PagedInBits(vm, vm', p, f);
  }

  lemma PagedInBits(vm: Vm, vm': Vm, p: int, f: int)
    requires Sizes(vm) && 0 <= p < NPages(vm) && 0 <= f < NFrames(vm) && PagedIn(vm, vm', p, f)
    ensures p < |vm'.bits| && vm'.bits[p] == READ
  {
  }

  // ---------- The clock ----------

  // The clock has looked at the first n frames: those used since the last tick lose their page's
  // permissions, the others have been idle once more.
  ghost predicate Ticked(vm: Vm, v: Vm, n: int)
    requires Sizes(vm) && vm.policy == Custom && 0 <= n <= |vm.core|
  {
    && v == vm.(core := v.core, notUsed := v.notUsed, bits := v.bits)
    && |v.core| == |vm.core| && |v.notUsed| == |vm.notUsed| && |v.bits| == |vm.bits|
    && (forall i :: 0 <= i < |vm.core| ==>
          var e, seen := vm.core[i], i < n && vm.core[i].page != -1;
          && v.core[i] == (if seen then e.(used := false) else e)
          && v.notUsed[i] == if !seen then vm.notUsed[i] else if e.used then 0 else vm.notUsed[i] + 1)
    && (forall p :: 0 <= p < |vm.bits| ==>
          v.bits[p] == if Resident(vm, p) && vm.mapping[p] < n && vm.core[vm.mapping[p]].used then NONE else vm.bits[p])
  }

  lemma {:induction false} TickFramesIs(vm: Vm, n: nat)
    requires VmOk(vm) && vm.policy == Custom && n <= |vm.core|
    ensures Ticked(vm, TickFrames(vm, n), n)
  {
    if n > 0 {
      TickFramesIs(vm, n - 1);
      assert FrameOk(vm, n - 1);
      TickFrame(vm, TickFrames(vm, n - 1), n - 1);
    }
  }

  lemma TickFrame(vm: Vm, v: Vm, i: nat)
    requires Sizes(vm) && vm.policy == Custom && i < |vm.core| && FrameOk(vm, i) && Ticked(vm, v, i)
    ensures var e := v.core[i];
      Ticked(vm, if e.page == -1 then v
                 else if e.used then SetEntry(SetFrame(SetNotUsed(v, i, 0), i, e.(used := false)), e.page, i, NONE)
                 else SetNotUsed(v, i, v.notUsed[i] + 1), i + 1)
  {
    var e := v.core[i];
    if e.page != -1 && e.used {
      assert vm.mapping[e.page := i] == vm.mapping;
    }
  }

  lemma TickOk(vm: Vm)
    requires VmOk(vm) && vm.policy == Custom
    ensures VmOk(Tick(vm)) && Flat(Tick(vm)) == Flat(vm)
    ensures Tick(vm).queue == vm.queue && Tick(vm).loads == vm.loads && Tick(vm).diskReads == vm.diskReads
    ensures NFrames(Tick(vm)) == NFrames(vm) && NPages(Tick(vm)) == NPages(vm) && Tick(vm).policy == vm.policy
  {
    var v := Tick(vm);
    TickFramesIs(vm, |vm.core|);
    forall f | 0 <= f < |v.core| ensures FrameOk(v, f) { assert FrameOk(vm, f); }
    forall q | 0 <= q < |v.bits| ensures PageOk(v, q) && PageContent(v, q) == PageContent(vm, q) {
      assert PageOk(vm, q);
    }
  }
}
