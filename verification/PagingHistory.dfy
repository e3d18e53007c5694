// What a run of the paging system has done to every frame, and the choice of the custom policy in terms
// of nothing else.

module PagingHistory {
  import opened Common
  import opened Paging
  import opened PagingProof
  import opened PagingRuns

  // What one step of a run was: a tick, a page-in, a resident page that got its permission back or that
  // is written to for the first time since its page-in, or an access that was allowed.
  datatype Mark = Timer | PageIn(page: nat, frame: int) | Restore(frame: int) | Dirty(frame: int) | Access

  function MarkAt(vm: Vm, p: nat, write: bool, vm': Vm): Mark {
    if Allowed(vm, p, write) then Access
    else if !Resident(vm, p) then PageIn(p, if p < |vm'.mapping| then vm'.mapping[p] else -1)
    else if p < |vm.bits| && vm.bits[p] == NONE then Restore(vm.mapping[p])
    else Dirty(vm.mapping[p])
  }

  function MarkOf(vm: Vm, e: Event, vm': Vm): Mark {
    match e
    case TryRead(p, _, _) => MarkAt(vm, p, false, vm')
    case TryWrite(p, _, _, _) => MarkAt(vm, p, true, vm')
    case Clock => Timer
  }

  function History(vm: Vm, events: seq<Event>): seq<Mark>
    requires |vm.mapping| == |vm.bits|
    decreases |events|
  {
    if events == [] || !InRange(vm, events[0]) then []
    else
      var r := Step(vm, events[0]).0;
      if r.AssertFailed? || |r.vm.mapping| != |r.vm.bits| then []
      else [MarkOf(vm, events[0], r.vm)] + History(r.vm, events[1..])
  }

  // ---------- Reading a history ----------

  function PageIns(h: seq<Mark>): seq<Load> {
    if h == [] then []
    else
      var m := h[|h| - 1];
      PageIns(h[..|h| - 1]) + if m.PageIn? then [Load(m.page, m.frame)] else []
  }

  // The index of the last page-in of frame f, -1 if there is none.
  function LastIndex(loads: seq<Load>, f: int): (k: int)
    ensures -1 <= k < |loads|
    ensures k >= 0 ==> loads[k].frame == f
    ensures forall i :: k < i < |loads| ==> loads[i].frame != f
  {
    if loads == [] then -1
    else if loads[|loads| - 1].frame == f then |loads| - 1
    else LastIndex(loads[..|loads| - 1], f)
  }

  // The page-ins since the last one of frame f, which is counted too.
  function Age(h: seq<Mark>, f: int): int { |PageIns(h)| - LastIndex(PageIns(h), f) }

  // The ticks since a fault last brought a page to frame f or gave its page permission back.
  function Ticks(h: seq<Mark>, f: int): nat {
    if h == [] then 0
    else
      var rest := h[..|h| - 1];
      match h[|h| - 1]
      case Timer => Ticks(rest, f) + 1
      case PageIn(_, g) => if g == f then 0 else Ticks(rest, f)
      case Restore(g) => if g == f then 0 else Ticks(rest, f)
      case _ => Ticks(rest, f)
  }

  // The page in frame f has been written to since its page-in.
  predicate Written(h: seq<Mark>, f: int) {
    if h == [] then false
    else
      var rest := h[..|h| - 1];
      match h[|h| - 1]
      case PageIn(_, g) => g != f && Written(rest, f)
      case Dirty(g) => g == f || Written(rest, f)
      case _ => Written(rest, f)
  }

  // The page-ins that replaced a page that had been written to.
  function WriteBacks(h: seq<Mark>): nat {
    if h == [] then 0
    else
      var rest := h[..|h| - 1];
      var m := h[|h| - 1];
      WriteBacks(rest) + if m.PageIn? && Written(rest, m.frame) then 1 else 0
  }

  lemma Longer(h: seq<Mark>, m: Mark)
    ensures (h + [m])[..|h|] == h
  {
  }

  // ---------- The core map remembers the history ----------

  predicate FrameRemembers(vm: Vm, h: seq<Mark>, f: int)
    requires 0 <= f < |vm.core|
  {
    var e, k := vm.core[f], LastIndex(vm.loads, f);
    && (e.page == -1 ==> k == -1 && !Written(h, f) && e == Entry(-1, f, true, false))
    && (e.page != -1 ==>
          && k >= 0 && e.page == vm.loads[k].page && e.ts == NFrames(vm) + k
          && (e.dirty <==> Written(h, f)) && (e.used <==> Ticks(h, f) == 0)
          && (vm.policy == Custom ==> f < |vm.notUsed| && vm.notUsed[f] == if Ticks(h, f) == 0 then 0 else Ticks(h, f) - 1))
  }

  ghost predicate Remembers(vm: Vm, h: seq<Mark>) {
    && vm.loads == PageIns(h) && vm.diskWrites == WriteBacks(h)
    && forall f :: 0 <= f < |vm.core| ==> FrameRemembers(vm, h, f)
  }

  lemma WriteOnce(vm: Vm, h: seq<Mark>, p: nat, f: nat, vm': Vm)
    requires VmOk(vm) && Remembers(vm, h) && p < NPages(vm) && f < NFrames(vm) && PagedIn(vm, vm', p, f)
    ensures vm'.diskWrites == vm.diskWrites + if Written(h, f) then 1 else 0
  {
    assert FrameOk(vm, f) && FrameRemembers(vm, h, f);
  }

  lemma PageInRemembers(vm: Vm, h: seq<Mark>, p: nat, f: int, vm': Vm)
    requires VmOk(vm) && p < NPages(vm) && 0 <= f < NFrames(vm) && PagedIn(vm, vm', p, f) && Remembers(vm, h)
    ensures Remembers(vm', h + [PageIn(p, f)])
  {
    hide StampsDiffer, PageOk, FrameRemembers, FrameOk, CountsOk;
    Longer(h, PageIn(p, f));
    WriteOnce(vm, h, p, f, vm');
    forall g | 0 <= g < |vm'.core| ensures FrameRemembers(vm', h + [PageIn(p, f)], g) {
      PageInFrame(vm, h, p, f, vm', g);
    }
  }

  lemma PageInFrame(vm: Vm, h: seq<Mark>, p: nat, f: int, vm': Vm, g: int)
    requires VmOk(vm) && p < NPages(vm) && 0 <= f < NFrames(vm) && PagedIn(vm, vm', p, f)
    requires vm.loads == PageIns(h) && 0 <= g < NFrames(vm) && FrameRemembers(vm, h, g)
    ensures FrameRemembers(vm', h + [PageIn(p, f)], g)
  {
    hide StampsDiffer, PageOk;
    Longer(h, PageIn(p, f));
    assert FrameOk(vm, g);
    assert vm'.loads[..|vm.loads|] == vm.loads;
  }

  lemma TouchRemembers(vm: Vm, h: seq<Mark>, p: nat, vm': Vm)
    requires VmOk(vm) && p < NPages(vm) && Resident(vm, p) && vm.bits[p] != READ_WRITE
    requires vm' == SetPerms(vm, p, vm.mapping[p], vm.bits[p]) && Remembers(vm, h)
    ensures var f := vm.mapping[p]; Remembers(vm', h + [if vm.bits[p] == NONE then Restore(f) else Dirty(f)])
  {
    hide StampsDiffer, CountsOk, FrameOk, PageOk, FrameRemembers;
    var f := vm.mapping[p];
    var m := if vm.bits[p] == NONE then Restore(f) else Dirty(f);
    Longer(h, m);
    forall g | 0 <= g < |vm'.core| ensures FrameRemembers(vm', h + [m], g) { TouchFrame(vm, h, p, vm', g); }
  }

  lemma TouchFrame(vm: Vm, h: seq<Mark>, p: nat, vm': Vm, g: int)
    requires VmOk(vm) && p < NPages(vm) && Resident(vm, p) && vm.bits[p] != READ_WRITE
    requires vm' == SetPerms(vm, p, vm.mapping[p], vm.bits[p])
    requires 0 <= g < NFrames(vm) == NFrames(vm') && FrameRemembers(vm, h, g)
    ensures var f := vm.mapping[p]; FrameRemembers(vm', h + [if vm.bits[p] == NONE then Restore(f) else Dirty(f)], g)
  {
    hide StampsDiffer, CountsOk;
    Longer(h, if vm.bits[p] == NONE then Restore(vm.mapping[p]) else Dirty(vm.mapping[p]));
    assert PageOk(vm, p) && FrameOk(vm, g);
  }

  lemma TickRemembers(vm: Vm, h: seq<Mark>)
    requires VmOk(vm) && vm.policy == Custom && Remembers(vm, h)
    ensures Remembers(Tick(vm), h + [Timer])
  {
    hide Tick;
    Longer(h, Timer);
    TickIs(vm);
    var vm' := Tick(vm);
    forall g | 0 <= g < |vm'.core| ensures FrameRemembers(vm', h + [Timer], g) { assert FrameRemembers(vm, h, g) && FrameOk(vm, g); }
  }

  lemma TickIs(vm: Vm)
    requires VmOk(vm) && vm.policy == Custom
    ensures Ticked(vm, Tick(vm), |vm.core|)
  {
    TickFramesIs(vm, |vm.core|);
  }

  lemma AccessRemembers(vm: Vm, h: seq<Mark>, vm': Vm)
    requires Remembers(vm, h) && vm' == vm.(phys := vm'.phys)
    ensures Remembers(vm', h + [Access])
  {
    Longer(h, Access);
    forall g | 0 <= g < |vm'.core| ensures FrameRemembers(vm', h + [Access], g) { assert FrameRemembers(vm, h, g); }
  }

  lemma FaultRemembers(vm: Vm, h: seq<Mark>, p: nat, write: bool, pick: nat)
    requires AllOk(vm) && p < NPages(vm) == |vm.mapping| && !Allowed(vm, p, write) && Remembers(vm, h)
    ensures var r := Handle(vm, p, pick); r.Ok? && Remembers(r.vm, h + [MarkAt(vm, p, write, r.vm)])
  {
    hide Remembers, Handle, SetPerms, PagedIn, FrameOk, PageOk, CountsOk, StampsDiffer, QueueOk, RoundRobin, Flat, Victim;
    if Resident(vm, p) {
      assert vm.bits[p] != READ_WRITE;
      SetPermsOk(vm, p, pick);
      TouchRemembers(vm, h, p, Handle(vm, p, pick).vm);
    } else {
      PageInOk(vm, p, pick);
      var f, vm' := NextFrame(vm, pick), Handle(vm, p, pick).vm;
      PagedInMaps(vm, vm', p, f);
      PageInRemembers(vm, h, p, f, vm');
    }
  }

  lemma PagedInMaps(vm: Vm, vm': Vm, p: int, f: int)
    requires Sizes(vm) && 0 <= p < NPages(vm) && 0 <= f < NFrames(vm) && PagedIn(vm, vm', p, f)
    ensures p < |vm'.mapping| && vm'.mapping[p] == f
  {
  }

  lemma StepRemembers(vm: Vm, h: seq<Mark>, e: Event)
    requires AllOk(vm) && InRange(vm, e) && Remembers(vm, h)
    ensures |vm.mapping| == |vm.bits|
    ensures var r := Step(vm, e).0; r.Ok? && Remembers(r.vm, h + [MarkOf(vm, e, r.vm)])
  {
    hide VmOk, QueueOk, RoundRobin, Remembers, Handle, Tick, MarkAt;
    SizesOk(vm);
    match e
    case TryRead(p, o, pick) =>
      if Allowed(vm, p, false) { AccessRemembers(vm, h, vm); AllowedMark(vm, p, false, vm); } else { FaultRemembers(vm, h, p, false, pick); }
    case TryWrite(p, o, w, pick) =>
      if Allowed(vm, p, true) { AccessRemembers(vm, h, Store(vm, p, o, w)); AllowedMark(vm, p, true, Store(vm, p, o, w)); }
      else { FaultRemembers(vm, h, p, true, pick); }
    case Clock => TickRemembers(vm, h);
  }

  lemma AllowedMark(vm: Vm, p: nat, write: bool, vm': Vm)
    requires Allowed(vm, p, write)
    ensures MarkAt(vm, p, write, vm') == Access
  {
  }

  lemma {:induction false} RunRemembers(vm: Vm, h: seq<Mark>, events: seq<Event>)
    requires AllOk(vm) && Remembers(vm, h) && forall k :: 0 <= k < |events| ==> InRange(vm, events[k])
    ensures |vm.mapping| == |vm.bits|
    ensures var r := Run(vm, events).0; r.Ok? && AllOk(r.vm) && Same(vm, r.vm) && Remembers(r.vm, h + History(vm, events))
    decreases |events|
  {
    hide VmOk, QueueOk, RoundRobin, Step, Flat, FlatStep, InRange, Remembers, MarkOf;
    SizesOk(vm);
    if events == [] {
      assert h + History(vm, events) == h;
    } else {
      var e := events[0];
      StepOk(vm, e);
      StepRemembers(vm, h, e);
      var vm1 := Step(vm, e).0.vm;
      SizesOk(vm1);
      forall k | 0 <= k < |events[1..]| ensures InRange(vm1, events[1..][k]) { SameRange(vm, vm1, events[k + 1]); }
      var m := MarkOf(vm, e, vm1);
      RunRemembers(vm1, h + [m], events[1..]);
      assert h + [m] + History(vm1, events[1..]) == h + History(vm, events);
    }
  }

  // In every run from the start of main, under any policy: a frame's entry, its idle counter, and
  // disk_writes are what the history of the run says.
  lemma HistoryFromStart(policy: Policy, nframes: nat, disk: seq<seq<Word>>, mapping: seq<int>, phys: seq<seq<Word>>, events: seq<Event>)
    requires nframes >= 1 && |mapping| == |disk| && |phys| == nframes
    requires (forall p :: 0 <= p < |disk| ==> |disk[p]| == PAGE_SIZE) && (forall f :: 0 <= f < nframes ==> |phys[f]| == PAGE_SIZE)
    requires forall k :: 0 <= k < |events| ==> InRange(Start(policy, nframes, disk, mapping, phys), events[k])
    ensures |mapping| == |Start(policy, nframes, disk, mapping, phys).bits|
    ensures var vm := Start(policy, nframes, disk, mapping, phys);
      var r := Run(vm, events).0;
      r.Ok? && AllOk(r.vm) && Same(vm, r.vm) && Remembers(r.vm, History(vm, events))
  {
    hide VmOk, QueueOk, RoundRobin, InRange, Flat, Run, History;
    var vm := Start(policy, nframes, disk, mapping, phys);
    StartOk(policy, nframes, disk, mapping, phys);
    StartInTurn(vm);
    RunRemembers(vm, [], events);
    assert [] + History(vm, events) == History(vm, events);
  }

  // ---------- The custom policy ----------

  // Frames nothing has been done for during two ticks, or all frames if there are none.
  ghost predicate Unused(n: nat, h: seq<Mark>, f: int) {
    0 <= f < n && (Ticks(h, f) >= 2 || forall g :: 0 <= g < n ==> Ticks(h, g) < 2)
  }

  // Its page need not be written back, or has been in memory for four times as many page-ins as there
  // are frames.
  predicate Droppable(n: nat, h: seq<Mark>, f: int) { !Written(h, f) || Age(h, f) >= 4 * n }

  ghost predicate Choice(n: nat, h: seq<Mark>, f: int) {
    Unused(n, h, f) && (Droppable(n, h, f) || forall g :: Unused(n, h, g) ==> !Droppable(n, h, g))
  }

  lemma ChoiceIsCandidate(vm: Vm, h: seq<Mark>)
    requires VmOk(vm) && Remembers(vm, h) && vm.policy == Custom && vm.diskReads >= NFrames(vm)
    ensures forall f :: Choice(NFrames(vm), h, f) <==> Candidate(vm.core, vm.num, vm.notUsed, f)
  {
    var n := NFrames(vm);
    forall f | 0 <= f < n
      ensures (Ticks(h, f) >= 2 <==> vm.notUsed[f] >= 1) && (Droppable(n, h, f) <==> Dispensable(vm.core, vm.num, f))
    {
      assert FrameOk(vm, f) && FrameRemembers(vm, h, f);
    }
    assert forall f :: Unused(n, h, f) <==> Idle(vm.notUsed, 1, f);
  }

  // The victim is the choice whose page has been in memory longest, and the disk is written iff its page
  // has been written to.
  lemma VictimByHistory(vm: Vm, h: seq<Mark>, p: nat, pick: nat)
    requires AllOk(vm) && Remembers(vm, h) && vm.policy == Custom && vm.diskReads >= NFrames(vm)
    requires p < NPages(vm) == |vm.mapping| && !Resident(vm, p)
    ensures var n, v, r := NFrames(vm), NextFrame(vm, pick), Handle(vm, p, pick);
      && r.Ok? && PageIns(h + [MarkAt(vm, p, false, r.vm)]) == PageIns(h) + [Load(p, v)]
      && Choice(n, h, v) && (forall f :: Choice(n, h, f) && f != v ==> Age(h, f) < Age(h, v))
      && (r.vm.diskWrites == vm.diskWrites + if Written(h, v) then 1 else 0)
  {
    hide QueueOk, RoundRobin, PagedIn, Candidate, Handle, PageOk, FrameOk, CountsOk, StampsDiffer, Flat;
    ChoiceIsCandidate(vm, h);
    CustomVictim(vm, pick);
    PageInOk(vm, p, pick);
    var v, vm' := NextFrame(vm, pick), Handle(vm, p, pick).vm;
    PagedInMaps(vm, vm', p, v);
    Longer(h, PageIn(p, v));
    WriteOnce(vm, h, p, v, vm');
    forall f | Choice(NFrames(vm), h, f) && f != v ensures Age(h, f) < Age(h, v) { Ages(vm, h, f); Ages(vm, h, v); assert Candidate(vm.core, vm.num, vm.notUsed, f); }
    NotAllowed(vm, p);
  }

  lemma NotAllowed(vm: Vm, p: nat)
    requires VmOk(vm) && p < NPages(vm) && !Resident(vm, p)
    ensures !Allowed(vm, p, false)
  {
    assert PageOk(vm, p);
  }

  lemma Ages(vm: Vm, h: seq<Mark>, f: nat)
    requires VmOk(vm) && Remembers(vm, h) && f < NFrames(vm) <= vm.diskReads
    ensures Age(h, f) == vm.num - vm.core[f].ts
  {
    assert FrameOk(vm, f) && FrameRemembers(vm, h, f);
  }

  // Page v has been written to, and in memory for four times as many page-ins as there are frames and for
  // longer than any choice that needs no write.
  ghost predicate OldDirty(n: nat, h: seq<Mark>, v: int) {
    && Unused(n, h, v) && Written(h, v) && Age(h, v) >= 4 * n
    && forall f :: Unused(n, h, f) && !Written(h, f) ==> Age(h, f) < Age(h, v)
  }

  // When some choice needs no write, the disk is written exactly if there is such a page.
  lemma DirtyVictimExactly(vm: Vm, h: seq<Mark>, p: nat, pick: nat, clean: int)
    requires AllOk(vm) && Remembers(vm, h) && vm.policy == Custom && vm.diskReads >= NFrames(vm)
    requires p < NPages(vm) == |vm.mapping| && !Resident(vm, p)
    requires Unused(NFrames(vm), h, clean) && !Written(h, clean)
    ensures Handle(vm, p, pick).Ok?
    ensures Handle(vm, p, pick).vm.diskWrites == vm.diskWrites + if exists v :: OldDirty(NFrames(vm), h, v) then 1 else 0
  {
    hide AllOk, Remembers, Handle, NextFrame, Unused;
    var n, v := NFrames(vm), NextFrame(vm, pick);
    VictimByHistory(vm, h, p, pick);
    assert Choice(n, h, clean) && Droppable(n, h, v);
    if Written(h, v) {
      forall f | Unused(n, h, f) && !Written(h, f) ensures Age(h, f) < Age(h, v) { assert Choice(n, h, f); }
      assert OldDirty(n, h, v);
    }
    forall d | OldDirty(n, h, d) ensures Written(h, v) { assert Choice(n, h, d); }
  }

  // ---------- The rand policy ----------

  // Every frame can be the victim; which one is a matter of the remainder only.
  lemma RandAnyFrame(vm: Vm, p: nat, f: nat, k: nat)
    requires AllOk(vm) && vm.policy == Rand && p < NPages(vm) && !Resident(vm, p) && f < NFrames(vm) <= vm.diskReads
    ensures var r := Handle(vm, p, f + k * NFrames(vm)); r.Ok? && PagedIn(vm, r.vm, p, f)
  {
    hide PagedIn, Handle, VmOk, QueueOk, RoundRobin;
    var n := NFrames(vm);
    ModUnique(f + k * n, n, k, f);
    PageInOk(vm, p, f + k * n);
  }
}
