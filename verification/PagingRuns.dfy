// Whole runs of the paging system.

module PagingRuns {
  import opened Common
  import opened Paging
  import opened PagingProof

  // ---------- fifo is round robin ----------

  // Page-in k went to frame k modulo the number of frames, and the last ones are still there.
  ghost predicate RoundRobin(vm: Vm) {
    var n, l := NFrames(vm), |vm.loads|;
    n > 0 && vm.policy == Fifo ==>
      forall k :: 0 <= k < l ==>
        && vm.loads[k].frame == k % n
        && (k >= l - n ==> vm.core[k % n].page == vm.loads[k].page && vm.core[k % n].ts == n + k)
  }

  ghost predicate AllOk(vm: Vm) { VmOk(vm) && QueueOk(vm) && RoundRobin(vm) }

  lemma QueueNext(vm: Vm, vm': Vm, p: nat, f: int)
    requires VmOk(vm) && QueueOk(vm) && p < NPages(vm) && 0 <= f < NFrames(vm) && PagedIn(vm, vm', p, f)
    requires vm.policy == Fifo ==> f == vm.diskReads % NFrames(vm)
    ensures QueueOk(vm')
  {
    if vm.policy == Fifo { Rotated(NFrames(vm), vm.diskReads, vm.queue, f, vm'.queue); }
  }

  // QueueOk for a queue on its own.
  predicate InTurn(n: nat, k: nat, q: seq<int>) {
    n > 0 && if k <= n then q == UpTo(k) else |q| == n && forall i :: 0 <= i < n ==> q[i] == (k + i) % n
  }

  lemma Rotated(n: nat, k: nat, q: seq<int>, f: int, q': seq<int>)
    requires InTurn(n, k, q) && f == k % n
    requires q' == (if k < n || q == [] then q else q[1..]) + [f]
    ensures InTurn(n, k + 1, q')
  {
    UpToIs(n);
    if k < n { ModSmall(k, n); }
    else {
      forall i | 0 <= i < n ensures q'[i] == (k + 1 + i) % n {
        ModPlus(k, n);
        if k == n && i + 1 < n { ModPlus(i + 1, n); ModSmall(i + 1, n); }
      }
    }
  }

  lemma ModPlus(k: nat, n: nat)
    requires n > 0
    ensures (k + n) % n == k % n
  {
    assert (k / n + 1) * n == (k / n) * n + n;
    ModUnique(k + n, n, k / n + 1, k % n);
  }

  lemma ModSmall(i: nat, n: nat)
    requires i < n
    ensures i % n == i
  {
  }

  lemma RoundRobinNext(vm: Vm, vm': Vm, p: nat, f: int)
    requires VmOk(vm) && RoundRobin(vm) && p < NPages(vm) && 0 <= f < NFrames(vm) && PagedIn(vm, vm', p, f)
    requires vm.policy == Fifo ==> f == vm.diskReads % NFrames(vm)
    ensures RoundRobin(vm')
  {
    var n, l := NFrames(vm), |vm.loads|;
    if vm.policy == Fifo {
      forall k | 0 <= k < l + 1
        ensures vm'.loads[k].frame == k % n
        ensures k >= l + 1 - n ==> vm'.core[k % n].page == vm'.loads[k].page && vm'.core[k % n].ts == n + k
      {
        if k < l && k >= l + 1 - n { ModApart(k, l, n); }
      }
    }
  }

  // The last page-in of a filled frame.
  function LastLoad(l: nat, n: nat, f: nat): int
    requires n > 0
  {
    if l <= n then f else f + ((l - 1 - f) / n) * n
  }

  lemma LastLoadOf(l: nat, n: nat, f: nat)
    requires 0 < n && f < n && f < l
    ensures var k := LastLoad(l, n, f); 0 <= k < l && k >= l - n && k % n == f
  {
    if l <= n { ModSmall(f, n); }
    else { ModUnique(LastLoad(l, n, f), n, (l - 1 - f) / n, f); }
  }

  // One of the last page-ins, as many as there are frames, was of page p.
  predicate LatelyLoaded(vm: Vm, p: int) {
    exists k :: 0 <= k < |vm.loads| && k >= |vm.loads| - NFrames(vm) && vm.loads[k].page == p
  }

  // With fifo the resident pages are those of the last page-ins.
  lemma FifoResident(vm: Vm, p: nat)
    requires AllOk(vm) && vm.policy == Fifo && p < NPages(vm)
    ensures Resident(vm, p) <==> LatelyLoaded(vm, p)
  {
    var n, l := NFrames(vm), |vm.loads|;
    if Resident(vm, p) {
      var f := vm.mapping[p];
      assert FrameOk(vm, f);
      LastLoadOf(l, n, f);
      var k := LastLoad(l, n, f);
      assert vm.loads[k].page == p;
    }
    if k :| 0 <= k < l && k >= l - n && vm.loads[k].page == p {
      assert FrameOk(vm, k % n);
      assert FrameOk(vm, k % n) && vm.core[k % n].page == p;
    }
  }

  predicate Older(vm: Vm, f: int, g: int) {
    0 <= f < |vm.core| && 0 <= g < |vm.core| && vm.core[f].ts < vm.core[g].ts
  }

  // frame_queue is strictly sorted by timestamp.
  lemma QueueSorted(vm: Vm, i: nat, j: nat)
    requires AllOk(vm) && vm.policy == Fifo && i < j < |vm.queue|
    ensures Older(vm, vm.queue[i], vm.queue[j])
  {
    QueueStamp(vm, i);
    QueueStamp(vm, j);
  }

  lemma QueueStamp(vm: Vm, i: nat)
    requires AllOk(vm) && vm.policy == Fifo && i < |vm.queue|
    ensures 0 <= vm.queue[i] < |vm.core|
    ensures var n, l := NFrames(vm), |vm.loads|; vm.core[vm.queue[i]].ts == (if l <= n then n + i else l + i)
  {
    var n, l := NFrames(vm), |vm.loads|;
    if l <= n { UpToIs(l); ModSmall(i, n); }
    else { ModPlus(l - n + i, n); assert vm.loads[l - n + i].frame == (l - n + i) % n; }
  }

  // When memory is full, the front of the queue is what get_fifo over all frames would return.
  lemma FrontIsOldest(vm: Vm)
    requires AllOk(vm) && vm.policy == Fifo && vm.diskReads >= NFrames(vm)
    ensures vm.queue != [] && GetFifo(vm.core, UpTo(NFrames(vm))) == vm.queue[0]
  {
    var n, l := NFrames(vm), |vm.loads|;
    UpToIs(n);
    assert UpTo(n)[0] in UpTo(n);
    GetFifoIs(vm.core, UpTo(n));
    VictimInRange(vm, 0);
    QueueStamp(vm, 0);
    var v, q := GetFifo(vm.core, UpTo(n)), vm.queue[0];
    assert UpTo(n)[q] == q;
    LastLoadOf(l, n, v);
    assert vm.loads[LastLoad(l, n, v)].frame == v;
  }

  // ---------- Steps ----------

  // What the program sees is what flat memory m would show, and m' is that memory afterwards.
  predicate FlatStep(m: seq<seq<Word>>, seen: Seen, m': seq<seq<Word>>) {
    match seen
    case Got(p, o, w) => p < |m| && o < |m[p]| && w == m[p][o] && m' == m
    case Put(p, o, w) => p < |m| && o < |m[p]| && m' == m[p := m[p][o := w]]
    case Nothing => m' == m
  }

  lemma HandleOk(vm: Vm, p: nat, write: bool, pick: nat)
    requires AllOk(vm) && p < NPages(vm) && !Allowed(vm, p, write)
    ensures var r := Handle(vm, p, pick);
      && r.Ok? && AllOk(r.vm) && Flat(r.vm) == Flat(vm) && Same(vm, r.vm)
      && Resident(r.vm, p) && r.vm.bits[p] == (
           if !Resident(vm, p) then READ
           else if vm.bits[p] == NONE then Perms(vm.core[vm.mapping[p]]) else READ_WRITE)
  {
    hide Flat, PagedIn;
    if Resident(vm, p) {
      SetPermsOk(vm, p, pick);
      KeepsOrder(vm, Handle(vm, p, pick).vm);
    } else {
      PageInOk(vm, p, pick);
      if vm.policy == Fifo { FifoFrame(vm, pick); }
      var vm' := Handle(vm, p, pick).vm;
      QueueNext(vm, vm', p, NextFrame(vm, pick));
      RoundRobinNext(vm, vm', p, NextFrame(vm, pick));
      PagedInSame(vm, vm', p, NextFrame(vm, pick));
    }
  }

  lemma FifoFrame(vm: Vm, pick: nat)
    requires AllOk(vm) && vm.policy == Fifo
    ensures NextFrame(vm, pick) == vm.diskReads % NFrames(vm)
  {
    if vm.diskReads < NFrames(vm) { ModSmall(vm.diskReads, NFrames(vm)); } else { VictimInRange(vm, pick); }
  }

  lemma PagedInSame(vm: Vm, vm': Vm, p: int, f: int)
    requires Sizes(vm) && 0 <= p < NPages(vm) && 0 <= f < NFrames(vm) && PagedIn(vm, vm', p, f)
    ensures Same(vm, vm')
  {
  }

  // Nothing was paged in.
  lemma KeepsOrder(vm: Vm, vm': Vm)
    requires QueueOk(vm) && RoundRobin(vm) && Same(vm, vm')
    requires vm'.queue == vm.queue && vm'.loads == vm.loads && vm'.diskReads == vm.diskReads
    requires forall f :: 0 <= f < |vm.core| ==> vm'.core[f].page == vm.core[f].page && vm'.core[f].ts == vm.core[f].ts
    ensures QueueOk(vm') && RoundRobin(vm')
  {
  }

  predicate Same(vm: Vm, vm': Vm) { NPages(vm') == NPages(vm) && NFrames(vm') == NFrames(vm) && vm'.policy == vm.policy }

  lemma StepOk(vm: Vm, e: Event)
    requires AllOk(vm) && InRange(vm, e)
    ensures var (r, seen) := Step(vm, e);
      r.Ok? && AllOk(r.vm) && Same(vm, r.vm) && FlatStep(Flat(vm), seen, Flat(r.vm))
  {
    hide Handle, Tick, Flat, VmOk;
    SizesOk(vm);
    match e
    case TryRead(p, o, pick) =>
      if Allowed(vm, p, false) { ReadSees(vm, p, o); FlatSizes(vm, p); } else { HandleOk(vm, p, false, pick); }
    case TryWrite(p, o, w, pick) =>
      if Allowed(vm, p, true) { FlatSizes(vm, p); StoreOk(vm, p, o, w); KeepsOrder(vm, Store(vm, p, o, w)); }
      else { HandleOk(vm, p, true, pick); }
    case Clock =>
      TickOk(vm);
      TickKeepsOrder(vm);
  }

  lemma SizesOk(vm: Vm)
    requires VmOk(vm)
    ensures Sizes(vm)
  {
  }

  lemma FlatSizes(vm: Vm, p: nat)
    requires VmOk(vm) && p < NPages(vm)
    ensures |Flat(vm)| == NPages(vm) && |Flat(vm)[p]| == PAGE_SIZE
  {
  }

  lemma TickKeepsOrder(vm: Vm)
    requires VmOk(vm) && vm.policy == Custom
    ensures QueueOk(Tick(vm)) && RoundRobin(Tick(vm))
  {
    TickFramesIs(vm, |vm.core|);
  }

  // ---------- Runs ----------

  function Run(vm: Vm, events: seq<Event>): (Outcome, seq<Seen>)
    requires |vm.mapping| == |vm.bits|
    decreases |events|
  {
    if events == [] then (Ok(vm), [])
    else if !InRange(vm, events[0]) then (AssertFailed, [])
    else
      var (r, seen) := Step(vm, events[0]);
      if r.AssertFailed? || |r.vm.mapping| != |r.vm.bits| then (AssertFailed, [])
      else var (r2, rest) := Run(r.vm, events[1..]); (r2, [seen] + rest)
  }

  // Flat memory m shows the program all of seen and then is m'.
  predicate FlatRun(m: seq<seq<Word>>, seen: seq<Seen>, m': seq<seq<Word>>)
    decreases |seen|
  {
    if seen == [] then m' == m
    else
      match seen[0]
      case Got(p, o, w) => p < |m| && o < |m[p]| && w == m[p][o] && FlatRun(m, seen[1..], m')
      case Put(p, o, w) => p < |m| && o < |m[p]| && FlatRun(m[p := m[p][o := w]], seen[1..], m')
      case Nothing => FlatRun(m, seen[1..], m')
  }

  // Any interleaving of loads, stores and clock ticks, whatever rand() returns: no assert fails, and
  // every load returns the word last stored there.
  lemma {:induction false} PagingIsFlat(vm: Vm, events: seq<Event>)
    requires AllOk(vm) && forall k :: 0 <= k < |events| ==> InRange(vm, events[k])
    ensures |vm.mapping| == |vm.bits|
    ensures var (r, seen) := Run(vm, events);
      r.Ok? && AllOk(r.vm) && Same(vm, r.vm) && FlatRun(Flat(vm), seen, Flat(r.vm))
    decreases |events|
  {
    hide VmOk, QueueOk, RoundRobin, Step, Flat, InRange;
    SizesOk(vm);
    if events != [] {
      StepOk(vm, events[0]);
      var vm1 := Step(vm, events[0]).0.vm;
      SizesOk(vm1);
      forall k | 0 <= k < |events[1..]| ensures InRange(vm1, events[1..][k]) { SameRange(vm, vm1, events[k + 1]); }
      PagingIsFlat(vm1, events[1..]);
    }
  }

  lemma SameRange(vm: Vm, vm': Vm, e: Event)
    requires Same(vm, vm') && InRange(vm, e)
    ensures InRange(vm', e)
  {
  }

  // From the start of main, with any contents of memory that was not initialised.
  lemma FromStart(policy: Policy, nframes: nat, disk: seq<seq<Word>>, mapping: seq<int>, phys: seq<seq<Word>>, events: seq<Event>)
    requires nframes >= 1 && |mapping| == |disk| && |phys| == nframes
    requires (forall p :: 0 <= p < |disk| ==> |disk[p]| == PAGE_SIZE) && (forall f :: 0 <= f < nframes ==> |phys[f]| == PAGE_SIZE)
    requires forall k :: 0 <= k < |events| ==> InRange(Start(policy, nframes, disk, mapping, phys), events[k])
    ensures |mapping| == |Start(policy, nframes, disk, mapping, phys).bits|
    ensures var (r, seen) := Run(Start(policy, nframes, disk, mapping, phys), events);
      && r.Ok? && FlatRun(disk, seen, Flat(r.vm))
      && r.vm.diskReads == r.vm.faults && (r.vm.diskWrites == 0 || r.vm.diskWrites <= r.vm.faults - nframes)
      && (|disk| <= nframes ==> r.vm.faults <= |disk| && r.vm.diskWrites == 0)
  {
    hide VmOk, Flat, Run, FlatRun, InRange;
    var vm := Start(policy, nframes, disk, mapping, phys);
    StartOk(policy, nframes, disk, mapping, phys);
    PagingIsFlat(vm, events);
    RunCounts(vm, events);
    Counts(Run(vm, events).0.vm);
  }

  // Filled frames and resident pages are in bijection, and the bits of a page follow from its frame: a
  // load is allowed iff the page is resident and used since the last tick, a store iff it is dirty too.
  ghost predicate PermissionsExact(vm: Vm)
    requires Sizes(vm)
  {
    && (forall f :: 0 <= f < |vm.core| ==> (vm.core[f].page != -1 <==> f < vm.diskReads) && -1 <= vm.core[f].page < NPages(vm))
    && (forall f, f' :: 0 <= f < f' < |vm.core| && vm.core[f].page == vm.core[f'].page ==> vm.core[f].page == -1)
    && (forall f :: 0 <= f < |vm.core| && vm.core[f].page != -1 ==>
          var e := vm.core[f];
          vm.mapping[e.page] == f && vm.bits[e.page] == if e.used then Perms(e) else NONE)
    && (forall p :: 0 <= p < NPages(vm) && (forall f :: 0 <= f < |vm.core| ==> vm.core[f].page != p) ==> vm.bits[p] == NONE)
  }

  lemma PermissionsAlways(vm: Vm)
    requires VmOk(vm)
    ensures Sizes(vm) && PermissionsExact(vm)
  {
    forall f | 0 <= f < |vm.core|
      ensures (vm.core[f].page != -1 <==> f < vm.diskReads) && -1 <= vm.core[f].page < NPages(vm)
      ensures vm.core[f].page != -1 ==>
        var e := vm.core[f]; vm.mapping[e.page] == f && vm.bits[e.page] == if e.used then Perms(e) else NONE
    {
      assert FrameOk(vm, f);
      if vm.core[f].page != -1 { assert PageOk(vm, vm.core[f].page); }
    }
    forall p | 0 <= p < NPages(vm) && (forall f :: 0 <= f < |vm.core| ==> vm.core[f].page != p) ensures vm.bits[p] == NONE {
      assert PageOk(vm, p);
    }
  }

  // Whatever the program accesses, under any policy.
  lemma PermissionsFromStart(policy: Policy, nframes: nat, disk: seq<seq<Word>>, mapping: seq<int>, phys: seq<seq<Word>>, events: seq<Event>)
    requires nframes >= 1 && |mapping| == |disk| && |phys| == nframes
    requires (forall p :: 0 <= p < |disk| ==> |disk[p]| == PAGE_SIZE) && (forall f :: 0 <= f < nframes ==> |phys[f]| == PAGE_SIZE)
    requires forall k :: 0 <= k < |events| ==> InRange(Start(policy, nframes, disk, mapping, phys), events[k])
    ensures |mapping| == |Start(policy, nframes, disk, mapping, phys).bits|
    ensures var r := Run(Start(policy, nframes, disk, mapping, phys), events).0;
      r.Ok? && Sizes(r.vm) && NFrames(r.vm) == nframes && NPages(r.vm) == |disk| && PermissionsExact(r.vm)
  {
    hide VmOk, QueueOk, RoundRobin, Flat, Run, FlatRun, InRange, PermissionsExact;
    var vm := Start(policy, nframes, disk, mapping, phys);
    StartOk(policy, nframes, disk, mapping, phys);
    StartInTurn(vm);
    PagingIsFlat(vm, events);
    PermissionsAlways(Run(vm, events).0.vm);
  }

  // Page-in k went to frame k modulo the number of frames, the resident pages are those of the last
  // page-ins, and frame_queue is sorted by timestamp.
  ghost predicate FirstInFirstOut(vm: Vm)
    requires Sizes(vm)
  {
    var n, l, q := NFrames(vm), |vm.loads|, vm.queue;
    && (forall k :: 0 <= k < l ==> n > 0 && vm.loads[k].frame == k % n)
    && (forall p :: 0 <= p < NPages(vm) ==> (Resident(vm, p) <==> LatelyLoaded(vm, p)))
    && (forall i, j :: 0 <= i < j < |q| ==> Older(vm, q[i], q[j]))
  }

  lemma InTurnAlways(vm: Vm)
    requires AllOk(vm) && vm.policy == Fifo
    ensures Sizes(vm) && FirstInFirstOut(vm)
  {
    hide VmOk, QueueOk, Resident, LatelyLoaded, Older;
    SizesOk(vm);
    forall p | 0 <= p < NPages(vm) ensures Resident(vm, p) <==> LatelyLoaded(vm, p) { FifoResident(vm, p); }
    forall i, j | 0 <= i < j < |vm.queue| ensures Older(vm, vm.queue[i], vm.queue[j]) { QueueSorted(vm, i, j); }
  }

  // fifo from the start of main, whatever the program accesses.
  lemma FifoFromStart(nframes: nat, disk: seq<seq<Word>>, mapping: seq<int>, phys: seq<seq<Word>>, events: seq<Event>)
    requires nframes >= 1 && |mapping| == |disk| && |phys| == nframes
    requires (forall p :: 0 <= p < |disk| ==> |disk[p]| == PAGE_SIZE) && (forall f :: 0 <= f < nframes ==> |phys[f]| == PAGE_SIZE)
    requires forall k :: 0 <= k < |events| ==> InRange(Start(Fifo, nframes, disk, mapping, phys), events[k])
    ensures |mapping| == |Start(Fifo, nframes, disk, mapping, phys).bits|
    ensures var r := Run(Start(Fifo, nframes, disk, mapping, phys), events).0;
      r.Ok? && Sizes(r.vm) && NFrames(r.vm) == nframes && NPages(r.vm) == |disk| && FirstInFirstOut(r.vm)
  {
    hide VmOk, QueueOk, RoundRobin, Flat, Run, FlatRun, InRange, FirstInFirstOut;
    var vm := Start(Fifo, nframes, disk, mapping, phys);
    StartOk(Fifo, nframes, disk, mapping, phys);
    StartInTurn(vm);
    PagingIsFlat(vm, events);
    InTurnAlways(Run(vm, events).0.vm);
  }

  lemma StartInTurn(vm: Vm)
    requires vm.queue == [] && vm.loads == [] && vm.diskReads == 0
    ensures QueueOk(vm) && RoundRobin(vm)
  {
  }

  lemma Counts(vm: Vm)
    requires VmOk(vm)
    ensures vm.diskReads == vm.faults && (vm.diskWrites == 0 || vm.diskWrites <= vm.faults - NFrames(vm))
  {
  }

  // ---------- When there is a frame for every page ----------

  predicate Fits(vm: Vm) { NPages(vm) <= NFrames(vm) ==> vm.faults <= NPages(vm) && vm.diskWrites == 0 }

  lemma {:induction false} Pigeonhole(q: seq<int>, m: nat)
    requires Distinct(q) && forall i :: 0 <= i < |q| ==> 0 <= q[i] < m
    ensures |q| <= m
    decreases m
  {
    if q != [] {
      assert 0 <= q[0] < m;
      if i :| 0 <= i < |q| && q[i] == m - 1 {
        Pigeonhole(q[..i] + q[i + 1..], m - 1);
      } else {
        Pigeonhole(q, m - 1);
      }
    }
  }

  lemma FaultFits(vm: Vm, p: nat)
    requires AllOk(vm) && Fits(vm) && p < NPages(vm) <= NFrames(vm) && !Resident(vm, p)
    ensures vm.faults + 1 <= NPages(vm)
  {
    var q := seq(vm.faults, f requires 0 <= f < |vm.core| => vm.core[f].page) + [p];
    forall f | 0 <= f < vm.faults ensures 0 <= q[f] < NPages(vm) && vm.mapping[q[f]] == f && q[f] != p {
      assert FrameOk(vm, f);
    }
    Pigeonhole(q, NPages(vm));
  }

  lemma HandleFits(vm: Vm, p: nat, write: bool, pick: nat)
    requires AllOk(vm) && Fits(vm) && p < NPages(vm) && !Allowed(vm, p, write)
    ensures Handle(vm, p, pick).Ok? && Fits(Handle(vm, p, pick).vm)
  {
    hide Flat;
    if Resident(vm, p) { SetPermsOk(vm, p, pick); }
    else {
      PageInOk(vm, p, pick);
      if NPages(vm) <= NFrames(vm) { FaultFits(vm, p); Counts(Handle(vm, p, pick).vm); }
    }
  }

  lemma StepFits(vm: Vm, e: Event)
    requires AllOk(vm) && Fits(vm) && InRange(vm, e)
    ensures |vm.mapping| == |vm.bits| && (Step(vm, e).0.Ok? ==> Fits(Step(vm, e).0.vm))
  {
    hide Handle, VmOk;
    SizesOk(vm);
    match e
    case TryRead(p, o, pick) => if !Allowed(vm, p, false) { HandleFits(vm, p, false, pick); }
    case TryWrite(p, o, w, pick) => if !Allowed(vm, p, true) { HandleFits(vm, p, true, pick); }
    case Clock => TickCounts(vm);
  }

  lemma TickCounts(vm: Vm)
    requires VmOk(vm) && vm.policy == Custom
    ensures Fits(vm) ==> Fits(Tick(vm))
  {
    TickFramesIs(vm, |vm.core|);
  }

  lemma {:induction false} RunCounts(vm: Vm, events: seq<Event>)
    requires AllOk(vm) && Fits(vm) && forall k :: 0 <= k < |events| ==> InRange(vm, events[k])
    ensures |vm.mapping| == |vm.bits| && (Run(vm, events).0.Ok? ==> Fits(Run(vm, events).0.vm))
    decreases |events|
  {
    hide VmOk, QueueOk, RoundRobin, Step, InRange, Fits;
    SizesOk(vm);
    if events != [] {
      StepOk(vm, events[0]);
      StepFits(vm, events[0]);
      var vm1 := Step(vm, events[0]).0.vm;
      SizesOk(vm1);
      forall k | 0 <= k < |events[1..]| ensures InRange(vm1, events[1..][k]) { SameRange(vm, vm1, events[k + 1]); }
      RunCounts(vm1, events[1..]);
    }
  }

  // ---------- Progress ----------

  // Without a tick in between, a load is allowed after one call of the handler, a store after two; and
  // exactly when one is enough.
  lemma AllowedSoon(vm: Vm, p: nat, write: bool, pick: nat, pick2: nat)
    requires AllOk(vm) && p < NPages(vm) && !Allowed(vm, p, write)
    ensures NPages(vm) == |vm.mapping| && Handle(vm, p, pick).Ok?
    ensures var vm1 := Handle(vm, p, pick).vm;
      && p < |vm1.mapping| == |vm1.bits|
      && (Allowed(vm1, p, write) <==> !write || (Resident(vm, p) && (vm.bits[p] == READ || vm.core[vm.mapping[p]].dirty)))
      && (!Allowed(vm1, p, write) ==> Handle(vm1, p, pick2).Ok? && Allowed(Handle(vm1, p, pick2).vm, p, write))
  {
    hide Handle, Flat, VmOk;
    SizesOk(vm);
    BitsKnown(vm, p);
    HandleOk(vm, p, write, pick);
    var vm1 := Handle(vm, p, pick).vm;
    SizesOk(vm1);
    if !Allowed(vm1, p, write) { HandleOk(vm1, p, write, pick2); }
  }

  lemma BitsKnown(vm: Vm, p: nat)
    requires VmOk(vm) && p < NPages(vm)
    ensures vm.bits[p] == BitsOf(vm, p)
  {
    assert PageOk(vm, p);
  }
}
