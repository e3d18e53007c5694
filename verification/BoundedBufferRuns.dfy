// Whole runs of the bounded buffer.

module BoundedBufferRuns {
  import opened Common
  import opened Queues
  import opened Monitor
  import opened MonitorProof
  import opened BoundedBuffer
  import opened BoundedBufferProof

  lemma {:induction false} ExecKeeps(b: Buf, g: Census, events: seq<Event>) returns (g': Census)
    requires BufInv(b, g) && (b.np == 0 <==> b.nc == 0)
    ensures Exec(b, events).Next? && BufInv(Exec(b, events).buf, g')
    decreases |events|
  {
    hide BufInv, Advance, Stuck;
    g' := g;
    if events != [] {
      NeverStuck(b, g, events[0]);
      var g1 := AdvanceKeeps(b, g, events[0]);
      SameThreads(b, events[0]);
      g' := ExecKeeps(Advance(b, events[0]).buf, g1, events[1..]);
    }
  }

  // ---------- What is produced and consumed ----------

  // The running thread is about to execute its access to buffer.
  predicate Accesses(b: Buf, e: Event) {
    e.Run? && 0 != b.mon.running < |b.pcs| && b.pcs[b.mon.running] == ToMove
  }

  // The producers that have written to buffer in a run, in order.
  function Producers(b: Buf, events: seq<Event>): seq<Tid>
    decreases |events|
  {
    if events == [] then []
    else match Advance(b, events[0])
      case AssertFailed => []
      case Next(b1) => (if Accesses(b, events[0]) && IsProducer(b, b.mon.running) then [b.mon.running] else []) + Producers(b1, events[1..])
  }

  // What the consumers have found in buffer[tail] in a run, in order.
  function Items(b: Buf, events: seq<Event>): seq<int>
    decreases |events|
  {
    if events == [] then []
    else match Advance(b, events[0])
      case AssertFailed => []
      case Next(b1) =>
        (if Accesses(b, events[0]) && !IsProducer(b, b.mon.running) && 0 <= b.vars.tail < |b.vars.cells| then [b.vars.cells[b.vars.tail]] else [])
        + Items(b1, events[1..])
  }

  // The histories in the shared variables record one step.
  lemma Recorded(b: Buf, e: Event)
    requires Advance(b, e).Next?
    ensures var b1, t := Advance(b, e).buf, b.mon.running;
      && b1.np == b.np && b1.nc == b.nc
      && b1.vars.made == b.vars.made + (if Accesses(b, e) && IsProducer(b, t) then [t] else [])
      && b1.vars.taken == b.vars.taken +
           if Accesses(b, e) && !IsProducer(b, t) && 0 <= b.vars.tail < |b.vars.cells| then [b.vars.cells[b.vars.tail]] else []
  {
    hide Step, BufferOk, Wrap;
  }

  lemma {:induction false} Histories(b: Buf, events: seq<Event>)
    requires Exec(b, events).Next?
    ensures var b1 := Exec(b, events).buf;
      && b1.np == b.np && b1.nc == b.nc
      && b1.vars.made == b.vars.made + Producers(b, events) && b1.vars.taken == b.vars.taken + Items(b, events)
    decreases |events|
  {
    hide Advance, Accesses, IsProducer;
    if events != [] {
      Recorded(b, events[0]);
      Histories(Advance(b, events[0]).buf, events[1..]);
    }
  }

  lemma {:induction false} AreProducers(b: Buf, events: seq<Event>)
    requires Exec(b, events).Next?
    ensures forall k :: 0 <= k < |Producers(b, events)| ==> 1 <= Producers(b, events)[k] <= b.np
    decreases |events|
  {
    hide Advance, Accesses;
    if events != [] {
      Recorded(b, events[0]);
      AreProducers(Advance(b, events[0]).buf, events[1..]);
    }
  }

  // ---------- Safety ----------

  // No thread has begun to change the buffer variables without having finished.
  predicate NobodyInside(b: Buf) {
    forall t :: 0 <= t < |b.pcs| ==> b.pcs[t] != ToAdvance && b.pcs[t] != ToCount && b.pcs[t] != ToTally
  }

  // The program's variables, when ids have been written to the buffer and items read from it: the items
  // are the first ids, the others are in the buffer, and the indices and counters say so.
  predicate InStep(v: Shared, ids: seq<Tid>, items: seq<int>) {
    var p, c := |ids|, |items|;
    && c <= p <= c + SHARED_BUFFER_SIZE
    && v.head == p % SHARED_BUFFER_SIZE && v.tail == c % SHARED_BUFFER_SIZE
    && v.count == p - c && v.produced == p && v.consumed == c
  }

  predicate InOrder(v: Shared, ids: seq<Tid>, items: seq<int>) {
    && |items| <= |ids| && |v.cells| == SHARED_BUFFER_SIZE
    && (forall k :: 0 <= k < |items| ==> items[k] == ids[k])
    && (forall k :: |items| <= k < |ids| ==> v.cells[k % SHARED_BUFFER_SIZE] == ids[k])
  }

  // Between setting its flag and clearing it.
  predicate InSection(pc: Pc) {
    pc == ToCheck || pc == ToMove || pc == ToAdvance || pc == ToCount || pc == ToTally || pc == ToSignal || pc == ToLeave
  }

  // Thread t is a producer, or a consumer, between setting its flag and clearing it.
  predicate Works(b: Buf, producer: bool, t: nat) {
    1 <= t < |b.pcs| && IsProducer(b, t) == producer && InSection(b.pcs[t])
  }

  // The flags say whether a producer or consumer is in its critical section, and no two of a kind are.
  ghost predicate Exclusive(b: Buf) {
    && (forall producer, t, u :: Works(b, producer, t) && Works(b, producer, u) ==> t == u)
    && (b.vars.prodIn <==> exists t :: Works(b, true, t)) && (b.vars.consIn <==> exists t :: Works(b, false, t))
  }

  // For any number of producers and consumers and any schedule: no assert fails; what the consumers read
  // are the ids of the producers that wrote, in that order; the variables agree with that whenever nobody
  // is inside; the critical sections of two producers, or of two consumers, never overlap; and no thread
  // is ever lost, so no signaller is overwritten in nextThreadToWakeUp.
  lemma Safe(np: nat, nc: nat, events: seq<Event>)
    requires np == 0 <==> nc == 0
    ensures Exec(Start(np, nc), events).Next?
    ensures var b := Exec(Start(np, nc), events).buf;
      var ids, items := Producers(Start(np, nc), events), Items(Start(np, nc), events);
      && InOrder(b.vars, ids, items) && (forall k :: 0 <= k < |ids| ==> 1 <= ids[k] <= np)
      && (NobodyInside(b) ==> InStep(b.vars, ids, items)) && Exclusive(b)
      && |b.mon.cvs| == 2 && (b.mon.cvs[NEED_SPACE].waiters == [] || b.mon.cvs[NEED_ITEM].waiters == [])
      && (forall t :: 0 <= t < |b.pcs| ==> Present(b.mon, t))
  {
    hide BufInv, Advance, Present, NobodyInside, Exec, Start, Producers, Items, InStep, InOrder, Exclusive;
    StartOk(np, nc);
    NothingYet(np, nc);
    var s := Start(np, nc);
    var g := ExecKeeps(s, Census(map[0 := Running], 0, None), events);
    var b := Exec(s, events).buf;
    Histories(s, events);
    AreProducers(s, events);
    Ordered(b, g, Producers(s, events), Items(s, events));
    Alone(b, g);
    NotBoth(b, g);
    Everybody(b, g);
  }

  lemma NothingYet(np: nat, nc: nat)
    ensures Start(np, nc).vars.made == [] && Start(np, nc).vars.taken == []
  {
  }

  lemma Ordered(b: Buf, g: Census, ids: seq<Tid>, items: seq<int>)
    requires BufInv(b, g) && b.vars.made == [] + ids && b.vars.taken == [] + items
    ensures InOrder(b.vars, ids, items)
    ensures NobodyInside(b) ==> InStep(b.vars, ids, items)
  {
    hide Inv, TurnOk, ThreadAt, HistoryOk, CountersOk, InOrder, InStep, NobodyInside;
    ItemsInOrder(b.vars, ids, items);
    if NobodyInside(b) {
      NoLagInside(b, g.owner);
      CountsInStep(b.vars, TurnOf(b, g.owner), ParkedRole(b, Chain(b.mon, g.c)), ids, items);
    }
  }

  lemma ItemsInOrder(v: Shared, ids: seq<Tid>, items: seq<int>)
    requires HistoryOk(v) && v.made == [] + ids && v.taken == [] + items
    ensures InOrder(v, ids, items) && |items| <= |ids| <= |items| + SHARED_BUFFER_SIZE
  {
    assert [] + ids == ids && [] + items == items;
  }

  lemma NoLagInside(b: Buf, owner: Option<Tid>)
    requires NobodyInside(b)
    ensures var u := TurnOf(b, owner); TallyLag(u, true) == 0 && TallyLag(u, false) == 0
  {
  }

  lemma CountsInStep(v: Shared, u: Turn, parked: Option<bool>, ids: seq<Tid>, items: seq<int>)
    requires CountersOk(v, u, parked) && TallyLag(u, true) == 0 && TallyLag(u, false) == 0
    requires v.made == [] + ids && v.taken == [] + items && |items| <= |ids| <= |items| + SHARED_BUFFER_SIZE
    ensures InStep(v, ids, items)
  {
  }

  // Whoever is in a critical section owns the lock or is the parked signaller.
  lemma InsideIs(b: Buf, g: Census, producer: bool, t: nat)
    requires BufInv(b, g) && Works(b, producer, t)
    ensures var q, u := Chain(b.mon, g.c), TurnOf(b, g.owner);
      (g.owner == Some(t) && u == By(producer, b.pcs[t])) || (q == [t] && ParkedRole(b, q) == Some(producer))
  {
    hide Inv, VarsOk, TurnOk, WaiterOk, ThreadAt, Chain;
    SpotInside(b, TurnOf(b, g.owner), producer, t, SpotOf(g, t));
    if g.owner != Some(t) { ChainIff(b.mon, g, t); }
  }

  lemma SpotInside(b: Buf, u: Turn, producer: bool, t: nat, spot: Spot)
    requires Works(b, producer, t) && ThreadAt(b, u, t, spot)
    ensures spot == Own || spot == Parked
  {
  }

  lemma ChainIff(s: Sys, g: Census, t: Tid)
    requires Inv(s, g)
    ensures t in Chain(s, g.c) <==> t in g.at && g.at[t] == Chained
  {
    hide Places;
    QueueIff(s, g.at, g.c, Some(s.running), Chained, t);
    assert Queue(s, g.c, Some(s.running), Chained) == Chain(s, g.c);
  }

  // The owner's statement, and that of the parked signaller.
  lemma OwnerIs(b: Buf, g: Census, producer: bool)
    requires BufInv(b, g)
    ensures Inside(TurnOf(b, g.owner), producer) ==> g.owner.Some? && Works(b, producer, g.owner.value)
    ensures var q := Chain(b.mon, g.c); ParkedRole(b, q) == Some(producer) ==> |q| == 1 && Works(b, producer, q[0])
  {
    hide VarsOk, TurnOk, WaiterOk, Listed, ReadyListed;
    if g.owner.Some? && g.owner.value in g.at { assert ThreadAt(b, TurnOf(b, g.owner), g.owner.value, SpotOf(g, g.owner.value)); }
    var q := Chain(b.mon, g.c);
    if q != [] {
      QueueIff(b.mon, g.at, g.c, Some(b.mon.running), Chained, q[0]);
      assert q[0] in Queue(b.mon, g.c, Some(b.mon.running), Chained);
      assert ThreadAt(b, TurnOf(b, g.owner), q[0], SpotOf(g, q[0]));
    }
  }

  lemma Flags(b: Buf, g: Census)
    requires BufInv(b, g)
    ensures var u, r := TurnOf(b, g.owner), ParkedRole(b, Chain(b.mon, g.c));
      && (b.vars.prodIn <==> Inside(u, true) || r == Some(true)) && (b.vars.consIn <==> Inside(u, false) || r == Some(false))
      && (r.Some? ==> u.By? && u.producer != r.value)
  {
    hide Inv, ThreadAt, HistoryOk;
  }

  lemma Alone(b: Buf, g: Census)
    requires BufInv(b, g)
    ensures Exclusive(b)
  {
    hide BufInv, Works, Chain, TurnOf;
    Flags(b, g);
    OwnerIs(b, g, true);
    OwnerIs(b, g, false);
    forall producer: bool, t: nat, u: nat | Works(b, producer, t) && Works(b, producer, u) ensures t == u {
      InsideIs(b, g, producer, t);
      InsideIs(b, g, producer, u);
    }
    forall producer: bool, t: nat | Works(b, producer, t) ensures if producer then b.vars.prodIn else b.vars.consIn {
      InsideIs(b, g, producer, t);
      SectionIs(b, producer, t);
    }
  }

  lemma SectionIs(b: Buf, producer: bool, t: nat)
    requires Works(b, producer, t)
    ensures t < |b.pcs| && Inside(By(producer, b.pcs[t]), producer)
  {
  }

  lemma NotBoth(b: Buf, g: Census)
    requires BufInv(b, g)
    ensures |b.mon.cvs| == 2 && (b.mon.cvs[NEED_SPACE].waiters == [] || b.mon.cvs[NEED_ITEM].waiters == [])
  {
    hide Inv, VarsOk, TurnOk, ThreadAt;
    WaitersKnown(b, g, NEED_SPACE);
    WaitersKnown(b, g, NEED_ITEM);
  }

  lemma Everybody(b: Buf, g: Census)
    requires BufInv(b, g)
    ensures forall t :: 0 <= t < |b.pcs| ==> Present(b.mon, t)
  {
    hide Inv, VarsOk, TurnOk, ThreadAt, Present;
    forall t | 0 <= t < |b.pcs| ensures Present(b.mon, t) { PresentIff(b.mon, g, t); }
  }

  // ---------- Without producers, or without consumers, the program ends in a failed assert ----------

  // How far a thread is from the wait it cannot leave, or from its next item.
  function Weight(pc: Pc): nat {
    match pc
    case ToAdvance => 14
    case ToCount => 13
    case ToTally => 12
    case ToSignal => 11
    case ToLeave => 10
    case ToUnlock => 9
    case ToYield => 8
    case ToLock => 7
    case ToTest => 6
    case ToWait => 5
    case ToAssert => 4
    case ToEnter => 3
    case ToCheck => 2
    case ToMove => 1
    case ToCreate => 0
    case ToJoin => 0
  }

  function Weights(pcs: seq<Pc>): nat {
    if pcs == [] then 0 else Weights(pcs[..|pcs| - 1]) + Weight(pcs[|pcs| - 1])
  }

  lemma {:induction false} WeightsUpdate(pcs: seq<Pc>, t: nat, pc: Pc)
    requires t < |pcs|
    ensures Weights(pcs[t := pc]) == Weights(pcs) - Weight(pcs[t]) + Weight(pc)
  {
    var m := |pcs| - 1;
    if t < m {
      WeightsUpdate(pcs[..m], t, pc);
      assert pcs[t := pc][..m] == pcs[..m][t := pc];
    } else {
      assert pcs[t := pc][..m] == pcs[..m];
    }
  }

  predicate OneSided(b: Buf) {
    (b.np == 0 && b.vars.made == []) || (b.nc == 0 && b.vars.taken == [])
  }

  function MainWeight(b: Buf): int
    requires |b.pcs| >= 1
  {
    if b.pcs[0] == ToCreate then 2 + 8 * (1 + b.np + b.nc - |b.pcs|) else if b.mon.joined == [] then 1 else 0
  }

  function Measure(b: Buf): int
    requires |b.pcs| >= 1
  {
    20 * (SHARED_BUFFER_SIZE - |b.vars.made|) + MainWeight(b) + Weights(b.pcs)
  }

  lemma MeasureNat(b: Buf, g: Census)
    requires BufInv(b, g) && OneSided(b)
    ensures |b.pcs| >= 1 && Measure(b) >= 0
  {
    hide Inv, TurnOk, ThreadAt;
  }

  // The next state, when the running thread goes on without being preempted.
  function After(b: Buf): Buf {
    var r := Advance(b, Run(false, 0)); if r.Next? then r.buf else b
  }

  lemma MainStep(b: Buf, g: Census)
    requires BufInv(b, g) && OneSided(b) && b.np + b.nc > 0 && b.mon.running == 0 && Advance(b, Run(false, 0)).Next?
    ensures |b.pcs| >= 1 && |After(b).pcs| >= 1 && OneSided(After(b)) && Measure(After(b)) < Measure(b)
  {
    hide Inv, VarsOk, TurnOk, ThreadAt, Step;
    Sizes(b, g);
    if b.pcs[0] == ToJoin {
      NobodyJoined(b, g);
      StepQueues(b.mon, DoJoin, 0);
      WeightsUpdate(b.pcs, 0, ToJoin);
    } else if |b.pcs| <= b.np + b.nc {
      var pcs := b.pcs + [ToLock];
      assert pcs[..|b.pcs|] == b.pcs;
      WeightsUpdate(pcs, 0, ToCreate);
    } else {
      WeightsUpdate(b.pcs, 0, ToJoin);
    }
  }

  lemma NobodyJoined(b: Buf, g: Census)
    requires BufInv(b, g) && b.mon.running == 0
    ensures b.mon.joined == []
  {
    hide Inv, VarsOk, TurnOk, WaiterOk, Chain;
    JoinedAre(b.mon, g);
    forall x ensures x !in b.mon.joined {
      assert x in g.at ==> ThreadAt(b, TurnOf(b, g.owner), x, SpotOf(g, x));
    }
    FirstIn(b.mon.joined);
  }

  lemma JoinedAre(s: Sys, g: Census)
    requires Inv(s, g)
    ensures forall x :: x in s.joined ==> x in g.at && SpotOf(g, x) == Gone && x != s.running
  {
    hide Listed, ReadyListed;
    RunningListed(s, g);
    forall x | x in s.joined ensures x in g.at && SpotOf(g, x) == Gone && x != s.running {
      QueueIff(s, g.at, g.c, Some(s.running), Joined, x);
      assert ThreadOk(s, g, x);
    }
  }

  lemma FirstIn(q: seq<Tid>)
    ensures q != [] ==> q[0] in q
  {
  }

  // What a producer or consumer that goes on does to its statement and to the histories.
  lemma WorkerEffect(b: Buf)
    requires 0 != b.mon.running < |b.pcs| && Advance(b, Run(false, 0)).Next?
    ensures var t, b1 := b.mon.running, After(b);
      && b1.np == b.np && b1.nc == b.nc && |b1.pcs| == |b.pcs| && b1.pcs == b.pcs[t := b1.pcs[t]]
      && (b.pcs[t] == ToMove ==>
            && b1.pcs[t] == ToAdvance
            && (IsProducer(b, t) ==> |b1.vars.made| == |b.vars.made| + 1 && b1.vars.taken == b.vars.taken))
      && (b.pcs[t] != ToMove ==>
            && b1.vars.made == b.vars.made && b1.vars.taken == b.vars.taken
            && (b.pcs[t] != ToCreate && b.pcs[t] != ToJoin ==> Weight(b1.pcs[t]) < Weight(b.pcs[t])))
  {
    hide Step, BufferOk, Wrap;
  }

  // Only a producer gets as far as the buffer, and only when there are producers.
  lemma MovesAlone(b: Buf, g: Census)
    requires BufInv(b, g) && OneSided(b) && b.mon.running != 0
    ensures b.mon.running < |b.pcs|
    ensures IsProducer(b, b.mon.running) || b.nc > 0
    ensures b.pcs[b.mon.running] == ToMove ==> b.np > 0 && IsProducer(b, b.mon.running)
  {
    hide Inv;
    RunningFacts(b, g);
  }

  lemma WorkerStep(b: Buf, g: Census)
    requires BufInv(b, g) && OneSided(b) && b.mon.running != 0 && Advance(b, Run(false, 0)).Next?
    ensures |b.pcs| >= 1 && |After(b).pcs| >= 1 && OneSided(After(b)) && Measure(After(b)) < Measure(b)
  {
    hide Inv, VarsOk, TurnOk, ThreadAt, Advance, After;
    Sizes(b, g);
    MovesAlone(b, g);
    WorkerEffect(b);
    JoinedKept(b);
    WeightsUpdate(b.pcs, b.mon.running, After(b).pcs[b.mon.running]);
  }

  lemma JoinedKept(b: Buf)
    requires b.mon.running != 0 && b.mon.running < |b.pcs| && Advance(b, Run(false, 0)).Next?
    ensures After(b).mon.joined == b.mon.joined
  {
    hide Step, ProducerStatement, ConsumerStatement;
    var t := b.mon.running;
    match b.pcs[t]
    case ToLock => StepQueues(b.mon, DoLock, 0);
    case ToWait =>
      var c := if IsProducer(b, t) then NEED_SPACE else NEED_ITEM;
      if Named(b.mon, DoWait(c)) { StepQueues(b.mon, DoWait(c), 0); }
    case ToSignal =>
      var c := if IsProducer(b, t) then NEED_ITEM else NEED_SPACE;
      if Named(b.mon, DoSignal(c, false)) { StepQueues(b.mon, DoSignal(c, false), 0); }
    case ToUnlock => StepQueues(b.mon, DoUnlock, 0);
    case _ =>
  }

  // Running on, the program gets stuck.
  lemma {:induction false} GetsStuck(b: Buf, g: Census) returns (events: seq<Event>)
    requires BufInv(b, g) && OneSided(b) && b.np + b.nc > 0
    ensures Exec(b, events).AssertFailed?
    decreases Max0(b)
  {
    hide BufInv, Measure, Advance, OneSided, Stuck;
    MeasureNat(b, g);
    var e := Run(false, 0);
    var g1 := AdvanceKeeps(b, g, e);
    if Stuck(b, e) {
      events := [e];
    } else {
      if b.mon.running == 0 { MainStep(b, g); } else { WorkerStep(b, g); }
      SameThreads(b, e);
      MeasureNat(After(b), g1);
      var rest := GetsStuck(After(b), g1);
      events := [e] + rest;
      assert events[1..] == rest;
    }
  }

  function Max0(b: Buf): nat { if |b.pcs| >= 1 && Measure(b) >= 0 then Measure(b) else 0 }

  // Exactly when the program is safe.
  lemma SafeExactly(np: nat, nc: nat)
    ensures (forall events :: Exec(Start(np, nc), events).Next?) <==> (np == 0 <==> nc == 0)
  {
    if np == 0 <==> nc == 0 {
      forall events ensures Exec(Start(np, nc), events).Next? { Safe(np, nc, events); }
    } else {
      StartOk(np, nc);
      var events := GetsStuck(Start(np, nc), Census(map[0 := Running], 0, None));
      assert !Exec(Start(np, nc), events).Next?;
    }
  }
}
