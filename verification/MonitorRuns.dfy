// Whole runs of locks and condition variables: the Hoare hand-over, and what is served when.

module MonitorRuns {
  import opened Common
  import opened Queues
  import opened Monitor
  import opened MonitorProof

  datatype Call = Call(act: Act, pick: nat)

  function Run(s: Sys, calls: seq<Call>): Outcome
    decreases |calls|
  {
    if calls == [] then Ok(s)
    else if !Named(s, calls[0].act) then Failed
    else match Step(s, calls[0].act, calls[0].pick)
      case Failed => Failed
      case Ok(s1) => Run(s1, calls[1..])
  }

  predicate Permitted(s: Sys, calls: seq<Call>)
    decreases |calls|
  {
    calls == [] ||
    (Legal(s, calls[0].act) && Disciplined(s, calls[0].act) &&
     var r := Step(s, calls[0].act, calls[0].pick); (r.Ok? ==> Permitted(r.sys, calls[1..])))
  }

  // Whether a call gives the lock to somebody else.
  predicate GivesUpLock(s: Sys, a: Act)
    requires Named(s, a)
  {
    a.DoUnlock? || a.DoWait? || (a.DoSignal? && s.cvs[a.c].waiters != [])
  }

  // How often the lock changes hands.
  function Handovers(s: Sys, calls: seq<Call>): nat
    decreases |calls|
  {
    if calls == [] || !Named(s, calls[0].act) then 0
    else
      var r := Step(s, calls[0].act, calls[0].pick);
      (if GivesUpLock(s, calls[0].act) then 1 else 0) + if r.Ok? then Handovers(r.sys, calls[1..]) else 0
  }

  // The threads created by a run.
  function Creates(calls: seq<Call>): set<Tid>
    decreases |calls|
  {
    if calls == [] then {} else Created(calls[0].act) + Creates(calls[1..])
  }

  function Created(a: Act): set<Tid> { if a.DoCreate? then {a.t} else {} }

  lemma {:induction false} RunKeeps(s: Sys, g: Census, calls: seq<Call>) returns (g': Census)
    requires Inv(s, g) && Permitted(s, calls) && Run(s, calls).Ok?
    ensures Inv(Run(s, calls).sys, g') && g'.at.Keys == g.at.Keys + Creates(calls)
    decreases |calls|
  {
    hide Inv, Step, Legal, Disciplined;
    g' := g;
    if calls != [] {
      var g1 := StepKeeps(s, g, calls[0].act, calls[0].pick);
      g' := RunKeeps(Step(s, calls[0].act, calls[0].pick).sys, g1, calls[1..]);
    }
  }

  // ---------- At most one owner ----------

  // t is in its critical section: it can run, and has taken the lock or has just been given it.  (A
  // late thread is on the ready queue, but goes on waiting when it runs.)
  predicate Holds(s: Sys, t: Tid) {
    (t == s.running || (t in s.ready && !Late(s, t))) && (LocksOf(s, t) > 0 || (t != s.running && KontOf(s, t) == InLock))
  }

  lemma AtMostOneOwner(s: Sys, g: Census, t: Tid, u: Tid)
    requires Inv(s, g) && Holds(s, t) && Holds(s, u)
    ensures t == u && s.value == 1 && t !in s.waitQ
  {
    HolderOwns(s, g, t);
    HolderOwns(s, g, u);
  }

  lemma HolderOwns(s: Sys, g: Census, t: Tid)
    requires Inv(s, g) && Holds(s, t)
    ensures g.owner == Some(t) && s.value == 1 && t !in s.waitQ
  {
    hide Listed, ReadyListed;
    RunningListed(s, g);
    QueueIff(s, g.at, g.c, Some(s.running), Ready, t);
    QueueIff(s, g.at, g.c, Some(s.running), AtLock, t);
    assert ThreadOk(s, g, t);
  }

  // In every run from the start two threads are never in their critical sections at once, and no
  // thread is lost.
  lemma SafeFromStart(cvs: nat, calls: seq<Call>)
    requires Permitted(Initial(cvs), calls) && Run(Initial(cvs), calls).Ok?
    ensures var s := Run(Initial(cvs), calls).sys;
      && (forall t, u :: Holds(s, t) && Holds(s, u) ==> t == u)
      && (forall t :: t == 0 || t in Creates(calls) ==> Present(s, t))
  {
    hide Inv, Holds, Present, Permitted, Run, Initial;
    InitialInv(cvs);
    var g := RunKeeps(Initial(cvs), Census(map[0 := Running], 0, None), calls);
    var s := Run(Initial(cvs), calls).sys;
    forall t, u | Holds(s, t) && Holds(s, u) ensures t == u { AtMostOneOwner(s, g, t, u); }
    forall t | t == 0 || t in Creates(calls) ensures Present(s, t) { PresentIff(s, g, t); }
  }

  // ---------- Hoare hand-over ----------

  lemma CallerOwns(s: Sys, g: Census, a: Act)
    requires Inv(s, g) && Legal(s, a) && (a.DoUnlock? || a.DoWait? || a.DoSignal?)
    ensures g.owner == Some(s.running) && (s.next.None? <==> Chain(s, g.c) == [])
  {
    hide Inv;
    NextFirst(s, g);
  }

  // While the chain lasts, the owners are exactly its threads in order, whatever else is created,
  // preempted or queued in between.
  lemma {:induction false} ChainServed(s: Sys, g: Census, calls: seq<Call>) returns (g': Census)
    requires Inv(s, g) && g.owner.Some? && Permitted(s, calls) && Run(s, calls).Ok?
    requires Handovers(s, calls) <= |Chain(s, g.c)|
    ensures var q, k, s' := Chain(s, g.c), Handovers(s, calls), Run(s, calls).sys;
      && Inv(s', g') && g'.owner == Some(([g.owner.value] + q)[k]) && Chain(s', g'.c) == q[k..]
    decreases |calls|
  {
    hide Inv, Step, Legal, Chain;
    g' := g;
    if calls != [] {
      var a := calls[0].act;
      var g1 := StepKeeps(s, g, a, calls[0].pick);
      NextFirst(s, g);
      if a.DoUnlock? || a.DoWait? || a.DoSignal? { CallerOwns(s, g, a); }
      g' := ChainServed(Step(s, a, calls[0].pick).sys, g1, calls[1..]);
    }
  }

  // The threads that signal or broadcast wakes.
  function Woken(s: Sys, c: nat, all: bool): seq<Tid>
    requires c < |s.cvs| && s.cvs[c].waiters != []
  {
    if all then s.cvs[c].waiters else s.cvs[c].waiters[..1]
  }

  // What project_2/CondVar.h promises, for signal and broadcast by S that wake W1 .. Wn: the owners of
  // the lock from then on are W1, ..., Wn, S, whatever else the woken threads and all others do, as
  // long as no thread is woken in between.
  lemma BroadcastOrder(s: Sys, g: Census, c: nat, all: bool, pick: nat, calls: seq<Call>) returns (g': Census)
    requires Inv(s, g) && Legal(s, DoSignal(c, all)) && s.next.None? && s.cvs[c].waiters != []
    requires var r := Signal(s, c, all, pick);
      r.Ok? ==> Permitted(r.sys, calls) && Run(r.sys, calls).Ok? && Handovers(r.sys, calls) <= |Woken(s, c, all)|
    ensures Signal(s, c, all, pick).Ok?
    ensures var s1 := Signal(s, c, all, pick).sys; var k, s' := Handovers(s1, calls), Run(s1, calls).sys;
      && Inv(s', g') && g'.owner == Some((Woken(s, c, all) + [s.running])[k])
      && Chain(s', g'.c) == (Woken(s, c, all) + [s.running])[k + 1..]
  {
    hide Inv, Chain, Signal, Run, Handovers, Permitted;
    var w := Woken(s, c, all);
    var g1 := SignalKeeps(s, g, c, all, pick);
    var s1 := Signal(s, c, all, pick).sys;
    assert [w[0]] + (w[1..] + [s.running]) == w + [s.running];
    g' := ChainServed(s1, g1, calls);
    var k := Handovers(s1, calls);
    assert (w[1..] + [s.running])[k..] == (w + [s.running])[k + 1..];
  }

  // When it is its turn, the signaller runs at once: control goes from the last woken thread to it.
  lemma SignallerRuns(s: Sys, g: Census, a: Act, pick: nat)
    requires Inv(s, g) && Legal(s, a) && (a.DoUnlock? || a.DoWait?) && s.next.Some? && |Chain(s, g.c)| == 1
    ensures Step(s, a, pick).Ok? && Step(s, a, pick).sys.running == s.next.value
  {
    hide Places, Threads;
    NextFirst(s, g);
    assert KontOf(s, s.next.value) == InSignal;
  }

  // ---------- First come, first served ----------

  // The threads that have to queue for the lock, and those that get it from the queue.
  function Arrivals(s: Sys, calls: seq<Call>): seq<Tid>
    decreases |calls|
  {
    if calls == [] || !Named(s, calls[0].act) then []
    else
      var r := Step(s, calls[0].act, calls[0].pick);
      (if calls[0].act.DoLock? && s.value == 1 then [s.running] else []) + if r.Ok? then Arrivals(r.sys, calls[1..]) else []
  }

  function Served(s: Sys, calls: seq<Call>): seq<Tid>
    decreases |calls|
  {
    if calls == [] || !Named(s, calls[0].act) then []
    else
      var r := Step(s, calls[0].act, calls[0].pick);
      (if (calls[0].act.DoUnlock? || calls[0].act.DoWait?) && s.next.None? && s.waitQ != [] then [s.waitQ[0]] else [])
      + if r.Ok? then Served(r.sys, calls[1..]) else []
  }

  lemma {:induction false} FirstComeFirstServed(s: Sys, g: Census, calls: seq<Call>)
    requires Inv(s, g) && Permitted(s, calls) && Run(s, calls).Ok?
    ensures s.waitQ + Arrivals(s, calls) == Served(s, calls) + Run(s, calls).sys.waitQ
    decreases |calls|
  {
    hide Inv, Step, Legal, Chain, Disciplined;
    if calls != [] {
      var a := calls[0].act;
      var g1 := StepKeeps(s, g, a, calls[0].pick);
      var s1 := Step(s, a, calls[0].pick).sys;
      NextFirst(s, g);
      if a.DoUnlock? || a.DoWait? || a.DoSignal? { CallerOwns(s, g, a); }
      FirstComeFirstServed(s1, g1, calls[1..]);
      var arrived := if a.DoLock? && s.value == 1 then [s.running] else [];
      var served := if (a.DoUnlock? || a.DoWait?) && s.next.None? && s.waitQ != [] then [s.waitQ[0]] else [];
      assert served + s1.waitQ == s.waitQ + arrived;
      Rejoin(s.waitQ, arrived, served, s1.waitQ, Arrivals(s1, calls[1..]), Served(s1, calls[1..]), Run(s, calls).sys.waitQ);
    }
  }

  lemma Rejoin(q: seq<Tid>, x: seq<Tid>, y: seq<Tid>, r: seq<Tid>, xs: seq<Tid>, ys: seq<Tid>, q': seq<Tid>)
    requires y + r == q + x && r + xs == ys + q'
    ensures q + (x + xs) == (y + ys) + q'
  {
    calc {
      q + (x + xs);
      (q + x) + xs;
      y + (r + xs);
      (y + ys) + q';
    }
  }

  // The threads that wait for condition variable c, and those that signal and broadcast take off its queue.
  function WaitsFor(s: Sys, calls: seq<Call>, c: nat): seq<Tid>
    decreases |calls|
  {
    if calls == [] || !Named(s, calls[0].act) then []
    else
      var r := Step(s, calls[0].act, calls[0].pick);
      (if calls[0].act == DoWait(c) then [s.running] else []) + if r.Ok? then WaitsFor(r.sys, calls[1..], c) else []
  }

  function WokenFrom(s: Sys, calls: seq<Call>, c: nat): seq<Tid>
    decreases |calls|
  {
    if calls == [] || !Named(s, calls[0].act) then []
    else
      var r, a := Step(s, calls[0].act, calls[0].pick), calls[0].act;
      (if a.DoSignal? && a.c == c && s.cvs[c].waiters != [] then Woken(s, c, a.all) else [])
      + if r.Ok? then WokenFrom(r.sys, calls[1..], c) else []
  }

  // Every condition variable wakes its threads in the order in which they began to wait, whatever happens
  // in between: in every run, from any state.
  lemma {:induction false} WokenInOrder(s: Sys, calls: seq<Call>, c: nat)
    requires c < |s.cvs| && Run(s, calls).Ok?
    ensures |Run(s, calls).sys.cvs| == |s.cvs|
    ensures s.cvs[c].waiters + WaitsFor(s, calls, c) == WokenFrom(s, calls, c) + Run(s, calls).sys.cvs[c].waiters
    decreases |calls|
  {
    hide Step, RunsNext;
    if calls != [] {
      var a, w := calls[0].act, s.cvs[c].waiters;
      StepQueues(s, a, calls[0].pick);
      var s1 := Step(s, a, calls[0].pick).sys;
      WokenInOrder(s1, calls[1..], c);
      var came := if a == DoWait(c) then [s.running] else [];
      var woken := if a.DoSignal? && a.c == c && w != [] then Woken(s, c, a.all) else [];
      assert woken + s1.cvs[c].waiters == w + came;
      Rejoin(w, came, woken, s1.cvs[c].waiters, WaitsFor(s1, calls[1..], c), WokenFrom(s1, calls[1..], c), Run(s, calls).sys.cvs[c].waiters);
    }
  }

  // The first one woken owns the lock in that step, and runs unless it has been woken before it could go
  // on to wait; the others are next, in order.
  lemma WokenOwns(s: Sys, g: Census, c: nat, all: bool, pick: nat) returns (g': Census)
    requires Inv(s, g) && Legal(s, DoSignal(c, all)) && Disciplined(s, DoSignal(c, all)) && s.cvs[c].waiters != []
    ensures var r, w := Signal(s, c, all, pick), Woken(s, c, all);
      && r.Ok? && Inv(r.sys, g') && g'.owner == Some(w[0]) && Holds(r.sys, w[0])
      && (!Late(s, w[0]) ==> r.sys.running == w[0]) && Chain(r.sys, g'.c) == w[1..] + [s.running]
  {
    hide Inv, Signal, Chain, Holds;
    g' := SignalKeeps(s, g, c, all, pick);
    OwnerHolds(Signal(s, c, all, pick).sys, g');
  }

  // Whoever is served becomes the owner in that step.
  lemma ServedOwns(s: Sys, g: Census, a: Act, pick: nat) returns (g': Census)
    requires Inv(s, g) && Legal(s, a) && Disciplined(s, a) && Step(s, a, pick).Ok?
    requires (a.DoUnlock? || a.DoWait?) && s.next.None? && s.waitQ != []
    ensures Inv(Step(s, a, pick).sys, g') && g'.owner == Some(s.waitQ[0]) && Holds(Step(s, a, pick).sys, s.waitQ[0])
  {
    hide Step, Chain, Disciplined;
    NextFirst(s, g);
    g' := StepKeeps(s, g, a, pick);
    OwnerHolds(Step(s, a, pick).sys, g');
  }

  lemma OwnerHolds(s: Sys, g: Census)
    requires Inv(s, g) && g.owner.Some?
    ensures Holds(s, g.owner.value)
  {
    var t := g.owner.value;
    assert ThreadOk(s, g, t);
    QueueIff(s, g.at, g.c, Some(s.running), Ready, t);
    QueueIff(s, g.at, g.c, Some(s.running), Running, t);
  }

  // ---------- Exactly when the single nextThreadToWakeUp is enough ----------

  // A call keeps every thread in its place, and the chain of successors in order, exactly when it does
  // not wake a thread while another one is still to get the lock.
  lemma EveryoneKeptExactly(s: Sys, g: Census, a: Act, pick: nat)
    requires Inv(s, g) && Legal(s, a) && Step(s, a, pick).Ok?
    ensures (exists g' :: Inv(Step(s, a, pick).sys, g') && g'.at.Keys == g.at.Keys + Created(a)) <==> Disciplined(s, a)
  {
    hide Inv, Lost, Lock, Unlock, Wait, Signal, Yield, Create, Join;
    var s' := Step(s, a, pick).sys;
    if Disciplined(s, a) {
      var g' := StepKeeps(s, g, a, pick);
      assert Inv(s', g') && g'.at.Keys == g.at.Keys + Created(a);
    } else {
      SignallerLost(s, g, a.c, a.all, pick);
      FirstChained(s, g);
      forall g': Census | g'.at.Keys == g.at.Keys + Created(a) ensures !Inv(s', g') { LostIsNotKept(s', g', s.next.value); }
    }
  }

  // x is in no queue, except for one entry on the ready queue from which it goes on to switchThreads.
  ghost predicate Absent(s: Sys, x: Tid) {
    && x !in s.waitQ && x !in s.joined && s.next != Some(x) && Unlisted(s, x)
  }

  ghost predicate Unlisted(s: Sys, x: Tid) {
    && (forall c :: 0 <= c < |s.cvs| ==> x !in s.cvs[c].waiters && x !in s.cvs[c].order)
    && (x in s.ready ==> Late(s, x)) && Once(s.ready, x)
  }

  // x is nextThreadToWakeUp, but everybody who could run and does not overwrite it has no lock to give.
  ghost predicate Condemned(s: Sys, x: Tid) {
    && s.value == 1 && s.next == Some(x) && x !in s.waitQ && x !in s.joined && Unlisted(s, x) && Distinct(s.ready)
    && forall t :: t in s.ready ==> Harmless(s, t)
  }

  predicate Harmless(s: Sys, t: Tid) {
    Late(s, t) || KontOf(s, t).InWait? || (LocksOf(s, t) == 0 && (KontOf(s, t) == Client || KontOf(s, t) == InUnlock))
  }

  ghost predicate Lost(s: Sys, x: Tid) {
    s.running != x && (Absent(s, x) || (Condemned(s, x) && LocksOf(s, s.running) == 0 && s.running !in s.ready))
  }

  lemma ReturnLost(s: Sys, t: Tid, x: Tid)
    requires t != x && (Absent(s, x) || (Condemned(s, x) && Harmless(s, t) && !Late(s, t) && t !in s.ready)) && Return(s, t).Ok?
    ensures Lost(Return(s, t).sys, x)
  {
    var r := Return(s, t).sys;
    assert KontOf(r, x) == KontOf(s, x) && r.ready == s.ready;
    forall u | Condemned(s, x) && u in r.ready ensures Harmless(r, u) { assert Harmless(s, u); }
  }

  lemma {:induction false} SwitchLost(s: Sys, pick: nat, x: Tid)
    requires (Absent(s, x) || Condemned(s, x)) && SwitchThreads(s, pick).Ok?
    ensures Lost(SwitchThreads(s, pick).sys, x)
    decreases |s.ready|
  {
    hide Lost, Return, Absent, Condemned, Harmless;
    var k := pick % |s.ready|;
    var t := s.ready[k];
    assert t in s.ready;
    DroppedLost(s, k, x);
    if Late(s, t) {
      SwitchLost(LateDropped(s, k), pick, x);
    } else {
      ReturnLost(s.(ready := Without(s.ready, k)), t, x);
    }
  }

  // x at most once in q.
  predicate Once(q: seq<Tid>, x: Tid) { forall i, j :: 0 <= i < j < |q| ==> !(q[i] == x && q[j] == x) }

  lemma OnceWithout(q: seq<Tid>, k: nat, x: Tid)
    requires k < |q| && Once(q, x)
    ensures Once(Without(q, k), x) && (q[k] == x ==> x !in Without(q, k))
    ensures forall t :: t in Without(q, k) ==> t in q
  {
    var r := Without(q, k);
    forall t | t in r ensures t in q {
      var i :| 0 <= i < |r| && r[i] == t;
      assert q[if i < k then i else i + 1] == t;
    }
    forall i, j | 0 <= i < j < |r| ensures !(r[i] == x && r[j] == x) {
      assert r[i] == q[if i < k then i else i + 1] && r[j] == q[if j < k then j else j + 1];
    }
    if q[k] == x {
      forall i | 0 <= i < |r| ensures r[i] != x { assert r[i] == q[if i < k then i else i + 1]; }
    }
  }

  lemma DroppedLost(s: Sys, k: nat, x: Tid)
    requires k < |s.ready| && (Absent(s, x) || Condemned(s, x))
    ensures Late(s, s.ready[k]) ==> Absent(LateDropped(s, k), x) || Condemned(LateDropped(s, k), x)
    ensures !Late(s, s.ready[k]) ==>
      var t, m := s.ready[k], s.(ready := Without(s.ready, k));
      t != x && (Absent(m, x) || (Condemned(m, x) && Harmless(m, t) && !Late(m, t) && t !in m.ready))
  {
    hide Harmless, Once, Distinct;
    assert s.ready[k] in s.ready;
    OnceWithout(s.ready, k, x);
    if Late(s, s.ready[k]) { DroppedUnlisted(s, k, x); }
    if Condemned(s, x) {
      TakenOut(s.ready, k);
      HarmlessKept(s, k);
    }
  }

  lemma DroppedUnlisted(s: Sys, k: nat, x: Tid)
    requires k < |s.ready| && Late(s, s.ready[k]) && Unlisted(s, x)
    requires Once(Without(s.ready, k), x) && (s.ready[k] == x ==> x !in Without(s.ready, k))
    requires forall t :: t in Without(s.ready, k) ==> t in s.ready
    ensures Unlisted(LateDropped(s, k), x)
  {
    hide Once;
  }

  lemma HarmlessKept(s: Sys, k: nat)
    requires k < |s.ready| && (forall t :: t in s.ready ==> Harmless(s, t)) && forall t :: t in Without(s.ready, k) ==> t in s.ready
    ensures Late(s, s.ready[k]) ==> forall t :: t in LateDropped(s, k).ready ==> Harmless(LateDropped(s, k), t)
    ensures forall t :: t in Without(s.ready, k) ==> Harmless(s.(ready := Without(s.ready, k)), t)
    ensures Harmless(s.(ready := Without(s.ready, k)), s.ready[k])
  {
    assert s.ready[k] in s.ready && Harmless(s, s.ready[k]);
    if Late(s, s.ready[k]) {
      var m := LateDropped(s, k);
      forall t | t in m.ready ensures Harmless(m, t) { assert Harmless(s, t); }
    }
    var m := s.(ready := Without(s.ready, k));
    forall t | t in m.ready ensures Harmless(m, t) { assert Harmless(s, t); }
  }

  lemma ResumeLost(s: Sys, t: Tid, pick: nat, x: Tid)
    requires Absent(s, x) && t != x && Resume(s, t, pick).Ok?
    ensures Lost(Resume(s, t, pick).sys, x)
  {
    hide Return, SwitchThreads;
    match KontOf(s, t)
    case InWaitUnlock(c) => SwitchLost(s.(running := t, kont := s.kont[t := InWait(c)]), pick, x);
    case _ => ReturnLost(s, t, x);
  }

  // Once lost, always lost: no call of anybody brings x back.
  lemma StepLost(s: Sys, a: Act, pick: nat, x: Tid)
    requires Lost(s, x) && Legal(s, a) && a != DoCreate(x) && Step(s, a, pick).Ok?
    ensures Lost(Step(s, a, pick).sys, x)
  {
    hide Lost, Lock, Unlock, Wait, Signal, Yield, Join;
    match a
    case DoLock => LockLost(s, pick, x);
    case DoUnlock => UnlockLost(s, pick, x);
    case DoWait(c) => WaitLost(s, c, pick, x);
    case DoSignal(c, all) => SignalStaysLost(s, c, all, pick, x);
    case DoYield => YieldLost(s, pick, x);
    case DoCreate(t) => CreateLost(s, t, x);
    case DoJoin => JoinLost(s, pick, x);
  }

  lemma LockLost(s: Sys, pick: nat, x: Tid)
    requires Lost(s, x) && Legal(s, DoLock) && Lock(s, pick).Ok?
    ensures Lost(Lock(s, pick).sys, x)
  {
    hide SwitchThreads;
    if s.value == 1 { SwitchLost(Save(s, InLock).(waitQ := s.waitQ + [s.running]), pick, x); }
  }

  lemma YieldLost(s: Sys, pick: nat, x: Tid)
    requires Lost(s, x) && Yield(s, pick).Ok?
    ensures Lost(Yield(s, pick).sys, x)
  {
    hide SwitchThreads;
    SwitchLost(Save(s, Client).(ready := s.ready + [s.running]), pick, x);
  }

  lemma CreateLost(s: Sys, t: Tid, x: Tid)
    requires Lost(s, x) && Legal(s, DoCreate(t)) && t != x
    ensures Lost(Create(s, t).sys, x)
  {
  }

  lemma JoinLost(s: Sys, pick: nat, x: Tid)
    requires Lost(s, x) && Join(s, pick).Ok?
    ensures Lost(Join(s, pick).sys, x)
  {
    hide SwitchThreads;
    SwitchLost(Save(s, InJoin).(joined := s.joined + [s.running]), pick, x);
  }

  lemma UnlockLost(s: Sys, pick: nat, x: Tid)
    requires Lost(s, x) && Legal(s, DoUnlock) && Unlock(s, pick).Ok?
    ensures Lost(Unlock(s, pick).sys, x)
  {
    hide Resume;
    if s.next.Some? {
      ResumeLost(Save(AddLocks(s, s.running, -1), InUnlock).(next := None, ready := s.ready + [s.running]), s.next.value, pick, x);
    }
  }

  lemma WaitLost(s: Sys, c: nat, pick: nat, x: Tid)
    requires Lost(s, x) && Legal(s, DoWait(c)) && Wait(s, c, pick).Ok?
    ensures Lost(Wait(s, c, pick).sys, x)
  {
    hide Resume, SwitchThreads;
    var s1 := s.(cvs := s.cvs[c := s.cvs[c].(waiters := s.cvs[c].waiters + [s.running])]);
    if s.next.Some? { ResumeLost(Save(s1, InWaitUnlock(c)).(next := None, ready := s.ready + [s.running]), s.next.value, pick, x); }
    else { SwitchLost(Release(Save(s1, InWait(c))), pick, x); }
  }

  lemma SignalStaysLost(s: Sys, c: nat, all: bool, pick: nat, x: Tid)
    requires Lost(s, x) && Legal(s, DoSignal(c, all)) && Signal(s, c, all, pick).Ok?
    ensures Lost(Signal(s, c, all, pick).sys, x)
  {
    hide Resume;
    var w := s.cvs[c].waiters;
    if w != [] {
      assert w[0] in w;
      var cv := if all then Cond([], s.cvs[c].order + w[1..] + [s.running]) else Cond(w[1..], s.cvs[c].order + [s.running]);
      ResumeLost(Save(s, InSignal).(cvs := s.cvs[c := cv]), w[0], pick, x);
    }
  }

  predicate LegalCalls(s: Sys, calls: seq<Call>)
    decreases |calls|
  {
    calls == [] ||
    (Legal(s, calls[0].act) && var r := Step(s, calls[0].act, calls[0].pick); (r.Ok? ==> LegalCalls(r.sys, calls[1..])))
  }

  lemma {:induction false} RunLost(s: Sys, calls: seq<Call>, x: Tid)
    requires Lost(s, x) && LegalCalls(s, calls) && x !in Creates(calls) && Run(s, calls).Ok?
    ensures Lost(Run(s, calls).sys, x)
    decreases |calls|
  {
    hide Lost, Legal, Step;
    if calls != [] {
      StepLost(s, calls[0].act, calls[0].pick, x);
      RunLost(Step(s, calls[0].act, calls[0].pick).sys, calls[1..], x);
    }
  }

  // The thread that is next overwritten in nextThreadToWakeUp by a second signal never runs again.
  lemma SignallerNeverReturns(s: Sys, g: Census, c: nat, all: bool, pick: nat, calls: seq<Call>)
    requires Inv(s, g) && Legal(s, DoSignal(c, all)) && !Disciplined(s, DoSignal(c, all)) && Signal(s, c, all, pick).Ok?
    requires LegalCalls(Signal(s, c, all, pick).sys, calls) && s.next.value !in Creates(calls)
    ensures var r := Run(Signal(s, c, all, pick).sys, calls); r.Ok? ==> r.sys.running != s.next.value
  {
    hide Inv, Lost, Signal, Run, LegalCalls;
    SignallerLost(s, g, c, all, pick);
    if Run(Signal(s, c, all, pick).sys, calls).Ok? {
      RunLost(Signal(s, c, all, pick).sys, calls, s.next.value);
      LostDoesNotRun(Run(Signal(s, c, all, pick).sys, calls).sys, s.next.value);
    }
  }

  lemma LostDoesNotRun(s: Sys, x: Tid)
    requires Lost(s, x)
    ensures s.running != x
  {
  }

  lemma SignallerLost(s: Sys, g: Census, c: nat, all: bool, pick: nat)
    requires Inv(s, g) && Legal(s, DoSignal(c, all)) && s.next.Some? && s.cvs[c].waiters != []
    requires Signal(s, c, all, pick).Ok?
    ensures Lost(Signal(s, c, all, pick).sys, s.next.value)
  {
    hide Places, Threads, LockOk, SwitchThreads, Absent, Condemned, Lost;
    var x, w := s.next.value, s.cvs[c].waiters;
    var cv := if all then Cond([], s.cvs[c].order + w[1..] + [s.running]) else Cond(w[1..], s.cvs[c].order + [s.running]);
    var m := Save(s, InSignal).(cvs := s.cvs[c := cv]);
    FrontWaits(s, g, c);
    WaitingKonts(s, g, c);
    Overwritten(s, g, c, m, cv);
    if Late(s, w[0]) { SwitchLost(m.(running := w[0], kont := m.kont[w[0] := InWait(c)]), pick, x); }
    else { ReturnOverwrites(m, c, w[0], x); }
  }

  // What nextThreadToWakeUp was is nowhere else, and only the thread to be woken can set it anew.
  lemma Overwritten(s: Sys, g: Census, c: nat, m: Sys, cv: Cond)
    requires Inv(s, g) && Legal(s, DoSignal(c, false)) && s.next.Some? && s.cvs[c].waiters != []
    requires m == Save(s, InSignal).(cvs := s.cvs[c := cv]) && cv.order != []
    requires forall t :: t in cv.waiters || t in cv.order ==> t in s.cvs[c].waiters || t in s.cvs[c].order || t == s.running
    ensures var x, w := s.next.value, s.cvs[c].waiters[0];
      && w != x && x !in m.waitQ && x !in m.joined && Unlisted(m, x) && KontOf(m, w) == KontOf(s, w)
      && Condemned(m.(running := w, kont := m.kont[w := InWait(c)]), x)
  {
    hide Listed;
    var x, w, run := s.next.value, s.cvs[c].waiters[0], Some(s.running);
    NextFirst(s, g);
    RunningListed(s, g);
    FirstChained(s, g);
    FrontWaits(s, g, c);
    assert w in s.cvs[c].waiters;
    OnceReady(s, g, x);
    var n := m.(running := w, kont := m.kont[w := InWait(c)]);
    forall t | t in n.ready ensures Harmless(n, t) { ReadyHarmless(s, g, t); }
  }

  lemma OnceReady(s: Sys, g: Census, x: Tid)
    requires Inv(s, g) && x in g.at && g.at[x] == Chained
    ensures (x in s.ready ==> Late(s, x)) && Once(s.ready, x)
  {
    assert x in s.ready <==> InReady(s, g.at, x);
  }

  lemma ReadyHarmless(s: Sys, g: Census, t: Tid)
    requires Inv(s, g) && g.owner == Some(s.running) && t in s.ready
    ensures Harmless(s, t) && t != s.running
  {
    RunningListed(s, g);
    assert InReady(s, g.at, t);
    assert ThreadOk(s, g, t);
  }

  lemma ReturnOverwrites(m: Sys, c: nat, w: Tid, x: Tid)
    requires w != x && x !in m.waitQ && x !in m.joined && Unlisted(m, x) && KontOf(m, w) == InWait(c) && Return(m, w).Ok?
    ensures Lost(Return(m, w).sys, x)
  {
    var r := Return(m, w).sys;
    assert KontOf(r, x) == KontOf(m, x) && r.ready == m.ready;
  }

  // A lost thread has no place.
  lemma LostIsNotKept(s: Sys, g: Census, x: Tid)
    requires Lost(s, x) && x in g.at
    ensures !Inv(s, g)
  {
    hide Listed, ReadyListed, ThreadOk;
    if Places(s, g.at, g.c, Some(s.running)) {
      if Absent(s, x) { NowhereToBe(s, g, x); }
      else if g.owner.Some? && g.owner.value in g.at { NobodyOwns(s, g, x); }
    }
  }

  lemma NowhereToBe(s: Sys, g: Census, x: Tid)
    requires Places(s, g.at, g.c, Some(s.running)) && Absent(s, x) && s.running != x && x in g.at
    ensures !ThreadOk(s, g, x)
  {
    hide Listed, ReadyListed;
    QueueIff(s, g.at, g.c, Some(s.running), g.at[x], x);
    QueueIff(s, g.at, g.c, Some(s.running), Ready, x);
  }

  lemma NobodyOwns(s: Sys, g: Census, x: Tid)
    requires Places(s, g.at, g.c, Some(s.running)) && Condemned(s, x) && LocksOf(s, s.running) == 0
    requires g.owner.Some? && g.owner.value in g.at
    ensures !ThreadOk(s, g, g.owner.value) || Pending(s, g)
  {
    hide Listed, ReadyListed;
    var t := g.owner.value;
    QueueIff(s, g.at, g.c, Some(s.running), Ready, t);
    QueueIff(s, g.at, g.c, Some(s.running), Running, t);
    assert t in s.ready ==> Harmless(s, t);
  }

  // The next thread is in the chain and nowhere else.
  lemma FirstChained(s: Sys, g: Census)
    requires Inv(s, g) && s.next.Some?
    ensures var x := s.next.value;
      && x in g.at && g.at[x] == Chained && x != s.running && x !in s.waitQ && x !in s.joined
      && forall c :: 0 <= c < |s.cvs| ==> x !in s.cvs[c].waiters && x !in s.cvs[c].order
  {
    hide Places;
    var x, run := s.next.value, Some(s.running);
    RunningListed(s, g);
    assert Queue(s, g.c, run, Chained)[0] == x;
    forall p ensures p != Ready ==> (x in Queue(s, g.c, run, p) <==> x in g.at && g.at[x] == p) { QueueIff(s, g.at, g.c, run, p, x); }
    assert x !in Queue(s, g.c, run, AtLock) && x !in Queue(s, g.c, run, Joined);
    forall c | 0 <= c < |s.cvs| ensures x !in s.cvs[c].waiters && x !in s.cvs[c].order {
      assert x !in Queue(s, g.c, run, AtCv(c));
      if c == g.c { OnceChained(s, g); }
    }
  }

  lemma OnceChained(s: Sys, g: Census)
    requires Inv(s, g) && s.next.Some?
    ensures g.c < |s.cvs| ==> s.next.value !in s.cvs[g.c].order
  {
    var q := Queue(s, g.c, Some(s.running), Chained);
    assert Listed(q, g.at, Chained);
    if g.c < |s.cvs| {
      forall i | 0 <= i < |s.cvs[g.c].order| ensures s.cvs[g.c].order[i] != s.next.value {
        assert q[0] == s.next.value && q[i + 1] == s.cvs[g.c].order[i];
      }
    }
  }

  // ---------- A run that breaks the discipline ----------

  // The next state when the first ready thread is always picked.
  function Do(s: Sys, a: Act): Sys {
    if !Named(s, a) then s else match Step(s, a, 0) case Ok(s') => s' case Failed => s
  }

  lemma PicksFirst(s: Sys)
    requires s.ready != [] && !KontOf(s, s.ready[0]).InWaitUnlock?
    ensures SwitchThreads(s, 0) == Return(s.(ready := s.ready[1..]), s.ready[0])
  {
    assert Without(s.ready, 0) == s.ready[1..];
  }

  // A thread takes the free lock and waits.
  lemma LocksAndWaits(s: Sys, w: seq<Tid>)
    requires s.value == 0 && s.waitQ == [] && s.next.None? && s.cvs == [Cond(w, [])] && s.ready != []
    requires s.running !in s.ready && KontOf(s, s.ready[0]) == Client
    ensures var s', r := Do(Do(s, DoLock), DoWait(0)), s.running;
      && s'.running == s.ready[0] && s'.ready == s.ready[1..]
      && s'.value == 0 && s'.waitQ == [] && s'.next.None? && s'.joined == s.joined
      && s'.cvs == [Cond(w + [r], [])] && KontOf(s', r) == InWait(0)
      && forall t :: t != r ==> KontOf(s', t) == if t == s'.running then Client else KontOf(s, t)
  {
    var s1 := Do(s, DoLock);
    var m := Release(Save(s1.(cvs := s1.cvs[0 := Cond(w + [s.running], [])]), InWait(0)));
    assert m.cvs == [Cond(w + [s.running], [])];
    PicksFirst(m);
  }

  // A run that breaks the discipline: thread 0 wakes thread 1, which wakes thread 2 before it has
  // handed the lock back, and thread 0 is gone.
  lemma NestedSignalLoses()
    ensures
      var s0 := Do(Do(Initial(1), DoCreate(1)), DoCreate(2));
      var s1 := Do(s0, DoYield);
      var s2 := Do(Do(s1, DoLock), DoWait(0));
      var s3 := Do(Do(s2, DoLock), DoWait(0));
      var s4 := Do(Do(s3, DoLock), DoSignal(0, false));
      var s5 := Do(s4, DoSignal(0, false));
      s1.running == 1 && s2.running == 2 && s3.running == 0 && s4.running == 1 && s4.next == Some(0) && !Present(s5, 0)
  {
    hide Do;
    Starts();
    var s1 := Do(Do(Do(Initial(1), DoCreate(1)), DoCreate(2)), DoYield);
    var none: seq<Tid> := [];
    assert none + [1] == [1] && [1] + [2] == [1, 2];
    LocksAndWaits(s1, none);
    var s2 := Do(Do(s1, DoLock), DoWait(0));
    LocksAndWaits(s2, [1]);
    SecondSignal(Do(Do(s2, DoLock), DoWait(0)));
  }

  lemma Starts()
    ensures var s := Do(Do(Do(Initial(1), DoCreate(1)), DoCreate(2)), DoYield);
      && s.running == 1 && s.ready == [2, 0] && s.value == 0 && s.waitQ == [] && s.next.None? && s.joined == []
      && s.cvs == [Cond([], [])] && forall t :: KontOf(s, t) == Client
  {
    var s0 := Do(Do(Initial(1), DoCreate(1)), DoCreate(2));
    assert s0.ready + [0] == [1, 2, 0];
    PicksFirst(Save(s0, Client).(ready := [1, 2, 0]));
  }

  lemma SecondSignal(s: Sys)
    requires s.running == 0 && s.ready == [] && s.value == 0 && s.waitQ == [] && s.next.None? && s.joined == []
    requires s.cvs == [Cond([1, 2], [])] && KontOf(s, 1) == InWait(0) && KontOf(s, 2) == InWait(0)
    ensures var s4 := Do(Do(s, DoLock), DoSignal(0, false));
      s4.running == 1 && s4.next == Some(0) && !Present(Do(s4, DoSignal(0, false)), 0)
  {
    var s4 := Do(Do(s, DoLock), DoSignal(0, false));
    var none: seq<Tid> := [];
    assert [1, 2][1..] == [2] && none + [0] == [0] && [0][1..] == none && [2][1..] == none && none + [1] == [1] && [1][1..] == none;
    assert s4.cvs == [Cond([2], [])];
    var s5 := Do(s4, DoSignal(0, false));
    assert s5.cvs == [Cond([], [])];
  }
}
