// What every step of locks and condition variables keeps: each thread is in exactly one place, the
// lock has at most one owner, and a signaller stays in the chain of successors until it is its turn.

module MonitorProof {
  import opened Common
  import opened Queues
  import opened Monitor

  datatype Place = Running | Ready | AtLock | AtCv(c: nat) | Chained | Joined

  // Where each thread is, the condition variable the chain of successors belongs to, and who owns
  // the lock.  at is a function, so "exactly one place" is built in; Inv says that it is exactly
  // what the queues contain.
  datatype Census = Census(at: map<Tid, Place>, c: nat, owner: Option<Tid>)

  // Who gets the lock next without asking, in order.
  function Chain(s: Sys, c: nat): seq<Tid> {
    (if s.next.Some? then [s.next.value] else []) + (if c < |s.cvs| then s.cvs[c].order else [])
  }

  function Queue(s: Sys, c: nat, run: Option<Tid>, p: Place): seq<Tid> {
    match p
    case Running => if run.Some? then [run.value] else []
    case Ready => s.ready
    case AtLock => s.waitQ
    case AtCv(x) => if x < |s.cvs| then s.cvs[x].waiters else []
    case Chained => Chain(s, c)
    case Joined => s.joined
  }

  // A thread that waited while another one was still to get the lock: it is on the ready queue, and
  // will there go straight on to switchThreads.
  predicate Late(s: Sys, t: Tid) { KontOf(s, t).InWaitUnlock? }

  predicate InReady(s: Sys, at: map<Tid, Place>, t: Tid) { t in at && (at[t] == Ready || Late(s, t)) }

  ghost predicate ReadyListed(s: Sys, at: map<Tid, Place>) {
    Distinct(s.ready) && forall t :: t in s.ready <==> InReady(s, at, t)
  }

  ghost predicate Places(s: Sys, at: map<Tid, Place>, c: nat, run: Option<Tid>) {
    (forall p :: p != Ready ==> Listed(Queue(s, c, run, p), at, p)) && ReadyListed(s, at)
  }

  // switchThreads finds somebody to run.
  predicate SomebodyReady(s: Sys) { exists t :: t in s.ready && !Late(s, t) }

  ghost predicate ThreadOk(s: Sys, g: Census, t: Tid)
    requires t in g.at
  {
    var k, l, own := KontOf(s, t), LocksOf(s, t), g.owner == Some(t);
    match g.at[t]
    case Running => k == Client && (own <==> l == 1) && (!own ==> l == 0)
    case Ready =>
      && (k == Client || k == InLock || k == InUnlock || k == InWait(g.c)) && (l == 0 || l == 1)
      && (k == InLock || k == InUnlock ==> l == 0) && (k.InWait? ==> l == 1) && (own <==> l == 1 || k == InLock)
    case AtLock => k == InLock && l == 0 && !own
    case AtCv(c) => (k == InWait(c) || k == InWaitUnlock(c)) && l == 1 && !own
    case Chained => (k == InWait(g.c) || k == InWaitUnlock(g.c) || k == InSignal) && l == 1 && !own
    case Joined => k == InJoin && l == 0 && !own
  }

  ghost predicate Threads(s: Sys, g: Census) {
    forall t :: t in g.at ==> ThreadOk(s, g, t)
  }

  // A thread that was woken while it was late: it owns the lock, but is only on the ready queue, and
  // nextThreadToWakeUp is set when it goes on.
  predicate Pending(s: Sys, g: Census) { g.owner.Some? && KontOf(s, g.owner.value).InWait? }

  // The lock is free exactly when it has no owner; only the last thread of the chain is the one that
  // signalled.
  ghost predicate LockOk(s: Sys, g: Census) {
    var q := Chain(s, g.c);
    && (s.value == 0 || s.value == 1) && (s.value == 0 <==> g.owner.None?)
    && (s.value == 0 ==> s.waitQ == [] && q == [])
    && (g.owner.Some? ==> g.owner.value in g.at)
    && (forall c :: 0 <= c < |s.cvs| && c != g.c ==> s.cvs[c].order == [])
    && (Pending(s, g) <==> s.next.None? && q != [])
    && (forall k :: 0 <= k < |q| ==> (KontOf(s, q[k]) == InSignal <==> k == |q| - 1))
  }

  ghost predicate InvWith(s: Sys, g: Census, run: Option<Tid>) {
    Places(s, g.at, g.c, run) && LockOk(s, g) && Threads(s, g)
  }

  ghost predicate Inv(s: Sys, g: Census) { InvWith(s, g, Some(s.running)) }

  predicate Present(s: Sys, t: Tid) {
    || t == s.running || t in s.ready || t in s.waitQ || t in s.joined || s.next == Some(t)
    || exists c :: 0 <= c < |s.cvs| && (t in s.cvs[c].waiters || t in s.cvs[c].order)
  }

  // What the calls ask of their callers: lock is not re-entrant, the other calls are made by the
  // owner, and a new thread has an unused id.
  predicate Legal(s: Sys, a: Act) {
    && Named(s, a)
    && match a
       case DoLock => LocksOf(s, s.running) == 0
       case DoUnlock => LocksOf(s, s.running) > 0
       case DoWait(_) => LocksOf(s, s.running) > 0
       case DoSignal(_, _) => LocksOf(s, s.running) > 0
       case DoYield => true
       case DoCreate(t) => !Present(s, t)
       case DoJoin => LocksOf(s, s.running) == 0
  }

  // A thread that was woken wakes nobody while its signaller is parked.
  predicate Disciplined(s: Sys, a: Act)
    requires Named(s, a)
  {
    a.DoSignal? && s.next.Some? ==> s.cvs[a.c].waiters == []
  }

  // ---------- The first state ----------

  // Thread 0 runs, the lock is free, nobody waits.
  function Initial(cvs: nat): Sys {
    Sys(0, [], [], 0, [], None, seq(cvs, _ => Cond([], [])), map[], map[0 := 0])
  }

  lemma InitialInv(cvs: nat)
    ensures Inv(Initial(cvs), Census(map[0 := Running], 0, None))
  {
    var s, g := Initial(cvs), Census(map[0 := Running], 0, None);
    assert Chain(s, 0) == [];
    forall p | p != Ready ensures Listed(Queue(s, 0, Some(0), p), g.at, p) {
    }
  }

  // ---------- Moving one thread from one queue to the end of another ----------

  // Thread t, number k of the queue at p1, goes to the end of the queue at p2; what becomes of the
  // ready queue is for the caller to say.
  lemma Move(s: Sys, g: Census, run: Option<Tid>, p1: Place, k: nat, t: Tid, p2: Place, s': Sys, run': Option<Tid>)
    requires Places(s, g.at, g.c, run) && p1 != p2 && t in g.at && g.at[t] == p1
    requires p1 != Ready ==>
      k < |Queue(s, g.c, run, p1)| && Queue(s, g.c, run, p1)[k] == t
      && Queue(s', g.c, run', p1) == Without(Queue(s, g.c, run, p1), k)
    requires p2 != Ready ==> Queue(s', g.c, run', p2) == Queue(s, g.c, run, p2) + [t]
    requires forall p :: p != p1 && p != p2 && p != Ready ==> Queue(s', g.c, run', p) == Queue(s, g.c, run, p)
    requires ReadyListed(s', g.at[t := p2])
    ensures Places(s', g.at[t := p2], g.c, run')
  {
    hide Listed, Queue, ReadyListed;
    forall p | p != Ready ensures Listed(Queue(s', g.c, run', p), g.at[t := p2], p) {
      assert Listed(Queue(s, g.c, run, p), g.at, p);
      if p == p1 { Dropped(Queue(s, g.c, run, p1), g.at, p1, k, p2); }
      else if p == p2 { Appended(Queue(s, g.c, run, p2), g.at, p2, t); }
      else { Bystander(Queue(s, g.c, run, p), g.at, p, t, p2); }
    }
  }

  // t is the only thread that may come to the ready queue or leave it.
  ghost predicate OthersReady(s: Sys, at: map<Tid, Place>, s': Sys, at': map<Tid, Place>, t: Tid) {
    forall x :: x != t ==> (InReady(s', at', x) <==> InReady(s, at, x))
  }

  lemma ReadyKept(s: Sys, at: map<Tid, Place>, s': Sys, at': map<Tid, Place>, t: Tid)
    requires ReadyListed(s, at) && s'.ready == s.ready && OthersReady(s, at, s', at', t)
    requires InReady(s', at', t) <==> InReady(s, at, t)
    ensures ReadyListed(s', at')
  {
  }

  lemma ReadyMore(s: Sys, at: map<Tid, Place>, s': Sys, at': map<Tid, Place>, t: Tid)
    requires ReadyListed(s, at) && s'.ready == s.ready + [t] && OthersReady(s, at, s', at', t)
    requires !InReady(s, at, t) && InReady(s', at', t)
    ensures ReadyListed(s', at')
  {
    assert s'.ready[|s.ready|] == t;
    forall x ensures x in s'.ready <==> InReady(s', at', x) { assert x in s'.ready <==> x in s.ready || x == t; }
  }

  lemma ReadyLess(s: Sys, at: map<Tid, Place>, s': Sys, at': map<Tid, Place>, k: nat)
    requires ReadyListed(s, at) && k < |s.ready| && s'.ready == Without(s.ready, k)
    requires OthersReady(s, at, s', at', s.ready[k]) && !InReady(s', at', s.ready[k])
    ensures ReadyListed(s', at')
  {
    TakenOut(s.ready, k);
  }

  lemma TakenOut(q: seq<Tid>, k: nat)
    requires Distinct(q) && k < |q|
    ensures Distinct(Without(q, k)) && forall x :: x in Without(q, k) <==> x in q && x != q[k]
  {
    var r := Without(q, k);
    forall x | x in q && x != q[k] ensures x in r {
      var i :| 0 <= i < |q| && q[i] == x;
      assert r[if i < k then i else i - 1] == x;
    }
  }

  lemma RunningListed(s: Sys, g: Census)
    requires Inv(s, g)
    ensures s.running in g.at && g.at[s.running] == Running && ThreadOk(s, g, s.running) && s.running !in s.ready
  {
    var q := Queue(s, g.c, Some(s.running), Running);
    assert Listed(q, g.at, Running) && q[0] == s.running;
    assert ThreadOk(s, g, s.running);
    assert !InReady(s, g.at, s.running);
  }

  // ---------- Switching ----------

  // switchThreads finds a thread exactly when one is ready that is not late.
  lemma SwitchKeeps(s: Sys, g: Census, pick: nat) returns (t: Tid)
    requires InvWith(s, g, None)
    ensures var r := SwitchThreads(s, pick);
      && (r.Ok? <==> SomebodyReady(s))
      && (r.Ok? ==>
            && t in g.at && g.at[t] == Ready && Inv(r.sys, g.(at := g.at[t := Running]))
            && r.sys.running == t && Same(s, r.sys, g.c))
    decreases |s.ready|
  {
    hide InvWith, Inv, Return, SomebodyReady, Chain;
    t := 0;
    if s.ready != [] {
      var k := pick % |s.ready|;
      t := s.ready[k];
      if Late(s, t) {
        LateGoes(s, g, k);
        assert SwitchThreads(s, pick) == SwitchThreads(LateDropped(s, k), pick);
        t := SwitchKeeps(LateDropped(s, k), g, pick);
      } else {
        ReadyAt(s, k);
        ReturnKeeps(s, g, k);
        assert SwitchThreads(s, pick) == Return(s.(ready := Without(s.ready, k)), t);
      }
    } else {
      NobodyReady(s);
    }
  }

  lemma ReadyAt(s: Sys, k: nat)
    requires k < |s.ready| && !Late(s, s.ready[k])
    ensures SomebodyReady(s)
  {
    assert s.ready[k] in s.ready;
  }

  lemma NobodyReady(s: Sys)
    requires s.ready == []
    ensures !SomebodyReady(s)
  {
  }

  // A late thread leaves the ready queue for good.
  lemma LateGoes(s: Sys, g: Census, k: nat)
    requires InvWith(s, g, None) && k < |s.ready| && Late(s, s.ready[k])
    ensures InvWith(LateDropped(s, k), g, None) && Same(s, LateDropped(s, k), g.c)
    ensures SomebodyReady(LateDropped(s, k)) <==> SomebodyReady(s)
  {
    hide Listed, Places, Threads, LockOk, SomebodyReady, ReadyListed;
    var t, s' := s.ready[k], LateDropped(s, k);
    ReadyOk(s, g, k);
    assert SameOthers(s, s', t);
    LateGoesPlaces(s, g, k);
    LateGoesLock(s, g, k);
    OnlyOneChanged(s, g, s', g, t);
    LateGoesSomebody(s, k);
  }

  lemma LateGoesPlaces(s: Sys, g: Census, k: nat)
    requires Places(s, g.at, g.c, None) && k < |s.ready| && Late(s, s.ready[k])
    requires s.ready[k] in g.at && g.at[s.ready[k]] != Ready
    ensures Places(LateDropped(s, k), g.at, g.c, None) && Distinct(s.ready)
  {
    hide Listed;
    var s' := LateDropped(s, k);
    ReadyLess(s, g.at, s', g.at, k);
    forall p | p != Ready ensures Listed(Queue(s', g.c, None, p), g.at, p) {
      assert Listed(Queue(s, g.c, None, p), g.at, p) && Queue(s', g.c, None, p) == Queue(s, g.c, None, p);
    }
  }

  lemma LateGoesLock(s: Sys, g: Census, k: nat)
    requires LockOk(s, g) && k < |s.ready| && Late(s, s.ready[k]) && g.owner != Some(s.ready[k])
    ensures LockOk(LateDropped(s, k), g)
  {
    var t, s' := s.ready[k], LateDropped(s, k);
    assert forall x :: x != t ==> KontOf(s', x) == KontOf(s, x);
    assert Chain(s', g.c) == Chain(s, g.c);
  }

  lemma LateGoesSomebody(s: Sys, k: nat)
    requires Distinct(s.ready) && k < |s.ready| && Late(s, s.ready[k])
    ensures SomebodyReady(LateDropped(s, k)) <==> SomebodyReady(s)
  {
    var s' := LateDropped(s, k);
    TakenOut(s.ready, k);
    if SomebodyReady(s) {
      var x :| x in s.ready && !Late(s, x);
      assert x in s'.ready && !Late(s', x);
    }
    if SomebodyReady(s') {
      var x :| x in s'.ready && !Late(s', x);
      assert x in s.ready && !Late(s, x);
    }
  }

  function LateDropped(s: Sys, k: nat): Sys
    requires k < |s.ready| && Late(s, s.ready[k])
  {
    var t := s.ready[k];
    s.(ready := Without(s.ready, k), running := t, kont := s.kont[t := InWait(KontOf(s, t).c)])
  }

  // A ready thread that is not late goes on.
  lemma ReturnKeeps(s: Sys, g: Census, k: nat)
    requires InvWith(s, g, None) && k < |s.ready| && !Late(s, s.ready[k])
    ensures s.ready[k] in g.at && g.at[s.ready[k]] == Ready
    ensures var t, r := s.ready[k], Return(s.(ready := Without(s.ready, k)), s.ready[k]);
      && r.Ok? && Inv(r.sys, g.(at := g.at[t := Running]))
      && r.sys.running == t && Same(s, r.sys, g.c)
  {
    hide Listed, Places, Threads, ReadyListed;
    var t := s.ready[k];
    ReadyOk(s, g, k);
    var g', s' := g.(at := g.at[t := Running]), Return(s.(ready := Without(s.ready, k)), t).sys;
    LeavesReady(s, g, s', k);
    assert Chain(s', g.c) == Chain(s, g.c);
    Move(s, g, None, Ready, 0, t, Running, s', Some(t));
    LockKept(s, g, s', g', None, t);
    OnlyOneChanged(s, g, s', g', t);
  }

  lemma LeavesReady(s: Sys, g: Census, s': Sys, k: nat)
    requires Places(s, g.at, g.c, None) && k < |s.ready| && s'.ready == Without(s.ready, k)
    requires SameOthers(s, s', s.ready[k]) && !Late(s', s.ready[k])
    ensures ReadyListed(s', g.at[s.ready[k] := Running])
  {
    ReadyLess(s, g.at, s', g.at[s.ready[k] := Running], k);
  }

  // Only t's context and lock count differ.
  ghost predicate SameOthers(s: Sys, s': Sys, t: Tid) {
    forall x :: x != t ==> KontOf(s', x) == KontOf(s, x) && LocksOf(s', x) == LocksOf(s, x)
  }

  predicate SameOwner(g: Census, g': Census, t: Tid) {
    (g.owner.Some? && g.owner.value != t ==> g'.owner == g.owner) && (g'.owner.Some? && g'.owner.value != t ==> g'.owner == g.owner)
  }

  lemma OnlyOneChanged(s: Sys, g: Census, s': Sys, g': Census, t: Tid)
    requires Threads(s, g) && SameOthers(s, s', t) && t in g'.at && ThreadOk(s', g', t)
    requires g'.at == g.at[t := g'.at[t]] && g'.c == g.c && SameOwner(g, g', t)
    ensures Threads(s', g')
  {
    forall x | x in g'.at && x != t ensures ThreadOk(s', g', x) { assert ThreadOk(s, g, x); }
  }

  // The lock and the chain do not notice that t, which is not in the chain, moves.
  lemma LockKept(s: Sys, g: Census, s': Sys, g': Census, run: Option<Tid>, t: Tid)
    requires Places(s, g.at, g.c, run) && LockOk(s, g) && SameOthers(s, s', t) && (t in g.at ==> g.at[t] != Chained)
    requires s'.value == s.value && (s.value == 0 ==> s'.waitQ == s.waitQ)
    requires |s'.cvs| == |s.cvs| && forall c :: 0 <= c < |s.cvs| && c != g.c ==> s'.cvs[c].order == s.cvs[c].order
    requires Chain(s', g.c) == Chain(s, g.c)
    requires g'.c == g.c && g'.owner == g.owner && g.at.Keys <= g'.at.Keys
    requires Pending(s', g') <==> s'.next.None? && Chain(s, g.c) != []
    ensures LockOk(s', g')
  {
    var q := Queue(s, g.c, run, Chained);
    assert Listed(q, g.at, Chained);
    assert Chain(s', g.c) == q;
  }

  predicate SameOrders(s: Sys, s': Sys) {
    |s'.cvs| == |s.cvs| && forall c :: 0 <= c < |s.cvs| ==> s'.cvs[c].order == s.cvs[c].order
  }

  lemma ReadyOk(s: Sys, g: Census, k: nat)
    requires InvWith(s, g, None) && k < |s.ready|
    ensures var t := s.ready[k]; t in g.at && ThreadOk(s, g, t) && g.at[t] != Running && (Late(s, t) || g.at[t] == Ready)
  {
    var t := s.ready[k];
    assert t in s.ready;
    assert InReady(s, g.at, t);
    assert ThreadOk(s, g, t);
    assert Listed(Queue(s, g.c, None, Running), g.at, Running);
  }

  // Only the running thread and the ready queue differ, and where in the chain its first thread is
  // written down.
  predicate Same(s: Sys, s': Sys, c: nat) {
    && s'.value == s.value && s'.waitQ == s.waitQ && s'.joined == s.joined && |s'.cvs| == |s.cvs| && Chain(s', c) == Chain(s, c)
    && (forall x :: 0 <= x < |s.cvs| ==> s'.cvs[x].waiters == s.cvs[x].waiters)
  }

  // ---------- Handing the lock over ----------

  // The lock is taken but its owner has just given it up.
  ghost predicate Orphaned(s: Sys, g: Census, run: Option<Tid>) {
    var q := Chain(s, g.c);
    && Places(s, g.at, g.c, run) && Threads(s, g)
    && g.owner.None? && s.value == 1
    && (forall c :: 0 <= c < |s.cvs| && c != g.c ==> s.cvs[c].order == [])
    && (s.next.None? ==> q == [])
    && (forall k :: 0 <= k < |q| ==> (KontOf(s, q[k]) == InSignal <==> k == |q| - 1))
  }

  // To the first of the chain.  It goes on at once, unless it is late; then it owns the lock and a
  // ready thread runs.
  lemma HandOver(s: Sys, g: Census, pick: nat) returns (g': Census)
    requires Orphaned(s, g, None) && s.next.Some?
    ensures s.next.value in g.at
    ensures var t, r := s.next.value, Resume(s.(next := None), s.next.value, pick);
      && r.Ok? && Inv(r.sys, g') && g'.c == g.c && g'.owner == Some(t) && AfterHandOver(g.at, g'.at, t)
      && Chain(r.sys, g.c) == Chain(s, g.c)[1..] && r.sys.waitQ == s.waitQ
  {
    hide Listed, Places, Threads, LockOk, Inv, SwitchThreads, Return;
    var t := s.next.value;
    ChainedOk(s, g, 0);
    if Late(s, t) {
      LateTakes(s, g);
      var m := Pended(s);
      var gm := g.(at := g.at[t := Ready], owner := Some(t));
      var x := SwitchKeeps(m, gm, pick);
      g' := gm.(at := gm.at[x := Running]);
    } else {
      OnTimeTakes(s, g, pick);
      g' := g.(at := g.at[t := Running], owner := Some(t));
    }
  }

  ghost predicate AfterHandOver(at: map<Tid, Place>, at': map<Tid, Place>, t: Tid) {
    && at'.Keys == at.Keys && t in at && (at'[t] == Running || at'[t] == Ready)
    && forall x :: x in at && x != t ==> at'[x] == at[x] || (at[x] == Ready && at'[x] == Running)
  }

  lemma OnTimeTakes(s: Sys, g: Census, pick: nat)
    requires Orphaned(s, g, None) && s.next.Some? && !Late(s, s.next.value)
    ensures s.next.value in g.at
    ensures var t, r := s.next.value, Resume(s.(next := None), s.next.value, pick);
      && r.Ok? && Inv(r.sys, g.(at := g.at[t := Running], owner := Some(t)))
      && Chain(r.sys, g.c) == Chain(s, g.c)[1..] && r.sys.waitQ == s.waitQ
  {
    hide Listed, Places, Threads, LockOk, ReadyListed;
    var t, q, m := s.next.value, Chain(s, g.c), s.(next := None);
    ChainedOk(s, g, 0);
    assert Resume(m, t, pick) == Return(m, t);
    var s', g' := Return(m, t).sys, g.(at := g.at[t := Running], owner := Some(t));
    assert Chain(s', g.c) == q[1..];
    Front(q);
    StillReady(s, g, s', t, Running);
    Move(s, g, None, Chained, 0, t, Running, s', Some(t));
    OnlyOneChanged(s, g, s', g', t);
    LockHanded(s, g, s', g');
  }

  lemma StillReady(s: Sys, g: Census, s': Sys, t: Tid, p: Place)
    requires Places(s, g.at, g.c, None) && s'.ready == s.ready && SameOthers(s, s', t) && t in g.at
    requires InReady(s, g.at, t) <==> InReady(s', g.at[t := p], t)
    ensures ReadyListed(s', g.at[t := p])
  {
    ReadyKept(s, g.at, s', g.at[t := p], t);
  }

  // The first of the chain is late: it goes on to switchThreads as the owner.
  function Pended(s: Sys): Sys
    requires s.next.Some? && Late(s, s.next.value)
  {
    var t := s.next.value;
    s.(next := None, running := t, kont := s.kont[t := InWait(KontOf(s, t).c)])
  }

  lemma LateTakes(s: Sys, g: Census)
    requires Orphaned(s, g, None) && s.next.Some? && Late(s, s.next.value)
    ensures s.next.value in g.at
    ensures var t, m := s.next.value, Pended(s);
      && InvWith(m, g.(at := g.at[t := Ready], owner := Some(t)), None) && SomebodyReady(m)
      && Chain(m, g.c) == Chain(s, g.c)[1..]
  {
    hide Listed, Places, Threads, LockOk, ReadyListed;
    var t, q, m := s.next.value, Chain(s, g.c), Pended(s);
    ChainedOk(s, g, 0);
    var g' := g.(at := g.at[t := Ready], owner := Some(t));
    assert Chain(m, g.c) == q[1..];
    Front(q);
    StillReady(s, g, m, t, Ready);
    Move(s, g, None, Chained, 0, t, Ready, m, None);
    OnlyOneChanged(s, g, m, g', t);
    LockHanded(s, g, m, g');
    IsInReady(m, g'.at, t);
  }

  lemma IsInReady(s: Sys, at: map<Tid, Place>, t: Tid)
    requires ReadyListed(s, at) && InReady(s, at, t)
    ensures t in s.ready
  {
  }

  // The rest of the chain is in order.
  lemma LockHanded(s: Sys, g: Census, s': Sys, g': Census)
    requires Orphaned(s, g, None) && s.next.Some? && SameOthers(s, s', s.next.value)
    requires s'.value == 1 && |s'.cvs| == |s.cvs| && Chain(s', g.c) == Chain(s, g.c)[1..]
    requires forall c :: 0 <= c < |s.cvs| && c != g.c ==> s'.cvs[c] == s.cvs[c]
    requires g'.c == g.c && g'.owner == Some(s.next.value) && s.next.value in g'.at
    requires Pending(s', g') <==> s'.next.None? && Chain(s', g.c) != []
    ensures LockOk(s', g')
  {
    hide Listed, Places, Threads;
    var q := Chain(s, g.c);
    forall k | 0 <= k < |q| - 1 ensures KontOf(s', q[1..][k]) == KontOf(s, q[k + 1]) { ChainedOk(s, g, k + 1); }
  }

  lemma ChainedOk(s: Sys, g: Census, k: nat)
    requires Places(s, g.at, g.c, None) && Threads(s, g) && k < |Chain(s, g.c)|
    ensures var t := Chain(s, g.c)[k]; t in g.at && g.at[t] == Chained && ThreadOk(s, g, t)
    ensures k > 0 ==> Chain(s, g.c)[k] != Chain(s, g.c)[0]
  {
    var q := Queue(s, g.c, None, Chained);
    assert Listed(q, g.at, Chained) && q[k] == Chain(s, g.c)[k];
  }

  // With no chain, to the first waiter, or to nobody.
  lemma ReleaseKeeps(s: Sys, g: Census, run: Option<Tid>) returns (g': Census)
    requires Orphaned(s, g, run) && Chain(s, g.c) == [] && s.next.None?
    ensures InvWith(Release(s), g', run) && Chain(Release(s), g'.c) == [] && g'.at.Keys == g.at.Keys
    ensures g'.owner == if s.waitQ != [] then Some(s.waitQ[0]) else None
    ensures s.waitQ != [] ==> s.waitQ[0] in g.at && g.at[s.waitQ[0]] == AtLock
    ensures g'.at == if s.waitQ != [] then g.at[s.waitQ[0] := Ready] else g.at
  {
    hide Listed, Places, Threads, ReadyListed;
    var s' := Release(s);
    assert Chain(s', g.c) == Chain(s, g.c);
    g' := g;
    if s.waitQ != [] {
      var t := s.waitQ[0];
      FirstWaiterOk(s, g, run);
      g' := g.(at := g.at[t := Ready], owner := Some(t));
      Front(s.waitQ);
      BecomesReady(s, g, run, s', t);
      Move(s, g, run, AtLock, 0, t, Ready, s', run);
      OnlyOneChanged(s, g, s', g', t);
    } else {
      assert forall p :: Queue(s', g.c, run, p) == Queue(s, g.c, run, p);
      SamePlaces(s, s', g, run);
      NoneChanged(s, s', g);
    }
  }

  lemma BecomesReady(s: Sys, g: Census, run: Option<Tid>, s': Sys, t: Tid)
    requires Places(s, g.at, g.c, run) && s'.ready == s.ready + [t] && SameOthers(s, s', t)
    requires !InReady(s, g.at, t)
    ensures ReadyListed(s', g.at[t := Ready])
  {
    ReadyMore(s, g.at, s', g.at[t := Ready], t);
  }

  lemma FirstWaiterOk(s: Sys, g: Census, run: Option<Tid>)
    requires Places(s, g.at, g.c, run) && Threads(s, g) && s.waitQ != []
    ensures s.waitQ[0] in g.at && g.at[s.waitQ[0]] == AtLock && ThreadOk(s, g, s.waitQ[0])
  {
    var q := Queue(s, g.c, run, AtLock);
    assert Listed(q, g.at, AtLock) && q[0] == s.waitQ[0];
  }

  lemma SamePlaces(s: Sys, s': Sys, g: Census, run: Option<Tid>)
    requires Places(s, g.at, g.c, run) && forall p :: Queue(s', g.c, run, p) == Queue(s, g.c, run, p)
    requires forall t :: t in g.at ==> Late(s', t) == Late(s, t)
    ensures Places(s', g.at, g.c, run)
  {
    forall p | p != Ready ensures Listed(Queue(s', g.c, run, p), g.at, p) {
      assert Listed(Queue(s, g.c, run, p), g.at, p);
    }
    assert Queue(s', g.c, run, Ready) == Queue(s, g.c, run, Ready);
    forall t ensures t in s'.ready <==> InReady(s', g.at, t) { assert t in s.ready <==> InReady(s, g.at, t); }
  }

  lemma NoneChanged(s: Sys, s': Sys, g: Census)
    requires Threads(s, g) && s'.kont == s.kont && s'.locks == s.locks
    ensures Threads(s', g)
  {
    forall t | t in g.at ensures ThreadOk(s', g, t) { assert ThreadOk(s, g, t); }
  }

  // ---------- The steps ----------

  // What becomes of the owner and the successors in a step.
  function NextOwner(s: Sys, g: Census, a: Act): Option<Tid>
    requires Named(s, a)
  {
    match a
    case DoLock => if s.value == 0 then Some(s.running) else g.owner
    case DoUnlock => Released(s, g)
    case DoWait(_) => Released(s, g)
    case DoSignal(c, _) => if s.cvs[c].waiters == [] then g.owner else Some(s.cvs[c].waiters[0])
    case _ => g.owner
  }

  function Released(s: Sys, g: Census): Option<Tid> {
    var q := Chain(s, g.c);
    if q != [] then Some(q[0]) else if s.waitQ != [] then Some(s.waitQ[0]) else None
  }

  function NextChain(s: Sys, g: Census, a: Act): seq<Tid>
    requires Named(s, a)
  {
    var q := Chain(s, g.c);
    match a
    case DoUnlock => if q != [] then q[1..] else []
    case DoWait(_) => if q != [] then q[1..] else []
    case DoSignal(c, all) =>
      var w := s.cvs[c].waiters;
      if w == [] then q else if all then w[1..] + [s.running] else [s.running]
    case _ => q
  }

  function NextWaitQ(s: Sys, g: Census, a: Act): seq<Tid> {
    match a
    case DoLock => if s.value == 0 then s.waitQ else s.waitQ + [s.running]
    case DoUnlock => WaitQReleased(s, g)
    case DoWait(_) => WaitQReleased(s, g)
    case _ => s.waitQ
  }

  function WaitQReleased(s: Sys, g: Census): seq<Tid> {
    if Chain(s, g.c) == [] && s.waitQ != [] then s.waitQ[1..] else s.waitQ
  }

  // How a thread stands to the lock; whether it is running or ready makes no difference.
  datatype Spot = Own | Active | Queued | Waiting(c: nat) | Parked | Gone

  function SpotOf(g: Census, t: Tid): Spot
    requires t in g.at
  {
    if g.owner == Some(t) then Own
    else match g.at[t]
      case Running => Active
      case Ready => Active
      case AtLock => Queued
      case AtCv(c) => Waiting(c)
      case Chained => Parked
      case Joined => Gone
  }

  function NextSpot(s: Sys, g: Census, a: Act, t: Tid): Spot
    requires Named(s, a) && t in g.at
  {
    if NextOwner(s, g, a) == Some(t) then Own
    else if t == s.running then
      match a
      case DoLock => Queued
      case DoUnlock => Active
      case DoWait(c) => Waiting(c)
      case DoSignal(_, _) => if SpotOf(g, t) == Own then Parked else SpotOf(g, t)
      case DoJoin => Gone
      case _ => SpotOf(g, t)
    else if a.DoSignal? && a.all && t in s.cvs[a.c].waiters then Parked
    else SpotOf(g, t)
  }

  ghost predicate SpotsMove(s: Sys, g: Census, a: Act, g': Census)
    requires Named(s, a)
  {
    && g'.at.Keys == g.at.Keys + (if a.DoCreate? then {a.t} else {})
    && (forall t :: t in g.at ==> SpotOf(g', t) == NextSpot(s, g, a, t))
    && (a.DoCreate? ==> SpotOf(g', a.t) == Active)
  }

  // ---------- The queues of the condition variables, and who runs ----------

  // The waiters of condition variable x: who waits joins the end, and who is woken leaves the front.
  function NextWaiters(s: Sys, a: Act, x: nat): seq<Tid>
    requires Named(s, a) && x < |s.cvs|
  {
    var w := s.cvs[x].waiters;
    if a == DoWait(x) then w + [s.running]
    else if a.DoSignal? && a.c == x && w != [] then (if a.all then [] else w[1..])
    else w
  }

  // The thread that control goes to, unless it is late; None: switchThreads takes a ready one.
  function NextUp(s: Sys, a: Act): Option<Tid>
    requires Named(s, a)
  {
    match a
    case DoLock => if s.value == 1 then None else Some(s.running)
    case DoUnlock => if s.next.Some? then s.next else Some(s.running)
    case DoWait(_) => s.next
    case DoSignal(c, _) => if s.cvs[c].waiters != [] then Some(s.cvs[c].waiters[0]) else Some(s.running)
    case DoCreate(_) => Some(s.running)
    case DoYield => None
    case DoJoin => None
  }

  predicate QueuesMove(s: Sys, a: Act, s': Sys)
    requires Named(s, a)
  {
    && |s'.cvs| == |s.cvs| && (forall x :: 0 <= x < |s.cvs| ==> s'.cvs[x].waiters == NextWaiters(s, a, x))
    && s'.joined == s.joined + if a.DoJoin? then [s.running] else []
  }

  // Whoever is woken runs at once, unless it is late.
  predicate RunsNext(s: Sys, a: Act, s': Sys)
    requires Named(s, a)
  {
    var up := NextUp(s, a);
    if up.Some? && !Late(s, up.value) then s'.running == up.value
    else s'.running in s.ready || s'.running == s.running || (a.DoWait? && s.waitQ != [] && s'.running == s.waitQ[0])
  }

  // Switching changes no queue of waiting or joining threads.
  predicate SameWaiters(s: Sys, s': Sys) {
    s'.joined == s.joined && |s'.cvs| == |s.cvs| && forall x :: 0 <= x < |s.cvs| ==> s'.cvs[x].waiters == s.cvs[x].waiters
  }

  lemma ResumeCvs(s: Sys, t: Tid, pick: nat)
    ensures var r := Resume(s, t, pick);
      r.Ok? ==> SameWaiters(s, r.sys) && if Late(s, t) then r.sys.running in s.ready else r.sys.running == t
    decreases |s.ready|, 1
  {
    if Late(s, t) {
      SwitchCvs(s.(running := t, kont := s.kont[t := InWait(KontOf(s, t).c)]), pick);
    }
  }

  lemma SwitchCvs(s: Sys, pick: nat)
    ensures var r := SwitchThreads(s, pick); r.Ok? ==> SameWaiters(s, r.sys) && r.sys.running in s.ready
    decreases |s.ready|, 0
  {
    hide Resume, SameWaiters;
    if s.ready != [] {
      var k := pick % |s.ready|;
      var m := s.(ready := Without(s.ready, k));
      ResumeCvs(m, s.ready[k], pick);
      StillIn(s.ready, k);
      SameBut(s, m, SwitchThreads(s, pick));
    }
  }

  lemma StillIn(q: seq<Tid>, k: nat)
    requires k < |q|
    ensures q[k] in q && forall t :: t in Without(q, k) ==> t in q
  {
    var r := Without(q, k);
    forall t | t in r ensures t in q {
      var i :| 0 <= i < |r| && r[i] == t;
      assert q[if i < k then i else i + 1] == t;
    }
  }

  lemma SameBut(s: Sys, m: Sys, r: Outcome)
    requires m.joined == s.joined && m.cvs == s.cvs
    ensures r.Ok? && SameWaiters(m, r.sys) ==> SameWaiters(s, r.sys)
  {
  }

  lemma WaitQueues(s: Sys, c: nat, pick: nat)
    requires c < |s.cvs|
    ensures var r := Wait(s, c, pick);
      r.Ok? ==> QueuesMove(s, DoWait(c), r.sys) && (s.next != Some(s.running) ==> RunsNext(s, DoWait(c), r.sys))
  {
    hide Resume, SwitchThreads;
    var s1 := s.(cvs := s.cvs[c := s.cvs[c].(waiters := s.cvs[c].waiters + [s.running])]);
    if s.next.Some? {
      var m := Save(s1, InWaitUnlock(c)).(next := None, ready := s1.ready + [s.running]);
      ResumeCvs(m, s.next.value, pick);
    } else { SwitchCvs(Release(Save(s1, InWait(c))), pick); }
  }

  lemma SignalQueuesMove(s: Sys, c: nat, all: bool, pick: nat)
    requires c < |s.cvs|
    ensures var r := Signal(s, c, all, pick);
      r.Ok? ==> QueuesMove(s, DoSignal(c, all), r.sys) && (s.running !in s.cvs[c].waiters ==> RunsNext(s, DoSignal(c, all), r.sys))
  {
    hide Resume;
    var w := s.cvs[c].waiters;
    if w != [] {
      var cv := if all then Cond([], s.cvs[c].order + w[1..] + [s.running]) else Cond(w[1..], s.cvs[c].order + [s.running]);
      ResumeCvs(Save(s, InSignal).(cvs := s.cvs[c := cv]), w[0], pick);
    }
  }

  // The exact queues after every step, of any state.
  lemma StepQueues(s: Sys, a: Act, pick: nat)
    requires Named(s, a)
    ensures var r := Step(s, a, pick); r.Ok? ==> QueuesMove(s, a, r.sys)
    ensures var r := Step(s, a, pick);
      r.Ok? && s.next != Some(s.running) && (a.DoSignal? ==> s.running !in s.cvs[a.c].waiters) ==> RunsNext(s, a, r.sys)
  {
    hide Resume, SwitchThreads, Wait, Signal;
    match a
    case DoLock => SwitchCvs(Save(s, InLock).(waitQ := s.waitQ + [s.running]), pick);
    case DoUnlock =>
      if s.next.Some? {
        ResumeCvs(Save(AddLocks(s, s.running, -1), InUnlock).(next := None, ready := s.ready + [s.running]), s.next.value, pick);
      }
    case DoWait(c) => WaitQueues(s, c, pick);
    case DoSignal(c, all) => SignalQueuesMove(s, c, all, pick);
    case DoYield => SwitchCvs(Save(s, Client).(ready := s.ready + [s.running]), pick);
    case DoCreate(_) =>
    case DoJoin => SwitchCvs(Save(s, InJoin).(joined := s.joined + [s.running]), pick);
  }

  lemma StepMoves(s: Sys, g: Census, a: Act, pick: nat)
    requires Inv(s, g) && Named(s, a)
    ensures var r := Step(s, a, pick); r.Ok? ==> QueuesMove(s, a, r.sys) && RunsNext(s, a, r.sys)
  {
    hide Step, Places, Threads, LockOk, QueuesMove, RunsNext, Chain;
    NextFirst(s, g);
    StepQueues(s, a, pick);
    if a.DoSignal? { NotWaiting(s, g, a.c); }
  }

  lemma NotWaiting(s: Sys, g: Census, c: nat)
    requires Inv(s, g) && c < |s.cvs|
    ensures s.running !in s.cvs[c].waiters
  {
    RunningListed(s, g);
    QueueIff(s, g.at, g.c, Some(s.running), AtCv(c), s.running);
  }

  ghost predicate StepDone(s: Sys, g: Census, a: Act, s': Sys, g': Census)
    requires Named(s, a)
  {
    && Inv(s', g') && SpotsMove(s, g, a, g')
    && g'.owner == NextOwner(s, g, a) && Chain(s', g'.c) == NextChain(s, g, a) && s'.waitQ == NextWaitQ(s, g, a)
    && QueuesMove(s, a, s') && RunsNext(s, a, s')
  }

  // The running thread goes to the end of the queue at p, and onto the ready queue if it has to be there.
  ghost predicate Queued1(s: Sys, g: Census, m: Sys, p: Place) {
    && p != Running && p != Chained
    && (p != Ready ==> Queue(m, g.c, None, p) == Queue(s, g.c, None, p) + [s.running])
    && (forall x :: x != Running && x != Ready && x != p ==> Queue(m, g.c, None, x) == Queue(s, g.c, None, x))
    && m.ready == (if InReady(m, g.at[s.running := p], s.running) then s.ready + [s.running] else s.ready)
    && m.value == s.value && (s.value == 0 ==> m.waitQ == s.waitQ) && m.next == s.next && SameOrders(s, m)
    && SameOthers(s, m, s.running)
  }

  lemma QueuedPlaces(s: Sys, g: Census, m: Sys, p: Place)
    requires Inv(s, g) && Queued1(s, g, m, p) && s.running in g.at
    ensures Places(m, g.at[s.running := p], g.c, None) && Chain(m, g.c) == Chain(s, g.c)
  {
    hide Listed, Threads, LockOk, ReadyListed;
    RunningListed(s, g);
    var at' := g.at[s.running := p];
    assert OthersReady(s, g.at, m, at', s.running);
    assert !InReady(s, g.at, s.running);
    if InReady(m, at', s.running) { ReadyMore(s, g.at, m, at', s.running); } else { ReadyKept(s, g.at, m, at', s.running); }
    Move(s, g, Some(s.running), Running, 0, s.running, p, m, None);
  }

  // It keeps the lock if it has it.
  lemma Parks(s: Sys, g: Census, m: Sys, p: Place)
    requires Inv(s, g) && Queued1(s, g, m, p) && !KontOf(m, s.running).InWait?
    requires s.running in g.at && ThreadOk(m, g.(at := g.at[s.running := p]), s.running)
    ensures InvWith(m, g.(at := g.at[s.running := p]), None) && Chain(m, g.c) == Chain(s, g.c)
  {
    hide Listed, Places, Threads, ThreadOk, Queued1;
    RunningListed(s, g);
    QueuedPlaces(s, g, m, p);
    KeepsLock(s, g, m, p);
    OnlyOneChanged(s, g, m, g.(at := g.at[s.running := p]), s.running);
  }

  lemma KeepsLock(s: Sys, g: Census, m: Sys, p: Place)
    requires Inv(s, g) && Queued1(s, g, m, p) && !KontOf(m, s.running).InWait? && Chain(m, g.c) == Chain(s, g.c)
    requires s.running in g.at && g.at[s.running] == Running && ThreadOk(s, g, s.running)
    ensures SameOthers(s, m, s.running) && LockOk(m, g.(at := g.at[s.running := p]))
  {
    hide Listed, Places, Threads;
    LockKept(s, g, m, g.(at := g.at[s.running := p]), Some(s.running), s.running);
  }

  lemma DoneInv(s: Sys, g: Census, a: Act, s': Sys, g': Census)
    requires Named(s, a) && StepDone(s, g, a, s', g')
    ensures Inv(s', g')
  {
  }

  // A thread that parks, and then another one runs.
  lemma ParkSpots(s: Sys, g: Census, a: Act, p: Place, t: Tid)
    requires (a == DoLock && p == AtLock && s.value == 1) || (a == DoYield && p == Ready) || (a == DoJoin && p == Joined)
    requires s.running in g.at && g.at[s.running] == Running && (a != DoYield ==> g.owner != Some(s.running))
    requires t in g.at && g.at[s.running := p][t] == Ready
    ensures SpotsMove(s, g, a, g.(at := g.at[s.running := p][t := Running]))
  {
  }

  // lock always returns or finds somebody to switch to: the owner is ready.
  lemma LockKeeps(s: Sys, g: Census, pick: nat) returns (g': Census)
    requires Inv(s, g) && Legal(s, DoLock)
    ensures var r := Lock(s, pick); r.Ok? && StepDone(s, g, DoLock, r.sys, g')
  {
    hide Inv, StepDone, Lock;
    NextFirst(s, g);
    if s.value == 1 { g' := LockQueues(s, g, pick); } else { g' := LockTakes(s, g, pick); }
  }

  lemma LockQueues(s: Sys, g: Census, pick: nat) returns (g': Census)
    requires Inv(s, g) && Legal(s, DoLock) && s.value == 1
    ensures var r := Lock(s, pick); r.Ok? && StepDone(s, g, DoLock, r.sys, g')
  {
    hide QueuesMove, RunsNext, Listed, Places, Threads, Return, Resume, SwitchThreads, SpotsMove, InvWith;
    StepMoves(s, g, DoLock, pick);
    RunningListed(s, g);
    var m := Save(s, InLock).(waitQ := s.waitQ + [s.running]);
    OwnerReady(s, g, m);
    Parks(s, g, m, AtLock);
    var t := SwitchKeeps(m, g.(at := g.at[s.running := AtLock]), pick);
    ParkSpots(s, g, DoLock, AtLock, t);
    g' := g.(at := g.at[s.running := AtLock][t := Running]);
  }

  lemma LockTakes(s: Sys, g: Census, pick: nat) returns (g': Census)
    requires Inv(s, g) && Legal(s, DoLock) && s.value == 0
    ensures var r := Lock(s, pick); r.Ok? && StepDone(s, g, DoLock, r.sys, g')
  {
    hide QueuesMove, RunsNext, Listed, Places, Threads;
    StepMoves(s, g, DoLock, pick);
    RunningListed(s, g);
    g' := g.(owner := Some(s.running));
    var s' := Lock(s, pick).sys;
    assert forall p :: Queue(s', g.c, Some(s.running), p) == Queue(s, g.c, Some(s.running), p);
    SamePlaces(s, s', g, Some(s.running));
    OnlyOneChanged(s, g, s', g', s.running);
  }

  lemma OwnerReady(s: Sys, g: Census, m: Sys)
    requires Inv(s, g) && s.value == 1 && LocksOf(s, s.running) == 0 && m.ready == s.ready && SameOthers(s, m, s.running)
    ensures SomebodyReady(m)
  {
    RunningListed(s, g);
    var t := g.owner.value;
    assert ThreadOk(s, g, t);
    assert Listed(Queue(s, g.c, Some(s.running), Running), g.at, Running);
    assert InReady(s, g.at, t);
    assert t in m.ready && !Late(m, t);
  }

  lemma YieldKeeps(s: Sys, g: Census, pick: nat) returns (g': Census)
    requires Inv(s, g)
    ensures var r := Yield(s, pick); r.Ok? && StepDone(s, g, DoYield, r.sys, g')
  {
    hide QueuesMove, RunsNext, Listed, Places, Threads, Return, Resume, SwitchThreads, SpotsMove, InvWith;
    StepMoves(s, g, DoYield, pick);
    RunningListed(s, g);
    var m := Save(s, Client).(ready := s.ready + [s.running]);
    ReadyAt(m, |s.ready|);
    Parks(s, g, m, Ready);
    var t := SwitchKeeps(m, g.(at := g.at[s.running := Ready]), pick);
    ParkSpots(s, g, DoYield, Ready, t);
    g' := g.(at := g.at[s.running := Ready][t := Running]);
  }

  lemma JoinKeeps(s: Sys, g: Census, pick: nat) returns (g': Census)
    requires Inv(s, g) && Legal(s, DoJoin)
    ensures var r := Join(s, pick);
      if !SomebodyReady(s) then r.Failed? else r.Ok? && StepDone(s, g, DoJoin, r.sys, g')
  {
    hide QueuesMove, RunsNext, Listed, Places, Threads, Return, Resume, SwitchThreads, SpotsMove, InvWith, SomebodyReady;
    StepMoves(s, g, DoJoin, pick);
    RunningListed(s, g);
    var m := Save(s, InJoin).(joined := s.joined + [s.running]);
    g' := g.(at := g.at[s.running := Joined]);
    Parks(s, g, m, Joined);
    SameReady(s, m);
    var t := SwitchKeeps(m, g', pick);
    if SomebodyReady(s) {
      ParkSpots(s, g, DoJoin, Joined, t);
      g' := g.(at := g.at[s.running := Joined][t := Running]);
    }
  }

  lemma SameReady(s: Sys, m: Sys)
    requires m.ready == s.ready && s.running !in s.ready && SameOthers(s, m, s.running)
    ensures SomebodyReady(m) <==> SomebodyReady(s)
  {
    if SomebodyReady(s) { var t :| t in s.ready && !Late(s, t); assert t in m.ready && !Late(m, t); }
    if SomebodyReady(m) { var t :| t in m.ready && !Late(m, t); assert t in s.ready && !Late(s, t); }
  }

  lemma QueueIff(s: Sys, at: map<Tid, Place>, c: nat, run: Option<Tid>, p: Place, t: Tid)
    requires Places(s, at, c, run)
    ensures p != Ready ==> (t in Queue(s, c, run, p) <==> t in at && at[t] == p)
    ensures t in s.ready <==> InReady(s, at, t)
  {
    if p != Ready { assert Listed(Queue(s, c, run, p), at, p); }
  }

  lemma PresentIff(s: Sys, g: Census, t: Tid)
    requires Inv(s, g)
    ensures Present(s, t) <==> t in g.at
  {
    hide Places;
    var run := Some(s.running);
    forall p ensures p != Ready ==> (t in Queue(s, g.c, run, p) <==> t in g.at && g.at[t] == p) { QueueIff(s, g.at, g.c, run, p, t); }
    QueueIff(s, g.at, g.c, run, Ready, t);
    assert t in Queue(s, g.c, run, Running) <==> t == s.running;
    assert t in Queue(s, g.c, run, Chained) <==> s.next == Some(t) || (g.c < |s.cvs| && t in s.cvs[g.c].order);
    assert t in Queue(s, g.c, run, AtLock) <==> t in s.waitQ;
    assert t in Queue(s, g.c, run, Joined) <==> t in s.joined;
    forall c | 0 <= c < |s.cvs| ensures t in s.cvs[c].waiters <==> t in g.at && g.at[t] == AtCv(c) {
      assert t in Queue(s, g.c, run, AtCv(c)) <==> t in s.cvs[c].waiters;
    }
    if t in g.at && g.at[t].AtCv? { assert t in Queue(s, g.c, run, g.at[t]); }
  }

  lemma CreateSpots(s: Sys, g: Census, t: Tid)
    requires t !in g.at && (g.owner.Some? ==> g.owner.value in g.at)
    ensures SpotsMove(s, g, DoCreate(t), g.(at := g.at[t := Ready]))
  {
  }

  lemma CreateKeeps(s: Sys, g: Census, t: Tid) returns (g': Census)
    requires Inv(s, g) && Legal(s, DoCreate(t))
    ensures t !in g.at
    ensures var r := Create(s, t); r.Ok? && StepDone(s, g, DoCreate(t), r.sys, g')
  {
    hide QueuesMove, RunsNext, Listed, Threads, Present, SpotsMove;
    StepMoves(s, g, DoCreate(t), 0);
    g' := g.(at := g.at[t := Ready]);
    var s' := Create(s, t).sys;
    NextFirst(s, g);
    PresentIff(s, g, t);
    LockKept(s, g, s', g', Some(s.running), t);
    OnlyOneChanged(s, g, s', g', t);
    CreateSpots(s, g, t);
    BecomesReady(s, g, Some(s.running), s', t);
    forall p | p != Ready ensures Listed(Queue(s', g.c, Some(s.running), p), g'.at, p) {
      assert Listed(Queue(s, g.c, Some(s.running), p), g.at, p);
      Bystander(Queue(s, g.c, Some(s.running), p), g.at, p, t, Ready);
    }
  }

  // The owner gives the lock up and goes to the end of the queue at p.
  lemma GivesUp(s: Sys, g: Census, m: Sys, p: Place)
    requires Inv(s, g) && g.owner == Some(s.running) && Queued1(s, g, m, p) && m.waitQ == s.waitQ && s.running in g.at
    requires ThreadOk(m, g.(at := g.at[s.running := p], owner := None), s.running)
    ensures Orphaned(m, g.(at := g.at[s.running := p], owner := None), None) && Chain(m, g.c) == Chain(s, g.c)
  {
    hide Listed, Places, Threads, ThreadOk, Queued1;
    RunningListed(s, g);
    QueuedPlaces(s, g, m, p);
    LeavesLock(s, g, m, p);
    OnlyOneChanged(s, g, m, g.(at := g.at[s.running := p], owner := None), s.running);
  }

  lemma LeavesLock(s: Sys, g: Census, m: Sys, p: Place)
    requires Inv(s, g) && g.owner == Some(s.running) && Queued1(s, g, m, p) && Chain(m, g.c) == Chain(s, g.c)
    requires s.running in g.at && g.at[s.running] == Running && ThreadOk(s, g, s.running)
    ensures SameOthers(s, m, s.running) && m.value == 1 && (m.next.None? ==> Chain(m, g.c) == [])
    ensures forall c :: 0 <= c < |m.cvs| && c != g.c ==> m.cvs[c].order == []
    ensures var q := Chain(m, g.c); forall k :: 0 <= k < |q| ==> (KontOf(m, q[k]) == InSignal <==> k == |q| - 1)
  {
    hide Threads;
    var q := Queue(s, g.c, Some(s.running), Chained);
    assert Listed(q, g.at, Chained);
    assert q == Chain(m, g.c);
  }

  // The parked signaller, or the woken thread that is next, gets the lock.
  lemma UnlockWakes(s: Sys, g: Census, pick: nat) returns (g': Census)
    requires Inv(s, g) && Legal(s, DoUnlock) && s.next.Some?
    ensures var r := Unlock(s, pick); r.Ok? && StepDone(s, g, DoUnlock, r.sys, g')
  {
    hide QueuesMove, RunsNext, Listed, Places, Threads, LockOk, Resume, SpotsMove, Orphaned;
    StepMoves(s, g, DoUnlock, pick);
    RunningListed(s, g);
    NextFirst(s, g);
    var m := Save(AddLocks(s, s.running, -1), InUnlock).(ready := s.ready + [s.running]);
    GivesUp(s, g, m, Ready);
    var gm := g.(at := g.at[s.running := Ready], owner := None);
    g' := HandOver(m, gm, pick);
    LetGoSpots(s, g, DoUnlock, gm, g');
  }

  // The owner has let go of the lock and the first of the chain has got it.
  lemma LetGoSpots(s: Sys, g: Census, a: Act, gm: Census, g': Census)
    requires (a == DoUnlock && gm.at == g.at[s.running := Ready]) || (a.DoWait? && gm.at == g.at[s.running := AtCv(a.c)])
    requires Named(s, a) && s.running in g.at && g.at[s.running] == Running && g.owner == Some(s.running)
    requires g'.owner == NextOwner(s, g, a) && g'.owner.Some? && g'.owner.value != s.running
    requires AfterHandOver(gm.at, g'.at, g'.owner.value)
    ensures SpotsMove(s, g, a, g')
  {
    forall t | t in g.at ensures SpotOf(g', t) == NextSpot(s, g, a, t) {
      assert t != g'.owner.value ==> g'.at[t] == gm.at[t] || (gm.at[t] == Ready && g'.at[t] == Running);
    }
  }

  // With no chain, the first waiter gets it, or nobody.
  lemma UnlockReleases(s: Sys, g: Census, pick: nat) returns (g': Census)
    requires Inv(s, g) && Legal(s, DoUnlock) && s.next.None?
    ensures var r := Unlock(s, pick); r.Ok? && StepDone(s, g, DoUnlock, r.sys, g')
  {
    hide QueuesMove, RunsNext, Listed, Places, Threads, LockOk, SpotsMove, Orphaned;
    StepMoves(s, g, DoUnlock, pick);
    RunningListed(s, g);
    NextFirst(s, g);
    var s1 := AddLocks(s, s.running, -1);
    assert forall p :: Queue(s1, g.c, Some(s.running), p) == Queue(s, g.c, Some(s.running), p);
    SamePlaces(s, s1, g, Some(s.running));
    LockKept(s, g, s1, g, Some(s.running), s.running);
    OnlyOneChanged(s, g, s1, g.(owner := None), s.running);
    OrphanedBy(s1, g);
    g' := ReleaseKeeps(s1, g.(owner := None), Some(s.running));
    UnlockSpots(s, g, g');
  }

  lemma UnlockKeeps(s: Sys, g: Census, pick: nat) returns (g': Census)
    requires Inv(s, g) && Legal(s, DoUnlock)
    ensures var r := Unlock(s, pick); r.Ok? && StepDone(s, g, DoUnlock, r.sys, g')
  {
    hide Inv, StepDone, Unlock;
    if s.next.Some? { g' := UnlockWakes(s, g, pick); } else { g' := UnlockReleases(s, g, pick); }
  }

  // The assert on the lock count fails exactly for a thread that does not own the lock.
  lemma UnlockFailsExactly(s: Sys, g: Census, pick: nat)
    requires Inv(s, g)
    ensures Unlock(s, pick).Failed? <==> g.owner != Some(s.running)
  {
    hide Inv, StepDone, WakeNext;
    OwnerCount(s, g);
    if g.owner == Some(s.running) { var g' := UnlockKeeps(s, g, pick); }
  }

  lemma OwnerCount(s: Sys, g: Census)
    requires Inv(s, g)
    ensures LocksOf(s, s.running) == if g.owner == Some(s.running) then 1 else 0
  {
    RunningListed(s, g);
  }

  lemma UnlockSpots(s: Sys, g: Census, g': Census)
    requires s.running in g.at && SpotOf(g, s.running) == Own && g'.owner == Released(s, g)
    requires g'.owner.Some? ==> g'.owner.value in g.at
    requires forall t :: t in g.at && g'.owner != Some(t) && t != s.running ==> t in g'.at && g'.at[t] == g.at[t]
    requires g'.at.Keys == g.at.Keys && (g'.at[s.running] == Running || g'.at[s.running] == Ready)
    ensures SpotsMove(s, g, DoUnlock, g')
  {
  }

  lemma OrphanedBy(s: Sys, g: Census)
    requires Places(s, g.at, g.c, Some(s.running)) && LockOk(s, g) && Threads(s, g.(owner := None)) && g.owner.Some? && !Pending(s, g)
    ensures Orphaned(s, g.(owner := None), Some(s.running))
  {
  }

  lemma NextFirst(s: Sys, g: Census)
    requires Inv(s, g)
    ensures s.next.Some? ==> Chain(s, g.c) != [] && Chain(s, g.c)[0] == s.next.value
    ensures (g.owner.Some? <==> s.value == 1) && (s.value == 0 || s.value == 1)
    ensures g.owner.Some? ==> g.owner.value in g.at
    ensures LocksOf(s, s.running) > 0 ==> g.owner == Some(s.running)
    ensures g.owner == Some(s.running) ==> (s.next.None? <==> Chain(s, g.c) == [])
    ensures s.next.Some? ==> s.next.value != s.running
  {
    RunningListed(s, g);
    assert Listed(Queue(s, g.c, Some(s.running), Chained), g.at, Chained);
    if s.next.Some? { assert Queue(s, g.c, Some(s.running), Chained)[0] == s.next.value; }
  }

  lemma WaitKeeps(s: Sys, g: Census, c: nat, pick: nat) returns (g': Census)
    requires Inv(s, g) && Legal(s, DoWait(c))
    ensures var r := Wait(s, c, pick);
      if !SomebodyReady(s) && s.waitQ == [] && s.next.None? then r.Failed? else r.Ok? && StepDone(s, g, DoWait(c), r.sys, g')
  {
    hide Inv, StepDone, Wait;
    if s.next.Some? { g' := WaitWakes(s, g, c, pick); } else { g' := WaitReleases(s, g, c, pick); }
  }

  // The thread that waits hands the lock to the first of the chain and is late: it is ready as well.
  lemma WaitWakes(s: Sys, g: Census, c: nat, pick: nat) returns (g': Census)
    requires Inv(s, g) && Legal(s, DoWait(c)) && s.next.Some?
    ensures var r := Wait(s, c, pick); r.Ok? && StepDone(s, g, DoWait(c), r.sys, g')
  {
    hide QueuesMove, RunsNext, Listed, Places, Threads, LockOk, Resume, SpotsMove, Orphaned;
    StepMoves(s, g, DoWait(c), pick);
    RunningListed(s, g);
    NextFirst(s, g);
    var m := Save(s.(cvs := s.cvs[c := s.cvs[c].(waiters := s.cvs[c].waiters + [s.running])]), InWaitUnlock(c))
      .(ready := s.ready + [s.running]);
    GivesUp(s, g, m, AtCv(c));
    var gm := g.(at := g.at[s.running := AtCv(c)], owner := None);
    g' := HandOver(m, gm, pick);
    LetGoSpots(s, g, DoWait(c), gm, g');
  }

  lemma WaitReleases(s: Sys, g: Census, c: nat, pick: nat) returns (g': Census)
    requires Inv(s, g) && Legal(s, DoWait(c)) && s.next.None?
    ensures var r := Wait(s, c, pick);
      if !SomebodyReady(s) && s.waitQ == [] then r.Failed? else r.Ok? && StepDone(s, g, DoWait(c), r.sys, g')
  {
    hide QueuesMove, RunsNext, Listed, Places, Threads, LockOk, Resume, Return, SpotsMove, Orphaned, SomebodyReady;
    StepMoves(s, g, DoWait(c), pick);
    RunningListed(s, g);
    NextFirst(s, g);
    var m := Save(s, InWait(c)).(cvs := s.cvs[c := s.cvs[c].(waiters := s.cvs[c].waiters + [s.running])]);
    GivesUp(s, g, m, AtCv(c));
    g' := ReleaseKeeps(m, g.(at := g.at[s.running := AtCv(c)], owner := None), None);
    WaitSpots(s, g, c, g');
    ReleasedReady(s, m, g');
    var t := SwitchKeeps(Release(m), g', pick);
    if SomebodyReady(Release(m)) {
      SpotsRun(s, g, DoWait(c), g', t);
      g' := g'.(at := g'.at[t := Running]);
    }
  }

  lemma ReleasedReady(s: Sys, m: Sys, g': Census)
    requires m.ready == s.ready && m.waitQ == s.waitQ && s.running !in s.ready && SameOthers(s, m, s.running)
    requires InvWith(Release(m), g', None) && (s.waitQ != [] ==> s.waitQ[0] in g'.at && g'.at[s.waitQ[0]] == Ready)
    ensures SomebodyReady(Release(m)) <==> SomebodyReady(s) || s.waitQ != []
  {
    if s.waitQ != [] {
      var x := Release(m);
      assert x.ready[|s.ready|] == s.waitQ[0] && ThreadOk(x, g', s.waitQ[0]);
      assert s.waitQ[0] in x.ready && !Late(x, s.waitQ[0]);
    } else {
      SameReady(s, Release(m));
    }
  }

  lemma WaitSpots(s: Sys, g: Census, c: nat, g': Census)
    requires c < |s.cvs| && s.running in g.at && Chain(s, g.c) == []
    requires g'.owner == (if s.waitQ != [] then Some(s.waitQ[0]) else None)
    requires SpotOf(g, s.running) == Own && (s.waitQ != [] ==> s.waitQ[0] in g.at && s.waitQ[0] != s.running)
    requires var at := g.at[s.running := AtCv(c)]; g'.at == if s.waitQ != [] then at[s.waitQ[0] := Ready] else at
    ensures SpotsMove(s, g, DoWait(c), g')
  {
  }

  // That a ready thread runs makes no difference.
  lemma SpotsRun(s: Sys, g: Census, a: Act, g': Census, t: Tid)
    requires Named(s, a) && SpotsMove(s, g, a, g') && t in g'.at && g'.at[t] == Ready
    ensures SpotsMove(s, g, a, g'.(at := g'.at[t := Running]))
  {
    assert forall x :: x in g'.at ==> SpotOf(g'.(at := g'.at[t := Running]), x) == SpotOf(g', x);
  }

  // With no chain it does not matter which condition variable it would belong to.
  lemma Rebase(s: Sys, g: Census, c: nat)
    requires Inv(s, g) && s.next.None? && g.owner == Some(s.running)
    ensures Inv(s, g.(c := c)) && Chain(s, c) == []
  {
    hide Listed, ReadyListed;
    NextFirst(s, g);
    assert Chain(s, g.c) == [] && Chain(s, c) == [];
    assert forall p :: Queue(s, c, Some(s.running), p) == Queue(s, g.c, Some(s.running), p);
    forall p | p != Ready ensures Listed(Queue(s, c, Some(s.running), p), g.at, p) {
      assert Listed(Queue(s, g.c, Some(s.running), p), g.at, p);
    }
    assert Listed(Queue(s, g.c, Some(s.running), Chained), g.at, Chained);
    RunningListed(s, g);
    forall t | t in g.at ensures ThreadOk(s, g.(c := c), t) {
      assert ThreadOk(s, g, t);
      NoneChained(g.at, t);
    }
  }

  lemma NoneChained(at: map<Tid, Place>, t: Tid)
    requires Listed([], at, Chained) && t in at
    ensures at[t] != Chained
  {
  }

  // The first n waiters of c join the chain.
  lemma {:induction false} JoinChain(s: Sys, g: Census, run: Option<Tid>, n: nat) returns (g': Census)
    requires g.c < |s.cvs| && s.next.Some? && n <= |s.cvs[g.c].waiters|
    requires Places(s, g.at, g.c, run) && Threads(s, g)
    ensures g'.c == g.c && g'.owner == g.owner && g'.at.Keys == g.at.Keys
    ensures forall t :: t in g.at ==> g'.at[t] == if t in s.cvs[g.c].waiters[..n] then Chained else g.at[t]
    ensures var cv := s.cvs[g.c]; var s' := s.(cvs := s.cvs[g.c := Cond(cv.waiters[n..], cv.order + cv.waiters[..n])]);
      Places(s', g'.at, g.c, run) && Threads(s', g')
    decreases n
  {
    hide Listed, Places, Threads;
    var cv := s.cvs[g.c];
    if n == 0 {
      assert cv.waiters[0..] == cv.waiters && cv.order + cv.waiters[..0] == cv.order;
      assert s.cvs[g.c := cv] == s.cvs;
      g' := g;
    } else {
      var t := cv.waiters[0];
      WaitingOk(s, g, run);
      var s1 := s.(cvs := s.cvs[g.c := Cond(cv.waiters[1..], cv.order + [t])]);
      var g1 := g.(at := g.at[t := Chained]);
      Front(cv.waiters);
      SameKonts(s, g, s1, run, t, Chained);
      Move(s, g, run, AtCv(g.c), 0, t, Chained, s1, run);
      OnlyOneChanged(s, g, s1, g1, t);
      g' := JoinChain(s1, g1, run, n - 1);
      JoinedPrefix(cv, n, t);
      var cv' := Cond(cv.waiters[n..], cv.order + cv.waiters[..n]);
      assert s1.cvs[g.c := cv'] == s.cvs[g.c := cv'];
    }
  }

  // t changes places, but its context stays.
  lemma SameKonts(s: Sys, g: Census, s': Sys, run: Option<Tid>, t: Tid, p: Place)
    requires Places(s, g.at, g.c, run) && s'.ready == s.ready && s'.kont == s.kont && t in g.at && g.at[t] != Ready && p != Ready
    ensures ReadyListed(s', g.at[t := p])
  {
    ReadyKept(s, g.at, s', g.at[t := p], t);
  }

  lemma JoinedPrefix(cv: Cond, n: nat, t: Tid)
    requires 0 < n <= |cv.waiters| && t == cv.waiters[0]
    ensures cv.waiters[1..][n - 1..] == cv.waiters[n..]
    ensures cv.order + [t] + cv.waiters[1..][..n - 1] == cv.order + cv.waiters[..n]
    ensures forall x :: x in cv.waiters[..n] <==> x == t || x in cv.waiters[1..][..n - 1]
  {
    var w := cv.waiters;
    assert w[..n] == [t] + w[1..][..n - 1];
  }

  lemma WaitingOk(s: Sys, g: Census, run: Option<Tid>)
    requires Places(s, g.at, g.c, run) && Threads(s, g) && g.c < |s.cvs| && s.cvs[g.c].waiters != []
    ensures var t := s.cvs[g.c].waiters[0]; t in g.at && g.at[t] == AtCv(g.c) && ThreadOk(s, g, t)
  {
    var q := Queue(s, g.c, run, AtCv(g.c));
    assert Listed(q, g.at, AtCv(g.c)) && q[0] == s.cvs[g.c].waiters[0];
  }

  lemma WaitingKonts(s: Sys, g: Census, c: nat)
    requires Inv(s, g) && c < |s.cvs|
    ensures forall k :: 0 <= k < |s.cvs[c].waiters| ==> var x := KontOf(s, s.cvs[c].waiters[k]); x == InWait(c) || x == InWaitUnlock(c)
  {
    var q := Queue(s, g.c, Some(s.running), AtCv(c));
    assert Listed(q, g.at, AtCv(c));
    forall k | 0 <= k < |q| ensures KontOf(s, q[k]) == InWait(c) || KontOf(s, q[k]) == InWaitUnlock(c) { assert ThreadOk(s, g, q[k]); }
  }

  // The signaller parks itself behind those it wakes.
  lemma SignallerLast(s: Sys, g: Census)
    requires Places(s, g.at, g.c, Some(s.running)) && Threads(s, g) && g.owner == Some(s.running)
    requires g.c < |s.cvs| && s.next.Some? && s.value == 1 && LocksOf(s, s.running) == 1
    requires forall c :: 0 <= c < |s.cvs| && c != g.c ==> s.cvs[c].order == []
    requires forall k :: 0 <= k < |Chain(s, g.c)| ==> KontOf(s, Chain(s, g.c)[k]) != InSignal
    requires s.running in g.at && g.at[s.running] == Running && !Late(s, s.running)
    ensures var cv := s.cvs[g.c]; var x := Save(s, InSignal).(cvs := s.cvs[g.c := cv.(order := cv.order + [s.running])]);
      && Orphaned(x, g.(at := g.at[s.running := Chained], owner := None), None)
      && Chain(x, g.c) == Chain(s, g.c) + [s.running]
  {
    hide Listed, Places, Threads;
    var cv, q := s.cvs[g.c], Chain(s, g.c);
    var x := Save(s, InSignal).(cvs := s.cvs[g.c := cv.(order := cv.order + [s.running])]);
    assert Chain(x, g.c) == q + [s.running];
    ParkedReady(s, g, x);
    Move(s, g, Some(s.running), Running, 0, s.running, Chained, x, None);
    OnlyOneChanged(s, g, x, g.(at := g.at[s.running := Chained], owner := None), s.running);
    NotChained(s, g);
  }

  lemma ParkedReady(s: Sys, g: Census, x: Sys)
    requires Places(s, g.at, g.c, Some(s.running)) && s.running in g.at && g.at[s.running] == Running && !Late(s, s.running)
    requires x.ready == s.ready && SameOthers(s, x, s.running) && !Late(x, s.running)
    ensures ReadyListed(x, g.at[s.running := Chained])
  {
    ReadyKept(s, g.at, x, g.at[s.running := Chained], s.running);
  }

  lemma NotChained(s: Sys, g: Census)
    requires Places(s, g.at, g.c, Some(s.running))
    ensures s.running !in Chain(s, g.c)
  {
    assert Listed(Queue(s, g.c, Some(s.running), Running), g.at, Running);
    assert Listed(Queue(s, g.c, Some(s.running), Chained), g.at, Chained);
    var q := Queue(s, g.c, Some(s.running), Running);
    assert q[0] == s.running;
  }

  lemma NoOrders(s: Sys, g: Census, c: nat)
    requires Inv(s, g) && Chain(s, c) == [] && c < |s.cvs| && Inv(s, g.(c := c))
    ensures forall x :: 0 <= x < |s.cvs| ==> s.cvs[x].order == []
    ensures g.owner.Some? ==> s.value == 1
  {
    hide Places, Threads;
  }

  // What signal or broadcast has queued up when it switches, seen as a chain.
  lemma SignalQueues(s: Sys, g: Census, c: nat, all: bool) returns (g': Census)
    requires Inv(s, g) && Legal(s, DoSignal(c, all)) && s.next.None? && s.cvs[c].waiters != []
    ensures var w := s.cvs[c].waiters;
      var cv := if all then Cond([], w[1..] + [s.running]) else Cond(w[1..], [s.running]);
      var x := Save(s, InSignal).(cvs := s.cvs[c := cv], next := Some(w[0]));
      && Orphaned(x, g', None) && g'.c == c && s.cvs[c].order == []
      && Chain(x, c) == [w[0]] + cv.order && g'.at.Keys == g.at.Keys
      && g'.owner.None?
      && forall t :: t in g.at ==> g'.at[t] == if t == s.running || t == w[0] || (all && t in w) then Chained else g.at[t]
  {
    hide Listed, Places, Threads, LockOk;
    RunningListed(s, g);
    NextFirst(s, g);
    Rebase(s, g, c);
    NoOrders(s, g, c);
    var w, run := s.cvs[c].waiters, Some(s.running);
    var n := if all then |w| - 1 else 0;
    var g1 := g.(c := c);
    WaitingOk(s, g1, run);
    var x1 := s.(next := Some(w[0]), cvs := s.cvs[c := Cond(w[1..], [])]);
    var g2 := g1.(at := g.at[w[0] := Chained]);
    Front(w);
    SameKonts(s, g1, x1, run, w[0], Chained);
    Move(s, g1, run, AtCv(c), 0, w[0], Chained, x1, run);
    OnlyOneChanged(s, g1, x1, g2, w[0]);
    var g3 := JoinChain(x1, g2, run, n);
    var cv2 := Cond(w[1..][n..], w[1..][..n]);
    var x2 := s.(next := Some(w[0]), cvs := s.cvs[c := cv2]);
    assert [] + w[1..][..n] == w[1..][..n];
    assert x1.cvs[c := cv2] == s.cvs[c := cv2];
    WaitingKonts(s, g, c);
    SignallerLast(x2, g3);
    var cv := if all then Cond([], w[1..] + [s.running]) else Cond(w[1..], [s.running]);
    assert cv == Cond(cv2.waiters, cv2.order + [s.running]);
    assert x2.cvs[c := cv] == s.cvs[c := cv];
    g' := g3.(at := g3.at[s.running := Chained], owner := None);
  }

  lemma FrontWaits(s: Sys, g: Census, c: nat)
    requires Inv(s, g) && c < |s.cvs| && s.cvs[c].waiters != []
    ensures s.cvs[c].waiters[0] != s.running && s.cvs[c].waiters[0] in g.at
  {
    RunningListed(s, g);
    QueueIff(s, g.at, g.c, Some(s.running), AtCv(c), s.cvs[c].waiters[0]);
    assert s.cvs[c].waiters[0] in Queue(s, g.c, Some(s.running), AtCv(c));
  }

  lemma SignalKeeps(s: Sys, g: Census, c: nat, all: bool, pick: nat) returns (g': Census)
    requires Inv(s, g) && Legal(s, DoSignal(c, all)) && Disciplined(s, DoSignal(c, all))
    ensures var r := Signal(s, c, all, pick); r.Ok? && StepDone(s, g, DoSignal(c, all), r.sys, g')
  {
    hide QueuesMove, RunsNext, Inv, Orphaned, Resume, SpotsMove;
    StepMoves(s, g, DoSignal(c, all), pick);
    g' := g;
    var w := s.cvs[c].waiters;
    RunningListed(s, g);
    if w == [] { NobodyWoken(s, g, c, all); } else {
      FrontWaits(s, g, c);
      var cv := if all then Cond([], w[1..] + [s.running]) else Cond(w[1..], [s.running]);
      var x := Save(s, InSignal).(cvs := s.cvs[c := cv], next := Some(w[0]));
      var gx := SignalQueues(s, g, c, all);
      assert [] + w[1..] + [s.running] == w[1..] + [s.running] && [] + [s.running] == [s.running];
      assert Signal(s, c, all, pick) == Resume(x.(next := None), w[0], pick);
      g' := HandOver(x, gx, pick);
      SignalSpots(s, g, c, all, gx, g');
    }
  }

  lemma NobodyWoken(s: Sys, g: Census, c: nat, all: bool)
    requires c < |s.cvs| && s.cvs[c].waiters == [] && s.running in g.at && SpotOf(g, s.running) == Own
    ensures SpotsMove(s, g, DoSignal(c, all), g)
  {
  }

  lemma SignalSpots(s: Sys, g: Census, c: nat, all: bool, gx: Census, g': Census)
    requires c < |s.cvs| && s.cvs[c].waiters != [] && s.running in g.at && SpotOf(g, s.running) == Own
    requires var w := s.cvs[c].waiters;
      && w[0] in g.at && w[0] != s.running && g'.owner == Some(w[0]) && gx.at.Keys == g.at.Keys
      && AfterHandOver(gx.at, g'.at, w[0])
      && forall t :: t in g.at ==> gx.at[t] == if t == s.running || t == w[0] || (all && t in w) then Chained else g.at[t]
    ensures SpotsMove(s, g, DoSignal(c, all), g')
  {
    forall t | t in g.at ensures SpotOf(g', t) == NextSpot(s, g, DoSignal(c, all), t) {
      assert t != s.cvs[c].waiters[0] ==> g'.at[t] == gx.at[t] || (gx.at[t] == Ready && g'.at[t] == Running);
    }
  }

  // Every disciplined step of every reachable state: nothing the source asserts about the lock is
  // false, except that a thread that waits or joins may find nobody ready; every thread is still in
  // exactly one place, a late one on the ready queue as well; and ownership moves only along the chain
  // and then along waiting_queue.
  lemma StepKeeps(s: Sys, g: Census, a: Act, pick: nat) returns (g': Census)
    requires Inv(s, g) && Legal(s, a) && Disciplined(s, a)
    ensures Step(s, a, pick).Failed? <==> !SomebodyReady(s) && (a.DoJoin? || (a.DoWait? && s.waitQ == [] && s.next.None?))
    ensures Step(s, a, pick).Ok? ==> StepDone(s, g, a, Step(s, a, pick).sys, g')
  {
    hide StepDone, Inv, Lock, Unlock, Wait, Signal, Yield, Join, Create, SomebodyReady;
    g' := g;
    match a
    case DoLock => g' := LockKeeps(s, g, pick);
    case DoUnlock => g' := UnlockKeeps(s, g, pick);
    case DoWait(c) => g' := WaitKeeps(s, g, c, pick);
    case DoSignal(c, all) => g' := SignalKeeps(s, g, c, all, pick);
    case DoYield => g' := YieldKeeps(s, g, pick);
    case DoCreate(t) => g' := CreateKeeps(s, g, t);
    case DoJoin => g' := JoinKeeps(s, g, pick);
  }
}
