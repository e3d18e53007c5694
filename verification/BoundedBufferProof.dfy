// No assert of the bounded buffer fails, whatever the schedule.

module BoundedBufferProof {
  import opened Common
  import opened Queues
  import opened Monitor
  import opened MonitorProof
  import opened BoundedBuffer

  predicate Critical(pc: Pc) { Pre(pc) || Post(pc) || pc == ToTest || pc == ToWait || pc == ToLeave || pc == ToUnlock }

  // Before and after the access to the buffer.
  predicate Pre(pc: Pc) { pc == ToAssert || pc == ToEnter || pc == ToCheck || pc == ToMove }
  predicate Post(pc: Pc) { pc == ToAdvance || pc == ToCount || pc == ToTally || pc == ToSignal }

  // Whose turn it is: the owner of the lock with its role and next statement, and the signaller that
  // gets the lock back, if any.
  datatype Turn = Nobody | By(producer: bool, pc: Pc)

  function TurnOf(b: Buf, owner: Option<Tid>): Turn {
    if owner.Some? && owner.value < |b.pcs| then By(IsProducer(b, owner.value), b.pcs[owner.value]) else Nobody
  }

  // 1 if the turn is with a producer (or consumer) that has touched the buffer but has not yet moved
  // head (or tail), changed item_count, or done its bookkeeping.
  function MoveLag(u: Turn, producer: bool): int { if u == By(producer, ToAdvance) then 1 else 0 }
  function CountLag(u: Turn, producer: bool): int { if u == By(producer, ToCount) then 1 else MoveLag(u, producer) }
  function TallyLag(u: Turn, producer: bool): int { if u == By(producer, ToTally) then 1 else CountLag(u, producer) }

  predicate Inside(u: Turn, producer: bool) {
    u.By? && u.producer == producer && (u.pc == ToCheck || u.pc == ToMove || Post(u.pc) || u.pc == ToLeave)
  }

  // The buffer holds the items made but not taken, which were taken in order.
  ghost predicate HistoryOk(v: Shared) {
    var p, c := |v.made|, |v.taken|;
    && c <= p <= c + SHARED_BUFFER_SIZE
    && v.taken == v.made[..c]
    && |v.cells| == SHARED_BUFFER_SIZE
    && forall k :: c <= k < p ==> v.cells[Wrap(k)] == v.made[k]
  }

  // The shared variables are what the histories say, up to the statements the owner has still to run.
  predicate CountersOk(v: Shared, u: Turn, parked: Option<bool>) {
    var p, c := |v.made|, |v.taken|;
    && MoveLag(u, true) <= p && MoveLag(u, false) <= c
    && v.head == Wrap(p - MoveLag(u, true))
    && v.tail == Wrap(c - MoveLag(u, false))
    && v.count == p - c - CountLag(u, true) + CountLag(u, false)
    && v.produced == p - TallyLag(u, true)
    && v.consumed == c - TallyLag(u, false)
    && (v.prodIn <==> Inside(u, true) || parked == Some(true))
    && (v.consIn <==> Inside(u, false) || parked == Some(false))
  }

  ghost predicate VarsOk(v: Shared, u: Turn, parked: Option<bool>) {
    HistoryOk(v) && CountersOk(v, u, parked)
  }

  function InBuffer(v: Shared): int { |v.made| - |v.taken| }

  // What the owner may rely on behind its test or its wait, and that only the woken thread runs while
  // its signaller is parked; n is the number of items in the buffer.
  predicate TurnOk(n: int, u: Turn, parked: Option<bool>) {
    && (u.By? ==>
          && Critical(u.pc)
          && (u.pc == ToWait ==> n == if u.producer then SHARED_BUFFER_SIZE else 0)
          && (Pre(u.pc) ==> if u.producer then n < SHARED_BUFFER_SIZE else n > 0))
    && (parked.Some? ==>
          && u.By? && u.producer != parked.value && u.pc != ToTest && u.pc != ToWait
          && n == if u.producer then SHARED_BUFFER_SIZE - (if Pre(u.pc) then 1 else 0) else if Pre(u.pc) then 1 else 0)
  }

  // Consumers wait only while the buffer is empty, up to the item the owner is about to take or has
  // just put in; producers likewise.
  predicate WaiterOk(n: int, u: Turn, producer: bool) {
    var early := u.By? && if u.producer == producer then Pre(u.pc) else Post(u.pc);
    if producer then n == SHARED_BUFFER_SIZE - (if early then 1 else 0)
    else n == if early then 1 else 0
  }

  predicate ThreadAt(b: Buf, u: Turn, t: Tid, spot: Spot) {
    t < |b.pcs| &&
    var pc := b.pcs[t];
    if t == 0 then
      && (spot == Active || spot == Gone) && (pc == ToCreate || pc == ToJoin)
      && (pc == ToJoin ==> |b.pcs| == 1 + b.np + b.nc) && (spot == Gone ==> pc == ToJoin)
    else
      match spot
      case Own => Critical(pc)
      case Active => pc == ToLock || pc == ToYield
      case Queued => pc == ToTest
      case Waiting(c) => c == (if IsProducer(b, t) then NEED_SPACE else NEED_ITEM) && pc == ToAssert && WaiterOk(InBuffer(b.vars), u, IsProducer(b, t))
      case Parked => pc == ToLeave
      case Gone => false
  }

  // The role of the parked signaller.
  function ParkedRole(b: Buf, chain: seq<Tid>): Option<bool> {
    if chain == [] then None else Some(IsProducer(b, chain[0]))
  }

  ghost predicate BufInv(b: Buf, g: Census) {
    var u, q := TurnOf(b, g.owner), Chain(b.mon, g.c);
    && Inv(b.mon, g) && |b.mon.cvs| == 2 && |q| <= 1 && (q != [] ==> q[0] != 0)
    && 1 <= |b.pcs| <= 1 + b.np + b.nc
    && (forall t: Tid :: t in g.at <==> t < |b.pcs|)
    && (forall t :: t in g.at ==> ThreadAt(b, u, t, SpotOf(g, t)))
    && VarsOk(b.vars, u, ParkedRole(b, q)) && TurnOk(InBuffer(b.vars), u, ParkedRole(b, q))
  }

  lemma StartOk(np: nat, nc: nat)
    ensures BufInv(Start(np, nc), Census(map[0 := Running], 0, None)) && Start(np, nc).np == np && Start(np, nc).nc == nc
  {
    hide Inv, WaiterOk, TurnOk, HistoryOk;
    var b, g := Start(np, nc), Census(map[0 := Running], 0, None);
    assert b.mon == Initial(2);
    NothingMade(b.vars);
    InitialInv(2);
    assert Chain(b.mon, 0) == [];
  }

  lemma NothingMade(v: Shared)
    requires v.made == [] && v.taken == [] && |v.cells| == SHARED_BUFFER_SIZE
    ensures HistoryOk(v) && TurnOk(InBuffer(v), Nobody, None)
  {
  }

  // ---------- Statements that do not call the thread library ----------

  predicate Local(pc: Pc) { Critical(pc) && pc != ToWait && pc != ToSignal && pc != ToUnlock }

  ghost predicate OwnerReady(v: Shared, u: Turn, parked: Option<bool>) {
    u.By? && Local(u.pc) && VarsOk(v, u, parked) && TurnOk(InBuffer(v), u, parked)
  }

  // The owner's statement keeps the shared variables in order and does not surprise a waiting thread.
  ghost predicate StatementOk(v: Shared, u: Turn, e: Effect, parked: Option<bool>)
    requires u.By?
  {
    && e.Goes?
    && var u', n, n' := By(u.producer, e.pc), InBuffer(v), InBuffer(e.vars);
    && VarsOk(e.vars, u', parked) && TurnOk(n', u', parked)
    && (forall producer :: WaiterOk(n, u, producer) ==> WaiterOk(n', u', producer))
  }

  lemma Wraps(p: int, c: int)
    requires 0 <= c <= p <= c + SHARED_BUFFER_SIZE
    ensures var h, t := Wrap(p), Wrap(c);
      && 0 <= h < SHARED_BUFFER_SIZE && 0 <= t < SHARED_BUFFER_SIZE
      && (h > t ==> h - t == p - c) && (h < t ==> SHARED_BUFFER_SIZE - t + h == p - c)
      && (h == t ==> p - c == 0 || p - c == SHARED_BUFFER_SIZE)
  {
  }

  lemma WrapIs(x: int)
    ensures Wrap(x) == x % SHARED_BUFFER_SIZE
  {
  }

  lemma WrapNext(x: int)
    ensures Wrap(Wrap(x) + 1) == Wrap(x + 1)
  {
  }

  lemma SameHistory(v: Shared, v': Shared)
    requires HistoryOk(v) && v'.made == v.made && v'.taken == v.taken && v'.cells == v.cells
    ensures HistoryOk(v') && |v.taken| <= |v.made| <= |v.taken| + SHARED_BUFFER_SIZE
  {
  }

  lemma MadeOne(v: Shared, item: int)
    requires HistoryOk(v) && |v.made| < |v.taken| + SHARED_BUFFER_SIZE
    ensures |v.cells| == SHARED_BUFFER_SIZE && 0 <= Wrap(|v.made|) < SHARED_BUFFER_SIZE
    ensures HistoryOk(v.(cells := v.cells[Wrap(|v.made|) := item], made := v.made + [item]))
  {
  }

  lemma TakenOne(v: Shared)
    requires HistoryOk(v) && |v.taken| < |v.made|
    ensures |v.cells| == SHARED_BUFFER_SIZE && 0 <= Wrap(|v.taken|) < SHARED_BUFFER_SIZE
    ensures HistoryOk(v.(taken := v.taken + [v.cells[Wrap(|v.taken|)]]))
  {
    var c := |v.taken|;
    assert v.cells[Wrap(c)] == v.made[c];
    assert v.made[..c + 1] == v.made[..c] + [v.made[c]];
  }

  // The turn's obligations depend only on the number of items in the buffer.
  lemma TurnMoves(n: int, u: Turn, n': int, pc': Pc, parked: Option<bool>)
    requires u.By? && Local(u.pc) && TurnOk(n, u, parked) && 0 <= n <= SHARED_BUFFER_SIZE
    requires pc' == if u.pc == ToTest then (if n == (if u.producer then SHARED_BUFFER_SIZE else 0) then ToWait else ToAssert) else Follower(u.pc)
    requires n' == n + (if u.pc != ToMove then 0 else if u.producer then 1 else -1)
    ensures TurnOk(n', By(u.producer, pc'), parked)
    ensures forall producer :: WaiterOk(n, u, producer) ==> WaiterOk(n', By(u.producer, pc'), producer)
  {
  }

  function Follower(pc: Pc): Pc {
    match pc
    case ToAssert => ToEnter
    case ToEnter => ToCheck
    case ToCheck => ToMove
    case ToMove => ToAdvance
    case ToAdvance => ToCount
    case ToCount => ToTally
    case ToTally => ToSignal
    case ToLeave => ToUnlock
    case _ => pc
  }

  lemma TurnFacts(v: Shared, u: Turn, parked: Option<bool>)
    requires OwnerReady(v, u, parked)
    ensures |v.cells| == SHARED_BUFFER_SIZE && |v.taken| <= |v.made| <= |v.taken| + SHARED_BUFFER_SIZE
    ensures parked != Some(u.producer)
    ensures Pre(u.pc) ==> if u.producer then InBuffer(v) < SHARED_BUFFER_SIZE else InBuffer(v) > 0
    ensures v.count == InBuffer(v) || (u.pc != ToTest && u.pc != ToMove)
    ensures u.pc == ToMove ==> v.head == Wrap(|v.made|) && v.tail == Wrap(|v.taken|)
  {
  }

  lemma ProducerEnters(v: Shared, pc: Pc, self: Tid, parked: Option<bool>)
    requires Local(pc) && (!Post(pc) && pc != ToLeave) && CountersOk(v, By(true, pc), parked) && parked != Some(true)
    requires |v.cells| == SHARED_BUFFER_SIZE && |v.taken| <= |v.made| <= |v.taken| + SHARED_BUFFER_SIZE
    requires Pre(pc) ==> InBuffer(v) < SHARED_BUFFER_SIZE
    ensures var e := ProducerStatement(v, pc, self); e.Goes? && CountersOk(e.vars, By(true, e.pc), parked)
  {
    hide Wrap;
    Wraps(|v.made|, |v.taken|);
  }

  lemma ProducerLeaves(v: Shared, pc: Pc, self: Tid, parked: Option<bool>)
    requires Local(pc) && (Post(pc) || pc == ToLeave) && CountersOk(v, By(true, pc), parked) && parked != Some(true)
    requires |v.cells| == SHARED_BUFFER_SIZE && |v.taken| <= |v.made| <= |v.taken| + SHARED_BUFFER_SIZE
    requires Pre(pc) ==> InBuffer(v) < SHARED_BUFFER_SIZE
    ensures var e := ProducerStatement(v, pc, self); e.Goes? && CountersOk(e.vars, By(true, e.pc), parked)
  {
    hide Wrap, BufferOk;
    WrapNext(|v.made| - 1);
  }

  lemma ConsumerEnters(v: Shared, pc: Pc, parked: Option<bool>)
    requires Local(pc) && (!Post(pc) && pc != ToLeave) && CountersOk(v, By(false, pc), parked) && parked != Some(false)
    requires |v.cells| == SHARED_BUFFER_SIZE && |v.taken| <= |v.made| <= |v.taken| + SHARED_BUFFER_SIZE
    requires Pre(pc) ==> InBuffer(v) > 0
    ensures var e := ConsumerStatement(v, pc); e.Goes? && CountersOk(e.vars, By(false, e.pc), parked)
  {
    hide Wrap;
    Wraps(|v.made|, |v.taken|);
  }

  lemma ConsumerLeaves(v: Shared, pc: Pc, parked: Option<bool>)
    requires Local(pc) && (Post(pc) || pc == ToLeave) && CountersOk(v, By(false, pc), parked) && parked != Some(false)
    requires |v.cells| == SHARED_BUFFER_SIZE && |v.taken| <= |v.made| <= |v.taken| + SHARED_BUFFER_SIZE
    requires Pre(pc) ==> InBuffer(v) > 0
    ensures var e := ConsumerStatement(v, pc); e.Goes? && CountersOk(e.vars, By(false, e.pc), parked)
  {
    hide Wrap, BufferOk;
    WrapNext(|v.taken| - 1);
  }

  lemma ProducerStatementOk(v: Shared, pc: Pc, self: Tid, parked: Option<bool>)
    requires OwnerReady(v, By(true, pc), parked)
    ensures StatementOk(v, By(true, pc), ProducerStatement(v, pc, self), parked)
    ensures pc == ToMove ==> |v.cells| == SHARED_BUFFER_SIZE && var p := |v.made|;
      ProducerStatement(v, pc, self).vars == v.(cells := v.cells[p % SHARED_BUFFER_SIZE := self], made := v.made + [self])
  {
    hide HistoryOk, Wrap, CountersOk, TurnOk, WaiterOk;
    var e := ProducerStatement(v, pc, self);
    TurnFacts(v, By(true, pc), parked);
    if Post(pc) || pc == ToLeave { ProducerLeaves(v, pc, self, parked); } else { ProducerEnters(v, pc, self, parked); }
    if pc == ToMove { MadeOne(v, self); WrapIs(|v.made|); } else { SameHistory(v, e.vars); }
    TurnMoves(InBuffer(v), By(true, pc), InBuffer(e.vars), e.pc, parked);
  }

  lemma ConsumerStatementOk(v: Shared, pc: Pc, parked: Option<bool>)
    requires OwnerReady(v, By(false, pc), parked)
    ensures StatementOk(v, By(false, pc), ConsumerStatement(v, pc), parked)
    ensures pc == ToMove ==> |v.taken| < |v.made| && var c := |v.taken|;
      ConsumerStatement(v, pc).vars == v.(taken := v.taken + [v.made[c]])
  {
    hide HistoryOk, Wrap, CountersOk, TurnOk, WaiterOk;
    var e := ConsumerStatement(v, pc);
    TurnFacts(v, By(false, pc), parked);
    if Post(pc) || pc == ToLeave { ConsumerLeaves(v, pc, parked); } else { ConsumerEnters(v, pc, parked); }
    if pc == ToMove { TakenOne(v); } else { SameHistory(v, e.vars); }
    TurnMoves(InBuffer(v), By(false, pc), InBuffer(e.vars), e.pc, parked);
  }

  // ---------- Steps of the whole program ----------

  lemma RunningFacts(b: Buf, g: Census)
    requires BufInv(b, g)
    ensures var t := b.mon.running;
      && t in g.at && t < |b.pcs|
      && (SpotOf(g, t) == Own || SpotOf(g, t) == Active) && (SpotOf(g, t) == Own <==> g.owner == Some(t))
      && LocksOf(b.mon, t) == (if SpotOf(g, t) == Own then 1 else 0)
      && ThreadAt(b, TurnOf(b, g.owner), t, SpotOf(g, t))
  {
    hide VarsOk, TurnOk, ThreadAt;
    RunningListed(b.mon, g);
  }

  // The state behind a call, in terms of what the monitor promises about it.
  ghost predicate CallOk(b: Buf, g: Census, b1: Buf, a: Act)
    requires Named(b.mon, a)
  {
    var u, q := TurnOf(b1, NextOwner(b.mon, g, a)), NextChain(b.mon, g, a);
    && 1 <= |b1.pcs| <= 1 + b1.np + b1.nc && |q| <= 1 && (q != [] ==> q[0] != 0)
    && (forall t: Tid :: t in g.at || (a.DoCreate? && t == a.t) <==> t < |b1.pcs|)
    && (forall t :: t in g.at ==> ThreadAt(b1, u, t, NextSpot(b.mon, g, a, t)))
    && (a.DoCreate? ==> ThreadAt(b1, u, a.t, Active))
    && VarsOk(b1.vars, u, ParkedRole(b1, q)) && TurnOk(InBuffer(b1.vars), u, ParkedRole(b1, q))
  }

  lemma CallKeeps(b: Buf, g: Census, b1: Buf, a: Act, pc: Pc, pick: nat) returns (g': Census)
    requires BufInv(b, g) && b1.mon == b.mon && Legal(b.mon, a) && Disciplined(b.mon, a)
    requires !(!SomebodyReady(b.mon) && (a.DoJoin? || (a.DoWait? && b.mon.waitQ == [])))
    requires CallOk(b, g, Goto(b1, pc), a)
    ensures var r := Call(b1, a, pc, pick); r.Next? && BufInv(r.buf, g')
  {
    hide Step, Inv, VarsOk, TurnOk, ThreadAt, NextSpot, NextOwner, NextChain, NextWaitQ, Disciplined, SpotOf;
    g' := StepKeeps(b.mon, g, a, pick);
    var r := Call(b1, a, pc, pick);
    StepQueues(b.mon, a, pick);
    var b2 := Goto(b1, pc);
    assert r.buf.pcs == b2.pcs && r.buf.vars == b2.vars && r.buf.np == b2.np && r.buf.nc == b2.nc;
    forall t | t in g'.at ensures ThreadAt(r.buf, TurnOf(r.buf, g'.owner), t, SpotOf(g', t)) {
      SameThreadAt(b2, r.buf, TurnOf(b2, g'.owner), t, SpotOf(g', t));
    }
  }

  lemma SameThreadAt(b: Buf, b': Buf, u: Turn, t: Tid, spot: Spot)
    requires b'.pcs == b.pcs && b'.vars == b.vars && b'.np == b.np && b'.nc == b.nc
    ensures ThreadAt(b', u, t, spot) == ThreadAt(b, u, t, spot)
  {
  }

  // Another thread is as before when its statement is and the waiting ones find what they need.
  lemma OthersKept(b: Buf, g: Census, u: Turn, b1: Buf, u1: Turn, t: Tid, spot: Spot)
    requires ThreadAt(b, u, t, spot) && b1.np == b.np && b1.nc == b.nc && |b1.pcs| >= |b.pcs|
    requires t < |b.pcs| ==> b1.pcs[t] == b.pcs[t]
    requires |b1.pcs| > |b.pcs| ==> |b.pcs| < 1 + b.np + b.nc
    requires forall producer :: WaiterOk(InBuffer(b.vars), u, producer) ==> WaiterOk(InBuffer(b1.vars), u1, producer)
    ensures ThreadAt(b1, u1, t, spot)
  {
    hide WaiterOk;
  }

  function StatementOf(b: Buf, t: Tid, pc: Pc): Effect {
    if IsProducer(b, t) then ProducerStatement(b.vars, pc, t) else ConsumerStatement(b.vars, pc)
  }

  lemma AdvanceLocal(b: Buf, again: bool, pick: nat)
    requires b.mon.running != 0 && b.mon.running < |b.pcs| && (Local(b.pcs[b.mon.running]) || (b.pcs[b.mon.running] == ToYield && !again))
    ensures var e, r := StatementOf(b, b.mon.running, b.pcs[b.mon.running]), Advance(b, Run(again, pick));
      r == if e.Fails? then AssertFailed else Next(Goto(b, e.pc).(vars := e.vars))
  {
    hide Call, ProducerStatement, ConsumerStatement, Goto;
  }

  // The owner has executed a statement on the shared variables.
  lemma OwnerMoves(b: Buf, g: Census, e: Effect)
    requires BufInv(b, g) && g.owner == Some(b.mon.running) && 0 != b.mon.running < |b.pcs| && e.Goes? && Critical(e.pc)
    requires StatementOk(b.vars, TurnOf(b, g.owner), e, ParkedRole(b, Chain(b.mon, g.c)))
    ensures BufInv(Goto(b, e.pc).(vars := e.vars), g)
  {
    hide Inv, VarsOk, TurnOk, WaiterOk, Critical, Chain;
    var t, u, b1 := b.mon.running, TurnOf(b, g.owner), Goto(b, e.pc).(vars := e.vars);
    var u1 := By(u.producer, e.pc);
    assert TurnOf(b1, g.owner) == u1;
    forall x | x in g.at ensures ThreadAt(b1, u1, x, SpotOf(g, x)) {
      if x != t { OthersKept(b, g, u, b1, u1, x, SpotOf(g, x)); }
    }
  }

  lemma StatementKeeps(b: Buf, g: Census, again: bool, pick: nat)
    requires BufInv(b, g) && b.mon.running != 0 && b.mon.running < |b.pcs| && Local(b.pcs[b.mon.running])
    ensures var r := Advance(b, Run(again, pick)); r.Next? && BufInv(r.buf, g)
  {
    hide Inv, VarsOk, TurnOk, WaiterOk, ProducerStatement, ConsumerStatement, Advance, Goto;
    RunningFacts(b, g);
    AdvanceLocal(b, again, pick);
    var t, parked := b.mon.running, ParkedRole(b, Chain(b.mon, g.c));
    if IsProducer(b, t) { ProducerStatementOk(b.vars, b.pcs[t], t, parked); } else { ConsumerStatementOk(b.vars, b.pcs[t], parked); }
    var e := StatementOf(b, t, b.pcs[t]);
    TurnCritical(InBuffer(e.vars), By(IsProducer(b, t), e.pc), parked);
    OwnerMoves(b, g, e);
  }

  lemma TurnCritical(n: int, u: Turn, parked: Option<bool>)
    requires TurnOk(n, u, parked) && u.By?
    ensures Critical(u.pc)
  {
  }

  // The running thread is preempted or yields, at a statement it may be at.
  lemma YieldKeeps(b: Buf, g: Census, pc: Pc, pick: nat) returns (g': Census)
    requires BufInv(b, g) && b.mon.running < |b.pcs|
    requires pc == b.pcs[b.mon.running] || (b.mon.running != 0 && b.pcs[b.mon.running] == ToYield && pc == ToLock)
    ensures var r := Call(b, DoYield, pc, pick); r.Next? && BufInv(r.buf, g')
  {
    hide Inv, VarsOk, TurnOk, WaiterOk, Call;
    RunningFacts(b, g);
    var t, u, b1 := b.mon.running, TurnOf(b, g.owner), Goto(b, pc);
    assert TurnOf(b1, g.owner) == u;
    forall x | x in g.at ensures ThreadAt(b1, u, x, SpotOf(g, x)) {
      if x != t { OthersKept(b, g, u, b1, u, x, SpotOf(g, x)); }
    }
    g' := CallKeeps(b, g, b, DoYield, pc, pick);
  }

  // Without a chain, an owner at a quiet statement or none: what changes is only the turn.
  lemma QuietTurn(v: Shared, u: Turn, u1: Turn, parked: Option<bool>, parked1: Option<bool>)
    requires VarsOk(v, u, parked) && Quiet(u) && Quiet(u1)
    requires forall producer :: (Inside(u, producer) || parked == Some(producer)) <==> (Inside(u1, producer) || parked1 == Some(producer))
    ensures VarsOk(v, u1, parked1)
    ensures forall producer :: WaiterOk(InBuffer(v), u, producer) <==> WaiterOk(InBuffer(v), u1, producer)
  {
    hide HistoryOk, Wrap, Inside;
    NoLag(u);
    NoLag(u1);
    assert Inside(u, true) || !Inside(u, true);
    assert Inside(u, false) || !Inside(u, false);
  }

  lemma NoLag(u: Turn)
    requires Quiet(u)
    ensures forall producer :: MoveLag(u, producer) == CountLag(u, producer) == TallyLag(u, producer) == 0
  {
  }

  predicate Quiet(u: Turn) { u.By? ==> u.pc == ToTest || u.pc == ToWait || u.pc == ToLeave || u.pc == ToUnlock }

  lemma LockKeeps(b: Buf, g: Census, pick: nat) returns (g': Census)
    requires BufInv(b, g) && b.mon.running != 0 && b.mon.running < |b.pcs| && b.pcs[b.mon.running] == ToLock
    ensures var r := Call(b, DoLock, ToTest, pick); r.Next? && BufInv(r.buf, g')
  {
    hide Inv, VarsOk, WaiterOk, Call;
    RunningFacts(b, g);
    NextFirst(b.mon, g);
    if b.mon.value == 0 { FreeLock(b.mon, g); }
    var t, u, b1 := b.mon.running, TurnOf(b, g.owner), Goto(b, ToTest);
    var u1 := TurnOf(b1, NextOwner(b.mon, g, DoLock));
    if b.mon.value == 0 { QuietTurn(b.vars, u, u1, None, None); } else { assert u1 == u; }
    forall x | x in g.at ensures ThreadAt(b1, u1, x, NextSpot(b.mon, g, DoLock, x)) {
      if x != t { OthersKept(b, g, u, b1, u1, x, SpotOf(g, x)); }
    }
    g' := CallKeeps(b, g, b, DoLock, ToTest, pick);
  }

  lemma FreeLock(s: Sys, g: Census)
    requires Inv(s, g) && s.value == 0
    ensures Chain(s, g.c) == []
  {
  }

  // The thread that Released names is where it has to be.
  lemma HeirKnown(b: Buf, g: Census)
    requires BufInv(b, g) && g.owner == Some(b.mon.running)
    ensures var h, q := Released(b.mon, g), Chain(b.mon, g.c);
      && (h.Some? ==> h.value in g.at && h.value != b.mon.running && h.value != 0 && h.value < |b.pcs|)
      && (q != [] ==> h == Some(q[0]) && SpotOf(g, q[0]) == Parked && b.pcs[q[0]] == ToLeave)
      && (h.Some? && q == [] ==> SpotOf(g, h.value) == Queued && b.pcs[h.value] == ToTest)
  {
    hide VarsOk, TurnOk, WaiterOk;
    RunningListed(b.mon, g);
    var h, q := Released(b.mon, g), Chain(b.mon, g.c);
    if q != [] { QueueIff(b.mon, g.at, g.c, Some(b.mon.running), Chained, q[0]); assert q[0] in q; }
    else if b.mon.waitQ != [] {
      QueueIff(b.mon, g.at, g.c, Some(b.mon.running), AtLock, h.value);
      assert h.value in b.mon.waitQ;
    }
    if h.Some? {
      assert ThreadOk(b.mon, g, h.value);
      assert ThreadAt(b, TurnOf(b, g.owner), h.value, SpotOf(g, h.value));
    }
  }

  // The owner lets go of the lock by unlock or wait; the heir was in lock or is the parked signaller.
  lemma LetsGo(b: Buf, g: Census, a: Act, pc: Pc)
    requires BufInv(b, g) && b.mon.running != 0 && b.mon.running < |b.pcs| && g.owner == Some(b.mon.running)
    requires (a == DoUnlock && b.pcs[b.mon.running] == ToUnlock && pc == ToYield)
      || (a == DoWait(if IsProducer(b, b.mon.running) then NEED_SPACE else NEED_ITEM) && b.pcs[b.mon.running] == ToWait && pc == ToAssert)
    ensures Named(b.mon, a) && CallOk(b, g, Goto(b, pc), a)
  {
    hide Inv, VarsOk, WaiterOk, Chain, Released;
    RunningFacts(b, g);
    HeirKnown(b, g);
    var t, u, q := b.mon.running, TurnOf(b, g.owner), Chain(b.mon, g.c);
    var b1, h := Goto(b, pc), Released(b.mon, g);
    var u1 := TurnOf(b1, h);
    var parked := ParkedRole(b, q);
    QuietTurn(b.vars, u, u1, parked, None);
    if a.DoWait? { WaitsRightly(b, u, parked, u1); }
    forall x | x in g.at ensures ThreadAt(b1, u1, x, NextSpot(b.mon, g, a, x)) {
      if x != t && h != Some(x) { OthersKept(b, g, u, b1, u1, x, SpotOf(g, x)); }
    }
  }

  lemma WaitsRightly(b: Buf, u: Turn, parked: Option<bool>, u1: Turn)
    requires TurnOk(InBuffer(b.vars), u, parked) && u.By? && u.pc == ToWait && Quiet(u1)
    ensures parked.None? && WaiterOk(InBuffer(b.vars), u1, u.producer)
  {
  }

  lemma UnlockKeeps(b: Buf, g: Census, pick: nat) returns (g': Census)
    requires BufInv(b, g) && b.mon.running != 0 && b.mon.running < |b.pcs| && b.pcs[b.mon.running] == ToUnlock
    ensures var r := Call(b, DoUnlock, ToYield, pick); r.Next? && BufInv(r.buf, g')
  {
    hide Inv, VarsOk, TurnOk, WaiterOk, Call, CallOk;
    RunningFacts(b, g);
    LetsGo(b, g, DoUnlock, ToYield);
    g' := CallKeeps(b, g, b, DoUnlock, ToYield, pick);
  }

  // ---------- Nobody waits for ever ----------

  lemma InQueue(s: Sys, g: Census, t: Tid)
    requires Inv(s, g) && t in g.at
    ensures SpotOf(g, t) == Active ==> t == s.running || SomebodyReady(s)
    ensures SpotOf(g, t) == Own ==> g.owner == Some(t)
    ensures SpotOf(g, t) == Queued ==> s.waitQ != []
    ensures SpotOf(g, t) == Parked ==> Chain(s, g.c) != []
  {
    hide Listed, ReadyListed;
    QueueIff(s, g.at, g.c, Some(s.running), g.at[t], t);
    QueueIff(s, g.at, g.c, Some(s.running), Ready, t);
    assert ThreadOk(s, g, t);
  }

  // When everybody else is in a wait, main has created all threads; then there is a thread of the
  // other kind, and it cannot be waiting too.
  lemma SomebodyRuns(b: Buf, g: Census)
    requires BufInv(b, g) && b.np >= 1 && b.nc >= 1 && b.mon.running != 0 && b.mon.running < |b.pcs|
    requires b.pcs[b.mon.running] == ToWait
    ensures SomebodyReady(b.mon) || b.mon.waitQ != []
  {
    hide Inv, VarsOk, Chain;
    RunningFacts(b, g);
    var t, u, q := b.mon.running, TurnOf(b, g.owner), Chain(b.mon, g.c);
    InQueue(b.mon, g, 0);
    assert ThreadAt(b, u, 0, SpotOf(g, 0));
    var x := if IsProducer(b, t) then b.np + 1 else 1;
    if x < |b.pcs| {
      InQueue(b.mon, g, x);
      assert ThreadAt(b, u, x, SpotOf(g, x));
    }
  }

  lemma WaitKeeps(b: Buf, g: Census, pick: nat) returns (g': Census)
    requires BufInv(b, g) && b.mon.running != 0 && b.mon.running < |b.pcs| && b.pcs[b.mon.running] == ToWait
    ensures var r := Call(b, DoWait(if IsProducer(b, b.mon.running) then NEED_SPACE else NEED_ITEM), ToAssert, pick);
      if !SomebodyReady(b.mon) && b.mon.waitQ == [] then r.AssertFailed? else r.Next? && BufInv(r.buf, g')
  {
    hide Inv, VarsOk, WaiterOk, CallOk;
    RunningFacts(b, g);
    var a := DoWait(if IsProducer(b, b.mon.running) then NEED_SPACE else NEED_ITEM);
    LetsGo(b, g, a, ToAssert);
    NextFirst(b.mon, g);
    if !SomebodyReady(b.mon) && b.mon.waitQ == [] { g' := StepKeeps(b.mon, g, a, pick); }
    else { g' := CallKeeps(b, g, b, a, ToAssert, pick); }
  }

  // ---------- Signalling ----------

  lemma WaitersKnown(b: Buf, g: Census, c: nat)
    requires BufInv(b, g) && c < 2
    ensures var w := b.mon.cvs[c].waiters;
      && (forall t :: t in w <==> t in g.at && SpotOf(g, t) == Waiting(c))
      && (w != [] ==>
            var t := w[0];
            && t in g.at && t != 0 && t < |b.pcs| && IsProducer(b, t) == (c == NEED_SPACE) && t != b.mon.running
            && b.pcs[t] == ToAssert && WaiterOk(InBuffer(b.vars), TurnOf(b, g.owner), c == NEED_SPACE))
  {
    hide Inv, VarsOk, TurnOk, WaiterOk, Chain, SpotOf, TurnOf;
    WaitingAre(b.mon, g, c);
    var w := b.mon.cvs[c].waiters;
    if w != [] {
      assert w[0] in w;
      assert ThreadAt(b, TurnOf(b, g.owner), w[0], SpotOf(g, w[0]));
    }
  }

  lemma WaitingAre(s: Sys, g: Census, c: nat)
    requires Inv(s, g) && c < |s.cvs|
    ensures forall t :: t in s.cvs[c].waiters <==> t in g.at && SpotOf(g, t) == Waiting(c)
    ensures s.running !in s.cvs[c].waiters
  {
    hide Listed, ReadyListed;
    RunningListed(s, g);
    forall t ensures t in s.cvs[c].waiters <==> t in g.at && SpotOf(g, t) == Waiting(c) {
      QueueIff(s, g.at, g.c, Some(s.running), AtCv(c), t);
      if t in g.at { assert ThreadOk(s, g, t); }
    }
  }

  // The turn passes from the signaller to the thread it wakes.
  lemma TurnPasses(v: Shared, producer: bool, parked: Option<bool>)
    requires VarsOk(v, By(producer, ToSignal), parked) && TurnOk(InBuffer(v), By(producer, ToSignal), parked)
    requires WaiterOk(InBuffer(v), By(producer, ToSignal), !producer)
    ensures parked.None?
    ensures VarsOk(v, By(!producer, ToAssert), Some(producer)) && TurnOk(InBuffer(v), By(!producer, ToAssert), Some(producer))
    ensures forall p :: WaiterOk(InBuffer(v), By(producer, ToSignal), p) ==> WaiterOk(InBuffer(v), By(!producer, ToAssert), p)
  {
    hide HistoryOk, Wrap;
  }

  // Nobody to wake: on to the next statement.
  lemma TurnStays(v: Shared, producer: bool, parked: Option<bool>)
    requires VarsOk(v, By(producer, ToSignal), parked) && TurnOk(InBuffer(v), By(producer, ToSignal), parked)
    ensures VarsOk(v, By(producer, ToLeave), parked) && TurnOk(InBuffer(v), By(producer, ToLeave), parked)
    ensures WaiterOk(InBuffer(v), By(producer, ToSignal), producer) ==> WaiterOk(InBuffer(v), By(producer, ToLeave), producer)
  {
    hide HistoryOk, Wrap;
  }

  function SignalOf(b: Buf): Act {
    DoSignal(if IsProducer(b, b.mon.running) then NEED_ITEM else NEED_SPACE, false)
  }

  lemma SignalKeeps(b: Buf, g: Census, pick: nat) returns (g': Census)
    requires BufInv(b, g) && b.mon.running != 0 && b.mon.running < |b.pcs| && b.pcs[b.mon.running] == ToSignal
    ensures var r := Call(b, DoSignal(if IsProducer(b, b.mon.running) then NEED_ITEM else NEED_SPACE, false), ToLeave, pick);
      r.Next? && BufInv(r.buf, g')
  {
    hide BufInv, CallOk, Call;
    RunningFacts(b, g);
    SignalAllowed(b, g);
    var a, w := SignalOf(b), b.mon.cvs[SignalOf(b).c].waiters;
    if w == [] { SignalsNobody(b, g); } else { SignalsSomebody(b, g); }
    g' := CallKeeps(b, g, b, a, ToLeave, pick);
  }

  // Nobody is woken while a signaller is parked: who waits then would be on the wrong side.
  lemma SignalAllowed(b: Buf, g: Census)
    requires BufInv(b, g) && b.mon.running != 0 && b.mon.running < |b.pcs| && b.pcs[b.mon.running] == ToSignal
    ensures Named(b.mon, SignalOf(b)) && Legal(b.mon, SignalOf(b)) && Disciplined(b.mon, SignalOf(b))
  {
    hide Inv, VarsOk, Chain;
    RunningFacts(b, g);
    NextFirst(b.mon, g);
    WaitersKnown(b, g, SignalOf(b).c);
  }

  lemma SignalsNobody(b: Buf, g: Census)
    requires BufInv(b, g) && b.mon.running != 0 && b.mon.running < |b.pcs| && b.pcs[b.mon.running] == ToSignal
    requires Named(b.mon, SignalOf(b)) && b.mon.cvs[SignalOf(b).c].waiters == []
    ensures CallOk(b, g, Goto(b, ToLeave), SignalOf(b))
  {
    hide Inv, VarsOk, TurnOk, WaiterOk, Chain;
    RunningFacts(b, g);
    var t, u, q, c := b.mon.running, TurnOf(b, g.owner), Chain(b.mon, g.c), SignalOf(b).c;
    WaitersKnown(b, g, c);
    TurnStays(b.vars, IsProducer(b, t), ParkedRole(b, q));
    var b1 := Goto(b, ToLeave);
    var u1 := TurnOf(b1, g.owner);
    forall x | x in g.at ensures ThreadAt(b1, u1, x, NextSpot(b.mon, g, SignalOf(b), x)) {
      assert SpotOf(g, x) != Waiting(c);
      assert ThreadAt(b, u, x, SpotOf(g, x));
    }
  }

  lemma SignalsSomebody(b: Buf, g: Census)
    requires BufInv(b, g) && b.mon.running != 0 && b.mon.running < |b.pcs| && b.pcs[b.mon.running] == ToSignal
    requires Named(b.mon, SignalOf(b)) && b.mon.cvs[SignalOf(b).c].waiters != []
    ensures CallOk(b, g, Goto(b, ToLeave), SignalOf(b))
  {
    hide Inv, VarsOk, TurnOk, WaiterOk, Chain;
    RunningFacts(b, g);
    var t, u, q, c := b.mon.running, TurnOf(b, g.owner), Chain(b.mon, g.c), SignalOf(b).c;
    var w := b.mon.cvs[c].waiters;
    WaitersKnown(b, g, c);
    TurnPasses(b.vars, IsProducer(b, t), ParkedRole(b, q));
    var b1 := Goto(b, ToLeave);
    var u1 := TurnOf(b1, Some(w[0]));
    forall x | x in g.at ensures ThreadAt(b1, u1, x, NextSpot(b.mon, g, SignalOf(b), x)) {
      assert ThreadAt(b, u, x, SpotOf(g, x));
    }
  }

  // ---------- main ----------

  lemma CreateKeeps(b: Buf, g: Census, pick: nat) returns (g': Census)
    requires BufInv(b, g) && b.mon.running == 0 && b.pcs[0] == ToCreate && |b.pcs| <= b.np + b.nc
    ensures var r := Call(b.(pcs := b.pcs + [ToLock]), DoCreate(|b.pcs|), ToCreate, pick); r.Next? && BufInv(r.buf, g')
  {
    hide Inv, VarsOk, TurnOk, WaiterOk, Call, Chain, Present;
    RunningFacts(b, g);
    var u, b1, a := TurnOf(b, g.owner), b.(pcs := b.pcs + [ToLock]), DoCreate(|b.pcs|);
    PresentIff(b.mon, g, |b.pcs|);
    var b2 := Goto(b1, ToCreate);
    OwnerThere(b, g);
    assert TurnOf(b2, g.owner) == u;
    forall x | x in g.at ensures ThreadAt(b2, u, x, NextSpot(b.mon, g, a, x)) {
      OthersKept(b, g, u, b2, u, x, SpotOf(g, x));
    }
    g' := CallKeeps(b, g, b1, a, ToCreate, pick);
  }

  lemma OwnerThere(b: Buf, g: Census)
    requires BufInv(b, g)
    ensures g.owner.Some? ==> g.owner.value in g.at && g.owner.value < |b.pcs|
    ensures Chain(b.mon, g.c) != [] ==> Chain(b.mon, g.c)[0] < |b.pcs|
  {
    hide VarsOk, TurnOk, ThreadAt;
    NextFirst(b.mon, g);
    var q := Queue(b.mon, g.c, Some(b.mon.running), Chained);
    if q != [] {
      QueueIff(b.mon, g.at, g.c, Some(b.mon.running), Chained, q[0]);
      assert q[0] in q;
    }
  }

  lemma JoinKeeps(b: Buf, g: Census, pick: nat) returns (g': Census)
    requires BufInv(b, g) && b.mon.running == 0 && b.pcs[0] == ToJoin
    ensures var r := Call(b, DoJoin, ToJoin, pick);
      if !SomebodyReady(b.mon) then r.AssertFailed? else r.Next? && BufInv(r.buf, g')
  {
    hide Inv, VarsOk, TurnOk, WaiterOk, Chain;
    RunningFacts(b, g);
    var u, b1 := TurnOf(b, g.owner), Goto(b, ToJoin);
    assert TurnOf(b1, g.owner) == u;
    forall x | x in g.at ensures ThreadAt(b1, u, x, NextSpot(b.mon, g, DoJoin, x)) {
      if x != 0 { OthersKept(b, g, u, b1, u, x, SpotOf(g, x)); }
    }
    if !SomebodyReady(b.mon) { g' := StepKeeps(b.mon, g, DoJoin, pick); }
    else { g' := CallKeeps(b, g, b, DoJoin, ToJoin, pick); }
  }

  lemma SomebodyIsReady(b: Buf, g: Census)
    requires BufInv(b, g) && b.np >= 1 && b.nc >= 1 && b.mon.running == 0 && b.pcs[0] == ToJoin
    ensures SomebodyReady(b.mon)
  {
    hide Inv, VarsOk;
    RunningFacts(b, g);
    NextFirst(b.mon, g);
    var u, x, y := TurnOf(b, g.owner), 1, b.np + 1;
    InQueue(b.mon, g, x);
    InQueue(b.mon, g, y);
    assert ThreadAt(b, u, x, SpotOf(g, x)) && ThreadAt(b, u, y, SpotOf(g, y));
    if g.owner.Some? { OwnerNotRunning(b.mon, g); }
    else { FreeLock(b.mon, g); FreeQueue(b.mon, g); }
  }

  lemma OwnerNotRunning(s: Sys, g: Census)
    requires Inv(s, g) && g.owner.Some? && g.owner.value != s.running
    ensures SomebodyReady(s)
  {
    hide Listed, ReadyListed;
    var t := g.owner.value;
    assert ThreadOk(s, g, t);
    QueueIff(s, g.at, g.c, Some(s.running), Ready, t);
    QueueIff(s, g.at, g.c, Some(s.running), Running, t);
  }

  lemma FreeQueue(s: Sys, g: Census)
    requires Inv(s, g) && g.owner.None?
    ensures s.waitQ == []
  {
  }

  lemma MainGoesOn(b: Buf, g: Census)
    requires BufInv(b, g) && b.mon.running == 0 && b.pcs[0] == ToCreate && |b.pcs| == 1 + b.np + b.nc
    ensures BufInv(Goto(b, ToJoin), g)
  {
    hide Inv, VarsOk, TurnOk, WaiterOk, Chain;
    RunningFacts(b, g);
    var u, b1 := TurnOf(b, g.owner), Goto(b, ToJoin);
    assert TurnOf(b1, g.owner) == u;
    forall x | x in g.at ensures ThreadAt(b1, u, x, SpotOf(g, x)) {
      if x != 0 { OthersKept(b, g, u, b1, u, x, SpotOf(g, x)); }
    }
  }

  lemma BackToLock(b: Buf, g: Census)
    requires BufInv(b, g) && b.mon.running != 0 && b.mon.running < |b.pcs| && b.pcs[b.mon.running] == ToYield
    ensures BufInv(Goto(b, ToLock), g)
  {
    hide Inv, VarsOk, TurnOk, WaiterOk, Chain;
    RunningFacts(b, g);
    var u, b1 := TurnOf(b, g.owner), Goto(b, ToLock);
    assert TurnOf(b1, g.owner) == u;
    forall x | x in g.at ensures ThreadAt(b1, u, x, SpotOf(g, x)) {
      if x != b.mon.running { OthersKept(b, g, u, b1, u, x, SpotOf(g, x)); }
    }
  }

  // ---------- All steps ----------

  // The only assert that can fail is the one in switchThreads, when nobody is left to run.
  predicate Stuck(b: Buf, e: Event) {
    var t := b.mon.running;
    && e.Run? && t < |b.pcs| && !SomebodyReady(b.mon)
    && ((b.pcs[t] == ToJoin && b.np + b.nc > 0) || (t != 0 && b.pcs[t] == ToWait && b.mon.waitQ == []))
  }

  lemma AdvanceKeeps(b: Buf, g: Census, e: Event) returns (g': Census)
    requires BufInv(b, g)
    ensures if Stuck(b, e) then Advance(b, e).AssertFailed? else Advance(b, e).Next? && BufInv(Advance(b, e).buf, g')
  {
    hide BufInv, Call, Goto, ProducerStatement, ConsumerStatement;
    RunningFacts(b, g);
    Sizes(b, g);
    var t := b.mon.running;
    g' := g;
    match e
    case Tick(pick) => g' := YieldKeeps(b, g, b.pcs[t], pick);
    case Run(again, pick) =>
      if t == 0 {
        if b.pcs[0] == ToJoin { if b.np + b.nc > 0 { g' := JoinKeeps(b, g, pick); } }
        else if |b.pcs| <= b.np + b.nc { g' := CreateKeeps(b, g, pick); }
        else { MainGoesOn(b, g); }
      } else {
        match b.pcs[t]
        case ToLock => g' := LockKeeps(b, g, pick);
        case ToWait => g' := WaitKeeps(b, g, pick);
        case ToSignal => g' := SignalKeeps(b, g, pick);
        case ToUnlock => g' := UnlockKeeps(b, g, pick);
        case ToYield =>
          if again { g' := YieldKeeps(b, g, ToLock, pick); }
          else { BackToLock(b, g); BackStep(b, pick); }
        case _ => StatementKeeps(b, g, again, pick);
      }
  }

  lemma Sizes(b: Buf, g: Census)
    requires BufInv(b, g)
    ensures 1 <= |b.pcs| <= 1 + b.np + b.nc && (b.pcs[0] == ToCreate || b.pcs[0] == ToJoin)
    ensures forall t :: 0 < t < |b.pcs| ==> b.pcs[t] != ToCreate && b.pcs[t] != ToJoin
  {
    hide Inv, VarsOk, TurnOk, WaiterOk, Chain, SpotOf, TurnOf, IsProducer;
    assert ThreadAt(b, TurnOf(b, g.owner), 0, SpotOf(g, 0));
    forall t | 0 < t < |b.pcs| ensures b.pcs[t] != ToCreate && b.pcs[t] != ToJoin {
      assert ThreadAt(b, TurnOf(b, g.owner), t, SpotOf(g, t));
    }
  }

  lemma BackStep(b: Buf, pick: nat)
    requires b.mon.running != 0 && b.mon.running < |b.pcs| && b.pcs[b.mon.running] == ToYield
    ensures Advance(b, Run(false, pick)) == Next(Goto(b, ToLock))
  {
    AdvanceLocal(b, false, pick);
  }

  // With a producer and a consumer somebody can always run; with neither main returns.
  lemma NeverStuck(b: Buf, g: Census, e: Event)
    requires BufInv(b, g) && (b.np == 0 <==> b.nc == 0)
    ensures !Stuck(b, e)
  {
    hide Inv, VarsOk, TurnOk, ThreadAt;
    Sizes(b, g);
    RunningFacts(b, g);
    var t := b.mon.running;
    if b.np >= 1 && t != 0 && b.pcs[t] == ToWait { SomebodyRuns(b, g); }
    if b.np >= 1 && t == 0 && b.pcs[t] == ToJoin { SomebodyIsReady(b, g); }
  }

  lemma SameThreads(b: Buf, e: Event)
    ensures var r := Advance(b, e); r.Next? ==> r.buf.np == b.np && r.buf.nc == b.nc
  {
    hide Step;
  }
}
