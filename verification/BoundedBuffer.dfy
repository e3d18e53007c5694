// The bounded buffer of project_2/main.cpp under every schedule.  Producers and consumers test with
// if, not while, before they wait: they rely on the Hoare hand-over.

module BoundedBuffer {
  import opened Common
  import opened Queues
  import opened Monitor

  const SHARED_BUFFER_SIZE := 10
  const NEED_SPACE := 0 // need_space_cv
  const NEED_ITEM := 1  // need_item_cv

  // The next statement of a producer or consumer, or of main.
  datatype Pc =
    | ToLock | ToTest | ToWait | ToAssert | ToEnter | ToCheck
    | ToMove     // the access to buffer
    | ToAdvance  // head or tail
    | ToCount    // item_count
    | ToTally    // produced_count or consumed_count
    | ToSignal | ToLeave | ToUnlock | ToYield
    | ToCreate | ToJoin // main

  // The shared variables; made and taken are the items written to and read from the buffer so far.
  datatype Shared = Shared(
    cells: seq<int>, head: int, tail: int, count: int, produced: int, consumed: int,
    prodIn: bool, consIn: bool, // producer_in_critical_section, consumer_in_critical_section
    made: seq<int>, taken: seq<int>)

  // Thread 0 is main, 1 .. np are producers, the others consumers.
  datatype Buf = Buf(mon: Sys, pcs: seq<Pc>, np: nat, nc: nat, vars: Shared)

  datatype Result = Next(buf: Buf) | AssertFailed

  // Tick: the timer preempts the running thread.  Run: the running thread executes its next
  // statement; again is the outcome of the random choice to yield.
  datatype Event = Tick(pick: nat) | Run(again: bool, pick: nat)

  function Wrap(x: int): int { x % SHARED_BUFFER_SIZE }

  predicate IsProducer(b: Buf, t: Tid) { 1 <= t <= b.np }

  // assert_buffer_invariants.
  predicate BufferOk(v: Shared) {
    && 0 <= v.count <= SHARED_BUFFER_SIZE
    && 0 <= v.head < SHARED_BUFFER_SIZE
    && 0 <= v.tail < SHARED_BUFFER_SIZE
    && (v.head > v.tail ==> v.head - v.tail == v.count)
    && (v.head < v.tail ==> (SHARED_BUFFER_SIZE - v.tail) + v.head == v.count)
    && (v.head == v.tail ==> v.count == SHARED_BUFFER_SIZE || v.count == 0)
    && v.produced >= v.consumed
  }

  // Statements on the shared variables only, with the statement that follows.
  datatype Effect = Goes(vars: Shared, pc: Pc) | Fails

  function ProducerStatement(v: Shared, pc: Pc, self: Tid): Effect {
    match pc
    case ToTest => Goes(v, if v.count == SHARED_BUFFER_SIZE then ToWait else ToAssert)
    case ToAssert => if v.prodIn then Fails else Goes(v, ToEnter)
    case ToEnter => Goes(v.(prodIn := true), ToCheck)
    case ToCheck => if BufferOk(v) then Goes(v, ToMove) else Fails
    case ToMove =>
      if 0 <= v.head < |v.cells| then Goes(v.(cells := v.cells[v.head := self], made := v.made + [self]), ToAdvance)
      else Fails
    case ToAdvance => Goes(v.(head := Wrap(v.head + 1)), ToCount)
    case ToCount => Goes(v.(count := v.count + 1), ToTally)
    case ToTally => Goes(v.(produced := v.produced + 1), ToSignal)
    case ToLeave => Goes(v.(prodIn := false), ToUnlock)
    case _ => Goes(v, ToLock)
  }

  function ConsumerStatement(v: Shared, pc: Pc): Effect {
    match pc
    case ToTest => Goes(v, if v.count == 0 then ToWait else ToAssert)
    case ToAssert => if v.consIn then Fails else Goes(v, ToEnter)
    case ToEnter => Goes(v.(consIn := true), ToCheck)
    case ToCheck => if BufferOk(v) then Goes(v, ToMove) else Fails
    case ToMove =>
      if 0 <= v.tail < |v.cells| then Goes(v.(taken := v.taken + [v.cells[v.tail]]), ToAdvance)
      else Fails
    case ToAdvance => Goes(v.(tail := Wrap(v.tail + 1)), ToCount)
    case ToCount => Goes(v.(count := v.count - 1), ToTally)
    case ToTally => Goes(v.(consumed := v.consumed + 1), ToSignal)
    case ToLeave => Goes(v.(consIn := false), ToUnlock)
    case _ => Goes(v, ToLock)
  }

  function Goto(b: Buf, pc: Pc): Buf {
    if b.mon.running < |b.pcs| then b.(pcs := b.pcs[b.mon.running := pc]) else b
  }

  // The running thread calls the thread library; behind the call it continues at pc.
  function Call(b: Buf, a: Act, pc: Pc, pick: nat): Result {
    if !Named(b.mon, a) then AssertFailed
    else match Step(b.mon, a, pick)
      case Ok(s) => Next(Goto(b, pc).(mon := s))
      case Failed => AssertFailed
  }

  // The next statement of a producer or consumer.
  function Work(b: Buf, t: Tid, pc: Pc, again: bool, pick: nat): Result {
    var producer := IsProducer(b, t);
    match pc
    case ToLock => Call(b, DoLock, ToTest, pick)
    case ToWait => Call(b, DoWait(if producer then NEED_SPACE else NEED_ITEM), ToAssert, pick)
    case ToSignal => Call(b, DoSignal(if producer then NEED_ITEM else NEED_SPACE, false), ToLeave, pick)
    case ToUnlock => Call(b, DoUnlock, ToYield, pick)
    case _ =>
      if pc == ToYield && again then Call(b, DoYield, ToLock, pick)
      else match if producer then ProducerStatement(b.vars, pc, t) else ConsumerStatement(b.vars, pc)
        case Fails => AssertFailed
        case Goes(v, pc') => Next(Goto(b, pc').(vars := v))
  }

  // main creates the threads and then joins the first one, which never finishes; without any it returns.
  function Control(b: Buf, pc: Pc, pick: nat): Result {
    if pc == ToCreate then
      if |b.pcs| <= b.np + b.nc then Call(b.(pcs := b.pcs + [ToLock]), DoCreate(|b.pcs|), ToCreate, pick)
      else Next(Goto(b, ToJoin))
    else if b.np + b.nc == 0 then Next(b)
    else Call(b, DoJoin, ToJoin, pick)
  }

  function Advance(b: Buf, e: Event): Result {
    var t := b.mon.running;
    if t >= |b.pcs| then AssertFailed
    else match e
      case Tick(pick) => Call(b, DoYield, b.pcs[t], pick)
      case Run(again, pick) =>
        if t == 0 then Control(b, b.pcs[t], pick)
        else Work(b, t, b.pcs[t], again, pick)
  }

  function Start(np: nat, nc: nat): Buf {
    var none := Cond([], []);
    Buf(Sys(0, [], [], 0, [], None, [none, none], map[], map[0 := 0]), [ToCreate], np, nc,
        Shared([0, 0, 0, 0, 0, 0, 0, 0, 0, 0], 0, 0, 0, 0, 0, false, false, [], []))
  }

  function Exec(b: Buf, events: seq<Event>): Result
    decreases |events|
  {
    if events == [] then Next(b)
    else match Advance(b, events[0])
      case AssertFailed => AssertFailed
      case Next(b1) => Exec(b1, events[1..])
  }
}
