// Locks and Hoare condition variables (project_2/Lock.cpp, project_2/CondVar.cpp) as a transition
// system.
//
// A step is what happens between two points at which interrupts are enabled: the running thread's
// call up to a context switch, and then the rest of the call in which the thread that is switched to
// had stopped.  Which ready thread switchThreads picks is a parameter of the step.

module Monitor {
  import opened Common
  import opened Queues

  // Where a thread that is not running will continue.
  datatype Kont =
    | Client             // preempted, or not started yet
    | InLock             // behind switchThreads in lock
    | InWait(c: nat)     // behind switchThreads in wait
    | InWaitUnlock(c: nat) // behind switchToThread in the _unlock that wait calls
    | InSignal           // behind switchToThread in signal or broadcast
    | InUnlock           // behind switchToThread in the _unlock that unlock calls
    | InJoin             // behind switchThreads in uthread_join

  datatype Cond = Cond(waiters: seq<Tid>, order: seq<Tid>) // cond_var_waiting_queue, wake_up_order

  datatype Sys = Sys(
    running: Tid, ready: seq<Tid>, joined: seq<Tid>,
    value: int, waitQ: seq<Tid>, next: Option<Tid>, // Lock: value, waiting_queue, nextThreadToWakeUp
    cvs: seq<Cond>,
    kont: map<Tid, Kont>, locks: map<Tid, int>) // saved context and _lock_count of each thread

  // Failed: an assert of the source is false (no thread is ready, or a lock count is zero), or an
  // empty deque is asked for its front.
  datatype Outcome = Ok(sys: Sys) | Failed

  function KontOf(s: Sys, t: Tid): Kont { if t in s.kont then s.kont[t] else Client }
  function LocksOf(s: Sys, t: Tid): int { if t in s.locks then s.locks[t] else 0 }

  // The running thread's context is saved at k.
  function Save(s: Sys, k: Kont): Sys { s.(kont := s.kont[s.running := k]) }

  function AddLocks(s: Sys, t: Tid, d: int): Sys { s.(locks := s.locks[t := LocksOf(s, t) + d]) }

  // The rest of the call in which t had stopped, up to the point where it enables interrupts.
  function Return(s: Sys, t: Tid): Outcome {
    var s1 := s.(running := t, kont := s.kont[t := Client]);
    match KontOf(s, t)
    case InLock => Ok(AddLocks(s1, t, 1))
    case InWait(c) =>
      if c >= |s.cvs| || s.cvs[c].order == [] then Failed
      else
        var order := s.cvs[c].order;
        Ok(s1.(next := Some(order[0]), cvs := s.cvs[c := s.cvs[c].(order := order[1..])]))
    case _ => Ok(s1)
  }

  // switchToThread.
  function Resume(s: Sys, t: Tid, pick: nat): Outcome
    decreases |s.ready|, 1
  {
    match KontOf(s, t)
    case InWaitUnlock(c) => SwitchThreads(s.(running := t, kont := s.kont[t := InWait(c)]), pick)
    case _ => Return(s, t)
  }

  function SwitchThreads(s: Sys, pick: nat): Outcome
    decreases |s.ready|, 0
  {
    if s.ready == [] then Failed
    else
      var k := pick % |s.ready|;
      Resume(s.(ready := Without(s.ready, k)), s.ready[k], pick)
  }

  function Lock(s: Sys, pick: nat): Outcome {
    if s.value == 1 then SwitchThreads(Save(s, InLock).(waitQ := s.waitQ + [s.running]), pick)
    else Ok(AddLocks(s.(value := 1), s.running, 1))
  }

  // _unlock when no thread is to be woken: the lock goes to the first waiter, if any.
  function Release(s: Sys): Sys {
    if s.waitQ != [] then s.(ready := s.ready + [s.waitQ[0]], waitQ := s.waitQ[1..])
    else s.(value := 0)
  }

  // _unlock when nextThreadToWakeUp is set; k is where the running thread will continue.
  function WakeNext(s: Sys, k: Kont, pick: nat): Outcome
    requires s.next.Some?
  {
    Resume(Save(s, k).(next := None, ready := s.ready + [s.running]), s.next.value, pick)
  }

  function Unlock(s: Sys, pick: nat): Outcome {
    if LocksOf(s, s.running) <= 0 then Failed
    else
      var s1 := AddLocks(s, s.running, -1);
      if s.next.Some? then WakeNext(s1, InUnlock, pick) else Ok(Release(s1))
  }

  function Wait(s: Sys, c: nat, pick: nat): Outcome
    requires c < |s.cvs|
  {
    var s1 := s.(cvs := s.cvs[c := s.cvs[c].(waiters := s.cvs[c].waiters + [s.running])]);
    if s.next.Some? then WakeNext(s1, InWaitUnlock(c), pick)
    else SwitchThreads(Release(Save(s1, InWait(c))), pick)
  }

  // signal, or broadcast if all.
  function Signal(s: Sys, c: nat, all: bool, pick: nat): Outcome
    requires c < |s.cvs|
  {
    var w := s.cvs[c].waiters;
    if w == [] then Ok(s)
    else
      var cv := if all then Cond([], s.cvs[c].order + w[1..] + [s.running])
                else Cond(w[1..], s.cvs[c].order + [s.running]);
      Resume(Save(s, InSignal).(cvs := s.cvs[c := cv]), w[0], pick)
  }

  // uthread_yield, called by the thread or by the timer.
  function Yield(s: Sys, pick: nat): Outcome {
    SwitchThreads(Save(s, Client).(ready := s.ready + [s.running]), pick)
  }

  function Create(s: Sys, t: Tid): Outcome {
    Ok(s.(ready := s.ready + [t], kont := s.kont[t := Client], locks := s.locks[t := 0]))
  }

  // uthread_join on a thread that has not finished.
  function Join(s: Sys, pick: nat): Outcome {
    SwitchThreads(Save(s, InJoin).(joined := s.joined + [s.running]), pick)
  }

  datatype Act = DoLock | DoUnlock | DoWait(c: nat) | DoSignal(c: nat, all: bool) | DoYield | DoCreate(t: Tid) | DoJoin

  predicate Named(s: Sys, a: Act) {
    match a
    case DoWait(c) => c < |s.cvs|
    case DoSignal(c, _) => c < |s.cvs|
    case _ => true
  }

  function Step(s: Sys, a: Act, pick: nat): Outcome
    requires Named(s, a)
  {
    match a
    case DoLock => Lock(s, pick)
    case DoUnlock => Unlock(s, pick)
    case DoWait(c) => Wait(s, c, pick)
    case DoSignal(c, all) => Signal(s, c, all, pick)
    case DoYield => Yield(s, pick)
    case DoCreate(t) => Create(s, t)
    case DoJoin => Join(s, pick)
  }
}
