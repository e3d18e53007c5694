// Lock, CondVar and the switching part of uthread.cpp as programs that update their queues in place
// (project_2/Lock.cpp, CondVar.cpp, uthread.cpp).
//
// A method runs from the point where a call disables interrupts to the point where they are enabled
// again, which is usually in another thread's call: context holds where each thread has stopped, and
// SwitchToThread goes on there.  ok == false means that an assert of the source failed.
//
// The ghost field census says where every thread is and who owns the lock.  Valid ties it to the
// queues, and every call states what becomes of the owner, of the threads that get the lock after it,
// and of every thread.

module HoareThreads {
  import opened Common
  import opened Queues
  import opened Monitor
  import opened MonitorProof

  function Waits(s: Sys): (r: seq<seq<Tid>>)
    ensures |r| == |s.cvs| && forall i :: 0 <= i < |r| ==> r[i] == s.cvs[i].waiters
  {
    seq(|s.cvs|, i requires 0 <= i < |s.cvs| => s.cvs[i].waiters)
  }

  class Lock {
    var value: int
    var waitingQueue: seq<Tid>
    var nextThreadToWakeUp: Option<Tid>

    constructor ()
      ensures value == 0 && waitingQueue == [] && nextThreadToWakeUp == None
    {
      value, waitingQueue, nextThreadToWakeUp := 0, [], None;
    }
  }

  class CondVar {
    var waitingQueue: seq<Tid>
    var wakeUpOrder: seq<Tid>

    constructor ()
      ensures waitingQueue == [] && wakeUpOrder == []
    {
      waitingQueue, wakeUpOrder := [], [];
    }

    ghost function Value(): Cond
      reads this
    {
      Cond(waitingQueue, wakeUpOrder)
    }
  }

  class Threads {
    var running: Tid
    var ready: seq<Tid>
    var joinQueue: seq<Tid>
    var context: map<Tid, Kont>
    var lockCount: map<Tid, int>
    const mutex: Lock
    const cvs: seq<CondVar>
    ghost var census: Census

    ghost predicate Apart() { forall i, j :: 0 <= i < j < |cvs| ==> cvs[i] != cvs[j] }

    ghost predicate Valid()
      reads this, mutex, cvs
    {
      Apart() && Inv(Model(), census)
    }

    // The call a was made in state s with census g.
    ghost predicate Done(s: Sys, g: Census, a: Act)
      requires Named(s, a)
      reads this, mutex, cvs
    {
      Valid() && StepDone(s, g, a, Model(), census)
    }

    ghost function Conds(): (r: seq<Cond>)
      reads cvs
      ensures |r| == |cvs| && forall i :: 0 <= i < |cvs| ==> r[i] == cvs[i].Value()
    {
      seq(|cvs|, i requires 0 <= i < |cvs| reads cvs => cvs[i].Value())
    }

    ghost function Model(): Sys
      reads this, mutex, cvs
    {
      Sys(running, ready, joinQueue, mutex.value, mutex.waitingQueue, mutex.nextThreadToWakeUp,
          Conds(), context, lockCount)
    }

    // The threads that wait for each condition variable.
    ghost function Waiting(): (r: seq<seq<Tid>>)
      reads cvs
      ensures |r| == |cvs| && forall i :: 0 <= i < |cvs| ==> r[i] == cvs[i].waitingQueue
    {
      seq(|cvs|, i requires 0 <= i < |cvs| reads cvs => cvs[i].waitingQueue)
    }

    lemma WaitersKnown(c: nat)
      requires c < |cvs|
      ensures Waiting() == Waits(Model()) && Waiting()[c] == Model().cvs[c].waiters
    {
    }

    lemma WaitersAre(s: Sys, g: Census, a: Act, c: nat)
      requires a == DoWait(c) || (a.DoSignal? && a.c == c)
      requires Named(s, a) && Done(s, g, a)
      ensures c < |cvs| == |s.cvs| && Waiting() == Waits(s)[c := NextWaiters(s, a, c)]
    {
      hide Inv, RunsNext;
      forall i | 0 <= i < |cvs| ensures Waiting()[i] == NextWaiters(s, a, i) { assert Model().cvs[i].waiters == NextWaiters(s, a, i); }
    }

    ghost predicate Result(ok: bool, r: Outcome)
      reads this, mutex, cvs
    {
      if r.Ok? then ok && Model() == r.sys else !ok
    }

    // The main thread, with a new lock and new condition variables.
    constructor (mutex: Lock, cvs: seq<CondVar>)
      requires forall i, j :: 0 <= i < j < |cvs| ==> cvs[i] != cvs[j]
      requires mutex.value == 0 && mutex.waitingQueue == [] && mutex.nextThreadToWakeUp == None
      requires forall i :: 0 <= i < |cvs| ==> cvs[i].waitingQueue == [] && cvs[i].wakeUpOrder == []
      ensures Valid() && this.mutex == mutex && this.cvs == cvs
      ensures census.at == map[0 := Running] && census.owner == None
    {
      this.mutex, this.cvs := mutex, cvs;
      running, ready, joinQueue, context, lockCount := 0, [], [], map[], map[0 := 0];
      census := Census(map[0 := Running], 0, None);
      new;
      assert Conds() == seq(|cvs|, _ => Cond([], []));
      InitialInv(|cvs|);
    }

    method AddLockCount(t: Tid, d: int)
      modifies this`lockCount
      ensures Model() == AddLocks(old(Model()), t, d)
    {
      lockCount := lockCount[t := (if t in lockCount then lockCount[t] else 0) + d];
    }

    // The end of wait: the first of wake_up_order is the next to get the lock.
    method NameNext(c: nat) returns (ok: bool)
      requires Apart()
      modifies mutex, cvs
      ensures ok <==> c < |cvs| && old(Conds())[c].order != []
      ensures ok ==> var s := old(Model());
        Model() == s.(next := Some(s.cvs[c].order[0]), cvs := s.cvs[c := s.cvs[c].(order := s.cvs[c].order[1..])])
    {
      if c >= |cvs| || cvs[c].wakeUpOrder == [] { return false; }
      mutex.nextThreadToWakeUp := Some(cvs[c].wakeUpOrder[0]);
      ghost var was := Conds();
      cvs[c].wakeUpOrder := cvs[c].wakeUpOrder[1..];
      assert Conds() == was[c := cvs[c].Value()];
      return true;
    }

    method SwitchToThread(next: Tid, pick: nat) returns (ok: bool)
      requires Apart()
      modifies this`running, this`ready, this`context, this`lockCount, mutex, cvs
      ensures Result(ok, Resume(old(Model()), next, pick))
      decreases |ready|, 1
    {
      running := next;
      var k := if next in context then context[next] else Client;
      match k
      case InLock =>
        context := context[next := Client];
        AddLockCount(next, 1);
        return true;
      case InWait(c) =>
        context := context[next := Client];
        ok := NameNext(c);
      case InWaitUnlock(c) =>
        context := context[next := InWait(c)];
        ok := SwitchToReady(pick);
      case _ =>
        context := context[next := Client];
        return true;
    }

    // switchThreads.
    method SwitchToReady(pick: nat) returns (ok: bool)
      requires Apart()
      modifies this`running, this`ready, this`context, this`lockCount, mutex, cvs
      ensures Result(ok, SwitchThreads(old(Model()), pick))
      decreases |ready|, 0
    {
      if ready == [] { return false; }
      var k := pick % |ready|;
      var next := ready[k];
      ready := ready[..k] + ready[k + 1..];
      ok := SwitchToThread(next, pick);
    }

    // Lock::lock.
    method LockCall(pick: nat) returns (ok: bool)
      requires Valid() && Legal(Model(), DoLock)
      modifies this, mutex, cvs
      ensures ok && Done(old(Model()), old(census), DoLock)
    {
      hide Inv, Resume, SwitchThreads, StepDone;
      ghost var g := LockKeeps(Model(), census, pick);
      DoneInv(Model(), census, DoLock, Monitor.Lock(Model(), pick).sys, g);
      if mutex.value == 1 {
        mutex.waitingQueue := mutex.waitingQueue + [running];
        context := context[running := InLock];
        ok := SwitchToReady(pick);
      } else {
        mutex.value := 1;
        AddLockCount(running, 1);
        ok := true;
      }
      census := g;
    }

    // Lock::_unlock; k is the place behind its switchToThread, and switched says that it was used.
    method ReleaseOrSwitch(k: Kont, pick: nat) returns (ok: bool, switched: bool)
      requires Apart()
      modifies this`running, this`ready, this`context, this`lockCount, mutex, cvs
      ensures switched <==> old(Model()).next.Some?
      ensures if switched then Result(ok, WakeNext(old(Model()), k, pick)) else ok && Model() == Release(old(Model()))
      ensures !switched ==> context == old(context) && running == old(running)
    {
      hide Resume;
      if mutex.nextThreadToWakeUp != None {
        var toBeUnlocked := mutex.nextThreadToWakeUp.value;
        mutex.nextThreadToWakeUp := None;
        ready := ready + [running];
        context := context[running := k];
        ok := SwitchToThread(toBeUnlocked, pick);
        return ok, true;
      } else if mutex.waitingQueue != [] {
        var toBeUnlocked := mutex.waitingQueue[0];
        mutex.waitingQueue := mutex.waitingQueue[1..];
        ready := ready + [toBeUnlocked];
      } else {
        mutex.value := 0;
      }
      return true, false;
    }

    // Lock::unlock.
    method UnlockCall(pick: nat) returns (ok: bool)
      requires Valid() && Legal(Model(), DoUnlock)
      modifies this, mutex, cvs
      ensures ok && Done(old(Model()), old(census), DoUnlock)
    {
      hide Inv, Resume, Release, StepDone;
      ghost var g := UnlockKeeps(Model(), census, pick);
      DoneInv(Model(), census, DoUnlock, Unlock(Model(), pick).sys, g);
      if (if running in lockCount then lockCount[running] else 0) <= 0 { return false; }
      AddLockCount(running, -1);
      var switched;
      ok, switched := ReleaseOrSwitch(InUnlock, pick);
      census := g;
    }

    // The body of wait.
    method QueueAndSwitch(c: nat, pick: nat) returns (ok: bool)
      requires Apart() && c < |cvs|
      modifies this`running, this`ready, this`context, this`lockCount, mutex, cvs
      ensures Result(ok, Wait(old(Model()), c, pick))
    {
      hide Resume, SwitchThreads;
      ghost var was := Conds();
      cvs[c].waitingQueue := cvs[c].waitingQueue + [running];
      assert Conds() == was[c := cvs[c].Value()];
      var switched;
      ok, switched := ReleaseOrSwitch(InWaitUnlock(c), pick);
      if !switched {
        context := context[running := InWait(c)];
        ok := SwitchToReady(pick);
      }
    }

    // CondVar::wait.
    method WaitCall(c: nat, pick: nat) returns (ok: bool)
      requires Valid() && Legal(Model(), DoWait(c))
      modifies this, mutex, cvs
      ensures ok <==> old(SomebodyReady(Model()) || mutex.waitingQueue != [] || mutex.nextThreadToWakeUp != None)
      ensures ok ==> Done(old(Model()), old(census), DoWait(c))
      ensures ok ==> Waiting() == old(Waiting())[c := old(Waiting())[c] + [old(running)]]
    {
      hide Inv, Wait, StepDone, SomebodyReady, Waits;
      ghost var s, g0 := Model(), census;
      WaitersKnown(c);
      ghost var g := WaitKeeps(s, census, c, pick);
      if Wait(s, c, pick).Ok? { DoneInv(s, census, DoWait(c), Wait(s, c, pick).sys, g); }
      ok := QueueAndSwitch(c, pick);
      census := g;
      if ok { WaitersAre(s, g0, DoWait(c), c); }
    }

    // The body of signal.
    method WakeOne(c: nat, pick: nat) returns (ok: bool)
      requires Apart() && c < |cvs|
      modifies this`running, this`ready, this`context, this`lockCount, mutex, cvs
      ensures Result(ok, Signal(old(Model()), c, false, pick))
    {
      hide Resume;
      ghost var s := Model();
      ok := true;
      if cvs[c].waitingQueue != [] {
        var next := cvs[c].waitingQueue[0];
        cvs[c].waitingQueue := cvs[c].waitingQueue[1..];
        cvs[c].wakeUpOrder := cvs[c].wakeUpOrder + [running];
        assert Conds() == s.cvs[c := cvs[c].Value()];
        context := context[running := InSignal];
        assert Model() == Save(s, InSignal).(cvs := s.cvs[c := Cond(s.cvs[c].waiters[1..], s.cvs[c].order + [s.running])]);
        ok := SwitchToThread(next, pick);
      }
    }

    // CondVar::signal.
    method SignalCall(c: nat, pick: nat) returns (ok: bool)
      requires Valid() && Legal(Model(), DoSignal(c, false)) && Disciplined(Model(), DoSignal(c, false))
      modifies this, mutex, cvs
      ensures ok && Done(old(Model()), old(census), DoSignal(c, false))
      ensures Waiting() == old(Waiting())[c := if old(Waiting())[c] != [] then old(Waiting())[c][1..] else []]
    {
      hide Inv, Signal, StepDone, Waits;
      ghost var s, g0 := Model(), census;
      WaitersKnown(c);
      ghost var g := SignalKeeps(s, census, c, false, pick);
      DoneInv(s, census, DoSignal(c, false), Signal(s, c, false, pick).sys, g);
      ok := WakeOne(c, pick);
      census := g;
      WaitersAre(s, g0, DoSignal(c, false), c);
    }

    // Everybody behind the first waiter, and then the caller, will be woken in turn.
    method QueueAll(c: nat) returns (next: Tid)
      requires Apart() && c < |cvs| && cvs[c].waitingQueue != []
      modifies cvs[c]
      ensures next == old(cvs[c].waitingQueue[0])
      ensures cvs[c].Value() == old(Cond([], cvs[c].wakeUpOrder + cvs[c].waitingQueue[1..] + [running]))
    {
      next := cvs[c].waitingQueue[0];
      cvs[c].waitingQueue := cvs[c].waitingQueue[1..];
      while cvs[c].waitingQueue != []
        invariant cvs[c].wakeUpOrder + cvs[c].waitingQueue == old(cvs[c].wakeUpOrder + cvs[c].waitingQueue[1..])
        decreases |cvs[c].waitingQueue|
      {
        cvs[c].wakeUpOrder := cvs[c].wakeUpOrder + [cvs[c].waitingQueue[0]];
        cvs[c].waitingQueue := cvs[c].waitingQueue[1..];
      }
      assert cvs[c].wakeUpOrder + cvs[c].waitingQueue == cvs[c].wakeUpOrder;
      cvs[c].wakeUpOrder := cvs[c].wakeUpOrder + [running];
    }

    // The body of broadcast.
    method WakeAll(c: nat, pick: nat) returns (ok: bool)
      requires Apart() && c < |cvs|
      modifies this`running, this`ready, this`context, this`lockCount, mutex, cvs
      ensures Result(ok, Signal(old(Model()), c, true, pick))
    {
      hide Resume;
      ghost var s := Model();
      ok := true;
      if cvs[c].waitingQueue != [] {
        var next := QueueAll(c);
        assert Conds() == s.cvs[c := cvs[c].Value()];
        context := context[running := InSignal];
        assert Model() == Save(s, InSignal).(cvs := s.cvs[c := Cond([], s.cvs[c].order + s.cvs[c].waiters[1..] + [s.running])]);
        ok := SwitchToThread(next, pick);
      }
    }

    // CondVar::broadcast.
    method BroadcastCall(c: nat, pick: nat) returns (ok: bool)
      requires Valid() && Legal(Model(), DoSignal(c, true)) && Disciplined(Model(), DoSignal(c, true))
      modifies this, mutex, cvs
      ensures ok && Done(old(Model()), old(census), DoSignal(c, true))
      ensures Waiting() == old(Waiting())[c := []]
    {
      hide Inv, Signal, StepDone, Waits;
      ghost var s, g0 := Model(), census;
      WaitersKnown(c);
      ghost var g := SignalKeeps(s, census, c, true, pick);
      DoneInv(s, census, DoSignal(c, true), Signal(s, c, true, pick).sys, g);
      ok := WakeAll(c, pick);
      census := g;
      WaitersAre(s, g0, DoSignal(c, true), c);
    }

    // uthread_yield without the boosting of priorities.
    method YieldCall(pick: nat) returns (ok: bool)
      requires Valid()
      modifies this, mutex, cvs
      ensures ok && Done(old(Model()), old(census), DoYield)
    {
      hide Inv, Resume, SwitchThreads, StepDone;
      ghost var g := YieldKeeps(Model(), census, pick);
      DoneInv(Model(), census, DoYield, Yield(Model(), pick).sys, g);
      ready := ready + [running];
      context := context[running := Client];
      ok := SwitchToReady(pick);
      census := g;
    }
  }
}
