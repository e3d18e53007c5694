// The thread library of project_2/uthread.cpp: every thread is in exactly one queue, whatever is
// created, joined, suspended, resumed, promoted or demoted.
//
// A method runs from the point where a call disables interrupts to the point where they are enabled
// again, usually in another thread; context says what that thread has still to do in its call.

module Uthread {
  import opened Common
  import opened Queues

  datatype Priority = RED | ORANGE | GREEN

  const MAX_THREAD_NUM := 100
  const MAIN_THREAD := 0

  datatype JoinEntry = JoinEntry(tid: Tid, waitingFor: Tid)
  datatype FinishedEntry = FinishedEntry(tid: Tid, result: int)

  datatype Kont = Client | InJoin(tid: Tid)

  // Parked: in a queue of a lock or a condition variable.
  datatype Place = Running | Ready(q: nat) | Blocked | Joining | Finished | Parked

  // The queues of the library.
  datatype Lists = Lists(ready: seq<seq<Tid>>, blocked: seq<Tid>, joins: seq<JoinEntry>, finished: seq<FinishedEntry>,
                         parked: seq<Tid>)

  // The ready queue of a priority (translatePriority).
  function IndexOf(p: Priority): nat { match p case RED => 0 case ORANGE => 1 case GREEN => 2 }

  function PriorityOf(threads: map<Tid, Priority>, t: Tid): Priority { if t in threads then threads[t] else ORANGE }

  // increasePriority and decreasePriority: one ready queue up or down, if there is one.
  function Raised(p: Priority): (r: Priority)
    ensures IndexOf(r) == if IndexOf(p) > 0 then IndexOf(p) - 1 else 0
  {
    if p == GREEN then ORANGE else RED
  }

  function Lowered(p: Priority): (r: Priority)
    ensures IndexOf(r) == if IndexOf(p) < 2 then IndexOf(p) + 1 else 2
  {
    if p == RED then ORANGE else GREEN
  }

  function JoinTids(q: seq<JoinEntry>): (r: seq<Tid>)
    ensures |r| == |q| && forall i :: 0 <= i < |q| ==> r[i] == q[i].tid
  {
    seq(|q|, i requires 0 <= i < |q| => q[i].tid)
  }

  function FinishedTids(q: seq<FinishedEntry>): (r: seq<Tid>)
    ensures |r| == |q| && forall i :: 0 <= i < |q| ==> r[i] == q[i].tid
  {
    seq(|q|, i requires 0 <= i < |q| => q[i].tid)
  }

  function QueueAt(s: Lists, run: Option<Tid>, p: Place): seq<Tid> {
    match p
    case Running => if run.Some? then [run.value] else []
    case Ready(q) => if q < |s.ready| then s.ready[q] else []
    case Blocked => s.blocked
    case Joining => JoinTids(s.joins)
    case Finished => FinishedTids(s.finished)
    case Parked => s.parked
  }

  ghost predicate Places(s: Lists, at: map<Tid, Place>, run: Option<Tid>) {
    forall p :: Listed(QueueAt(s, run, p), at, p)
  }

  function ContextOf(context: map<Tid, Kont>, t: Tid): Kont { if t in context then context[t] else Client }

  // A thread that joins is in join_queue until the other one has finished, and then the other one
  // stays in finished_queue until the joiner runs; no two threads join the same one.
  ghost predicate JoinsOk(joins: seq<JoinEntry>, at: map<Tid, Place>, context: map<Tid, Kont>) {
    && (forall t :: t in at && ContextOf(context, t).InJoin? ==>
          var w := ContextOf(context, t).tid;
          (at[t] == Joining && JoinEntry(t, w) in joins) || ((at[t].Ready? || at[t] == Blocked) && w in at && at[w] == Finished))
    && (forall t :: t !in at ==> ContextOf(context, t) == Client)
    && (forall e :: e in joins ==>
          e.tid in at && at[e.tid] == Joining && ContextOf(context, e.tid) == InJoin(e.waitingFor))
    && (forall t, u :: t in at && u in at && t != u && ContextOf(context, t).InJoin? ==> ContextOf(context, t) != ContextOf(context, u))
  }

  // finished_queue holds what every finished thread passed to uthread_exit.
  ghost predicate ResultsOk(finished: seq<FinishedEntry>, exited: map<Tid, int>) {
    forall e :: e in finished ==> e.tid in exited && exited[e.tid] == e.result
  }

  // Thread t goes on; if it was in a join, it receives the result of the thread it joined.
  function Delivered(retvals: map<Tid, int>, exited: map<Tid, int>, t: Tid, k: Kont): map<Tid, int> {
    if k.InJoin? && k.tid in exited then retvals[t := exited[k.tid]] else retvals
  }

  // Thread k of the queue at p1 goes to the end of the queue at p2.
  lemma Move(s: Lists, at: map<Tid, Place>, run: Option<Tid>, p1: Place, k: nat, p2: Place, s': Lists, run': Option<Tid>)
    requires Places(s, at, run) && p1 != p2 && k < |QueueAt(s, run, p1)|
    requires QueueAt(s', run', p1) == Without(QueueAt(s, run, p1), k)
    requires QueueAt(s', run', p2) == QueueAt(s, run, p2) + [QueueAt(s, run, p1)[k]]
    requires forall p :: p != p1 && p != p2 ==> QueueAt(s', run', p) == QueueAt(s, run, p)
    ensures var t := QueueAt(s, run, p1)[k]; t in at && at[t] == p1 && Places(s', at[t := p2], run')
  {
    hide Listed, QueueAt;
    var t := QueueAt(s, run, p1)[k];
    Dropped(QueueAt(s, run, p1), at, p1, k, p2);
    Appended(QueueAt(s, run, p2), at, p2, t);
    forall p ensures Listed(QueueAt(s', run', p), at[t := p2], p) {
      if p != p1 && p != p2 { Bystander(QueueAt(s, run, p), at, p, t, p2); }
    }
  }

  // A new thread at the end of the queue at p.
  lemma Arrive(s: Lists, at: map<Tid, Place>, run: Option<Tid>, t: Tid, p: Place, s': Lists)
    requires Places(s, at, run) && t !in at
    requires QueueAt(s', run, p) == QueueAt(s, run, p) + [t]
    requires forall x :: x != p ==> QueueAt(s', run, x) == QueueAt(s, run, x)
    ensures Places(s', at[t := p], run)
  {
    hide Listed, QueueAt;
    Appended(QueueAt(s, run, p), at, p, t);
    forall x ensures Listed(QueueAt(s', run, x), at[t := p], x) {
      if x != p { Bystander(QueueAt(s, run, x), at, x, t, p); }
    }
  }

  // Thread k of the queue at p is gone.
  lemma Leave(s: Lists, at: map<Tid, Place>, run: Option<Tid>, p: Place, k: nat, s': Lists)
    requires Places(s, at, run) && k < |QueueAt(s, run, p)|
    requires QueueAt(s', run, p) == Without(QueueAt(s, run, p), k)
    requires forall x :: x != p ==> QueueAt(s', run, x) == QueueAt(s, run, x)
    ensures var t := QueueAt(s, run, p)[k]; t in at && at[t] == p && Places(s', at - {t}, run)
  {
    hide QueueAt;
    var t := QueueAt(s, run, p)[k];
    Erased(QueueAt(s, run, p), at, p, k);
    forall x ensures Listed(QueueAt(s', run, x), at - {t}, x) { assert Listed(QueueAt(s, run, x), at, x); }
  }

  lemma Found(s: Lists, at: map<Tid, Place>, run: Option<Tid>, p: Place, t: Tid)
    requires Places(s, at, run)
    ensures t in QueueAt(s, run, p) <==> t in at && at[t] == p
  {
    assert Listed(QueueAt(s, run, p), at, p);
  }

  class Scheduler {
    var running: Tid
    var ready: seq<seq<Tid>>
    var blocked: seq<Tid>
    var joinQueue: seq<JoinEntry>
    var finishedQueue: seq<FinishedEntry>
    var threads: map<Tid, Priority> // _threads, with the priority of each thread
    var context: map<Tid, Kont>
    var retvals: map<Tid, int>      // what the last uthread_join of each thread has stored in *retval
    ghost var exited: map<Tid, int> // what each thread has passed to uthread_exit
    ghost var parked: seq<Tid>
    ghost var at: map<Tid, Place>

    ghost function Model(): Lists
      reads this
    {
      Lists(ready, blocked, joinQueue, finishedQueue, parked)
    }

    // run is the running thread, or None while threads are being switched.
    ghost predicate Inv(run: Option<Tid>)
      reads this
    {
      && |ready| == 3 && at.Keys == threads.Keys && |threads| <= MAX_THREAD_NUM
      && Places(Model(), at, run)
      && (forall t :: t in at && at[t].Ready? ==> at[t].q == IndexOf(threads[t]))
      && JoinsOk(joinQueue, at, context) && ResultsOk(finishedQueue, exited)
    }

    ghost predicate Valid()
      reads this
    {
      Inv(Some(running)) && ContextOf(context, running) == Client
    }

    // Every existing thread is in exactly one place, once, and no other thread is anywhere.
    lemma OnePlace(t: Tid)
      requires Valid()
      ensures forall p :: t in QueueAt(Model(), Some(running), p) <==> t in threads && at[t] == p
      ensures forall p :: Listed(QueueAt(Model(), Some(running), p), at, p)
      ensures forall q :: 0 <= q < 3 && t in ready[q] ==> t in threads && q == IndexOf(threads[t])
    {
      forall p ensures t in QueueAt(Model(), Some(running), p) <==> t in at && at[t] == p {
        Found(Model(), at, Some(running), p, t);
      }
      forall q | 0 <= q < 3 && t in ready[q] ensures t in threads && q == IndexOf(threads[t]) {
        assert t in QueueAt(Model(), Some(running), Ready(q));
      }
    }

    // The running thread and the ready ones of its priority are different threads, all of that priority.
    lemma EqualsOf()
      requires Valid()
      ensures running in threads && var h := IndexOf(threads[running]);
        && Distinct([running] + ready[h])
        && forall t :: t in [running] + ready[h] ==> IndexOf(PriorityOf(threads, t)) == h
    {
      Found(Model(), at, Some(running), Running, running);
      var h := IndexOf(threads[running]);
      assert Listed(QueueAt(Model(), Some(running), Ready(h)), at, Ready(h));
      var c := [running] + ready[h];
      forall i, j | 0 <= i < j < |c| ensures c[i] != c[j] { assert at[c[j]] == Ready(h); }
    }

    // uthread_init.
    constructor ()
      ensures Valid() && running == MAIN_THREAD && at == map[MAIN_THREAD := Running] && threads == map[MAIN_THREAD := ORANGE]
    {
      running, ready, blocked, joinQueue, finishedQueue := MAIN_THREAD, [[], [], []], [], [], [];
      threads, context, parked := map[MAIN_THREAD := ORANGE], map[], [];
      retvals, exited := map[], map[];
      at := map[MAIN_THREAD := Running];
    }

    // getNextId.
    method GetNextId() returns (id: Tid)
      ensures id !in threads && forall t :: 0 <= t < id ==> t in threads
      ensures id <= |threads|
    {
      id := 0;
      Below(threads.Keys, 0);
      while id in threads
        invariant forall t :: 0 <= t < id ==> t in threads
        invariant id <= |threads|
        decreases |threads| - id
      {
        id := id + 1;
        Below(threads.Keys, id);
      }
    }

    static lemma Below(s: set<Tid>, n: nat)
      requires forall t :: 0 <= t < n ==> t in s
      ensures n <= |s|
    {
      if n > 0 {
        Below(s - {n - 1}, n - 1);
      }
    }

    // ---------- The queue helpers ----------

    method AddToReady(t: Tid)
      requires |ready| == 3 && t in threads
      modifies this`ready
      ensures var q := IndexOf(threads[t]); ready == old(ready)[q := old(ready)[q] + [t]]
    {
      var q := IndexOf(threads[t]);
      ready := ready[q := ready[q] + [t]];
    }

    // The first thread of the highest non-empty queue.
    method PopReady() returns (next: Option<Tid>)
      requires |ready| == 3
      modifies this`ready
      ensures next == Highest(old(ready))
      ensures next.Some? ==> var q := HighestQueue(old(ready)); ready == old(ready)[q := old(ready)[q][1..]]
      ensures next.None? ==> ready == old(ready)
    {
      if ready[0] != [] { next := Some(ready[0][0]); ready := ready[0 := ready[0][1..]]; return; }
      if ready[1] != [] { next := Some(ready[1][0]); ready := ready[1 := ready[1][1..]]; return; }
      if ready[2] != [] { next := Some(ready[2][0]); ready := ready[2 := ready[2][1..]]; return; }
      return None;
    }

    method RemoveFromReady(tid: Tid) returns (found: bool, ghost k: nat)
      requires |ready| == 3 && tid in threads
      modifies this`ready
      ensures var q := IndexOf(threads[tid]);
        && (found <==> tid in old(ready)[q])
        && (found ==> k < |old(ready)[q]| && old(ready)[q][k] == tid && ready == old(ready)[q := Without(old(ready)[q], k)])
        && (!found ==> ready == old(ready))
    {
      var pr := IndexOf(threads[tid]);
      k := 0;
      for i := 0 to |ready[pr]|
        invariant ready == old(ready) && tid !in ready[pr][..i]
      {
        if ready[pr][i] == tid {
          ready := ready[pr := Without(ready[pr], i)];
          return true, i;
        }
      }
      return false, 0;
    }

    method RemoveFromBlock(tid: Tid) returns (ghost k: nat)
      requires tid in blocked
      modifies this`blocked
      ensures k < |old(blocked)| && old(blocked)[k] == tid && blocked == Without(old(blocked), k)
    {
      for i := 0 to |blocked|
        invariant blocked == old(blocked) && tid !in blocked[..i]
      {
        if blocked[i] == tid {
          blocked := Without(blocked, i);
          return i;
        }
      }
      assert false;
    }

    // removeFromFinished: also deletes the thread.
    method RemoveFromFinished(tid: Tid) returns (result: Option<int>, ghost k: nat)
      modifies this`finishedQueue, this`threads
      ensures result.Some? <==> tid in FinishedTids(old(finishedQueue))
      ensures result.Some? ==>
        && k < |old(finishedQueue)| && old(finishedQueue)[k] == FinishedEntry(tid, result.value)
        && finishedQueue == Without(old(finishedQueue), k) && threads == old(threads) - {tid}
      ensures result.None? ==> finishedQueue == old(finishedQueue) && threads == old(threads)
    {
      k := 0;
      for i := 0 to |finishedQueue|
        invariant finishedQueue == old(finishedQueue) && threads == old(threads)
        invariant forall j :: 0 <= j < i ==> finishedQueue[j].tid != tid
      {
        if finishedQueue[i].tid == tid {
          assert FinishedTids(finishedQueue)[i] == tid;
          result := Some(finishedQueue[i].result);
          threads := threads - {tid};
          finishedQueue := Without(finishedQueue, i);
          k := i;
          return;
        }
      }
      return None, 0;
    }

    // The thread that was joined is deleted.
    method Reap(tid: Tid) returns (result: int)
      requires Places(Model(), at, Some(running)) && tid in at && at[tid] == Finished && ResultsOk(finishedQueue, exited)
      modifies this`finishedQueue, this`threads, this`at
      ensures Places(Model(), at, Some(running)) && at == old(at) - {tid} && threads == old(threads) - {tid}
      ensures |threads| <= |old(threads)|
      ensures ResultsOk(finishedQueue, exited) && tid in exited && result == exited[tid]
    {
      hide Places, ResultsOk;
      ghost var s, k := Model(), 0;
      Found(s, at, Some(running), Finished, tid);
      var r;
      r, k := RemoveFromFinished(tid);
      assert r.Some?;
      WithoutTids(s.finished, k);
      Shrinks(old(threads), tid);
      ResultsFewer(s.finished, exited, k);
      Leave(s, at, Some(running), Finished, k, Model());
      at := at - {tid};
      return r.value;
    }

    // switchToThread of the thread that popReady returns.
    method Dispatch() returns (ok: bool)
      requires Inv(None)
      modifies this`running, this`ready, this`at
      ensures ok <==> Highest(old(ready)).Some?
      ensures ok ==> |ready| == 3 && Served(old(ready), running, ready) && Places(Model(), at, Some(running))
      ensures ok ==> running in old(at) && old(at)[running].Ready? && at == old(at)[running := Running]
    {
      hide Places, JoinsOk, ResultsOk;
      ghost var s := Model();
      var next := PopReady();
      if next == None { return false; }
      running := next.value;
      ghost var q := HighestQueue(s.ready);
      Front(s.ready[q]);
      Move(s, at, None, Ready(q), 0, Running, Model(), Some(running));
      at := at[running := Running];
      return true;
    }

    // switchThreads: on to the next thread, which first finishes the join it may be in.
    method SwitchThreads() returns (ok: bool)
      requires Inv(None)
      modifies this
      ensures ok <==> Highest(old(ready)).Some?
      ensures ok ==> Valid() && Served(old(ready), running, ready)
      ensures parked == old(parked) && joinQueue == old(joinQueue) && SamePriorities(old(threads), threads)
      ensures ok ==> at == Resumed(old(at), running, ContextOf(old(context), running))
      ensures ok ==> running in old(at) && old(at)[running].Ready?
      ensures ok ==> forall x :: x in old(at) && x !in at ==> old(at)[x] == Finished
      ensures exited == old(exited)
      ensures ok ==> retvals == Delivered(old(retvals), exited, running, ContextOf(old(context), running))
      ensures ok && ContextOf(old(context), running).InJoin? ==> ContextOf(old(context), running).tid in exited
    {
      hide Places, JoinsOk, Highest, Served, ResultsOk;
      ok := Dispatch();
      if !ok { return; }
      JoinsRun(joinQueue, old(at), context, running);
      assert at[running := Running] == old(at)[running := Running];
      FinishJoin();
    }

    // What the thread that goes on has still to do in uthread_join, if it was there.
    method FinishJoin()
      requires |ready| == 3 && at.Keys == threads.Keys && |threads| <= MAX_THREAD_NUM
      requires Places(Model(), at, Some(running)) && running in at && at[running] == Running && ResultsOk(finishedQueue, exited)
      requires forall t :: t in at && at[t].Ready? ==> at[t].q == IndexOf(threads[t])
      requires var k := ContextOf(context, running);
        && (k.InJoin? ==> k.tid != running && k.tid in at && at[k.tid] == Finished)
        && JoinsOk(joinQueue, Resumed(at, running, k), context[running := Client])
      modifies this`finishedQueue, this`threads, this`at, this`context, this`retvals
      ensures Valid() && at == Resumed(old(at), running, ContextOf(old(context), running))
      ensures retvals == Delivered(old(retvals), exited, running, ContextOf(old(context), running))
      ensures SamePriorities(old(threads), threads)
      ensures ContextOf(old(context), running).InJoin? ==> ContextOf(old(context), running).tid in exited
      ensures forall x :: x in old(at) && x !in at ==> old(at)[x] == Finished
    {
      hide Places, JoinsOk, ResultsOk;
      assert at[running := Running] == at;
      if running in context && context[running].InJoin? { Collect(context[running].tid); }
      ghost var s := Model();
      context := context[running := Client];
      assert Model() == s;
    }

    // The running thread gets the result of thread tid, which is deleted.
    method Collect(tid: Tid)
      requires Places(Model(), at, Some(running)) && tid in at && at[tid] == Finished && ResultsOk(finishedQueue, exited)
      requires |ready| == 3 && at.Keys == threads.Keys
      modifies this`finishedQueue, this`threads, this`at, this`retvals
      ensures Places(Model(), at, Some(running)) && at == old(at) - {tid} && threads == old(threads) - {tid}
      ensures |ready| == 3 && at.Keys == threads.Keys && |threads| <= |old(threads)| && ResultsOk(finishedQueue, exited)
      ensures tid in exited && retvals == old(retvals)[running := exited[tid]]
    {
      hide Places, ResultsOk;
      var result := Reap(tid);
      retvals := retvals[running := result];
    }

    // ---------- The calls ----------

    // uthread_create.
    method Create() returns (tid: int)
      requires Valid()
      modifies this`ready, this`threads, this`at
      ensures Valid()
      ensures |old(threads)| == MAX_THREAD_NUM ==> tid == -1 && at == old(at) && threads == old(threads)
      ensures |old(threads)| != MAX_THREAD_NUM ==>
        && 0 <= tid < MAX_THREAD_NUM && tid !in old(threads) && (forall t :: 0 <= t < tid ==> t in old(threads))
        && threads == old(threads)[tid := ORANGE] && at == old(at)[tid := Ready(1)]
      ensures ready == if tid == -1 then old(ready) else old(ready)[1 := old(ready)[1] + [tid]]
    {
      hide Places, ResultsOk;
      if |threads| == MAX_THREAD_NUM { return -1; }
      ghost var s := Model();
      var id := GetNextId();
      JoinsNew(joinQueue, at, context, id);
      threads := threads[id := ORANGE];
      AddToReady(id);
      Arrive(s, at, Some(running), id, Ready(1), Model());
      at := at[id := Ready(1)];
      return id;
    }

    // uthread_yield without the boosting of priorities.
    method Yield() returns (ok: bool)
      requires Valid()
      modifies this
      ensures ok && Valid()
      ensures var q := IndexOf(PriorityOf(old(threads), old(running))); var r := old(ready)[q := old(ready)[q] + [old(running)]];
        && Served(r, running, ready) && SamePriorities(old(threads), threads)
        && at == Resumed(old(at)[old(running) := Ready(q)], running, ContextOf(old(context), running))
      ensures exited == old(exited) && retvals == Delivered(old(retvals), exited, running, ContextOf(old(context), running))
    {
      hide Places, JoinsOk, ResultsOk, Served;
      ghost var s := Model();
      Found(s, at, Some(running), Running, running);
      AddToReady(running);
      ghost var q := IndexOf(threads[running]);
      Move(s, at, Some(running), Running, 0, Ready(q), Model(), None);
      JoinsMoved(joinQueue, at, context, running, Ready(q));
      at := at[running := Ready(q)];
      ok := SwitchThreads();
    }

    // uthread_join on a thread that has not finished.
    method WaitFor(tid: Tid) returns (ok: bool)
      requires Valid() && forall t :: t in at ==> ContextOf(context, t) != InJoin(tid)
      modifies this
      ensures (ok <==> Highest(old(ready)).Some?) && (ok ==> Valid() && Served(old(ready), running, ready))
      ensures SamePriorities(old(threads), threads) && (ok ==> joinQueue == old(joinQueue) + [JoinEntry(old(running), tid)])
      ensures ok ==> at == Resumed(old(at)[old(running) := Joining], running, ContextOf(old(context), running))
      ensures exited == old(exited)
      ensures ok ==> retvals == Delivered(old(retvals), exited, running, ContextOf(old(context), running))
    {
      hide Places, JoinsOk, ResultsOk;
      ghost var s := Model();
      Found(s, at, Some(running), Running, running);
      joinQueue := joinQueue + [JoinEntry(running, tid)];
      context := context[running := InJoin(tid)];
      assert JoinTids(joinQueue) == JoinTids(s.joins) + [running];
      Move(s, at, Some(running), Running, 0, Joining, Model(), None);
      JoinsBegin(s.joins, at, old(context), running, tid);
      at := at[running := Joining];
      ok := SwitchThreads();
    }

    // uthread_join on a thread that has finished.
    method JoinFinished(tid: Tid)
      requires Valid() && (forall t :: t in at ==> ContextOf(context, t) != InJoin(tid)) && tid in at && at[tid] == Finished
      modifies this`finishedQueue, this`threads, this`at, this`retvals
      ensures Valid() && at == old(at) - {tid} && tid in exited && retvals == old(retvals)[running := exited[tid]]
      ensures threads == old(threads) - {tid}
    {
      hide Places, JoinsOk, ResultsOk;
      Found(Model(), at, Some(running), Running, running);
      JoinsReaped(joinQueue, at, context, tid);
      Collect(tid);
    }

    // uthread_join; the source assumes that no other thread joins tid.
    method Join(tid: Tid) returns (ok: bool)
      requires Valid() && forall t :: t in at ==> ContextOf(context, t) != InJoin(tid)
      modifies this
      ensures tid in old(at) && old(at)[tid] == Finished ==>
        && ok && Valid() && running == old(running) && ready == old(ready) && at == old(at) - {tid}
        && tid in exited && retvals == old(retvals)[running := exited[tid]]
      ensures !(tid in old(at) && old(at)[tid] == Finished) ==>
        && (ok <==> Highest(old(ready)).Some?) && (ok ==> Valid() && Served(old(ready), running, ready))
        && (ok ==> at == Resumed(old(at)[old(running) := Joining], running, ContextOf(old(context), running)))
        && (ok ==> retvals == Delivered(old(retvals), exited, running, ContextOf(old(context), running)))
      ensures exited == old(exited) && SamePriorities(old(threads), threads)
      ensures ok ==> joinQueue == if tid in old(at) && old(at)[tid] == Finished then old(joinQueue) else old(joinQueue) + [JoinEntry(old(running), tid)]
    {
      hide Places, JoinsOk, ResultsOk;
      Found(Model(), at, Some(running), Finished, tid);
      if exists i :: 0 <= i < |finishedQueue| && finishedQueue[i].tid == tid {
        FinishedHere(finishedQueue, tid);
        JoinFinished(tid);
        return true;
      }
      NotFinishedHere(finishedQueue, tid);
      ok := WaitFor(tid);
    }

    // Entry i of join_queue becomes ready.
    method ReadyJoiner(i: nat)
      requires |ready| == 3 && at.Keys == threads.Keys && Places(Model(), at, Some(running)) && i < |joinQueue|
      modifies this`ready, this`joinQueue, this`at
      ensures |ready| == 3 && Places(Model(), at, Some(running)) && joinQueue == Without(old(joinQueue), i)
      ensures var e := old(joinQueue)[i];
        && e.tid in old(at) && at == old(at)[e.tid := Ready(IndexOf(threads[e.tid]))]
        && (var q := IndexOf(threads[e.tid]); ready == old(ready)[q := old(ready)[q] + [e.tid]])
        && forall x :: x in joinQueue <==> x in old(joinQueue) && x != e
    {
      hide Places;
      ghost var s := Model();
      var e := joinQueue[i];
      EntryGone(s, at, Some(running), i);
      AddToReady(e.tid);
      joinQueue := Without(joinQueue, i);
      ghost var q := IndexOf(threads[e.tid]);
      Move(s, at, Some(running), Joining, i, Ready(q), Model(), Some(running));
      at := at[e.tid := Ready(q)];
    }

    // moveFromJoinToReady: the joiners go to the ends of their ready queues, in the order of join_queue.
    method MoveFromJoinToReady(tid: Tid)
      requires Inv(Some(running)) && tid == running
      modifies this`ready, this`joinQueue, this`at
      ensures at.Keys == threads.Keys && Places(Model(), at, Some(running))
      ensures ready == WithJoiners(old(ready), old(joinQueue), tid, threads)
      ensures joinQueue == Others(old(joinQueue), tid)
      ensures forall e :: e in joinQueue <==> e in old(joinQueue) && e.waitingFor != tid
      ensures forall t :: t in at ==>
        at[t] == if JoinEntry(t, tid) in old(joinQueue) then Ready(IndexOf(threads[t])) else old(at)[t]
    {
      hide Places, JoinsOk, ResultsOk, Joiners, JoinersIn, Others, WithJoiners;
      ghost var joins, at0, n := joinQueue, at, 0;
      var i := 0;
      JoinersBegin(joins, at, threads, tid);
      NoJoiners(ready, tid, threads);
      while i < |joinQueue|
        invariant i <= |joinQueue| && n <= |joins| && |ready| == 3
        invariant at.Keys == threads.Keys == at0.Keys && Places(Model(), at, Some(running))
        invariant joinQueue[i..] == joins[n..] && joinQueue[..i] == Others(joins[..n], tid)
        invariant ready == WithJoiners(old(ready), joins[..n], tid, threads)
        invariant Joiners(joins, joinQueue, at0, at, threads, tid)
        invariant forall j :: 0 <= j < i ==> joinQueue[j].waitingFor != tid
        decreases |joinQueue| - i
      {
        ghost var e, q, x := joinQueue[i], joinQueue, at;
        assert e == q[i..][0] && joins[n] == joins[n..][0];
        assert q[i + 1..] == q[i..][1..] && joins[n + 1..] == joins[n..][1..];
        OneMore(old(ready), joins, n, tid, threads, ready);
        if joinQueue[i].waitingFor == tid {
          ReadyJoiner(i);
          JoinersNext(joins, q, at0, x, threads, tid, e, joinQueue, at);
          assert joinQueue[..i] == q[..i] && joinQueue[i..] == q[i + 1..];
        } else {
          assert q[..i + 1] == q[..i] + [q[i]];
          i := i + 1;
        }
        n := n + 1;
      }
      JoinersEnd(joins, joinQueue, at0, at, threads, tid);
      assert joinQueue[..i] == joinQueue && joins[..n] == joins;
    }

    // The joiner of the running thread, if any, is ready, and the thread's result is kept.
    method Finish(result: int)
      requires Valid()
      modifies this`ready, this`joinQueue, this`finishedQueue, this`exited, this`at
      ensures Inv(None) && finishedQueue == old(finishedQueue) + [FinishedEntry(running, result)]
      ensures ready == WithJoiners(old(ready), old(joinQueue), running, threads) && joinQueue == Others(old(joinQueue), running)
      ensures exited == old(exited)[running := result]
      ensures running in old(at) && Exited(old(at), old(joinQueue), threads, running, at)
    {
      hide Places, JoinsOk, ResultsOk, JoinersIn, Others;
      ghost var joins, at0 := joinQueue, at;
      Found(Model(), at, Some(running), Running, running);
      SelfNotJoined(joins, at, context, running);
      MoveFromJoinToReady(running);
      JoinsEnd(joins, at0, context, running, joinQueue, at);
      KeepResult(result);
    }

    // The running thread goes to finished_queue.
    method KeepResult(result: int)
      requires |ready| == 3 && at.Keys == threads.Keys && |threads| <= MAX_THREAD_NUM
      requires forall t :: t in at && at[t].Ready? ==> at[t].q == IndexOf(threads[t])
      requires Places(Model(), at, Some(running)) && JoinsOk(joinQueue, at[running := Finished], context)
      requires ResultsOk(finishedQueue, exited)
      modifies this`finishedQueue, this`exited, this`at
      ensures exited == old(exited)[running := result]
      ensures Inv(None) && finishedQueue == old(finishedQueue) + [FinishedEntry(running, result)]
      ensures at == old(at)[running := Finished]
    {
      hide Places, JoinsOk, ResultsOk;
      ghost var s := Model();
      Found(s, at, Some(running), Running, running);
      ResultsMore(s, at, Some(running), exited, running, result);
      finishedQueue := finishedQueue + [FinishedEntry(running, result)];
      exited := exited[running := result];
      assert FinishedTids(finishedQueue) == FinishedTids(s.finished) + [running];
      Move(s, at, Some(running), Running, 0, Finished, Model(), None);
      at := at[running := Finished];
    }

    // uthread_exit of any thread but main, whose exit ends the program.
    method Exit(result: int) returns (ok: bool)
      requires Valid() && running != MAIN_THREAD
      modifies this
      ensures ok <==> exists t :: t in old(at) && (old(at)[t].Ready? || JoinEntry(t, old(running)) in old(joinQueue))
      ensures ok ==> Valid() && AfterExit(old(at), old(joinQueue), old(threads), old(running), at, running)
      ensures ok ==> Served(WithJoiners(old(ready), old(joinQueue), old(running), old(threads)), running, ready)
      ensures ok ==> joinQueue == Others(old(joinQueue), old(running)) && SamePriorities(old(threads), threads)
      ensures exited == old(exited)[old(running) := result]
      ensures ok ==> retvals == Delivered(old(retvals), exited, running, ContextOf(old(context), running))
    {
      hide Places, JoinsOk, ResultsOk, Served, AfterExit, Exited;
      ghost var at0, joins, threads0, e := at, joinQueue, threads, running;
      Finish(result);
      SomeReady(Model(), at);
      ghost var at1, context1 := at, context;
      ok := SwitchThreads();
      ExitSomebody(at0, joins, threads0, e, at1);
      if ok { ExitPlaces(at0, joins, threads0, e, at1, running, ContextOf(context1, running)); }
    }

    // uthread_suspend.
    method Suspend(tid: Tid) returns (ok: bool, done: bool)
      requires Valid()
      modifies this
      ensures SamePriorities(old(threads), threads)
      ensures tid == MAIN_THREAD || tid !in old(at) || (tid != old(running) && !old(at)[tid].Ready?) ==>
        ok && !done && Valid() && at == old(at) && running == old(running) && ready == old(ready)
      ensures tid != MAIN_THREAD && tid in old(at) && old(at)[tid].Ready? ==>
        && ok && done && Valid() && at == old(at)[tid := Blocked] && running == old(running)
        && Removed(old(ready), IndexOf(old(threads)[tid]), tid, ready)
      ensures tid != MAIN_THREAD && tid == old(running) ==>
        && (ok <==> Highest(old(ready)).Some?)
        && (ok ==> done && Valid() && Served(old(ready), running, ready))
        && (ok ==> at == Resumed(old(at)[tid := Blocked], running, ContextOf(old(context), running)))
    {
      hide Places, JoinsOk, ResultsOk;
      ghost var s := Model();
      Found(s, at, Some(running), Running, running);
      if tid == MAIN_THREAD || tid !in threads { return true, false; }
      if tid == running {
        blocked := blocked + [running];
        Move(s, at, Some(running), Running, 0, Blocked, Model(), None);
        JoinsMoved(joinQueue, at, context, running, Blocked);
        at := at[running := Blocked];
        ok := SwitchThreads();
        return ok, true;
      }
      ghost var k;
      ghost var q := IndexOf(threads[tid]);
      Found(s, at, Some(running), Ready(q), tid);
      done, k := RemoveFromReady(tid);
      if done {
        blocked := blocked + [tid];
        Move(s, at, Some(running), Ready(q), k, Blocked, Model(), Some(running));
        JoinsStay(joinQueue, at, context, tid, Blocked);
        at := at[tid := Blocked];
      }
      return true, done;
    }

    // uthread_resume.
    method Resume(tid: Tid) returns (done: bool)
      requires Valid()
      modifies this`ready, this`blocked, this`at
      ensures Valid() && (done <==> tid in old(at) && old(at)[tid] == Blocked)
      ensures at == if done then old(at)[tid := Ready(IndexOf(threads[tid]))] else old(at)
      ensures ready == if done then Queued(old(ready), IndexOf(threads[tid]), tid) else old(ready)
    {
      hide Places, JoinsOk, ResultsOk;
      ghost var s := Model();
      Found(s, at, Some(running), Blocked, tid);
      if tid !in threads || tid !in blocked { return false; }
      AddToReady(tid);
      ghost var q := IndexOf(threads[tid]);
      ghost var k := RemoveFromBlock(tid);
      Move(s, at, Some(running), Blocked, k, Ready(q), Model(), Some(running));
      JoinsStay(joinQueue, at, context, tid, Ready(q));
      at := at[tid := Ready(q)];
      return true;
    }

    // uthread_increase_priority and uthread_decrease_priority: a ready thread changes its queue.
    method ChangePriority(tid: Tid, up: bool) returns (done: bool)
      requires Valid()
      modifies this`ready, this`threads, this`at
      ensures Valid() && (done <==> tid in old(threads))
      ensures done ==>
        var q := IndexOf(old(threads)[tid]);
        var q' := if up then (if q > 0 then q - 1 else 0) else if q < 2 then q + 1 else 2;
        && tid in threads && threads == old(threads)[tid := threads[tid]] && IndexOf(threads[tid]) == q'
        && at == (if old(at)[tid].Ready? then old(at)[tid := Ready(q')] else old(at))
        && if old(at)[tid].Ready? then Requeued(old(ready), q, q', tid, ready) else ready == old(ready)
      ensures !done ==> threads == old(threads) && at == old(at) && ready == old(ready)
    {
      hide Places, JoinsOk, ResultsOk, Requeued;
      if tid !in threads { return false; }
      Found(Model(), at, Some(running), Ready(IndexOf(threads[tid])), tid);
      if tid in ready[IndexOf(threads[tid])] {
        Requeue(tid, if up then Raised(threads[tid]) else Lowered(threads[tid]));
      } else {
        threads := threads[tid := if up then Raised(threads[tid]) else Lowered(threads[tid])];
      }
      return true;
    }

    // Out of the ready queue and, with the new priority, to the end of the right one.
    method Requeue(tid: Tid, pr: Priority)
      requires Valid() && tid in at && at[tid].Ready? && tid in ready[IndexOf(threads[tid])]
      modifies this`ready, this`threads, this`at
      ensures Valid() && threads == old(threads)[tid := pr] && at == old(at)[tid := Ready(IndexOf(pr))]
      ensures Requeued(old(ready), IndexOf(old(threads)[tid]), IndexOf(pr), tid, ready)
    {
      hide Places, JoinsOk, ResultsOk;
      ghost var s, q := Model(), IndexOf(threads[tid]);
      ghost var k;
      var found;
      found, k := RemoveFromReady(tid);
      ghost var s1 := Model();
      assert Removed(s.ready, q, tid, s1.ready);
      threads := threads[tid := pr];
      AddToReady(tid);
      Requeuing(s, at, running, q, k, s1, Model(), IndexOf(pr));
      JoinsStay(joinQueue, at, context, tid, Ready(IndexOf(pr)));
      at := at[tid := Ready(IndexOf(pr))];
    }

    // The running thread blocks in lock, wait or signal.
    method Park() returns (ok: bool)
      requires Valid()
      modifies this
      ensures ok <==> Highest(old(ready)).Some?
      ensures ok ==> Valid() && Served(old(ready), running, ready) && SamePriorities(old(threads), threads)
      ensures ok ==> at == Resumed(old(at)[old(running) := Parked], running, ContextOf(old(context), running))
    {
      hide Places, JoinsOk, ResultsOk;
      ghost var s := Model();
      Found(s, at, Some(running), Running, running);
      parked := parked + [running];
      Move(s, at, Some(running), Running, 0, Parked, Model(), None);
      JoinsMoved(joinQueue, at, context, running, Parked);
      at := at[running := Parked];
      ok := SwitchThreads();
    }

    // A lock makes a thread of its queue ready.
    method Unpark(ghost k: nat, tid: Tid)
      requires Valid() && k < |parked| && tid == parked[k]
      modifies this`ready, this`parked, this`at
      ensures Valid() && tid in threads && at == old(at)[tid := Ready(IndexOf(threads[tid]))]
      ensures ready == Queued(old(ready), IndexOf(threads[tid]), tid)
    {
      hide Places, JoinsOk, ResultsOk;
      ghost var s := Model();
      Found(s, at, Some(running), Parked, tid);
      AddToReady(tid);
      parked := Without(parked, k);
      ghost var q := IndexOf(threads[tid]);
      Move(s, at, Some(running), Parked, k, Ready(q), Model(), Some(running));
      ParkedJoinsNobody(joinQueue, at, context, tid);
      JoinsMoved(joinQueue, at, context, tid, Ready(q));
      at := at[tid := Ready(q)];
    }
  }

  // The least index of a non-empty queue, 2 if all are empty.
  function HighestQueue(ready: seq<seq<Tid>>): (h: nat)
    requires |ready| == 3
    ensures h < 3 && (forall q :: 0 <= q < h ==> ready[q] == [])
    ensures ready[h] == [] ==> forall q :: 0 <= q < 3 ==> ready[q] == []
  {
    if ready[0] != [] then 0 else if ready[1] != [] then 1 else 2
  }

  function Highest(ready: seq<seq<Tid>>): Option<Tid>
    requires |ready| == 3
  {
    var q := ready[HighestQueue(ready)];
    if q == [] then None else Some(q[0])
  }

  // Thread t is taken off the front of the first non-empty queue of r.
  predicate Served(r: seq<seq<Tid>>, t: Tid, r': seq<seq<Tid>>) {
    |r| == 3 && var h := HighestQueue(r); r[h] != [] && t == r[h][0] && r' == r[h := r[h][1..]]
  }

  // Threads may be gone, but none has another priority.
  predicate SamePriorities(threads: map<Tid, Priority>, threads': map<Tid, Priority>) {
    forall t :: t in threads' ==> t in threads && threads'[t] == threads[t]
  }

  // Thread t joins the end of queue q.
  function Queued(r: seq<seq<Tid>>, q: nat, t: Tid): seq<seq<Tid>>
    requires q < |r|
  {
    r[q := r[q] + [t]]
  }

  // Thread t is taken out of queue q; the others stay in order.
  predicate Removed(r: seq<seq<Tid>>, q: nat, t: Tid, r': seq<seq<Tid>>) {
    q < |r| && exists k :: 0 <= k < |r[q]| && r[q][k] == t && r' == r[q := Without(r[q], k)]
  }

  // Thread t goes from queue q to the end of queue q'.
  ghost predicate Requeued(r: seq<seq<Tid>>, q: nat, q': nat, t: Tid, r': seq<seq<Tid>>) {
    exists r1 :: Removed(r, q, t, r1) && q' < |r1| && r' == Queued(r1, q', t)
  }

  // The threads of queue p that join w, in the order of join_queue.
  function JoinersIn(joins: seq<JoinEntry>, w: Tid, threads: map<Tid, Priority>, p: nat): seq<Tid> {
    if joins == [] then []
    else
      var e := joins[|joins| - 1];
      JoinersIn(joins[..|joins| - 1], w, threads, p) +
      if e.waitingFor == w && IndexOf(PriorityOf(threads, e.tid)) == p then [e.tid] else []
  }

  function WithJoiners(ready: seq<seq<Tid>>, joins: seq<JoinEntry>, w: Tid, threads: map<Tid, Priority>): seq<seq<Tid>>
    requires |ready| == 3
  {
    [ready[0] + JoinersIn(joins, w, threads, 0), ready[1] + JoinersIn(joins, w, threads, 1), ready[2] + JoinersIn(joins, w, threads, 2)]
  }

  // The entries that do not wait for w, in order.
  function Others(joins: seq<JoinEntry>, w: Tid): seq<JoinEntry> {
    if joins == [] then []
    else
      var e := joins[|joins| - 1];
      Others(joins[..|joins| - 1], w) + if e.waitingFor == w then [] else [e]
  }

  lemma NoJoiners(ready: seq<seq<Tid>>, w: Tid, threads: map<Tid, Priority>)
    requires |ready| == 3
    ensures WithJoiners(ready, [], w, threads) == ready && Others([], w) == []
  {
    forall p | 0 <= p < 3 ensures ready[p] + JoinersIn([], w, threads, p) == ready[p] {}
  }

  lemma OneMoreIn(ready: seq<Tid>, joins: seq<JoinEntry>, n: nat, w: Tid, threads: map<Tid, Priority>, p: nat)
    requires n < |joins|
    ensures var e := joins[n];
      ready + JoinersIn(joins[..n + 1], w, threads, p) ==
        ready + JoinersIn(joins[..n], w, threads, p) + if e.waitingFor == w && IndexOf(PriorityOf(threads, e.tid)) == p then [e.tid] else []
  {
    assert joins[..n + 1][..n] == joins[..n];
  }

  lemma OneMore(ready: seq<seq<Tid>>, joins: seq<JoinEntry>, n: nat, w: Tid, threads: map<Tid, Priority>, r: seq<seq<Tid>>)
    requires |ready| == 3 && n < |joins| && r == WithJoiners(ready, joins[..n], w, threads)
    ensures var e, q := joins[n], IndexOf(PriorityOf(threads, joins[n].tid));
      && Others(joins[..n + 1], w) == Others(joins[..n], w) + (if e.waitingFor == w then [] else [e])
      && WithJoiners(ready, joins[..n + 1], w, threads) == if e.waitingFor == w then r[q := r[q] + [e.tid]] else r
  {
    hide JoinersIn;
    assert joins[..n + 1][..n] == joins[..n];
    OneMoreIn(ready[0], joins, n, w, threads, 0);
    OneMoreIn(ready[1], joins, n, w, threads, 1);
    OneMoreIn(ready[2], joins, n, w, threads, 2);
    var e, r2 := joins[n], WithJoiners(ready, joins[..n + 1], w, threads);
    var q := IndexOf(PriorityOf(threads, e.tid));
    forall p | 0 <= p < 3 ensures r2[p] == if e.waitingFor == w && q == p then r[p] + [e.tid] else r[p] {
      assert r[p] + [] == r[p];
    }
  }

  // Where the threads are when t goes on; the thread it joined is deleted.
  function Resumed(at: map<Tid, Place>, t: Tid, k: Kont): map<Tid, Place> {
    match k
    case Client => at[t := Running]
    case InJoin(w) => at[t := Running] - {w}
  }

  lemma Shrinks(m: map<Tid, Priority>, t: Tid)
    ensures |m - {t}| <= |m|
  {
    assert (m - {t}).Keys == m.Keys - {t};
  }

  lemma WithoutTids(q: seq<FinishedEntry>, k: nat)
    requires k < |q|
    ensures FinishedTids(Without(q, k)) == Without(FinishedTids(q), k)
  {
  }

  // A ready thread goes on: the thread it joined, if any, has finished, and nobody else needs that one.
  lemma JoinsRun(joins: seq<JoinEntry>, at: map<Tid, Place>, context: map<Tid, Kont>, t: Tid)
    requires JoinsOk(joins, at, context) && t in at && at[t].Ready?
    ensures var k, at' := ContextOf(context, t), Resumed(at, t, ContextOf(context, t));
      && (k.InJoin? ==> k.tid != t && k.tid in at && at[k.tid] == Finished)
      && JoinsOk(joins, at', context[t := Client])
  {
  }

  lemma JoinsNew(joins: seq<JoinEntry>, at: map<Tid, Place>, context: map<Tid, Kont>, t: Tid)
    requires JoinsOk(joins, at, context) && t !in at
    ensures JoinsOk(joins, at[t := Ready(1)], context)
  {
  }

  // A thread that is in no join moves.
  lemma JoinsMoved(joins: seq<JoinEntry>, at: map<Tid, Place>, context: map<Tid, Kont>, t: Tid, p: Place)
    requires JoinsOk(joins, at, context) && t in at && ContextOf(context, t) == Client && at[t] != Finished
    ensures JoinsOk(joins, at[t := p], context)
  {
  }

  lemma JoinsReaped(joins: seq<JoinEntry>, at: map<Tid, Place>, context: map<Tid, Kont>, w: Tid)
    requires JoinsOk(joins, at, context) && forall t :: t in at ==> ContextOf(context, t) != InJoin(w)
    requires w in at && at[w] == Finished
    ensures JoinsOk(joins, at - {w}, context)
  {
  }

  lemma JoinsBegin(joins: seq<JoinEntry>, at: map<Tid, Place>, context: map<Tid, Kont>, t: Tid, w: Tid)
    requires JoinsOk(joins, at, context) && forall x :: x in at ==> ContextOf(context, x) != InJoin(w)
    requires t in at && at[t] == Running && ContextOf(context, t) == Client
    ensures JoinsOk(joins + [JoinEntry(t, w)], at[t := Joining], context[t := InJoin(w)])
  {
    assert (joins + [JoinEntry(t, w)])[|joins|] == JoinEntry(t, w);
  }

  lemma FinishedHere(q: seq<FinishedEntry>, t: Tid)
    requires exists i :: 0 <= i < |q| && q[i].tid == t
    ensures t in FinishedTids(q)
  {
    var i :| 0 <= i < |q| && q[i].tid == t;
    assert FinishedTids(q)[i] == t;
  }

  lemma NotFinishedHere(q: seq<FinishedEntry>, t: Tid)
    requires !exists i :: 0 <= i < |q| && q[i].tid == t
    ensures t !in FinishedTids(q)
  {
  }

  // The exiting thread e has finished, its joiners are ready, and then thread t goes on.
  ghost predicate AfterExit(at: map<Tid, Place>, joins: seq<JoinEntry>, threads: map<Tid, Priority>, e: Tid,
                            at': map<Tid, Place>, t: Tid) {
    && at'.Keys <= at.Keys
    && (forall x :: x in at' ==>
          at'[x] == if x == t then Running else if x == e then Finished
                    else if JoinEntry(x, e) in joins then Ready(IndexOf(PriorityOf(threads, x))) else at[x])
    && (forall x :: x in at && x !in at' ==> x == e || at[x] == Finished)
  }

  // Where the threads are when e has finished and before the next one goes on.
  ghost predicate Exited(at: map<Tid, Place>, joins: seq<JoinEntry>, threads: map<Tid, Priority>, e: Tid, at1: map<Tid, Place>) {
    && at1.Keys == at.Keys && e in at && at1[e] == Finished && at[e] == Running
    && (forall t :: t in at1 && t != e ==>
          at1[t] == if JoinEntry(t, e) in joins then Ready(IndexOf(PriorityOf(threads, t))) else at[t])
    && JoinEntry(e, e) !in joins
  }

  lemma ExitPlaces(at: map<Tid, Place>, joins: seq<JoinEntry>, threads: map<Tid, Priority>, e: Tid, at1: map<Tid, Place>, t: Tid, k: Kont)
    requires Exited(at, joins, threads, e, at1) && t in at1 && at1[t].Ready?
    requires t in Resumed(at1, t, k) && forall x :: x in at1 && x !in Resumed(at1, t, k) ==> at1[x] == Finished
    ensures AfterExit(at, joins, threads, e, Resumed(at1, t, k), t)
  {
  }

  lemma ExitSomebody(at: map<Tid, Place>, joins: seq<JoinEntry>, threads: map<Tid, Priority>, e: Tid, at1: map<Tid, Place>)
    requires Exited(at, joins, threads, e, at1)
    ensures (exists t :: t in at1 && at1[t].Ready?) <==> exists t :: t in at && (at[t].Ready? || JoinEntry(t, e) in joins)
  {
    if t :| t in at1 && at1[t].Ready? { assert at[t].Ready? || JoinEntry(t, e) in joins; }
    if t :| t in at && (at[t].Ready? || JoinEntry(t, e) in joins) { assert at1[t].Ready?; }
  }

  lemma SelfNotJoined(joins: seq<JoinEntry>, at: map<Tid, Place>, context: map<Tid, Kont>, t: Tid)
    requires JoinsOk(joins, at, context) && t in at && at[t] == Running
    ensures JoinEntry(t, t) !in joins
  {
  }

  lemma SomeReady(s: Lists, at: map<Tid, Place>)
    requires |s.ready| == 3 && Places(s, at, None)
    ensures Highest(s.ready).Some? <==> exists t :: t in at && at[t].Ready?
  {
    hide Places;
    if Highest(s.ready).Some? {
      var q := HighestQueue(s.ready);
      Found(s, at, None, Ready(q), s.ready[q][0]);
      assert s.ready[q][0] in QueueAt(s, None, Ready(q));
    }
    if t :| t in at && at[t].Ready? { Found(s, at, None, at[t], t); }
  }

  // The entries of joins that wait for w and are not in q any more are ready; all others are where they were.
  ghost predicate Joiners(joins: seq<JoinEntry>, q: seq<JoinEntry>, at0: map<Tid, Place>, at: map<Tid, Place>,
                          threads: map<Tid, Priority>, w: Tid)
    requires at.Keys == at0.Keys == threads.Keys
  {
    && (forall e :: e in q ==> e in joins) && (forall e :: e in joins && e.waitingFor != w ==> e in q)
    && (forall t :: t in at ==>
          at[t] == if JoinEntry(t, w) in joins && JoinEntry(t, w) !in q then Ready(IndexOf(threads[t])) else at0[t])
  }

  lemma JoinersBegin(joins: seq<JoinEntry>, at: map<Tid, Place>, threads: map<Tid, Priority>, w: Tid)
    requires at.Keys == threads.Keys
    ensures Joiners(joins, joins, at, at, threads, w)
  {
  }

  lemma JoinersNext(joins: seq<JoinEntry>, q: seq<JoinEntry>, at0: map<Tid, Place>, at: map<Tid, Place>,
                    threads: map<Tid, Priority>, w: Tid, e: JoinEntry, q': seq<JoinEntry>, at': map<Tid, Place>)
    requires at.Keys == at0.Keys == threads.Keys && Joiners(joins, q, at0, at, threads, w)
    requires e in q && e.waitingFor == w && e.tid in at && at' == at[e.tid := Ready(IndexOf(threads[e.tid]))]
    requires forall x :: x in q' <==> x in q && x != e
    ensures at'.Keys == at0.Keys && Joiners(joins, q', at0, at', threads, w)
  {
    assert e == JoinEntry(e.tid, w);
  }

  lemma JoinersEnd(joins: seq<JoinEntry>, q: seq<JoinEntry>, at0: map<Tid, Place>, at: map<Tid, Place>,
                   threads: map<Tid, Priority>, w: Tid)
    requires at.Keys == at0.Keys == threads.Keys && Joiners(joins, q, at0, at, threads, w)
    requires forall j :: 0 <= j < |q| ==> q[j].waitingFor != w
    ensures forall e :: e in q <==> e in joins && e.waitingFor != w
    ensures forall t :: t in at ==> at[t] == if JoinEntry(t, w) in joins then Ready(IndexOf(threads[t])) else at0[t]
  {
  }

  lemma ResultsFewer(q: seq<FinishedEntry>, exited: map<Tid, int>, k: nat)
    requires ResultsOk(q, exited) && k < |q|
    ensures ResultsOk(Without(q, k), exited) && q[k].tid in exited && exited[q[k].tid] == q[k].result
  {
    var r := Without(q, k);
    forall e | e in r ensures e in q {
      var i :| 0 <= i < |r| && r[i] == e;
      assert q[if i < k then i else i + 1] == e;
    }
    assert q[k] in q;
  }

  lemma ResultsMore(s: Lists, at: map<Tid, Place>, run: Option<Tid>, exited: map<Tid, int>, t: Tid, result: int)
    requires Places(s, at, run) && ResultsOk(s.finished, exited) && (t in at ==> at[t] != Finished)
    ensures ResultsOk(s.finished + [FinishedEntry(t, result)], exited[t := result])
  {
    hide Places;
    Found(s, at, run, Finished, t);
    forall e | e in s.finished ensures e.tid != t {
      var i :| 0 <= i < |s.finished| && s.finished[i] == e;
      assert FinishedTids(s.finished)[i] == e.tid;
    }
  }

  lemma EntriesDiffer(s: Lists, at: map<Tid, Place>, run: Option<Tid>, a: nat, b: nat)
    requires Places(s, at, run) && a < |s.joins| && b < |s.joins|
    ensures s.joins[a].tid in at && (a != b ==> s.joins[a] != s.joins[b])
  {
    var q := QueueAt(s, run, Joining);
    assert Listed(q, at, Joining) && q[a] == s.joins[a].tid && q[b] == s.joins[b].tid;
  }

  // Taking entry i out of join_queue.
  lemma EntryGone(s: Lists, at: map<Tid, Place>, run: Option<Tid>, i: nat)
    requires Places(s, at, run) && i < |s.joins|
    ensures JoinTids(Without(s.joins, i)) == Without(JoinTids(s.joins), i)
    ensures s.joins[i].tid in at && s.joins[i] in s.joins
    ensures forall e :: e in Without(s.joins, i) <==> e in s.joins && e != s.joins[i]
  {
    hide Places;
    var q, r := s.joins, Without(s.joins, i);
    EntriesDiffer(s, at, run, i, i);
    forall e | e in r ensures e in q && e != q[i] {
      var a :| 0 <= a < |r| && r[a] == e;
      var b := if a < i then a else a + 1;
      EntriesDiffer(s, at, run, b, i);
      assert q[b] == e;
    }
    forall e | e in q && e != q[i] ensures e in r {
      var a :| 0 <= a < |q| && q[a] == e;
      assert r[if a < i then a else a - 1] == e;
    }
  }

  lemma JoinsEnd(joins: seq<JoinEntry>, at: map<Tid, Place>, context: map<Tid, Kont>, w: Tid,
                 joins': seq<JoinEntry>, at': map<Tid, Place>)
    requires JoinsOk(joins, at, context) && w in at && at[w] == Running && ContextOf(context, w) == Client && at'.Keys == at.Keys
    requires forall e :: e in joins' <==> e in joins && e.waitingFor != w
    requires forall t :: t in at' && JoinEntry(t, w) !in joins ==> at'[t] == at[t]
    requires forall t :: t in at' && JoinEntry(t, w) in joins ==> at'[t].Ready?
    ensures JoinsOk(joins', at'[w := Finished], context)
  {
  }

  // A thread goes between ready and blocked, or to another ready queue.
  lemma JoinsStay(joins: seq<JoinEntry>, at: map<Tid, Place>, context: map<Tid, Kont>, t: Tid, p: Place)
    requires JoinsOk(joins, at, context) && t in at && (at[t].Ready? || at[t] == Blocked) && (p.Ready? || p == Blocked)
    ensures JoinsOk(joins, at[t := p], context)
  {
  }

  lemma ParkedJoinsNobody(joins: seq<JoinEntry>, at: map<Tid, Place>, context: map<Tid, Kont>, t: Tid)
    requires JoinsOk(joins, at, context) && t in at && at[t] == Parked
    ensures ContextOf(context, t) == Client
  {
  }

  // Out of ready queue q and to the end of ready queue q', which may be the same one.
  lemma Requeuing(s: Lists, at: map<Tid, Place>, run: Tid, q: nat, k: nat, s1: Lists, s2: Lists, q': nat)
    requires Places(s, at, Some(run)) && |s.ready| == 3 && q < 3 && q' < 3 && k < |s.ready[q]|
    requires s1 == s.(ready := s.ready[q := Without(s.ready[q], k)])
    requires s2 == s1.(ready := s1.ready[q' := s1.ready[q'] + [s.ready[q][k]]])
    ensures Places(s2, at[s.ready[q][k] := Ready(q')], Some(run))
  {
    hide Places;
    var t := s.ready[q][k];
    if q != q' {
      Move(s, at, Some(run), Ready(q), k, Ready(q'), s2, Some(run));
    } else {
      var s3 := s1.(parked := s1.parked + [t]);
      Move(s, at, Some(run), Ready(q), k, Parked, s3, Some(run));
      Without1(s1.parked, t);
      Move(s3, at[t := Parked], Some(run), Parked, |s1.parked|, Ready(q), s2, Some(run));
      assert at[t := Parked][t := Ready(q)] == at[t := Ready(q)];
    }
  }

  lemma Without1(q: seq<Tid>, t: Tid)
    ensures Without(q + [t], |q|) == q
  {
  }
}
