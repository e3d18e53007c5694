// Runs of uthread_yield, as the timer makes them: the threads of the highest priority take turns.

module UthreadRuns {
  import opened Common
  import opened Queues
  import opened Uthread

  datatype Turn = Turn(running: Tid, ready: seq<seq<Tid>>)

  // One call of uthread_yield by a thread whose ready queue is h, as Scheduler.Yield promises it.
  predicate Yielded(h: nat, s: Turn, s': Turn) {
    |s.ready| == 3 && h < 3 && Served(Queued(s.ready, h, s.running), s'.running, s'.ready)
  }

  predicate Slices(threads: map<Tid, Priority>, run: seq<Turn>) {
    forall i :: 0 <= i < |run| - 1 ==> Yielded(IndexOf(PriorityOf(threads, run[i].running)), run[i], run[i + 1])
  }

  // The running thread and the ready threads of queue h, in the order in which they are due.
  function Circle(s: Turn, h: nat): seq<Tid> { [s.running] + if h < |s.ready| then s.ready[h] else [] }

  // All of them have that priority, and no thread of a higher one is ready.
  predicate Top(threads: map<Tid, Priority>, s: Turn, h: nat) {
    && |s.ready| == 3 && h < 3 && (forall q :: 0 <= q < h ==> s.ready[q] == [])
    && forall t :: t in Circle(s, h) ==> IndexOf(PriorityOf(threads, t)) == h
  }

  function Rotated(c: seq<Tid>, j: nat): seq<Tid>
    requires c != []
  {
    c[j % |c|..] + c[..j % |c|]
  }

  lemma RotatedNext(c: seq<Tid>, j: nat)
    requires c != []
    ensures Rotated(c, j)[0] == c[j % |c|]
    ensures Rotated(c, j + 1) == Rotated(c, j)[1..] + [Rotated(c, j)[0]]
  {
    var k := |c|;
    if j % k + 1 < k { ModUnique(j + 1, k, j / k, j % k + 1); }
    else {
      assert (j / k + 1) * k == j / k * k + k;
      ModUnique(j + 1, k, j / k + 1, 0);
    }
  }

  lemma YieldRotates(threads: map<Tid, Priority>, s: Turn, s': Turn, h: nat)
    requires Top(threads, s, h) && Yielded(IndexOf(PriorityOf(threads, s.running)), s, s')
    ensures var c := Circle(s, h);
      && Circle(s', h) == c[1..] + [c[0]] && s'.running == (c + c)[1] && Top(threads, s', h)
      && forall q :: 0 <= q < 3 && q != h ==> s'.ready[q] == s.ready[q]
  {
    var c := Circle(s, h);
    assert c[0] in c;
    var r := Queued(s.ready, h, s.running);
    assert HighestQueue(r) == h by { assert r[h] != []; }
    assert Circle(s', h) == r[h] == c[1..] + [c[0]];
    forall t | t in Circle(s', h) ensures t in c { }
  }

  // The threads of the highest priority run in the order of their queue, over and over, and the other
  // ready queues stay as they are.
  lemma {:induction false} RoundRobin(threads: map<Tid, Priority>, run: seq<Turn>, h: nat, j: nat)
    requires j < |run| && Slices(threads, run) && Top(threads, run[0], h)
    ensures var c := Circle(run[0], h);
      && run[j].running == c[j % |c|] && Circle(run[j], h) == Rotated(c, j) && Top(threads, run[j], h)
      && forall q :: 0 <= q < 3 && q != h ==> run[j].ready[q] == run[0].ready[q]
  {
    var c := Circle(run[0], h);
    if j == 0 { ModUnique(0, |c|, 0, 0); }
    else {
      RoundRobin(threads, run, h, j - 1);
      assert Yielded(IndexOf(PriorityOf(threads, run[j - 1].running)), run[j - 1], run[j - 1 + 1]);
      YieldRotates(threads, run[j - 1], run[j], h);
      RotatedNext(c, j - 1);
      RotatedNext(c, j);
      assert Circle(run[j], h)[0] == run[j].running;
    }
  }

  // In as many consecutive time slices as there are such threads, each of them runs exactly once.
  lemma OnceEach(threads: map<Tid, Priority>, run: seq<Turn>, h: nat, i: nat, t: Tid) returns (j: nat)
    requires run != [] && Slices(threads, run) && Top(threads, run[0], h) && Distinct(Circle(run[0], h))
    requires t in Circle(run[0], h) && i + |Circle(run[0], h)| <= |run|
    ensures var k := |Circle(run[0], h)|;
      && i <= j < i + k && run[j].running == t && forall x :: i <= x < i + k && x != j ==> run[x].running != t
  {
    hide Circle, Top, Slices, Rotated;
    var c := Circle(run[0], h);
    var k := |c|;
    var a :| 0 <= a < k && c[a] == t;
    j := Next(i, k, a);
    RoundRobin(threads, run, h, j);
    forall x | i <= x < i + k && x != j ensures run[x].running != t {
      RoundRobin(threads, run, h, x);
      if x < j { ModApart(x, j, k); } else { ModApart(j, x, k); }
    }
  }

  // The first number from i on with remainder a.
  lemma Next(i: nat, k: nat, a: nat) returns (j: nat)
    requires a < k
    ensures i <= j < i + k && j % k == a
  {
    j := if a >= i % k then i - i % k + a else i - i % k + a + k;
    assert i - i % k == i / k * k;
    assert (i / k + 1) * k == i / k * k + k;
    ModUnique(j, k, if a >= i % k then i / k else i / k + 1, a);
  }
}
