// Threads in queues: a thread is in exactly one place, and each queue lists one place.

module Queues {
  import opened Common

  type Tid = nat

  // q is, without repetition, the threads at p.
  ghost predicate Listed<P>(q: seq<Tid>, at: map<Tid, P>, p: P) {
    && (forall i, j :: 0 <= i < j < |q| ==> q[i] != q[j])
    && (forall i :: 0 <= i < |q| ==> q[i] in at && at[q[i]] == p)
    && (forall t :: t in at && at[t] == p ==> t in q)
  }

  lemma Appended<P>(q: seq<Tid>, at: map<Tid, P>, p: P, t: Tid)
    requires Listed(q, at, p) && (t in at ==> at[t] != p)
    ensures Listed(q + [t], at[t := p], p)
  {
    var r := q + [t];
    forall x | x in at[t := p] && at[t := p][x] == p ensures x in r {
      if x != t { assert x in q; } else { assert r[|q|] == t; }
    }
  }

  lemma Dropped<P>(q: seq<Tid>, at: map<Tid, P>, p: P, k: nat, p': P)
    requires Listed(q, at, p) && k < |q| && p' != p
    ensures q[k] in at && at[q[k]] == p
    ensures Listed(Without(q, k), at[q[k] := p'], p)
  {
    var r := Without(q, k);
    forall t | t in at[q[k] := p'] && at[q[k] := p'][t] == p ensures t in r {
      var i :| 0 <= i < |q| && q[i] == t;
      assert r[if i < k then i else i - 1] == t;
    }
  }

  lemma Bystander<P>(q: seq<Tid>, at: map<Tid, P>, p: P, t: Tid, p': P)
    requires Listed(q, at, p) && p' != p && (t in at ==> at[t] != p)
    ensures Listed(q, at[t := p'], p)
  {
  }

  // The thread is gone altogether.
  lemma Erased<P>(q: seq<Tid>, at: map<Tid, P>, p: P, k: nat)
    requires Listed(q, at, p) && k < |q|
    ensures Listed(Without(q, k), at - {q[k]}, p)
  {
    var r := Without(q, k);
    forall t | t in at - {q[k]} && (at - {q[k]})[t] == p ensures t in r {
      var i :| 0 <= i < |q| && q[i] == t;
      assert r[if i < k then i else i - 1] == t;
    }
  }

  lemma Front<T>(q: seq<T>)
    requires q != []
    ensures Without(q, 0) == q[1..]
  {
  }
}
