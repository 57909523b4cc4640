/** The table of futex wait queues: enqueue, wake in order, removal of one waiter, and
    requeueing from one key to another. */
module FutexManager {
  import opened Wrappers

  datatype Key = Shared(paddr: nat) | Private(mm: nat, vaddr: nat)

  datatype Waiter = Waiter(tid: nat, mask: nat)

  type Table = map<Key, seq<Waiter>>

  datatype Error = EINVAL

  /** The waiters of a key; a key without an entry has none. */
  function Queue(t: Table, k: Key): seq<Waiter> {
    if k in t then t[k] else []
  }

  function Min(a: nat, b: nat): nat { if a <= b then a else b }

  /** The first waiter of a task. */
  function IndexOf(queue: seq<Waiter>, tid: nat): (i: nat)
    ensures i <= |queue|
    ensures i < |queue| ==> queue[i].tid == tid
    ensures forall j | 0 <= j < i :: queue[j].tid != tid
  {
    if queue == [] || queue[0].tid == tid then 0 else 1 + IndexOf(queue[1..], tid)
  }

  /** The table after moving the first n waiters of one key behind those of another, step by
      step as the source does it: the old entry is taken out, the new one is written, and
      the rest is put back under the old key. */
  function Requeue(t: Table, from: Key, to: Key, n: nat): Table
    requires from in t
  {
    var waiters := t[from];
    var k := Min(n, |waiters|);
    var t1 := t - {from};
    var t2 := t1[to := Queue(t1, to) + waiters[..k]];
    if k < |waiters| then t2[from := waiters[k..]] else t2
  }

  /** The waiters of two keys together, with multiplicity. */
  function Both(t: Table, a: Key, b: Key): multiset<Waiter> {
    if a == b then multiset(Queue(t, a)) else multiset(Queue(t, a)) + multiset(Queue(t, b))
  }

  /** Between different keys, requeueing moves the n oldest waiters in order and touches no
      other queue. */
  lemma RequeueMoves(t: Table, from: Key, to: Key, n: nat)
    requires from in t && from != to
    ensures var t', k := Requeue(t, from, to, n), Min(n, |t[from]|);
            && Queue(t', from) == Queue(t, from)[k..]
            && Queue(t', to) == Queue(t, to) + Queue(t, from)[..k]
            && forall other | other != from && other != to :: Queue(t', other) == Queue(t, other)
  {
  }

  /** Requeueing to the same key keeps every waiter exactly when it moves none or all of
      them; otherwise the second write to the entry drops those moved. */
  lemma RequeueToSameKeyIff(t: Table, key: Key, n: nat)
    requires key in t
    ensures Queue(Requeue(t, key, key, n), key) == (if n < |t[key]| then t[key][n..] else t[key])
    ensures Queue(Requeue(t, key, key, n), key) == Queue(t, key) <==> n == 0 || n >= |t[key]|
    ensures forall other | other != key :: Queue(Requeue(t, key, key, n), other) == Queue(t, other)
  {
    var t' := Requeue(t, key, key, n);
    if n >= |t[key]| {
      assert t[key][..|t[key]|] == t[key];
    } else {
      assert |Queue(t', key)| == |t[key]| - n;
    }
  }

  /** A requeue loses no waiter exactly when the keys differ or it moves none or all. */
  lemma RequeueConservesIff(t: Table, from: Key, to: Key, n: nat)
    requires from in t
    ensures Both(Requeue(t, from, to, n), from, to) == Both(t, from, to)
            <==> from != to || n == 0 || n >= |t[from]|
  {
    if from != to {
      RequeueMoves(t, from, to, n);
      var k := Min(n, |t[from]|);
      assert t[from] == t[from][..k] + t[from][k..];
    } else {
      RequeueToSameKeyIff(t, from, n);
      var q := Queue(Requeue(t, from, from, n), from);
      assert |multiset(q)| == |q| && |multiset(t[from])| == |t[from]|;
      if multiset(q) == multiset(t[from]) {
        assert |q| == |t[from]|;
      }
    }
  }

  /** One of two waiters requeued onto their own key: it is in no queue any more. */
  lemma RequeueDropsAWaiter()
    ensures var k, w, v := Shared(0), Waiter(1, 1), Waiter(2, 1);
            && Queue(Requeue(map[k := [w, v]], k, k, 1), k) == [v]
            && Both(Requeue(map[k := [w, v]], k, k, 1), k, k) != Both(map[k := [w, v]], k, k)
  {
    var k, w, v := Shared(0), Waiter(1, 1), Waiter(2, 1);
    var t := map[k := [w, v]];
    RequeueConservesIff(t, k, k, 1);
    RequeueToSameKeyIff(t, k, 1);
    assert t[k][1..] == [v];
  }

  class FutexManager {
    var futexs: Table

    constructor ()
      ensures futexs == map[]
    {
      futexs := map[];
    }

    method AddWaiter(key: Key, waiter: Waiter)
      modifies this
      ensures futexs == old(futexs)[key := Queue(old(futexs), key) + [waiter]]
    {
      if key in futexs {
        futexs := futexs[key := futexs[key] + [waiter]];
      } else {
        futexs := futexs[key := [waiter]];
        assert [] + [waiter] == [waiter];
      }
    }

    method RemoveWaiter(key: Key, tid: nat) returns (r: Option<Waiter>)
      modifies this
      ensures var q := Queue(old(futexs), key);
              var i := IndexOf(q, tid);
              if i < |q| then r == Some(q[i]) && futexs == old(futexs)[key := q[..i] + q[i + 1..]]
              else r == None && futexs == old(futexs)
    {
      if key in futexs {
        var waiters := futexs[key];
        for i := 0 to |waiters|
          invariant forall j | 0 <= j < i :: waiters[j].tid != tid
          invariant futexs == old(futexs)
        {
          if waiters[i].tid == tid {
            assert IndexOf(waiters, tid) == i;
            futexs := futexs[key := waiters[..i] + waiters[i + 1..]];
            return Some(waiters[i]);
          }
        }
      }
      return None;
    }

    /** Wakes the oldest waiters, at most n of them; `woken` is whom, in order. */
    method Wake(key: Key, n: nat) returns (r: Result<nat, Error>, woken: seq<Waiter>)
      modifies this
      ensures r.Err? <==> key !in old(futexs)
      ensures r.Err? ==> woken == [] && futexs == old(futexs)
      ensures r.Ok? ==>
                && r.value == |woken| == Min(n, |old(futexs)[key]|)
                && woken + Queue(futexs, key) == old(futexs)[key]
                && futexs == old(futexs)[key := old(futexs)[key][r.value..]]
    {
      woken := [];
      if key !in futexs {
        return Err(EINVAL), [];
      }
      var waiters := futexs[key];
      var count := Min(n, |waiters|);
      for i := 0 to count
        invariant waiters == old(futexs)[key][i..] && woken == old(futexs)[key][..i]
      {
        woken := woken + [waiters[0]];
        waiters := waiters[1..];
      }
      futexs := futexs[key := waiters];
      r := Ok(count);
    }

    method RequeueWaiters(from: Key, to: Key, n: nat) returns (r: Result<nat, Error>)
      modifies this
      ensures r.Err? <==> from !in old(futexs)
      ensures r.Err? ==> futexs == old(futexs)
      ensures r.Ok? ==> r.value == Min(n, |old(futexs)[from]|) && futexs == Requeue(old(futexs), from, to, n)
    {
      if from !in futexs {
        return Err(EINVAL);
      }
      var oldWaiters := futexs[from];
      futexs := futexs - {from};
      var count := Min(n, |oldWaiters|);
      var newWaiters := if to in futexs then futexs[to] else [];
      ghost var target := newWaiters;
      for i := 0 to count
        invariant oldWaiters == old(futexs)[from][i..]
        invariant newWaiters == target + old(futexs)[from][..i]
      {
        newWaiters := newWaiters + [oldWaiters[0]];
        oldWaiters := oldWaiters[1..];
      }
      futexs := futexs[to := newWaiters];
      if oldWaiters != [] {
        futexs := futexs[from := oldWaiters];
      }
      r := Ok(count);
    }
  }
}
