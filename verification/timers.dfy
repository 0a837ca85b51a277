/**
 * The browser's `setTimeout` queue, reduced to what the page relies on: a callback
 * registered for an absolute time in milliseconds, and the rule that the queue runs
 * the callback with the earliest due time first, breaking ties by registration order.
 */
module Timers {

  /** A registered callback: its due time and the task it performs. */
  datatype Timer<K> = Timer(due: int, task: K)

  /** No timer in `ts` is due at or before time `t`. */
  predicate NoneDue<K>(ts: seq<Timer<K>>, t: int) {
    forall i :: 0 <= i < |ts| ==> ts[i].due > t
  }

  /** Some timer in `ts` carries `task`. */
  predicate Scheduled<K(==)>(ts: seq<Timer<K>>, task: K) {
    exists i :: 0 <= i < |ts| && ts[i].task == task
  }

  /** The position of the timer that fires next. */
  function Earliest<K>(ts: seq<Timer<K>>): (k: nat)
    requires |ts| > 0
    ensures k < |ts|
    ensures forall j :: 0 <= j < |ts| ==> ts[k].due <= ts[j].due
    ensures forall j :: 0 <= j < k ==> ts[j].due > ts[k].due
  {
    if |ts| == 1 then 0
    else
      var k := Earliest(ts[1..]);
      if ts[0].due <= ts[k + 1].due then 0 else k + 1
  }

  /** The queue once the timer at position `k` has been taken out to run. */
  function Without<K(==)>(ts: seq<Timer<K>>, k: nat): (r: seq<Timer<K>>)
    requires k < |ts|
    ensures |r| == |ts| - 1
    ensures multiset(r) == multiset(ts) - multiset{ts[k]}
    ensures forall x :: x in r ==> x in ts
    ensures forall x :: x in ts && x != ts[k] ==> x in r
  {
    assert ts == ts[..k] + [ts[k]] + ts[k + 1..];
    var r := ts[..k] + ts[k + 1..];
    assert multiset(ts) == multiset(r) + multiset{ts[k]} by {
      assert multiset(ts) == multiset(ts[..k]) + multiset([ts[k]]) + multiset(ts[k + 1..]);
    }
    forall x | x in r ensures x in ts {
      assert x in multiset(r);
    }
    forall x | x in ts && x != ts[k] ensures x in r {
      assert x in multiset(ts);
    }
    r
  }

  /** A task stays scheduled when a timer carrying a different task is taken out. */
  lemma ScheduledWithout<K>(ts: seq<Timer<K>>, k: nat, task: K)
    requires k < |ts| && Scheduled(ts, task) && ts[k].task != task
    ensures Scheduled(Without(ts, k), task)
  {
    var i :| 0 <= i < |ts| && ts[i].task == task;
    assert ts[i] in ts;
    var r := Without(ts, k);
    assert ts[i] in r;
    var j :| 0 <= j < |r| && r[j] == ts[i];
    assert r[j].task == task;
  }

  /** Registering another timer keeps every scheduled task scheduled. */
  lemma ScheduledAppend<K>(ts: seq<Timer<K>>, x: Timer<K>, task: K)
    requires Scheduled(ts, task) || x.task == task
    ensures Scheduled(ts + [x], task)
  {
    if x.task == task {
      assert (ts + [x])[|ts|] == x;
    } else {
      var i :| 0 <= i < |ts| && ts[i].task == task;
      assert (ts + [x])[i] == ts[i];
    }
  }

  /** The due time of the first timer in the queue (0 for an empty queue). */
  function FirstDue<K>(ts: seq<Timer<K>>): int {
    if |ts| > 0 then ts[0].due else 0
  }

  /** A queue with nothing due by `t` and everything due by `hi <= t` is empty. */
  lemma DrainedQueue<K>(ts: seq<Timer<K>>, t: int, hi: int)
    requires NoneDue(ts, t) && hi <= t
    requires forall i :: 0 <= i < |ts| ==> ts[i].due <= hi
    ensures ts == []
  {
    assert ts == [] || FirstDue(ts) > t;
    assert ts == [] || FirstDue(ts) <= hi;
  }
}
