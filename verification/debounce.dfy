/**
 * `debounce(func, wait, immediate)` as a discrete-event machine. The returned wrapper,
 * on each call, cancels the pending timer and registers a new one for `wait` ms; when
 * the timer fires it clears the pending mark and, unless `immediate`, runs `func` with
 * the arguments of the call that registered it. In `immediate` mode `func` runs at a
 * call exactly when no timer was pending.
 */
module Debounce {
  import opened Wrappers

  /**
   * A registered `later` callback: when it fires and what it closed over. `A` stands for
   * the call's `this` and its arguments together, so the trailing run receives both from
   * the last call.
   */
  datatype Pending<A> = Pending(due: int, args: A)

  /** The closure's state: its parameters, the clock, and the `timeout` variable. */
  datatype Debouncer<A> = Debouncer(wait: nat, immediate: bool, now: int, timeout: Option<Pending<A>>)

  /** A call of the wrapper, or time passing. */
  datatype Event<A> = Call(args: A) | Elapse(d: nat)

  function Create<A>(wait: nat, immediate: bool, now: int): (db: Debouncer<A>)
    ensures db.timeout.None? && db.wait == wait && db.immediate == immediate && db.now == now
  {
    Debouncer(wait, immediate, now, None)
  }

  /**
   * A call of the wrapper: it re-arms the timer for `wait` ms with these arguments and
   * returns the invocations of `func` made at once.
   */
  function Invoke<A>(db: Debouncer<A>, args: A): (r: (Debouncer<A>, seq<A>))
    ensures r.0 == db.(timeout := Some(Pending(db.now + db.wait, args)))
    ensures db.immediate && db.timeout.None? ==> r.1 == [args]
    ensures !(db.immediate && db.timeout.None?) ==> r.1 == []
  {
    var callNow := db.immediate && db.timeout.None?;
    (db.(timeout := Some(Pending(db.now + db.wait, args))), if callNow then [args] else [])
  }

  /** The pending timer is due within the next `d` ms. */
  predicate Fires<A>(db: Debouncer<A>, d: nat) {
    db.timeout.Some? && db.timeout.value.due <= db.now + d
  }

  /** `d` ms pass; the pending timer, if due, fires and returns the invocations of `func` it makes. */
  function Advance<A>(db: Debouncer<A>, d: nat): (r: (Debouncer<A>, seq<A>))
    ensures r.0.now == db.now + d && r.0.wait == db.wait && r.0.immediate == db.immediate
    ensures Fires(db, d) ==> r.0.timeout.None? && r.1 == (if db.immediate then [] else [db.timeout.value.args])
    ensures !Fires(db, d) ==> r.0.timeout == db.timeout && r.1 == []
  {
    var db' := db.(now := db.now + d);
    if Fires(db, d) then
      (db'.(timeout := None), if db.immediate then [] else [db.timeout.value.args])
    else (db', [])
  }

  function Apply<A>(db: Debouncer<A>, e: Event<A>): (Debouncer<A>, seq<A>) {
    match e
    case Call(args) => Invoke(db, args)
    case Elapse(d) => Advance(db, d)
  }

  /** A run of events: the final state and every invocation of `func`, in order. */
  function Run<A>(db: Debouncer<A>, evs: seq<Event<A>>): (r: (Debouncer<A>, seq<A>))
    ensures r.0.wait == db.wait && r.0.immediate == db.immediate
    decreases |evs|
  {
    if |evs| == 0 then (db, [])
    else
      var first := Apply(db, evs[0]);
      var rest := Run(first.0, evs[1..]);
      (rest.0, first.1 + rest.1)
  }

  lemma {:induction false} RunConcat<A>(db: Debouncer<A>, e1: seq<Event<A>>, e2: seq<Event<A>>)
    ensures var r1 := Run(db, e1);
      var r2 := Run(r1.0, e2);
      Run(db, e1 + e2) == (r2.0, r1.1 + r2.1)
    decreases |e1|
  {
    if |e1| == 0 {
      assert e1 + e2 == e2;
      assert [] + Run(db, e2).1 == Run(db, e2).1;
    } else {
      assert (e1 + e2)[0] == e1[0];
      assert (e1 + e2)[1..] == e1[1..] + e2;
      var first := Apply(db, e1[0]);
      RunConcat(first.0, e1[1..], e2);
      var r1 := Run(first.0, e1[1..]);
      var r2 := Run(r1.0, e2);
      assert first.1 + (r1.1 + r2.1) == (first.1 + r1.1) + r2.1;
    }
  }

  /** A single event run on its own. */
  lemma RunOne<A>(db: Debouncer<A>, e: Event<A>)
    ensures Run(db, [e]) == Apply(db, e)
  {
    assert [e][1..] == [];
    assert Apply(db, e).1 + [] == Apply(db, e).1;
  }

  /** A burst: each argument tuple is passed to a call, and `gaps[i]` ms pass after call `i`. */
  function Burst<A>(args: seq<A>, gaps: seq<nat>): (evs: seq<Event<A>>)
    requires |gaps| == |args|
    ensures |evs| == 2 * |args|
  {
    if |args| == 0 then [] else [Call(args[0]), Elapse(gaps[0])] + Burst(args[1..], gaps[1..])
  }

  /** Every gap of a burst is shorter than `wait`. */
  predicate Quick(gaps: seq<nat>, wait: nat) {
    forall i :: 0 <= i < |gaps| ==> gaps[i] < wait
  }

  /**
   * During a burst whose gaps, however uneven, are all shorter than `wait` nothing
   * fires, and the timer left pending carries the last arguments and is due `wait` ms
   * after the last call. (In `immediate` mode this needs a timer already pending when
   * the burst starts.)
   */
  lemma {:induction false} BurstStaysQuiet<A>(db: Debouncer<A>, args: seq<A>, gaps: seq<nat>)
    requires |args| > 0 && |gaps| == |args| && Quick(gaps, db.wait)
    requires db.immediate ==> db.timeout.Some?
    ensures var r := Run(db, Burst(args, gaps));
      && r.1 == []
      && r.0.timeout == Some(Pending(r.0.now - gaps[|gaps| - 1] + db.wait, args[|args| - 1]))
    decreases |args|
  {
    var evs := Burst(args, gaps);
    var (db1, o1) := Invoke(db, args[0]);
    var (db2, o2) := Advance(db1, gaps[0]);
    assert evs == [Call(args[0])] + ([Elapse(gaps[0])] + Burst(args[1..], gaps[1..]));
    RunConcat(db, [Call(args[0])], [Elapse(gaps[0])] + Burst(args[1..], gaps[1..]));
    RunConcat(db1, [Elapse(gaps[0])], Burst(args[1..], gaps[1..]));
    RunOne(db, Call(args[0]));
    RunOne(db1, Elapse(gaps[0]));
    if |args| > 1 {
      assert gaps[|gaps| - 1] == gaps[1..][|gaps[1..]| - 1];
      BurstStaysQuiet(db2, args[1..], gaps[1..]);
    } else {
      assert Burst(args[1..], gaps[1..]) == [];
    }
  }

  /** Trailing mode: a burst ends with exactly one invocation, with the last call's arguments. */
  lemma TrailingBurst<A>(db: Debouncer<A>, args: seq<A>, gaps: seq<nat>)
    requires !db.immediate && |args| > 0 && |gaps| == |args| && Quick(gaps, db.wait)
    ensures var r := Run(db, Burst(args, gaps) + [Elapse(db.wait)]);
      r.1 == [args[|args| - 1]] && r.0.timeout.None?
  {
    BurstStaysQuiet(db, args, gaps);
    RunConcat(db, Burst(args, gaps), [Elapse(db.wait)]);
  }

  /** A call followed by `g` ms: the two steps of a burst, run together. */
  lemma RunCallThenWait<A>(db: Debouncer<A>, a: A, g: nat)
    ensures var c := Invoke(db, a);
      var w := Advance(c.0, g);
      Run(db, [Call(a), Elapse(g)]) == (w.0, c.1 + w.1)
  {
    RunConcat(db, [Call(a)], [Elapse(g)]);
    assert [Call(a)] + [Elapse(g)] == [Call(a), Elapse(g)];
    RunOne(db, Call(a));
    RunOne(Invoke(db, a).0, Elapse(g));
  }

  /**
   * Immediate mode with a timer pending: the rest of a burst and `wait` ms of quiet run
   * nothing and leave no timer.
   */
  lemma QuietThenSettles<A>(db: Debouncer<A>, args: seq<A>, gaps: seq<nat>)
    requires db.immediate && db.timeout.Some? && db.timeout.value.due <= db.now + db.wait
    requires |gaps| == |args| && Quick(gaps, db.wait)
    ensures var r := Run(db, Burst(args, gaps) + [Elapse(db.wait)]);
      r.1 == [] && r.0.timeout.None?
  {
    if |args| > 0 {
      BurstStaysQuiet(db, args, gaps);
      RunConcat(db, Burst(args, gaps), [Elapse(db.wait)]);
      var mid := Run(db, Burst(args, gaps));
      RunOne(mid.0, Elapse(db.wait));
    } else {
      assert Burst(args, gaps) + [Elapse(db.wait)] == [Elapse(db.wait)];
      RunOne(db, Elapse(db.wait));
    }
  }

  /** A burst and a trailing event, split after the burst's first call and gap. */
  lemma BurstSplit<A>(args: seq<A>, gaps: seq<nat>, e: Event<A>)
    requires |args| > 0 && |gaps| == |args|
    ensures Burst(args, gaps) + [e] == [Call(args[0]), Elapse(gaps[0])] + (Burst(args[1..], gaps[1..]) + [e])
  {
  }

  /** Immediate mode, starting idle: a first call runs `func` and leaves its timer pending through a short gap. */
  lemma LeadingCall<A>(db: Debouncer<A>, a: A, g: nat)
    requires db.immediate && db.timeout.None? && g < db.wait
    ensures var r := Run(db, [Call(a), Elapse(g)]);
      && r.1 == [a] && r.0.immediate && r.0.wait == db.wait
      && r.0.timeout.Some? && r.0.timeout.value.due <= r.0.now + r.0.wait
  {
    RunCallThenWait(db, a, g);
    var c := Invoke(db, a);
    var w := Advance(c.0, g);
    assert c.1 + w.1 == [a];
  }

  /** One invocation, then a stretch that runs nothing and leaves no timer: one invocation in all. */
  lemma OnceThenQuiet<A>(db: Debouncer<A>, e1: seq<Event<A>>, e2: seq<Event<A>>, a: A)
    requires Run(db, e1).1 == [a]
    requires Run(Run(db, e1).0, e2).1 == [] && Run(Run(db, e1).0, e2).0.timeout.None?
    ensures Run(db, e1 + e2).1 == [a] && Run(db, e1 + e2).0.timeout.None?
  {
    RunConcat(db, e1, e2);
    assert [a] + [] == [a];
  }

  /**
   * Immediate mode: starting idle, a burst runs `func` once, at its first call with
   * that call's arguments, and the timer firing afterwards runs nothing.
   */
  lemma LeadingBurst<A>(db: Debouncer<A>, args: seq<A>, gaps: seq<nat>)
    requires db.immediate && db.timeout.None? && |args| > 0 && |gaps| == |args| && Quick(gaps, db.wait)
    ensures var r := Run(db, Burst(args, gaps) + [Elapse(db.wait)]);
      r.1 == [args[0]] && r.0.timeout.None?
  {
    var head: seq<Event<A>> := [Call(args[0]), Elapse(gaps[0])];
    var tail := Burst(args[1..], gaps[1..]) + [Elapse(db.wait)];
    BurstSplit(args, gaps, Elapse(db.wait));
    assert gaps[0] < db.wait;
    LeadingCall(db, args[0], gaps[0]);
    var db2 := Run(db, head).0;
    assert Quick(gaps[1..], db2.wait) by {
      forall i | 0 <= i < |gaps[1..]| ensures gaps[1..][i] < db2.wait {
        assert gaps[1..][i] == gaps[i + 1];
      }
    }
    QuietThenSettles(db2, args[1..], gaps[1..]);
    OnceThenQuiet(db, head, tail, args[0]);
  }
}
