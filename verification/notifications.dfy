/**
 * `showNotification` and `getNotificationIcon`: a toast slot in the page body with an
 * integer-millisecond timeline. Each toast slides in 100 ms after it is created, starts
 * sliding out at 5000 ms and is detached from the page 300 ms after that; its close
 * button detaches it at once.
 */
module Notifications {
  import opened Timers

  const SlideInDelay: int := 100
  const DisplayTime: int := 5000
  const ExitTime: int := 300

  const DefaultClass: string := "bg-blue-500"
  const DefaultIcon: string := "info-circle"

  /** Background class per notification type. */
  const ClassTable: map<string, string> := map[
    "success" := "bg-green-500",
    "error" := "bg-red-500",
    "warning" := "bg-yellow-500",
    "info" := DefaultClass]

  /** Font Awesome icon name per notification type. */
  const IconTable: map<string, string> := map[
    "success" := "check-circle",
    "error" := "exclamation-circle",
    "warning" := "exclamation-triangle",
    "info" := DefaultIcon]

  /** A request to show a notification: the message and its type (`'info'` when omitted). */
  datatype Notice = Notice(message: string, kind: string)

  /** The background class of a toast; every type outside the table gets the default. */
  function NotificationClass(kind: string): (c: string)
    ensures c in ClassTable.Values
    ensures kind in ClassTable ==> c == ClassTable[kind]
    ensures kind !in ClassTable ==> c == DefaultClass
  {
    assert ClassTable["info"] == DefaultClass;
    if kind in ClassTable then ClassTable[kind] else DefaultClass
  }

  /** `getNotificationIcon`; every type outside the table gets the default icon. */
  function NotificationIcon(kind: string): (i: string)
    ensures i in IconTable.Values
    ensures kind in IconTable ==> i == IconTable[kind]
    ensures kind !in IconTable ==> i == DefaultIcon
  {
    assert IconTable["info"] == DefaultIcon;
    if kind in IconTable then IconTable[kind] else DefaultIcon
  }

  /** Class and icon fall back together: a toast is blue exactly when it shows the info icon. */
  lemma ClassAndIconAgree(kind: string)
    ensures NotificationClass(kind) == DefaultClass <==> NotificationIcon(kind) == DefaultIcon
    ensures NotificationIcon(kind) == "check-circle" <==> kind == "success"
    ensures NotificationClass(kind) == "bg-red-500" <==> NotificationIcon(kind) == "exclamation-circle"
  {
    assert ClassTable["success"] == "bg-green-500";
    assert ClassTable["error"] == "bg-red-500";
    assert ClassTable["warning"] == "bg-yellow-500";
  }

  // ---------------------------------------------------------------------------------
  // The lookups as the source writes them: `{...}[type] || default` on an object literal.
  // ---------------------------------------------------------------------------------

  /** Property names every object literal inherits from `Object.prototype`. */
  const InheritedKeys: set<string> := {
    "constructor", "__proto__", "hasOwnProperty", "isPrototypeOf", "propertyIsEnumerable",
    "toLocaleString", "toString", "valueOf", "__defineGetter__", "__defineSetter__",
    "__lookupGetter__", "__lookupSetter__"}

  /** What indexing an object literal yields: an own string, an inherited member, or `undefined`. */
  datatype JsValue = Str(s: string) | InheritedMember(key: string) | Undefined

  /** `table[key] || fallback`: inherited members are truthy, so they pass the `||` unchanged. */
  function LiteralLookupOr(table: map<string, string>, key: string, fallback: string): (v: JsValue)
    ensures key in table && table[key] != "" ==> v == Str(table[key])
    ensures key !in table && key !in InheritedKeys ==> v == Str(fallback)
    ensures key !in table && key in InheritedKeys ==> v == InheritedMember(key)
  {
    if key in table then (if table[key] == "" then Str(fallback) else Str(table[key]))
    else if key in InheritedKeys then InheritedMember(key)
    else Str(fallback)
  }

  /** The class expression of `showNotification` as written. */
  function ClassAsWritten(kind: string): JsValue {
    LiteralLookupOr(ClassTable, kind, DefaultClass)
  }

  /** `getNotificationIcon` as written. */
  function IconAsWritten(kind: string): JsValue {
    LiteralLookupOr(IconTable, kind, DefaultIcon)
  }

  /** Off the inherited names, the written lookups are exactly the total maps above. */
  lemma AsWrittenAgreesOffPrototype(kind: string)
    requires kind !in InheritedKeys
    ensures ClassAsWritten(kind) == Str(NotificationClass(kind))
    ensures IconAsWritten(kind) == Str(NotificationIcon(kind))
  {
  }

  /** A type named like an inherited member escapes the default: no class and no icon name. */
  lemma InheritedKindEscapesDefault()
    ensures ClassAsWritten("toString") == InheritedMember("toString")
    ensures IconAsWritten("toString") == InheritedMember("toString")
    ensures forall c :: c in ClassTable.Values ==> ClassAsWritten("toString") != Str(c)
  {
  }

  // ---------------------------------------------------------------------------------
  // The toast slot and its timeline.
  // ---------------------------------------------------------------------------------

  /** A `.notification` element; `offscreen` is its `translate-x-full` class. */
  datatype Toast = Toast(id: nat, message: string, cssClass: string, icon: string, createdAt: int, offscreen: bool)

  /** The three timer callbacks a toast registers, each bound to its own element. */
  datatype Task = SlideIn(id: nat) | SlideOut(id: nat) | Detach(id: nat)

  /**
   * The page's toasts: the clock, the `.notification` elements in document order,
   * the next fresh element identity, and the pending timers.
   */
  datatype Board = Board(now: int, shown: seq<Toast>, nextId: nat, timers: seq<Timer<Task>>)

  /** A page with no toasts and no timers at time `now`. */
  function Empty(now: int): (b: Board)
    ensures b.shown == [] && b.timers == [] && b.now == now
  {
    Board(now, [], 0, [])
  }

  /** The toast a notice turns into. */
  function MakeToast(id: nat, n: Notice, now: int): Toast {
    Toast(id, n.message, NotificationClass(n.kind), NotificationIcon(n.kind), now, true)
  }

  /**
   * `showNotification(message, type)`: every existing toast is removed, one new toast
   * enters from off-screen, and its slide-in and auto-dismiss timers are registered.
   */
  function Show(b: Board, n: Notice): (r: Board)
    ensures |r.shown| == 1
    ensures r.shown[0] == MakeToast(b.nextId, n, b.now)
    ensures r.now == b.now && r.nextId == b.nextId + 1
    ensures r.timers == b.timers + [Timer(b.now + SlideInDelay, SlideIn(b.nextId)), Timer(b.now + DisplayTime, SlideOut(b.nextId))]
  {
    var id := b.nextId;
    Board(b.now, [MakeToast(id, n, b.now)], id + 1,
          b.timers + [Timer(b.now + SlideInDelay, SlideIn(id)), Timer(b.now + DisplayTime, SlideOut(id))])
  }

  /** The elements left once element `id` is detached; every other element stays, in order. */
  function Detached(s: seq<Toast>, id: nat): (r: seq<Toast>)
    ensures |r| <= |s|
    ensures forall x :: x in r <==> x in s && x.id != id
    ensures (forall x :: x in s ==> x.id != id) ==> r == s
  {
    if |s| == 0 then []
    else if s[0].id == id then Detached(s[1..], id)
    else [s[0]] + Detached(s[1..], id)
  }

  /** Sets or clears `translate-x-full` on element `id`; every other element is untouched. */
  function SetOffscreen(s: seq<Toast>, id: nat, v: bool): (r: seq<Toast>)
    ensures |r| == |s|
    ensures forall i :: 0 <= i < |s| ==> r[i] == if s[i].id == id then s[i].(offscreen := v) else s[i]
  {
    seq(|s|, i requires 0 <= i < |s| => if s[i].id == id then s[i].(offscreen := v) else s[i])
  }

  /** The close button of element `id`: it detaches that element immediately. */
  function Dismiss(b: Board, id: nat): (r: Board)
    ensures forall x :: x in r.shown <==> x in b.shown && x.id != id
    ensures r.timers == b.timers && r.now == b.now && r.nextId == b.nextId
  {
    b.(shown := Detached(b.shown, id))
  }

  /** Runs one timer callback at the current time. */
  function Fire(b: Board, task: Task): (r: Board)
    ensures r.now == b.now && r.nextId == b.nextId
    ensures |r.shown| <= |b.shown|
    ensures (forall x :: x in b.shown ==> x.id != task.id) ==> r.shown == b.shown
    ensures r.timers == if task.SlideOut? then b.timers + [Timer(b.now + ExitTime, Detach(task.id))] else b.timers
  {
    match task
    case SlideIn(id) => b.(shown := SetOffscreen(b.shown, id, false))
    case SlideOut(id) =>
      b.(shown := SetOffscreen(b.shown, id, true), timers := b.timers + [Timer(b.now + ExitTime, Detach(id))])
    case Detach(id) => b.(shown := Detached(b.shown, id))
  }

  /** Termination measure: a slide-out still owes its detach timer. */
  function Cost(t: Task): nat {
    if t.SlideOut? then 2 else 1
  }

  function Weight(ts: seq<Timer<Task>>): nat {
    if |ts| == 0 then 0 else Cost(ts[0].task) + Weight(ts[1..])
  }

  lemma {:induction false} WeightConcat(a: seq<Timer<Task>>, c: seq<Timer<Task>>)
    ensures Weight(a + c) == Weight(a) + Weight(c)
  {
    if |a| == 0 {
      assert a + c == c;
    } else {
      assert (a + c)[1..] == a[1..] + c;
      WeightConcat(a[1..], c);
    }
  }

  lemma WeightWithout(ts: seq<Timer<Task>>, k: nat)
    requires k < |ts|
    ensures Weight(ts[..k] + ts[k + 1..]) + Cost(ts[k].task) == Weight(ts)
  {
    var a := ts[..k];
    var c := ts[k + 1..];
    var x := ts[k];
    WeightConcat(a, c);
    WeightConcat(a, [x] + c);
    assert Weight([x] + c) == Cost(x.task) + Weight(c) by {
      assert ([x] + c)[1..] == c;
    }
    assert ts == a + ([x] + c);
  }

  lemma FireWeight(b: Board, task: Task)
    ensures Weight(Fire(b, task).timers) == Weight(b.timers) + (if task.SlideOut? then 1 else 0)
  {
    if task.SlideOut? {
      WeightConcat(b.timers, [Timer(b.now + ExitTime, Detach(task.id))]);
    }
  }

  /** Takes the next timer out of the queue and runs it at its due time (at once if overdue). */
  function Step(b: Board): (r: Board)
    requires |b.timers| > 0
    ensures Weight(r.timers) < Weight(b.timers)
  {
    var k := Earliest(b.timers);
    var tm := b.timers[k];
    var at := if tm.due < b.now then b.now else tm.due;
    var b' := b.(now := at, timers := Without(b.timers, k));
    WeightWithout(b.timers, k);
    FireWeight(b', tm.task);
    Fire(b', tm.task)
  }

  /** Lets time run until `t`, running every timer due by then in queue order. */
  function AdvanceTo(b: Board, t: int): (r: Board)
    requires b.now <= t
    ensures r.now == t
    ensures NoneDue(r.timers, t)
    decreases Weight(b.timers)
  {
    if NoneDue(b.timers, t) then b.(now := t)
    else
      var k := Earliest(b.timers);
      assert b.timers[k].due <= t;
      AdvanceTo(Step(b), t)
  }

  /** `d` milliseconds pass. */
  function Elapse(b: Board, d: nat): (r: Board)
    ensures r.now == b.now + d
    ensures Wf(b) ==> Wf(r)
  {
    var r := AdvanceTo(b, b.now + d);
    assert Wf(b) ==> Wf(r) by {
      if Wf(b) {
        AdvanceWf(b, b.now + d);
      }
    }
    r
  }

  // ---------------------------------------------------------------------------------
  // The slot invariant and what follows from it.
  // ---------------------------------------------------------------------------------

  /** Element `x` still has a timer that will take it off the page by `createdAt + 5300`. */
  predicate ExitScheduled(b: Board, x: Toast) {
    || Timer(x.createdAt + DisplayTime, SlideOut(x.id)) in b.timers
    || Timer(x.createdAt + DisplayTime + ExitTime, Detach(x.id)) in b.timers
  }

  /**
   * At most one toast is on the page, it and every timer refer to identities already
   * handed out, no timer is overdue, and every toast still has its exit timer.
   */
  predicate Wf(b: Board) {
    && |b.shown| <= 1
    && (forall i :: 0 <= i < |b.shown| ==> b.shown[i].id < b.nextId && ExitScheduled(b, b.shown[i]))
    && (forall i :: 0 <= i < |b.timers| ==> b.timers[i].due >= b.now && b.timers[i].task.id < b.nextId)
  }

  lemma EmptyWf(now: int)
    ensures Wf(Empty(now))
  {
  }

  /** Showing a toast keeps the slot invariant: one toast, its exit timer registered. */
  lemma ShowWf(b: Board, n: Notice)
    requires Wf(b)
    ensures Wf(Show(b, n))
  {
    var r := Show(b, n);
    assert r.timers[|b.timers| + 1] == Timer(b.now + DisplayTime, SlideOut(b.nextId));
    assert ExitScheduled(r, r.shown[0]);
  }

  lemma DismissWf(b: Board, id: nat)
    requires Wf(b)
    ensures Wf(Dismiss(b, id))
  {
    var r := Dismiss(b, id);
    forall i | 0 <= i < |r.shown| ensures r.shown[i].id < r.nextId && ExitScheduled(r, r.shown[i]) {
      assert r.shown[i] in b.shown;
    }
  }

  /** A callback never changes which toast is on the page, only its offset, and a detach removes it. */
  lemma FireKeepsToast(b: Board, task: Task)
    requires |b.shown| == 1
    ensures var r := Fire(b, task);
      && |r.shown| <= 1
      && (|r.shown| == 1 ==> r.shown[0].id == b.shown[0].id && r.shown[0].createdAt == b.shown[0].createdAt)
      && (task == Detach(b.shown[0].id) ==> r.shown == [])
  {
    var r := Fire(b, task);
    if task == Detach(b.shown[0].id) {
      assert b.shown[1..] == [];
    } else if |r.shown| == 1 {
      assert r.shown[0] in r.shown;
    }
  }

  lemma StepTimersWf(b: Board)
    requires Wf(b) && |b.timers| > 0
    ensures var r := Step(b);
      forall i :: 0 <= i < |r.timers| ==> r.timers[i].due >= r.now && r.timers[i].task.id < r.nextId
  {
    var k := Earliest(b.timers);
    var tm := b.timers[k];
    var b' := b.(now := if tm.due < b.now then b.now else tm.due, timers := Without(b.timers, k));
    var r := Step(b);
    assert r == Fire(b', tm.task);
    forall i | 0 <= i < |r.timers|
      ensures r.timers[i].due >= r.now && r.timers[i].task.id < r.nextId
    {
      if i < |b'.timers| {
        assert r.timers[i] == b'.timers[i];
        assert b'.timers[i] in b.timers;
      }
    }
  }

  /** A step keeps a toast's exit timer registered unless the step is that toast's detach. */
  lemma ExitKept(b: Board, x: Toast)
    requires Wf(b) && |b.timers| > 0 && ExitScheduled(b, x)
    requires b.timers[Earliest(b.timers)] != Timer(x.createdAt + DisplayTime + ExitTime, Detach(x.id))
    ensures ExitScheduled(Step(b), x)
  {
    var k := Earliest(b.timers);
    var tm := b.timers[k];
    var b' := b.(now := if tm.due < b.now then b.now else tm.due, timers := Without(b.timers, k));
    var r := Step(b);
    assert r == Fire(b', tm.task);
    var out := Timer(x.createdAt + DisplayTime, SlideOut(x.id));
    var det := Timer(x.createdAt + DisplayTime + ExitTime, Detach(x.id));
    if tm == out {
      assert r.timers[|r.timers| - 1] == det;
    } else if out in b.timers {
      assert out in b'.timers;
    } else {
      assert det in b'.timers;
    }
  }

  /** The toast a step leaves on the page is the one that was there, its exit timer still registered. */
  lemma StepKeepsExit(b: Board)
    requires Wf(b) && |b.timers| > 0 && |Step(b).shown| == 1
    ensures |b.shown| == 1
    ensures Step(b).shown[0].id == b.shown[0].id && Step(b).shown[0].createdAt == b.shown[0].createdAt
    ensures Step(b).nextId == b.nextId
    ensures ExitScheduled(Step(b), b.shown[0])
  {
    var k := Earliest(b.timers);
    var tm := b.timers[k];
    var b' := b.(now := if tm.due < b.now then b.now else tm.due, timers := Without(b.timers, k));
    assert Step(b) == Fire(b', tm.task);
    var x := b.shown[0];
    FireKeepsToast(b', tm.task);
    assert tm.task != Detach(x.id);
    assert ExitScheduled(b, x);
    ExitKept(b, x);
  }

  lemma StepShownWf(b: Board)
    requires Wf(b) && |b.timers| > 0
    ensures var r := Step(b);
      forall i :: 0 <= i < |r.shown| ==> r.shown[i].id < r.nextId && ExitScheduled(r, r.shown[i])
  {
    var r := Step(b);
    if |r.shown| > 0 {
      assert |r.shown| == 1 by {
        var k := Earliest(b.timers);
        var tm := b.timers[k];
        var b' := b.(now := if tm.due < b.now then b.now else tm.due, timers := Without(b.timers, k));
        assert r == Fire(b', tm.task);
      }
      StepKeepsExit(b);
      var y := r.shown[0];
      assert y.id < r.nextId && ExitScheduled(r, y);
      forall i | 0 <= i < |r.shown| ensures r.shown[i].id < r.nextId && ExitScheduled(r, r.shown[i]) {
        assert i == 0;
      }
    }
  }

  lemma StepWf(b: Board)
    requires Wf(b) && |b.timers| > 0
    ensures Wf(Step(b))
  {
    StepTimersWf(b);
    StepShownWf(b);
  }

  lemma {:induction false} AdvanceWf(b: Board, t: int)
    requires Wf(b) && b.now <= t
    ensures Wf(AdvanceTo(b, t))
    decreases Weight(b.timers)
  {
    if !NoneDue(b.timers, t) {
      var k := Earliest(b.timers);
      assert b.timers[k].due <= t;
      StepWf(b);
      AdvanceWf(Step(b), t);
    }
  }

  /**
   * A toast created at time `T` is gone by `T + 5300`: once time has run to `t`,
   * every toast on the page was created less than 5300 ms before `t`.
   */
  lemma GoneWithinDisplayAndExit(b: Board, t: int)
    requires Wf(b) && b.now <= t
    ensures Wf(AdvanceTo(b, t))
    ensures forall x :: x in AdvanceTo(b, t).shown ==> t < x.createdAt + DisplayTime + ExitTime
  {
    AdvanceWf(b, t);
    var r := AdvanceTo(b, t);
    forall x | x in r.shown ensures t < x.createdAt + DisplayTime + ExitTime {
      var i :| 0 <= i < |r.shown| && r.shown[i] == x;
      assert ExitScheduled(r, x);
    }
  }

  /**
   * A timer or close button of an earlier toast never touches the newest one:
   * after `Show`, running any task registered before it leaves the page as `Show` left it.
   */
  lemma EarlierTasksSpareNewest(b: Board, n: Notice, task: Task)
    requires Wf(b)
    requires Scheduled(b.timers, task)
    ensures Fire(Show(b, n), task).shown == Show(b, n).shown
    ensures Dismiss(Show(b, n), task.id).shown == Show(b, n).shown
  {
    var i :| 0 <= i < |b.timers| && b.timers[i].task == task;
    assert task.id < b.nextId;
    var s := Show(b, n);
    assert forall x :: x in s.shown ==> x.id == b.nextId;
  }

  // ---------------------------------------------------------------------------------
  // One toast's life, whatever else is pending.
  // ---------------------------------------------------------------------------------

  /** The slide-in timer toast `x` registers. */
  function SlideInTimer(x: Toast): Timer<Task> {
    Timer(x.createdAt + SlideInDelay, SlideIn(x.id))
  }

  /** The auto-dismiss timer toast `x` registers. */
  function SlideOutTimer(x: Toast): Timer<Task> {
    Timer(x.createdAt + DisplayTime, SlideOut(x.id))
  }

  /** The removal timer the auto-dismiss of `x` registers. */
  function DetachTimer(x: Toast): Timer<Task> {
    Timer(x.createdAt + DisplayTime + ExitTime, Detach(x.id))
  }

  /** The stages of a toast's life. */
  datatype Phase = Entering | OnScreen | Leaving | Gone

  /** Every timer bound to `x`'s element is one of the three that `x` registers. */
  predicate OwnTimersOnly(ts: seq<Timer<Task>>, x: Toast) {
    forall tm :: tm in ts && tm.task.id == x.id ==> tm == SlideInTimer(x) || tm == SlideOutTimer(x) || tm == DetachTimer(x)
  }

  /** The page shows `x` as stage `p` has it, with exactly the timers of `x` that stage still owes. */
  predicate InPhase(b: Board, x: Toast, p: Phase) {
    var m := multiset(b.timers);
    match p
    case Entering =>
      && m[SlideInTimer(x)] == 1 && m[SlideOutTimer(x)] == 1 && m[DetachTimer(x)] == 0
      && b.shown == [x]
    case OnScreen =>
      && m[SlideInTimer(x)] == 0 && m[SlideOutTimer(x)] == 1 && m[DetachTimer(x)] == 0
      && b.shown == [x.(offscreen := false)] && x.createdAt + SlideInDelay <= b.now
    case Leaving =>
      && m[SlideInTimer(x)] == 0 && m[SlideOutTimer(x)] == 0 && m[DetachTimer(x)] == 1
      && b.shown == [x] && x.createdAt + DisplayTime <= b.now
    case Gone =>
      && m[SlideInTimer(x)] == 0 && m[SlideOutTimer(x)] == 0 && m[DetachTimer(x)] == 0
      && b.shown == [] && x.createdAt + DisplayTime + ExitTime <= b.now
  }

  /** `x` entered off-screen, no timer is overdue, and the page is at stage `p` of `x`'s life. */
  predicate Tracks(b: Board, x: Toast, p: Phase) {
    && x.offscreen
    && OwnTimersOnly(b.timers, x)
    && (forall i :: 0 <= i < |b.timers| ==> b.now <= b.timers[i].due)
    && InPhase(b, x, p)
  }

  /** A new toast starts its life at the entering stage, whatever earlier timers are pending. */
  lemma ShowTracks(b: Board, n: Notice)
    requires Wf(b)
    ensures Tracks(Show(b, n), MakeToast(b.nextId, n, b.now), Entering)
  {
    var x := MakeToast(b.nextId, n, b.now);
    var r := Show(b, n);
    var ts := b.timers;
    QueuedIdsIssued(b);
    assert r.timers == ts + [SlideInTimer(x), SlideOutTimer(x)];
    assert OwnTimersOnly(r.timers, x);
    assert InPhase(r, x, Entering) by {
      assert SlideInTimer(x) !in ts && SlideOutTimer(x) !in ts && DetachTimer(x) !in ts;
      assert multiset(r.timers) == multiset(ts) + multiset{SlideInTimer(x), SlideOutTimer(x)};
    }
    assert forall i :: 0 <= i < |r.timers| ==> r.now <= r.timers[i].due by {
      forall i | 0 <= i < |r.timers| ensures r.now <= r.timers[i].due {
        if i < |ts| {
          assert r.timers[i] == ts[i];
        }
      }
    }
  }

  /** Every timer of a well-formed page belongs to an identity already handed out. */
  lemma QueuedIdsIssued(b: Board)
    requires Wf(b)
    ensures forall tm :: tm in b.timers ==> tm.task.id < b.nextId
  {
    forall tm | tm in b.timers ensures tm.task.id < b.nextId {
      var i :| 0 <= i < |b.timers| && b.timers[i] == tm;
    }
  }

  /** The removal timer a callback registers: only a slide-out registers one. */
  function Follow(tm: Timer<Task>): seq<Timer<Task>> {
    if tm.task.SlideOut? then [Timer(tm.due + ExitTime, Detach(tm.task.id))] else []
  }

  /** A callback leaves the clock, adds its follow-up timer, and acts on the toasts alone. */
  lemma FireParts(b: Board, c: Board, task: Task)
    requires b.shown == c.shown
    ensures Fire(b, task).now == b.now
    ensures Fire(b, task).timers == b.timers + Follow(Timer(b.now, task))
    ensures Fire(b, task).shown == Fire(c, task).shown
  {
  }

  /** A step on a page with nothing overdue: the clock moves to the timer's due time, the timer makes way for its follow-up. */
  lemma StepParts(b: Board)
    requires |b.timers| > 0 && b.now <= b.timers[Earliest(b.timers)].due
    ensures var k := Earliest(b.timers);
      var tm := b.timers[k];
      && Step(b).now == tm.due
      && Step(b).timers == Without(b.timers, k) + Follow(tm)
      && Step(b).shown == Fire(b, tm.task).shown
  {
    var k := Earliest(b.timers);
    var tm := b.timers[k];
    var b' := b.(now := if tm.due < b.now then b.now else tm.due, timers := Without(b.timers, k));
    FireParts(b', b, tm.task);
    assert Timer(b'.now, tm.task) == tm;
    assert Step(b) == Fire(b', tm.task);
  }

  /** How many copies of `e` the queue holds after the timer at `k` runs. */
  lemma CountAfter(ts: seq<Timer<Task>>, k: nat, e: Timer<Task>)
    requires k < |ts|
    ensures multiset(Without(ts, k) + Follow(ts[k]))[e]
         == multiset(ts)[e] - (if ts[k] == e then 1 else 0) + (if e in Follow(ts[k]) then 1 else 0)
  {
    var w := Without(ts, k);
    var f := Follow(ts[k]);
    assert multiset(w + f) == multiset(w) + multiset(f);
    assert multiset(f)[e] == if e in f then 1 else 0;
  }

  /** After a step no timer is due before the timer that ran. */
  lemma QueueDue(ts: seq<Timer<Task>>, k: nat)
    requires k < |ts| && forall j :: 0 <= j < |ts| ==> ts[k].due <= ts[j].due
    ensures var r := Without(ts, k) + Follow(ts[k]);
      forall i :: 0 <= i < |r| ==> ts[k].due <= r[i].due
  {
    var w := Without(ts, k);
    var r := w + Follow(ts[k]);
    forall i | 0 <= i < |r| ensures ts[k].due <= r[i].due {
      if i < |w| {
        assert r[i] == w[i];
        assert w[i] in ts;
      }
    }
  }

  /** The clock and queue a step leaves when it runs the timer at position `k`. */
  predicate QueueStep(b: Board, k: nat, r: Board) {
    && k < |b.timers|
    && (forall j :: 0 <= j < |b.timers| ==> b.timers[k].due <= b.timers[j].due)
    && r.now == b.timers[k].due
    && r.timers == Without(b.timers, k) + Follow(b.timers[k])
  }

  /** The page a step leaves when it runs the timer at position `k`. */
  predicate StepsTo(b: Board, k: nat, r: Board) {
    QueueStep(b, k, r) && r.shown == Fire(b, b.timers[k].task).shown
  }

  /** A step on another element's timer keeps the count of each of `x`'s timers. */
  lemma OtherKeepsCounts(ts: seq<Timer<Task>>, k: nat, x: Toast)
    requires k < |ts| && ts[k].task.id != x.id
    ensures var m := multiset(ts);
      var m' := multiset(Without(ts, k) + Follow(ts[k]));
      && m'[SlideInTimer(x)] == m[SlideInTimer(x)]
      && m'[SlideOutTimer(x)] == m[SlideOutTimer(x)]
      && m'[DetachTimer(x)] == m[DetachTimer(x)]
  {
    CountAfter(ts, k, SlideInTimer(x));
    CountAfter(ts, k, SlideOutTimer(x));
    CountAfter(ts, k, DetachTimer(x));
  }

  /** A step that adds none of `x`'s timers except its removal keeps `x`'s timers among its own. */
  lemma StepKeepsOwnOnly(ts: seq<Timer<Task>>, k: nat, x: Toast)
    requires k < |ts| && OwnTimersOnly(ts, x)
    requires ts[k].task.id != x.id || Follow(ts[k]) == [] || Follow(ts[k]) == [DetachTimer(x)]
    ensures OwnTimersOnly(Without(ts, k) + Follow(ts[k]), x)
  {
    var r := Without(ts, k) + Follow(ts[k]);
    forall tm | tm in r && tm.task.id == x.id
      ensures tm == SlideInTimer(x) || tm == SlideOutTimer(x) || tm == DetachTimer(x)
    {
      if tm !in ts {
        assert tm in Follow(ts[k]);
      }
    }
  }

  /** With the same toasts, the same counts of `x`'s timers and a later clock, the stage is unchanged. */
  lemma InPhaseKept(b: Board, r: Board, x: Toast, p: Phase)
    requires InPhase(b, x, p) && r.shown == b.shown && b.now <= r.now
    requires multiset(r.timers)[SlideInTimer(x)] == multiset(b.timers)[SlideInTimer(x)]
    requires multiset(r.timers)[SlideOutTimer(x)] == multiset(b.timers)[SlideOutTimer(x)]
    requires multiset(r.timers)[DetachTimer(x)] == multiset(b.timers)[DetachTimer(x)]
    ensures InPhase(r, x, p)
  {
  }

  /** A callback of another element leaves the page's toasts as they are. */
  lemma OtherLeavesShown(b: Board, x: Toast, p: Phase, task: Task)
    requires InPhase(b, x, p) && task.id != x.id
    ensures Fire(b, task).shown == b.shown
  {
    assert forall y :: y in b.shown ==> y.id == x.id;
  }

  /** A callback of another element leaves `x` at the same stage. */
  lemma OtherKeepsPhase(b: Board, x: Toast, p: Phase, k: nat, r: Board)
    requires Tracks(b, x, p) && StepsTo(b, k, r) && b.timers[k].task.id != x.id
    ensures Tracks(r, x, p)
  {
    OtherLeavesShown(b, x, p, b.timers[k].task);
    OtherKeepsCounts(b.timers, k, x);
    StepKeepsOwnOnly(b.timers, k, x);
    QueueDue(b.timers, k);
    InPhaseKept(b, r, x, p);
  }

  /** The queue facts a step on one of `x`'s own timers leaves. */
  lemma OwnQueue(b: Board, x: Toast, k: nat, r: Board)
    requires OwnTimersOnly(b.timers, x) && QueueStep(b, k, r)
    requires Follow(b.timers[k]) == [] || Follow(b.timers[k]) == [DetachTimer(x)]
    ensures OwnTimersOnly(r.timers, x)
    ensures forall i :: 0 <= i < |r.timers| ==> r.now <= r.timers[i].due
    ensures var m := multiset(b.timers);
      var m' := multiset(r.timers);
      && m'[SlideInTimer(x)] == m[SlideInTimer(x)] - (if b.timers[k] == SlideInTimer(x) then 1 else 0)
      && m'[SlideOutTimer(x)] == m[SlideOutTimer(x)] - (if b.timers[k] == SlideOutTimer(x) then 1 else 0)
      && m'[DetachTimer(x)] == m[DetachTimer(x)] - (if b.timers[k] == DetachTimer(x) then 1 else 0)
                                                 + (if Follow(b.timers[k]) == [] then 0 else 1)
  {
    StepKeepsOwnOnly(b.timers, k, x);
    QueueDue(b.timers, k);
    CountAfter(b.timers, k, SlideInTimer(x));
    CountAfter(b.timers, k, SlideOutTimer(x));
    CountAfter(b.timers, k, DetachTimer(x));
  }

  /** What each of `x`'s own callbacks does to the page's toasts. */
  lemma ShownAfterOwn(b: Board, x: Toast)
    requires x.offscreen
    ensures b.shown == [x] ==> Fire(b, SlideIn(x.id)).shown == [x.(offscreen := false)]
    ensures b.shown == [x.(offscreen := false)] ==> Fire(b, SlideOut(x.id)).shown == [x]
    ensures b.shown == [x] ==> Fire(b, Detach(x.id)).shown == []
  {
    assert x.(offscreen := false).(offscreen := true) == x;
    if b.shown == [x] {
      assert Fire(b, Detach(x.id)).shown == Detached([x], x.id);
      assert [x][1..] == [];
    }
  }

  /** The slide-in at `T + 100` brings `x` on screen. */
  lemma SlideInAdvances(b: Board, x: Toast, k: nat, r: Board)
    requires x.offscreen && OwnTimersOnly(b.timers, x) && QueueStep(b, k, r) && b.timers[k] == SlideInTimer(x)
    requires multiset(b.timers)[SlideOutTimer(x)] == 1 && multiset(b.timers)[DetachTimer(x)] == 0
    requires b.shown == [x] && multiset(b.timers)[SlideInTimer(x)] == 1
    requires r.shown == [x.(offscreen := false)]
    ensures Tracks(r, x, OnScreen)
  {
    OwnQueue(b, x, k, r);
  }

  /** The slide-out at `T + 5000` moves `x` off screen and registers its removal. */
  lemma SlideOutAdvances(b: Board, x: Toast, k: nat, r: Board)
    requires x.offscreen && OwnTimersOnly(b.timers, x) && QueueStep(b, k, r) && b.timers[k] == SlideOutTimer(x)
    requires multiset(b.timers)[SlideInTimer(x)] == 0 && multiset(b.timers)[DetachTimer(x)] == 0
    requires b.shown == [x.(offscreen := false)] && multiset(b.timers)[SlideOutTimer(x)] == 1
    requires r.shown == [x]
    ensures Tracks(r, x, Leaving)
  {
    assert Follow(b.timers[k]) == [DetachTimer(x)];
    OwnQueue(b, x, k, r);
  }

  /** The removal at `T + 5300` takes `x` off the page. */
  lemma DetachAdvances(b: Board, x: Toast, k: nat, r: Board)
    requires x.offscreen && OwnTimersOnly(b.timers, x) && QueueStep(b, k, r) && b.timers[k] == DetachTimer(x)
    requires multiset(b.timers)[SlideInTimer(x)] == 0 && multiset(b.timers)[SlideOutTimer(x)] == 0
    requires b.shown == [x] && multiset(b.timers)[DetachTimer(x)] == 1
    requires r.shown == []
    ensures Tracks(r, x, Gone)
  {
    OwnQueue(b, x, k, r);
  }

  /** One of `x`'s own callbacks moves it on to the next stage. */
  lemma OwnAdvancesPhase(b: Board, x: Toast, p: Phase, k: nat, r: Board) returns (q: Phase)
    requires Tracks(b, x, p) && StepsTo(b, k, r) && b.timers[k].task.id == x.id
    ensures Tracks(r, x, q)
  {
    var tm := b.timers[k];
    assert tm in b.timers;
    if tm == SlideInTimer(x) {
      assert p == Entering;
      ShownAfterOwn(b, x);
      SlideInAdvances(b, x, k, r);
      q := OnScreen;
    } else if tm == SlideOutTimer(x) {
      assert SlideInTimer(x) !in b.timers by {
        forall j | 0 <= j < |b.timers| ensures b.timers[j] != SlideInTimer(x) {
          assert tm.due <= b.timers[j].due;
        }
      }
      assert p == OnScreen;
      ShownAfterOwn(b, x);
      SlideOutAdvances(b, x, k, r);
      q := Leaving;
    } else {
      assert tm == DetachTimer(x);
      assert p == Leaving;
      ShownAfterOwn(b, x);
      DetachAdvances(b, x, k, r);
      q := Gone;
    }
  }

  /** Letting time run moves `x` through its stages; other elements' callbacks never touch it. */
  lemma {:induction false} AdvanceTracks(b: Board, x: Toast, p: Phase, t: int) returns (q: Phase)
    requires Tracks(b, x, p) && b.now <= t
    ensures Tracks(AdvanceTo(b, t), x, q)
    decreases Weight(b.timers)
  {
    if NoneDue(b.timers, t) {
      q := p;
    } else {
      var k := Earliest(b.timers);
      assert b.timers[k].due <= t;
      StepParts(b);
      var p' := p;
      if b.timers[k].task.id == x.id {
        p' := OwnAdvancesPhase(b, x, p, k, Step(b));
      } else {
        OtherKeepsPhase(b, x, p, k, Step(b));
      }
      q := AdvanceTracks(Step(b), x, p', t);
    }
  }

  /** Once nothing is due by `t`, the stage `x` is at is fixed by `t` alone. */
  lemma PhaseAt(r: Board, x: Toast, q: Phase, t: int)
    requires Tracks(r, x, q) && r.now == t && NoneDue(r.timers, t)
    ensures var T := x.createdAt;
      && (t < T + SlideInDelay ==> r.shown == [x])
      && (T + SlideInDelay <= t < T + DisplayTime ==> r.shown == [x.(offscreen := false)])
      && (T + DisplayTime <= t < T + DisplayTime + ExitTime ==> r.shown == [x])
      && (T + DisplayTime + ExitTime <= t ==> r.shown == [])
  {
    var T := x.createdAt;
    match q {
      case Entering =>
        var j :| 0 <= j < |r.timers| && r.timers[j] == SlideInTimer(x);
        assert t < T + SlideInDelay;
      case OnScreen =>
        var j :| 0 <= j < |r.timers| && r.timers[j] == SlideOutTimer(x);
        assert T + SlideInDelay <= t < T + DisplayTime;
      case Leaving =>
        var j :| 0 <= j < |r.timers| && r.timers[j] == DetachTimer(x);
        assert T + DisplayTime <= t < T + DisplayTime + ExitTime;
      case Gone =>
    }
  }

  /**
   * The life of a toast shown at `T` on any well-formed page, observed at `t`: off-screen
   * for its first 100 ms, on screen until 5000 ms, sliding out until 5300 ms, then gone.
   * The timers of earlier toasts still pending never change it.
   */
  lemma ToastTimeline(b: Board, n: Notice, t: int)
    requires Wf(b) && b.now <= t
    ensures var x := MakeToast(b.nextId, n, b.now);
      var r := AdvanceTo(Show(b, n), t);
      && (t < b.now + SlideInDelay ==> r.shown == [x])
      && (b.now + SlideInDelay <= t < b.now + DisplayTime ==> r.shown == [x.(offscreen := false)])
      && (b.now + DisplayTime <= t < b.now + DisplayTime + ExitTime ==> r.shown == [x])
      && (b.now + DisplayTime + ExitTime <= t ==> r.shown == [])
  {
    var x := MakeToast(b.nextId, n, b.now);
    ShowTracks(b, n);
    var q := AdvanceTracks(Show(b, n), x, Entering, t);
    PhaseAt(AdvanceTo(Show(b, n), t), x, q, t);
  }

  /** Two notifications in a row leave exactly one toast, carrying the second message. */
  lemma SecondNoticeReplacesFirst(b: Board, n1: Notice, n2: Notice)
    ensures Show(Show(b, n1), n2).shown == [MakeToast(b.nextId + 1, n2, b.now)]
  {
  }
}
