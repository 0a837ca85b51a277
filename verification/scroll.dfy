/**
 * The scroll reactor: the scroll-to-top button handler and the debounced navigation
 * handler, both driven by the window's `scrollTop`.
 *
 * The button handler creates one `#scroll-to-top` button (transparent, made opaque
 * 100 ms later) when the offset exceeds 300; at or below 300 it fades whatever button
 * exists and registers a removal 300 ms later. Both timer callbacks look the button up
 * by its id when they fire. The navigation handler, debounced by 10 ms, gives the bar
 * its opaque background exactly when the offset exceeds 50.
 *
 * `Variant` selects the button handler as written or a guarded version (the timer
 * callbacks re-check the offset, and a fading button is restored when the offset
 * rises again); the navigation handler is the same in both.
 */
module ScrollReactor {
  import opened Wrappers
  import opened Timers
  import Debounce

  const NavThreshold: int := 50
  const TopThreshold: int := 300
  const NavWait: nat := 10
  const RevealDelay: int := 100
  const FadeTime: int := 300

  datatype Variant = AsWritten | Guarded

  /** The two button callbacks: make the button opaque, remove it. */
  datatype Job = Reveal | Discard

  /** The `#scroll-to-top` element; `visible` is its `opacity-100` class. */
  datatype TopButton = TopButton(visible: bool)

  /**
   * The clock, the last offset, the navigation bar's `bg-opacity-95` class, the
   * button if present, the button's pending callbacks, and the debounced handler.
   */
  datatype Ui = Ui(now: int, top: int, navSolid: bool, button: Option<TopButton>,
                   jobs: seq<Timer<Job>>, nav: Debounce.Debouncer<int>)

  datatype Event = Scroll(top: int) | Wait(d: nat)

  /** The page at load: at the top, no button, nothing pending. */
  function Initial(now: int): (ui: Ui)
    ensures ui.button.None? && ui.jobs == [] && ui.top == 0
  {
    Ui(now, 0, false, None, [], Debounce.Create(NavWait, false, now))
  }

  /** The button handler for one scroll event at the current offset. */
  function ButtonOnScroll(v: Variant, ui: Ui): (r: Ui)
    ensures r.now == ui.now && r.top == ui.top && r.navSolid == ui.navSolid && r.nav == ui.nav
    ensures r.button.Some? && ui.button.None? ==> ui.top > TopThreshold
    ensures ui.top <= TopThreshold ==> r.button == (if ui.button.Some? then Some(TopButton(false)) else None)
    ensures ui.top > TopThreshold && ui.button.None? ==>
      r.button == Some(TopButton(false)) && r.jobs == ui.jobs + [Timer(ui.now + RevealDelay, Reveal)]
    ensures ui.top > TopThreshold && ui.button.Some? && v.AsWritten? ==> r == ui
    ensures ui.top > TopThreshold && ui.button.Some? && v.Guarded? ==> r == ui.(button := Some(TopButton(true)))
    ensures ui.top <= TopThreshold ==> r.jobs == ui.jobs + [Timer(ui.now + FadeTime, Discard)]
  {
    if ui.top > TopThreshold then
      if ui.button.None? then
        ui.(button := Some(TopButton(false)), jobs := ui.jobs + [Timer(ui.now + RevealDelay, Reveal)])
      else if v.Guarded? then ui.(button := Some(TopButton(true)))
      else ui
    else
      ui.(button := if ui.button.Some? then Some(TopButton(false)) else None,
          jobs := ui.jobs + [Timer(ui.now + FadeTime, Discard)])
  }

  /** A scroll event: the offset changes, the button handler runs, the debounced handler is called. */
  function OnScroll(v: Variant, ui: Ui, top: int): (r: Ui)
    ensures r.top == top && r.now == ui.now
    ensures r.nav.timeout.Some?
    ensures r.navSolid == ui.navSolid
    ensures r.nav == ui.nav.(timeout := Some(Debounce.Pending(ui.nav.now + ui.nav.wait, top)))
  {
    var ui1 := ButtonOnScroll(v, ui.(top := top));
    ui1.(nav := Debounce.Invoke(ui.nav, top).0)
  }

  /** A scroll event runs the button handler at the new offset: the button and its callbacks are what that handler leaves. */
  lemma OnScrollRunsButtonHandler(v: Variant, ui: Ui, top: int)
    ensures var r := OnScroll(v, ui, top);
      var b := ButtonOnScroll(v, ui.(top := top));
      r.button == b.button && r.jobs == b.jobs
  {
  }

  /** One button callback, run at the current time. */
  function RunJob(v: Variant, ui: Ui, job: Job): (r: Ui)
    ensures r.now == ui.now && r.top == ui.top && r.navSolid == ui.navSolid && r.nav == ui.nav && r.jobs == ui.jobs
    ensures v.AsWritten? && job == Discard ==> r.button.None?
    ensures v.AsWritten? && job == Reveal && ui.button.Some? ==> r.button == Some(TopButton(true))
    ensures v.Guarded? && job == Discard ==> r.button == (if ui.top <= TopThreshold then None else ui.button)
    ensures v.Guarded? && job == Reveal && ui.button.Some? ==>
      r.button == (if ui.top > TopThreshold then Some(TopButton(true)) else ui.button)
    ensures ui.button.None? && job == Reveal ==> r.button.None?
  {
    match job
    case Reveal =>
      if ui.button.Some? && (v.AsWritten? || ui.top > TopThreshold) then ui.(button := Some(TopButton(true))) else ui
    case Discard =>
      if v.AsWritten? || ui.top <= TopThreshold then ui.(button := None) else ui
  }

  /** Takes the next button callback out of the queue and runs it at its due time. */
  function StepJob(v: Variant, ui: Ui): (r: Ui)
    requires |ui.jobs| > 0
    ensures |r.jobs| < |ui.jobs|
    ensures r.top == ui.top && r.navSolid == ui.navSolid && r.nav == ui.nav
    ensures forall x :: x in r.jobs ==> x in ui.jobs
  {
    var k := Earliest(ui.jobs);
    var at := if ui.jobs[k].due < ui.now then ui.now else ui.jobs[k].due;
    RunJob(v, ui.(now := at, jobs := Without(ui.jobs, k)), ui.jobs[k].task)
  }

  /** Runs every button callback due by `t`, in queue order. */
  function AdvanceJobs(v: Variant, ui: Ui, t: int): (r: Ui)
    requires ui.now <= t
    ensures r.now == t && r.top == ui.top && r.navSolid == ui.navSolid && r.nav == ui.nav
    ensures NoneDue(r.jobs, t)
    ensures forall x :: x in r.jobs ==> x in ui.jobs
    decreases |ui.jobs|
  {
    if NoneDue(ui.jobs, t) then ui.(now := t)
    else
      var k := Earliest(ui.jobs);
      assert ui.jobs[k].due <= t;
      AdvanceJobs(v, StepJob(v, ui), t)
  }

  /**
   * `d` ms pass: the button callbacks due run, and if the debounced timer fires the
   * navigation handler sets the bar's class from the offset (which no timer changes).
   */
  function Elapse(v: Variant, ui: Ui, d: nat): (r: Ui)
    ensures r.now == ui.now + d && r.top == ui.top
    ensures !ui.nav.immediate && Debounce.Fires(ui.nav, d) ==> r.navSolid == (ui.top > NavThreshold)
    ensures !Debounce.Fires(ui.nav, d) ==> r.navSolid == ui.navSolid
  {
    var adv := Debounce.Advance(ui.nav, d);
    var done := AdvanceJobs(v, ui, ui.now + d);
    done.(nav := adv.0, navSolid := if |adv.1| > 0 then ui.top > NavThreshold else ui.navSolid)
  }

  function Apply(v: Variant, ui: Ui, e: Event): Ui {
    match e
    case Scroll(top) => OnScroll(v, ui, top)
    case Wait(d) => Elapse(v, ui, d)
  }

  function Run(v: Variant, ui: Ui, evs: seq<Event>): Ui
    decreases |evs|
  {
    if |evs| == 0 then ui else Run(v, Apply(v, ui, evs[0]), evs[1..])
  }

  /** Nothing is pending: every callback and the debounced handler have run. */
  predicate Settled(ui: Ui) {
    ui.jobs == [] && ui.nav.timeout.None?
  }

  /**
   * The debouncer shares the page clock and is the trailing, 10 ms one; every pending
   * callback is due within the next 300 ms; and once the debounced handler has run,
   * the bar's class agrees with the offset.
   */
  predicate Wf(ui: Ui) {
    && ui.nav.now == ui.now && ui.nav.wait == NavWait && !ui.nav.immediate
    && (ui.nav.timeout.Some? ==> ui.nav.timeout.value.due <= ui.now + NavWait)
    && (forall i :: 0 <= i < |ui.jobs| ==> ui.now <= ui.jobs[i].due <= ui.now + FadeTime)
    && (ui.nav.timeout.None? ==> ui.navSolid == (ui.top > NavThreshold))
  }

  lemma InitialWf(now: int)
    ensures Wf(Initial(now))
  {
  }

  lemma OnScrollWf(v: Variant, ui: Ui, top: int)
    requires Wf(ui)
    ensures Wf(OnScroll(v, ui, top))
  {
  }

  lemma {:induction false} AdvanceJobsDue(v: Variant, ui: Ui, t: int, hi: int)
    requires ui.now <= t
    requires forall i :: 0 <= i < |ui.jobs| ==> ui.now <= ui.jobs[i].due <= hi
    ensures forall i :: 0 <= i < |AdvanceJobs(v, ui, t).jobs| ==> t < AdvanceJobs(v, ui, t).jobs[i].due <= hi
    decreases |ui.jobs|
  {
    if !NoneDue(ui.jobs, t) {
      var k := Earliest(ui.jobs);
      var s := StepJob(v, ui);
      assert s.now == ui.jobs[k].due;
      forall i | 0 <= i < |s.jobs| ensures s.now <= s.jobs[i].due <= hi {
        assert s.jobs[i] in ui.jobs;
      }
      AdvanceJobsDue(v, s, t, hi);
    } else {
      forall i | 0 <= i < |AdvanceJobs(v, ui, t).jobs| ensures t < AdvanceJobs(v, ui, t).jobs[i].due <= hi {
        assert AdvanceJobs(v, ui, t).jobs[i] in ui.jobs;
      }
    }
  }

  lemma ElapseWf(v: Variant, ui: Ui, d: nat)
    requires Wf(ui)
    ensures Wf(Elapse(v, ui, d))
  {
    var adv := Debounce.Advance(ui.nav, d);
    var done := AdvanceJobs(v, ui, ui.now + d);
    AdvanceJobsDue(v, ui, ui.now + d, ui.now + FadeTime);
    var r := done.(nav := adv.0, navSolid := if |adv.1| > 0 then ui.top > NavThreshold else ui.navSolid);
    assert adv.0.timeout.None? ==> r.navSolid == (r.top > NavThreshold);
    assert forall i :: 0 <= i < |r.jobs| ==> r.now <= r.jobs[i].due <= r.now + FadeTime;
    assert Elapse(v, ui, d) == r;
  }

  /**
   * The navigation handler is debounced: for less than 10 ms after a scroll the bar keeps
   * its class, and from 10 ms on it follows the offset that scroll recorded.
   */
  lemma NavWaitsAfterScroll(v: Variant, ui: Ui, top: int, d: nat)
    requires Wf(ui)
    ensures d < NavWait ==> Elapse(v, OnScroll(v, ui, top), d).navSolid == ui.navSolid
    ensures d >= NavWait ==> Elapse(v, OnScroll(v, ui, top), d).navSolid == (top > NavThreshold)
  {
  }

  /** Once the page has been still for 300 ms, nothing is pending. */
  lemma SettlesAfterFadeTime(v: Variant, ui: Ui, d: nat)
    requires Wf(ui) && d >= FadeTime
    ensures Settled(Elapse(v, ui, d))
  {
    AdvanceJobsDue(v, ui, ui.now + d, ui.now + FadeTime);
    var r := Elapse(v, ui, d);
    DrainedQueue(r.jobs, ui.now + d, ui.now + FadeTime);
  }

  /** On a settled page the bar is opaque exactly when the offset exceeds 50, in both variants. */
  lemma NavTracksOffset(v: Variant, ui: Ui, evs: seq<Event>)
    requires Wf(ui)
    ensures Wf(Run(v, ui, evs))
    ensures Settled(Run(v, ui, evs)) ==> (Run(v, ui, evs).navSolid <==> Run(v, ui, evs).top > NavThreshold)
    decreases |evs|
  {
    if |evs| > 0 {
      match evs[0] {
        case Scroll(top) => OnScrollWf(v, ui, top);
        case Wait(d) => ElapseWf(v, ui, d);
      }
      NavTracksOffset(v, Apply(v, ui, evs[0]), evs[1..]);
    }
  }

  // ---------------------------------------------------------------------------------
  // The button, as written and guarded.
  // ---------------------------------------------------------------------------------

  /**
   * Above the threshold a button exists and is opaque or about to become so; at or
   * below it, any remaining button is transparent and about to be removed.
   */
  predicate ButtonTracks(ui: Ui) {
    && (ui.top > TopThreshold ==> ui.button.Some? && (ui.button.value.visible || Scheduled(ui.jobs, Reveal)))
    && (ui.top <= TopThreshold ==> ui.button.None? || (!ui.button.value.visible && Scheduled(ui.jobs, Discard)))
  }

  lemma OnScrollTracks(ui: Ui, top: int)
    requires ButtonTracks(ui)
    ensures ButtonTracks(OnScroll(Guarded, ui, top))
  {
    var u := ui.(top := top);
    if top > TopThreshold && ui.button.None? {
      ScheduledAppend(ui.jobs, Timer(ui.now + RevealDelay, Reveal), Reveal);
    } else if top <= TopThreshold {
      ScheduledAppend(ui.jobs, Timer(ui.now + FadeTime, Discard), Discard);
    }
  }

  /** The guarded reveal leaves the button opaque above the threshold and alone below it. */
  lemma RevealTracks(ui: Ui, k: nat)
    requires ButtonTracks(ui) && k < |ui.jobs| && ui.jobs[k].task == Reveal
    ensures ButtonTracks(RunJob(Guarded, ui.(jobs := Without(ui.jobs, k)), Reveal))
  {
    if ui.top <= TopThreshold && ui.button.Some? {
      ScheduledWithout(ui.jobs, k, Discard);
    }
  }

  /** The guarded removal removes the button below the threshold and leaves it alone above it. */
  lemma DiscardTracks(ui: Ui, k: nat)
    requires ButtonTracks(ui) && k < |ui.jobs| && ui.jobs[k].task == Discard
    ensures ButtonTracks(RunJob(Guarded, ui.(jobs := Without(ui.jobs, k)), Discard))
  {
    if ui.top > TopThreshold && !ui.button.value.visible {
      ScheduledWithout(ui.jobs, k, Reveal);
    }
  }

  lemma StepJobTracks(ui: Ui)
    requires ButtonTracks(ui) && |ui.jobs| > 0
    ensures ButtonTracks(StepJob(Guarded, ui))
  {
    var k := Earliest(ui.jobs);
    var tm := ui.jobs[k];
    var at := if tm.due < ui.now then ui.now else tm.due;
    var u := ui.(now := at);
    assert ButtonTracks(u);
    assert StepJob(Guarded, ui) == RunJob(Guarded, u.(jobs := Without(u.jobs, k)), tm.task);
    if tm.task == Reveal {
      RevealTracks(u, k);
    } else {
      DiscardTracks(u, k);
    }
  }

  lemma {:induction false} AdvanceJobsTracks(ui: Ui, t: int)
    requires ButtonTracks(ui) && ui.now <= t
    ensures ButtonTracks(AdvanceJobs(Guarded, ui, t))
    decreases |ui.jobs|
  {
    if !NoneDue(ui.jobs, t) {
      var k := Earliest(ui.jobs);
      assert ui.jobs[k].due <= t;
      StepJobTracks(ui);
      AdvanceJobsTracks(StepJob(Guarded, ui), t);
    }
  }

  /**
   * With the guarded handler, whenever the page has settled, a button is shown exactly
   * when the offset exceeds 300, and none exists at or below it.
   */
  lemma {:induction false} GuardedButtonTracksOffset(ui: Ui, evs: seq<Event>)
    requires ButtonTracks(ui)
    ensures ButtonTracks(Run(Guarded, ui, evs))
    ensures var r := Run(Guarded, ui, evs);
      r.jobs == [] ==> ((r.button.Some? && r.button.value.visible) <==> r.top > TopThreshold)
                       && (r.top <= TopThreshold ==> r.button.None?)
    decreases |evs|
  {
    if |evs| > 0 {
      match evs[0] {
        case Scroll(top) => OnScrollTracks(ui, top);
        case Wait(d) => AdvanceJobsTracks(ui, ui.now + d);
      }
      GuardedButtonTracksOffset(Apply(Guarded, ui, evs[0]), evs[1..]);
    }
  }

  /** The events of the counterexample: down to 200, 100 ms later down to 400, then a second of stillness. */
  const QuickScroll: seq<Event> := [Scroll(200), Wait(100), Scroll(400), Wait(1000)]

  /** The page just after the scroll to 400, in either variant. */
  const AfterQuickScroll: Ui := Ui(100, 400, true, Some(TopButton(false)),
                                   [Timer(300, Discard), Timer(200, Reveal)],
                                   Debounce.Debouncer(NavWait, false, 100, Some(Debounce.Pending(110, 400))))

  lemma QuickScrollPrefix(v: Variant)
    ensures OnScroll(v, Elapse(v, OnScroll(v, Initial(0), 200), 100), 400) == AfterQuickScroll
  {
    var u1 := OnScroll(v, Initial(0), 200);
    assert u1.jobs == [Timer(300, Discard)];
    assert NoneDue(u1.jobs, 100);
    assert AdvanceJobs(v, u1, 100) == u1.(now := 100);
  }

  /** Two scroll-then-wait pairs run as the four handlers in turn. */
  lemma RunTwoScrolls(v: Variant, ui: Ui, a: int, d1: nat, b: int, d2: nat)
    ensures Run(v, ui, [Scroll(a), Wait(d1), Scroll(b), Wait(d2)])
         == Elapse(v, OnScroll(v, Elapse(v, OnScroll(v, ui, a), d1), b), d2)
  {
    var evs := [Scroll(a), Wait(d1), Scroll(b), Wait(d2)];
    assert evs[1..] == [Wait(d1), Scroll(b), Wait(d2)];
    assert evs[1..][1..] == [Scroll(b), Wait(d2)];
    assert evs[1..][1..][1..] == [Wait(d2)];
    assert evs[1..][1..][1..][1..] == [];
    var u1 := OnScroll(v, ui, a);
    var u2 := Elapse(v, u1, d1);
    var u3 := OnScroll(v, u2, b);
    assert Run(v, ui, evs) == Run(v, u1, evs[1..]);
    assert Run(v, u1, evs[1..]) == Run(v, u2, evs[1..][1..]);
    assert Run(v, u2, evs[1..][1..]) == Run(v, u3, evs[1..][1..][1..]);
    assert Run(v, u3, evs[1..][1..][1..]) == Elapse(v, u3, d2);
  }

  lemma QuickScrollRun(v: Variant)
    ensures Run(v, Initial(0), QuickScroll) == Elapse(v, AfterQuickScroll, 1000)
  {
    QuickScrollPrefix(v);
    RunTwoScrolls(v, Initial(0), 200, 100, 400, 1000);
  }

  /** The reveal registered at 400 is due first, at 200. */
  lemma RevealRunsFirst()
    ensures StepJob(AsWritten, AfterQuickScroll)
         == AfterQuickScroll.(now := 200, button := Some(TopButton(true)), jobs := [Timer(300, Discard)])
  {
    var u := AfterQuickScroll;
    assert Earliest(u.jobs) == 1;
    assert Without(u.jobs, 1) == [Timer(300, Discard)];
  }

  /** The removal registered at 200 runs at 300, whatever the offset. */
  lemma DiscardRunsNext(u: Ui)
    requires u.jobs == [Timer(300, Discard)] && u.now <= 300
    ensures StepJob(AsWritten, u) == u.(now := 300, button := None, jobs := [])
  {
    assert Earliest(u.jobs) == 0;
    assert Without(u.jobs, 0) == [];
  }

  lemma AsWrittenJobs()
    ensures AdvanceJobs(AsWritten, AfterQuickScroll, 1100).button.None?
  {
    var u := AfterQuickScroll;
    RevealRunsFirst();
    var s1 := StepJob(AsWritten, u);
    assert u.jobs[1].due <= 1100;
    assert AdvanceJobs(AsWritten, u, 1100) == AdvanceJobs(AsWritten, s1, 1100);
    DiscardRunsNext(s1);
    var s2 := StepJob(AsWritten, s1);
    assert s1.jobs[0].due <= 1100;
    assert AdvanceJobs(AsWritten, s1, 1100) == AdvanceJobs(AsWritten, s2, 1100);
  }

  /**
   * As written, the removal registered by the scroll event at 200 fires after the button
   * was created at 400 and removes it: the page rests scrolled past 300 px with no button.
   */
  lemma AsWrittenLosesButton()
    ensures var r := Run(AsWritten, Initial(0), QuickScroll);
      Settled(r) && r.top > TopThreshold && r.button.None?
  {
    QuickScrollRun(AsWritten);
    AsWrittenJobs();
    AfterQuickScrollFacts();
    SettlesAfterFadeTime(AsWritten, AfterQuickScroll, 1000);
  }

  lemma AfterQuickScrollFacts()
    ensures Wf(AfterQuickScroll) && ButtonTracks(AfterQuickScroll)
  {
    var u := AfterQuickScroll;
    forall i | 0 <= i < |u.jobs| ensures u.now <= u.jobs[i].due <= u.now + FadeTime {
      if i == 0 { assert u.jobs[0].due == 300; } else { assert u.jobs[1].due == 200; }
    }
    assert u.jobs[1].task == Reveal;
  }

  /** The guarded handler keeps the button through the same events. */
  lemma GuardedKeepsButton()
    ensures var r := Run(Guarded, Initial(0), QuickScroll);
      Settled(r) && r.top > TopThreshold && r.button == Some(TopButton(true))
  {
    QuickScrollRun(Guarded);
    AfterQuickScrollFacts();
    var u := AfterQuickScroll;
    AdvanceJobsTracks(u, 1100);
    SettlesAfterFadeTime(Guarded, u, 1000);
    var j := AdvanceJobs(Guarded, u, 1100);
    var r := Elapse(Guarded, u, 1000);
    assert r.button == j.button && r.jobs == j.jobs;
    assert j.top == 400 && j.jobs == [];
    assert j.button.Some? && j.button.value.visible;
  }
}
