/**
 * The testimonial rotator: `initializeTestimonialSlider` arms a 5000 ms interval when
 * there is at least one `.testimonial-slide`; each tick advances the index modulo the
 * slide count and calls `showTestimonial`, which marks that one slide `active`.
 */
module Rotator {

  const Interval: nat := 5000

  /** The closure's `currentSlide` and the `active` class of each slide, in document order. */
  datatype Slider = Slider(current: int, active: seq<bool>)

  /** The interval is registered only when there are slides. */
  predicate Armed(s: Slider) {
    |s.active| > 0
  }

  /** Exactly slide `i` is active. */
  predicate OnlyActive(active: seq<bool>, i: int) {
    forall k :: 0 <= k < |active| ==> (active[k] <==> k == i)
  }

  /** jQuery's `.eq(index)`: a negative index counts back from the end. */
  function EqPosition(n: nat, index: int): int {
    if index < 0 then index + n else index
  }

  /** `showTestimonial(index)`: clears every slide, then activates the one `.eq(index)` selects, if any. */
  function ShowTestimonial(active: seq<bool>, index: int): (r: seq<bool>)
    ensures |r| == |active|
    ensures 0 <= index < |active| ==> OnlyActive(r, index)
    ensures -|active| <= index < 0 ==> OnlyActive(r, index + |active|)
    ensures (index >= |active| || index < -|active|) ==> forall k :: 0 <= k < |r| ==> !r[k]
  {
    var r := seq(|active|, k requires 0 <= k < |active| => k == EqPosition(|active|, index));
    assert forall k :: 0 <= k < |r| ==> (r[k] <==> k == EqPosition(|active|, index));
    r
  }

  /** Page load: the index starts at 0 and the slides keep the classes the markup gave them. */
  function Start(markup: seq<bool>): (s: Slider)
    ensures s.current == 0 && s.active == markup
  {
    Slider(0, markup)
  }

  /** One interval tick; without slides no interval exists and nothing happens. */
  function Tick(s: Slider): (r: Slider)
    ensures |r.active| == |s.active|
    ensures !Armed(s) ==> r == s
    ensures Armed(s) ==> 0 <= r.current < |s.active| && OnlyActive(r.active, r.current)
    ensures Armed(s) ==> r.current == (s.current + 1) % |s.active|
  {
    if |s.active| == 0 then s
    else
      var next := (s.current + 1) % |s.active|;
      Slider(next, ShowTestimonial(s.active, next))
  }

  /** `k` ticks of the interval. */
  function Ticks(s: Slider, k: nat): Slider {
    if k == 0 then s else Tick(Ticks(s, k - 1))
  }

  /** Euclidean division is unique: a quotient and an in-range remainder fix `a % n`. */
  lemma ModOfMultiplePlus(q: int, n: int, r: int)
    requires n > 0 && 0 <= r < n
    ensures (q * n + r) % n == r
  {
    var a := q * n + r;
    var q' := a / n;
    var r' := a % n;
    assert a == q' * n + r';
    var d := q - q';
    assert d * n == r' - r by {
      assert d * n == q * n - q' * n;
    }
    assert d == 0;
  }

  lemma SuccessorMod(k: nat, n: nat)
    requires n > 0 && k > 0
    ensures ((k - 1) % n + 1) % n == k % n
  {
    var q := (k - 1) / n;
    var r := (k - 1) % n;
    assert k - 1 == q * n + r;
    if r + 1 < n {
      ModOfMultiplePlus(q, n, r + 1);
      ModOfMultiplePlus(0, n, r + 1);
    } else {
      assert (q + 1) * n == q * n + n;
      ModOfMultiplePlus(q + 1, n, 0);
      ModOfMultiplePlus(1, n, 0);
    }
  }

  /** After `k` ticks the index is `k mod n` and, once a tick has happened, exactly that slide is active. */
  lemma {:induction false} TicksCycle(markup: seq<bool>, k: nat)
    requires |markup| > 0
    ensures Ticks(Start(markup), k).current == k % |markup|
    ensures |Ticks(Start(markup), k).active| == |markup|
    ensures k > 0 ==> OnlyActive(Ticks(Start(markup), k).active, k % |markup|)
  {
    if k > 0 {
      TicksCycle(markup, k - 1);
      SuccessorMod(k, |markup|);
    }
  }

  /** With no slides no interval is armed: any number of ticks changes nothing. */
  lemma {:induction false} NoSlidesNoTicks(k: nat)
    ensures Ticks(Start([]), k) == Start([])
  {
    if k > 0 {
      NoSlidesNoTicks(k - 1);
    }
  }

  /** The slider `elapsed` milliseconds after load. */
  function SliderAt(markup: seq<bool>, elapsed: nat): Slider {
    Ticks(Start(markup), elapsed / Interval)
  }

  /** From the first tick on, the active slide is the number of whole intervals elapsed, modulo the count. */
  lemma ActiveSlideAt(markup: seq<bool>, elapsed: nat)
    requires |markup| > 0 && elapsed >= Interval
    ensures OnlyActive(SliderAt(markup, elapsed).active, (elapsed / Interval) % |markup|)
    ensures 0 <= SliderAt(markup, elapsed).current < |markup|
  {
    TicksCycle(markup, elapsed / Interval);
  }
}
