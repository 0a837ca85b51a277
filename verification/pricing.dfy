/**
 * The pricing toggle: a click on `.pricing-toggle` rewrites the price text of every
 * `.pricing-card` from its `data-monthly` or `data-annual` value.
 */
module Pricing {
  import opened Wrappers

  /** A card's two data values (opaque strings) and its current price text. */
  datatype Card = Card(monthly: string, annual: string, price: string)

  /** The price text: `$X/year` for the annual toggle, `$X/month` otherwise. */
  function PriceLabel(annual: bool, c: Card): string {
    if annual then "$" + c.annual + "/year" else "$" + c.monthly + "/month"
  }

  /** A click on the toggle; `annual` is whether it carries the `annual` class. */
  function TogglePricing(cards: seq<Card>, annual: bool): (r: seq<Card>)
    ensures |r| == |cards|
    ensures forall i :: 0 <= i < |r| ==>
      r[i].monthly == cards[i].monthly && r[i].annual == cards[i].annual && r[i].price == PriceLabel(annual, cards[i])
  {
    seq(|cards|, i requires 0 <= i < |cards| => cards[i].(price := PriceLabel(annual, cards[i])))
  }

  predicate EndsWith(s: string, suffix: string) {
    |suffix| <= |s| && s[|s| - |suffix|..] == suffix
  }

  /** Reads a price text back: whether it is yearly, and the value between `$` and the period. */
  function ParseLabel(text: string): Option<(bool, string)> {
    if |text| >= 6 && text[0] == '$' && EndsWith(text, "/year") then Some((true, text[1..|text| - 5]))
    else if |text| >= 7 && text[0] == '$' && EndsWith(text, "/month") then Some((false, text[1..|text| - 6]))
    else None
  }

  /** The price text names its period and carries the card's value unchanged. */
  lemma LabelRoundTrip(annual: bool, c: Card)
    ensures ParseLabel(PriceLabel(annual, c)) == Some((annual, if annual then c.annual else c.monthly))
  {
    var t := PriceLabel(annual, c);
    if annual {
      assert t[1..|t| - 5] == c.annual;
      assert t[|t| - 5..] == "/year";
    } else {
      assert t[1..|t| - 6] == c.monthly;
      assert t[|t| - 6..] == "/month";
      assert t[|t| - 5..] != "/year" by {
        assert t[|t| - 5..][0] == 'm';
      }
    }
  }

  /** The text depends only on the last click: toggling again the same way changes nothing. */
  lemma ToggleIdempotent(cards: seq<Card>, annual: bool, last: bool)
    ensures TogglePricing(TogglePricing(cards, last), annual) == TogglePricing(cards, annual)
  {
  }
}
