/**
 * The FAQ accordion: one entry per question, with whether its answer is shown
 * (settled, after the slide animation) and whether its icon is the minus sign.
 */
module Faq {

  datatype Entry = Entry(open: bool, minus: bool)

  /** At most one answer is open. */
  predicate AtMostOneOpen(items: seq<Entry>) {
    forall j, k :: 0 <= j < |items| && 0 <= k < |items| && items[j].open && items[k].open ==> j == k
  }

  /** Every icon is the minus sign exactly when its answer is open. */
  predicate IconsMatch(items: seq<Entry>) {
    forall j :: 0 <= j < |items| ==> (items[j].minus <==> items[j].open)
  }

  predicate Valid(items: seq<Entry>) {
    AtMostOneOpen(items) && IconsMatch(items)
  }

  /** The markup: every answer closed, every icon a plus. */
  function Initial(n: nat): (items: seq<Entry>)
    ensures |items| == n && Valid(items)
  {
    seq(n, _ => Entry(false, false))
  }

  /**
   * A click on question `i`. An open answer closes and only its icon turns to plus;
   * otherwise every open answer closes, every icon turns to plus, and answer `i` opens
   * with a minus icon.
   */
  function Click(items: seq<Entry>, i: nat): (r: seq<Entry>)
    requires i < |items|
    ensures |r| == |items|
    ensures items[i].open ==> !r[i].open && !r[i].minus && forall j :: 0 <= j < |items| && j != i ==> r[j] == items[j]
    ensures !items[i].open ==> forall j :: 0 <= j < |items| ==> (r[j].open <==> j == i) && (r[j].minus <==> j == i)
  {
    if items[i].open then items[i := Entry(false, false)]
    else seq(|items|, j requires 0 <= j < |items| => if j == i then Entry(true, true) else Entry(false, false))
  }

  /** Every click keeps the accordion valid. */
  lemma ClickPreservesValid(items: seq<Entry>, i: nat)
    requires i < |items| && Valid(items)
    ensures Valid(Click(items, i))
  {
  }

  /** On a valid accordion, clicking the open question leaves every answer closed. */
  lemma ClickOpenClosesAll(items: seq<Entry>, i: nat)
    requires i < |items| && Valid(items) && items[i].open
    ensures forall j :: 0 <= j < |items| ==> !Click(items, i)[j].open && !Click(items, i)[j].minus
  {
  }

  /** A run of clicks on existing questions, in order. */
  function Clicks(items: seq<Entry>, clicks: seq<nat>): (r: seq<Entry>)
    requires forall k :: 0 <= k < |clicks| ==> clicks[k] < |items|
    ensures |r| == |items|
    decreases |clicks|
  {
    if |clicks| == 0 then items else Clicks(Click(items, clicks[0]), clicks[1..])
  }

  /** Any run of clicks keeps the accordion valid. */
  lemma {:induction false} ClicksPreserveValid(items: seq<Entry>, clicks: seq<nat>)
    requires forall k :: 0 <= k < |clicks| ==> clicks[k] < |items|
    requires Valid(items)
    ensures Valid(Clicks(items, clicks))
    decreases |clicks|
  {
    if |clicks| > 0 {
      ClickPreservesValid(items, clicks[0]);
      ClicksPreserveValid(Click(items, clicks[0]), clicks[1..]);
    }
  }
}
