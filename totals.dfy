/**
 * Subtotals and the grand total.
 *
 * `updateSubtotal` writes quantity times price into the row's subtotal cell,
 * reading an empty or unparseable input as 0 (`parseFloat(x) || 0`).
 * `updateGrandTotal` adds up the subtotal CELLS of every row, hidden or not,
 * again reading an unparseable cell as 0; it never goes back to quantity and
 * price.
 */
module Totals {
  import opened Wrappers
  import opened Rows

  /** The number an input or a cell stands for: `parseFloat(text) || 0`. */
  function ValueOr0(f: Option<int>): int {
    match f
    case Some(v) => v
    case None => 0
  }

  /** What `updateSubtotal` writes into the subtotal cell. */
  function LineAmount(qty: Option<int>, price: Option<int>): (amount: int)
    ensures qty.None? || price.None? ==> amount == 0
    ensures qty.Some? && price.Some? ==> amount == qty.value * price.value
  {
    ValueOr0(qty) * ValueOr0(price)
  }

  /** What `updateGrandTotal` computes: the sum of the displayed subtotals of all rows. */
  function SumSubtotals(s: seq<Row>): int {
    if s == [] then 0 else ValueOr0(s[0].subtotal) + SumSubtotals(s[1..])
  }

  /** Every row's subtotal cell shows quantity times price, as `updateSubtotal` leaves it. */
  predicate SubtotalsCurrent(s: seq<Row>) {
    forall i :: 0 <= i < |s| ==> s[i].subtotal == Some(LineAmount(s[i].qty, s[i].price))
  }

  /** The total recomputed from quantities and prices, which the script never does. */
  function SumLineAmounts(s: seq<Row>): int {
    if s == [] then 0 else LineAmount(s[0].qty, s[0].price) + SumLineAmounts(s[1..])
  }

  lemma {:induction false} SumSubtotalsAppend(s: seq<Row>, t: seq<Row>)
    ensures SumSubtotals(s + t) == SumSubtotals(s) + SumSubtotals(t)
  {
    if s == [] {
      assert s + t == t;
    } else {
      assert (s + t)[1..] == s[1..] + t;
      SumSubtotalsAppend(s[1..], t);
    }
  }

  /**
   * The total reads the subtotal cells and nothing else: numbers, hidden
   * flags, descriptions, quantities and prices do not enter it.
   */
  lemma {:induction false} SumSubtotalsSameCells(s: seq<Row>, t: seq<Row>)
    requires |s| == |t|
    requires forall i :: 0 <= i < |s| ==> s[i].subtotal == t[i].subtotal
    ensures SumSubtotals(s) == SumSubtotals(t)
  {
    if s != [] {
      SumSubtotalsSameCells(s[1..], t[1..]);
    }
  }

  /** Deleting a row lowers the total by exactly the subtotal that row displayed. */
  lemma SumSubtotalsRemove(s: seq<Row>, i: nat)
    requires i < |s|
    ensures SumSubtotals(s[..i] + s[i + 1..]) == SumSubtotals(s) - ValueOr0(s[i].subtotal)
  {
    assert s == s[..i] + ([s[i]] + s[i + 1..]);
    SumSubtotalsAppend(s[..i], [s[i]] + s[i + 1..]);
    SumSubtotalsAppend(s[..i], s[i + 1..]);
  }

  /** Changing one row's subtotal cell moves the total by the difference. */
  lemma SumSubtotalsUpdate(s: seq<Row>, i: nat, x: Row)
    requires i < |s|
    ensures SumSubtotals(s[i := x]) == SumSubtotals(s) - ValueOr0(s[i].subtotal) + ValueOr0(x.subtotal)
  {
    assert s == s[..i] + ([s[i]] + s[i + 1..]);
    assert s[i := x] == s[..i] + ([x] + s[i + 1..]);
    SumSubtotalsAppend(s[..i], [s[i]] + s[i + 1..]);
    SumSubtotalsAppend(s[..i], [x] + s[i + 1..]);
  }

  /**
   * While every subtotal cell is current, the total of the displayed
   * subtotals equals the total of quantity times price (amounts are exact
   * integers here, so no rounding can make them drift apart).
   */
  lemma {:induction false} GrandTotalMatchesLineAmounts(s: seq<Row>)
    requires SubtotalsCurrent(s)
    ensures SumSubtotals(s) == SumLineAmounts(s)
  {
    if s != [] {
      GrandTotalMatchesLineAmounts(s[1..]);
    }
  }

  /** Resetting every description leaves the subtotal cells, and so the total, as they were. */
  lemma ClearDescriptionsKeepsTotals(s: seq<Row>)
    requires SubtotalsCurrent(s)
    ensures SubtotalsCurrent(ClearDescriptions(s))
    ensures SumSubtotals(ClearDescriptions(s)) == SumSubtotals(s)
  {
    SumSubtotalsSameCells(ClearDescriptions(s), s);
  }
}
