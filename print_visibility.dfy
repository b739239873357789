/**
 * Hiding rows for printing.
 *
 * Before printing, every row whose description select has no value is
 * hidden and the rows are renumbered; after printing every row is shown
 * again and renumbered. A row that already has a description keeps its
 * visibility; nothing else about a row changes.
 */
module PrintVisibility {
  import opened Rows
  import opened Totals

  /** The `beforeprint` loop: hide every row whose description is empty. */
  function HideEmpty(s: seq<Row>): (r: seq<Row>)
    ensures |r| == |s|
    ensures forall i :: 0 <= i < |s| ==> (r[i].hidden <==> s[i].hidden || s[i].desc == "")
    ensures forall i :: 0 <= i < |s| ==> r[i].(hidden := s[i].hidden) == s[i]
  {
    if s == [] then []
    else [if s[0].desc == "" then s[0].(hidden := true) else s[0]] + HideEmpty(s[1..])
  }

  /** The `afterprint` loop: show every row. */
  function ShowAll(s: seq<Row>): (r: seq<Row>)
    ensures |r| == |s|
    ensures forall i :: 0 <= i < |s| ==> !r[i].hidden
    ensures forall i :: 0 <= i < |s| ==> r[i].(hidden := s[i].hidden) == s[i]
  {
    if s == [] then [] else [s[0].(hidden := false)] + ShowAll(s[1..])
  }

  /**
   * After `beforeprint` a row is hidden exactly when its description is
   * empty or it was hidden already, and only its number and its hidden
   * flag can have changed.
   */
  lemma BeforePrintHidesEmpty(s: seq<Row>)
    ensures var r := NumberFrom(HideEmpty(s), 1);
      |r| == |s| &&
      forall i :: 0 <= i < |s| ==>
        (r[i].hidden <==> s[i].hidden || s[i].desc == "") &&
        r[i].(number := s[i].number, hidden := s[i].hidden) == s[i]
  {
  }

  /** `afterprint` numbers every row by its position and sets the counter to the number of rows. */
  lemma AfterPrintNumbering(s: seq<Row>)
    ensures var r := NumberFrom(ShowAll(s), 1);
      (forall i :: 0 <= i < |r| ==> !r[i].hidden && r[i].number == i + 1) &&
      VisibleCount(ShowAll(s)) == |s|
  {
    NumberFromAllVisible(ShowAll(s), 1);
  }

  /** What `afterprint` produces does not depend on the numbers and flags `beforeprint` left behind. */
  lemma AfterPrintForgetsHiding(s: seq<Row>)
    ensures NumberFrom(ShowAll(NumberFrom(HideEmpty(s), 1)), 1) == NumberFrom(ShowAll(s), 1)
  {
    var a := ShowAll(NumberFrom(HideEmpty(s), 1));
    var b := ShowAll(s);
    NumberFromAllVisible(a, 1);
    NumberFromAllVisible(b, 1);
    BeforePrintHidesEmpty(s);
    var ra, rb := NumberFrom(a, 1), NumberFrom(b, 1);
    forall i | 0 <= i < |s|
      ensures ra[i] == rb[i]
    {
      assert ra[i].(number := a[i].number) == a[i];
      assert rb[i].(number := b[i].number) == b[i];
    }
  }

  /** On rows that are all shown and numbered 1..n in order, `afterprint` changes nothing. */
  lemma AfterPrintKeepsNumbered(s: seq<Row>)
    requires forall i :: 0 <= i < |s| ==> !s[i].hidden && s[i].number == i + 1
    ensures NumberFrom(ShowAll(s), 1) == s
  {
    var b := ShowAll(s);
    NumberFromAllVisible(b, 1);
    assert NumberFrom(b, 1) == s;
  }

  /**
   * Printing a note in its normal state (no row hidden, rows numbered 1..n
   * in order) restores it exactly: every row is shown again with the number
   * it had.
   */
  lemma PrintRoundTrip(s: seq<Row>)
    requires forall i :: 0 <= i < |s| ==> !s[i].hidden && s[i].number == i + 1
    ensures NumberFrom(ShowAll(NumberFrom(HideEmpty(s), 1)), 1) == s
  {
    AfterPrintForgetsHiding(s);
    AfterPrintKeepsNumbered(s);
  }

  /** Hiding and showing rows leave the grand total as it was: hidden rows still count. */
  lemma PrintKeepsTotal(s: seq<Row>)
    ensures SumSubtotals(NumberFrom(HideEmpty(s), 1)) == SumSubtotals(s)
    ensures SumSubtotals(NumberFrom(ShowAll(s), 1)) == SumSubtotals(s)
  {
    BeforePrintHidesEmpty(s);
    SumSubtotalsSameCells(NumberFrom(HideEmpty(s), 1), s);
    var b := ShowAll(s);
    var rb := NumberFrom(b, 1);
    forall i | 0 <= i < |s|
      ensures rb[i].subtotal == s[i].subtotal
    {
      assert rb[i].(number := b[i].number) == b[i];
    }
    SumSubtotalsSameCells(rb, s);
  }

  /**
   * What `beforeprint` leaves behind is numbered, its counter is the number
   * of rows still shown, its subtotal cells are as current as before and
   * its total is the same.
   */
  lemma BeforePrintKeepsInvariant(s: seq<Row>)
    requires SubtotalsCurrent(s)
    ensures var r := NumberFrom(HideEmpty(s), 1);
      Numbered(r, VisibleCount(HideEmpty(s))) && SubtotalsCurrent(r) && SumSubtotals(r) == SumSubtotals(s)
  {
    NumberedAfterRenumber(HideEmpty(s));
    PrintKeepsTotal(s);
    BeforePrintHidesEmpty(s);
  }

  /**
   * What `afterprint` leaves behind shows every row, numbered 1..n in order
   * with counter n, with subtotal cells as current as before and the same
   * total.
   */
  lemma AfterPrintKeepsInvariant(s: seq<Row>)
    requires SubtotalsCurrent(s)
    ensures var r := NumberFrom(ShowAll(s), 1);
      VisibleCount(ShowAll(s)) == |s| && Numbered(r, |s|) && SubtotalsCurrent(r) && SumSubtotals(r) == SumSubtotals(s) &&
      forall j :: 0 <= j < |r| ==> !r[j].hidden && r[j].number == j + 1
  {
    NumberedAfterRenumber(ShowAll(s));
    AfterPrintNumbering(s);
    PrintKeepsTotal(s);
    var b := ShowAll(s);
    var r := NumberFrom(b, 1);
    forall j | 0 <= j < |s|
      ensures r[j].qty == s[j].qty && r[j].price == s[j].price && r[j].subtotal == s[j].subtotal
    {
      assert r[j].(number := b[j].number) == b[j];
    }
  }

  /** Once every description has been reset, `beforeprint` hides every row and the counter drops to 0. */
  lemma {:induction false} ClearedRowsAllHide(s: seq<Row>)
    ensures var r := NumberFrom(HideEmpty(ClearDescriptions(s)), 1);
      (forall i :: 0 <= i < |r| ==> r[i].hidden) && VisibleCount(HideEmpty(ClearDescriptions(s))) == 0
  {
    if s != [] {
      var h := HideEmpty(ClearDescriptions(s));
      assert h[1..] == HideEmpty(ClearDescriptions(s[1..]));
      ClearedRowsAllHide(s[1..]);
    }
  }
}
