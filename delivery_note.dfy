/**
 * The page state of the delivery-note editor and its event handlers.
 *
 * The script keeps a global row counter, the product catalog, the table of
 * rows and the grand-total cell, and changes them in place from event
 * handlers. `Page` holds the same four things; each method is one handler
 * or one of the helpers they call, and states the whole new state.
 *
 * `Valid()` is what every handler keeps: the rows are numbered as
 * `renumberRows` leaves them and the counter is the number of rows shown,
 * every subtotal cell shows quantity times price, and the grand-total cell
 * shows the sum of the subtotal cells.
 */
module DeliveryNote {
  import opened Wrappers
  import opened Rows
  import opened Totals
  import opened PrintVisibility
  import opened Selection

  class Page {
    var rows: seq<Row>          // the rows of the table, in display order
    var rowCount: nat           // the global counter `rowCount`
    var catalog: seq<Product>   // the global `productsDB`
    var grandTotal: int         // the grand-total cell, in cents

    ghost predicate Valid()
      reads this
    {
      Numbered(rows, rowCount) && SubtotalsCurrent(rows) && grandTotal == SumSubtotals(rows)
    }

    /** The page as loaded: no rows, counter 0, empty catalog, total 0. */
    constructor ()
      ensures Valid()
      ensures rows == [] && rowCount == 0 && catalog == [] && grandTotal == 0
    {
      rows, rowCount, catalog, grandTotal := [], 0, [], 0;
    }

    /**
     * `loadProducts`: the outcome of the fetch is a parameter. A catalog
     * that arrived replaces `productsDB` and every row's options are rebuilt,
     * which resets every description to the empty placeholder. On a failure
     * nothing changes.
     */
    method LoadCatalog(fetched: Option<seq<Product>>)
      requires Valid()
      modifies this`catalog, this`rows
      ensures Valid()
      ensures catalog == if fetched.Some? then fetched.value else old(catalog)
      ensures rows == if fetched.Some? then ClearDescriptions(old(rows)) else old(rows)
    {
      if fetched.Some? {
        catalog := fetched.value;
        PopulateAllSelects();
      }
    }

    /**
     * `populateAllSelects`: every row's select loses all options but the
     * placeholder and gets the catalog's; the option that was selected is
     * gone, so every description becomes empty.
     */
    method PopulateAllSelects()
      requires Valid()
      modifies this`rows
      ensures Valid()
      ensures rows == ClearDescriptions(old(rows))
    {
      var i := 0;
      while i < |rows|
        invariant 0 <= i <= |rows| == |old(rows)|
        invariant forall j :: 0 <= j < i ==> rows[j] == ClearDescriptions(old(rows))[j]
        invariant forall j :: i <= j < |rows| ==> rows[j] == old(rows)[j]
      {
        rows := rows[i := rows[i].(desc := "")];
        i := i + 1;
      }
      assert rows == ClearDescriptions(old(rows));
      NumberedClearDescriptions(old(rows), rowCount);
      ClearDescriptionsKeepsTotals(old(rows));
    }

    /** `updateGrandTotal`: add up every row's subtotal cell, hidden rows included. */
    method UpdateGrandTotal()
      modifies this`grandTotal
      ensures grandTotal == SumSubtotals(rows)
    {
      var total := 0;
      var i := 0;
      assert rows[i..] == rows;
      while i < |rows|
        invariant 0 <= i <= |rows|
        invariant total + SumSubtotals(rows[i..]) == SumSubtotals(rows)
      {
        assert rows[i..][1..] == rows[i + 1..];
        total := total + ValueOr0(rows[i].subtotal);
        i := i + 1;
      }
      grandTotal := total;
    }

    /**
     * `renumberRows`: number the rows that are not hidden 1, 2, ... in
     * display order, then set the counter to the last number given.
     */
    method RenumberRows()
      modifies this`rows, this`rowCount
      ensures rows == NumberFrom(old(rows), 1)
      ensures rowCount == VisibleCount(old(rows))
    {
      ghost var target := NumberFrom(rows, 1);
      var n := 1;
      var i := 0;
      while i < |rows|
        invariant 0 <= i <= |rows| == |old(rows)|
        invariant forall j :: 0 <= j < i ==> rows[j] == target[j]
        invariant forall j :: i <= j < |rows| ==> rows[j] == old(rows)[j]
        invariant n == 1 + VisibleCount(old(rows)[..i])
      {
        VisibleCountAppend(old(rows)[..i], [old(rows)[i]]);
        assert old(rows)[..i + 1] == old(rows)[..i] + [old(rows)[i]];
        if !rows[i].hidden {
          NumberFromAt(old(rows), 1, i);
          rows := rows[i := rows[i].(number := n)];
          n := n + 1;
        }
        i := i + 1;
      }
      assert rows == target;
      assert old(rows)[..i] == old(rows);
      rowCount := n - 1;
    }

    /** `updateSubtotal` of row `i`: its cell shows quantity times price, then the total is redone. */
    method UpdateSubtotal(i: nat)
      requires i < |rows|
      modifies this`rows, this`grandTotal
      ensures rows == old(rows)[i := old(rows[i]).(subtotal := Some(LineAmount(old(rows[i].qty), old(rows[i].price))))]
      ensures grandTotal == SumSubtotals(rows)
    {
      rows := rows[i := rows[i].(subtotal := Some(LineAmount(rows[i].qty, rows[i].price)))];
      UpdateGrandTotal();
    }

    /**
     * `addRow`: count one more row and append it with that number, quantity
     * 1, no description, no price and subtotal 0; the total is unchanged.
     */
    method AddRow()
      requires Valid()
      modifies this`rows, this`rowCount, this`grandTotal
      ensures Valid()
      ensures rowCount == old(rowCount) + 1
      ensures rows == old(rows) + [BlankRow(old(rowCount) + 1)]
      ensures grandTotal == old(grandTotal)
    {
      rowCount := rowCount + 1;
      rows := rows + [BlankRow(rowCount)];
      UpdateSubtotal(|rows| - 1);
      assert rows == old(rows) + [BlankRow(rowCount)];
      NumberedAppend(old(rows), old(rowCount), BlankRow(rowCount));
      SumSubtotalsAppend(old(rows), [BlankRow(rowCount)]);
    }

    /**
     * The delete button of row `i`: remove the row, redo the total, then
     * renumber the rows that remain, which keep their order.
     */
    method DeleteRow(i: nat)
      requires Valid() && i < |rows|
      modifies this`rows, this`rowCount, this`grandTotal
      ensures Valid()
      ensures rows == NumberFrom(old(rows[..i] + rows[i + 1..]), 1)
      ensures rowCount == VisibleCount(old(rows[..i] + rows[i + 1..]))
      ensures grandTotal == old(grandTotal) - ValueOr0(old(rows[i].subtotal))
    {
      SumSubtotalsRemove(rows, i);
      rows := rows[..i] + rows[i + 1..];
      ghost var remaining := rows;
      UpdateGrandTotal();
      RenumberRows();
      NumberedAfterRenumber(remaining);
      SumSubtotalsSameCells(rows, remaining);
    }

    /** A change to row `i` that leaves its number and its hidden flag alone and redoes its subtotal. */
    method SetRow(i: nat, x: Row)
      requires Valid() && i < |rows|
      requires x.number == rows[i].number && x.hidden == rows[i].hidden
      modifies this`rows, this`grandTotal
      ensures Valid()
      ensures rows == old(rows)[i := x.(subtotal := Some(LineAmount(x.qty, x.price)))]
      ensures grandTotal == old(grandTotal) - ValueOr0(old(rows[i].subtotal)) + LineAmount(x.qty, x.price)
    {
      rows := rows[i := x];
      UpdateSubtotal(i);
      assert rows == old(rows)[i := rows[i]];
      NumberedUpdate(old(rows), rowCount, i, rows[i]);
      SumSubtotalsUpdate(old(rows), i, rows[i]);
    }

    /**
     * The `select2:select` handler of row `i`: the selected text becomes
     * the row's description, the price becomes that of the first catalog
     * entry with that description or empty, and the subtotal is redone.
     */
    method OnSelect(i: nat, text: string)
      requires Valid() && i < |rows|
      modifies this`rows, this`grandTotal
      ensures Valid()
      ensures var price := ResolvePrice(catalog, text);
        rows == old(rows)[i := old(rows[i]).(desc := text, price := price,
                                             subtotal := Some(LineAmount(old(rows[i].qty), price)))]
      ensures grandTotal == old(grandTotal) - ValueOr0(old(rows[i].subtotal))
                            + LineAmount(old(rows[i].qty), ResolvePrice(catalog, text))
    {
      var found := ResolvePrice(catalog, text);
      SetRow(i, rows[i].(desc := text, price := found));
    }

    /** The `input` handler of row `i`'s quantity field. */
    method OnQuantityInput(i: nat, qty: Option<int>)
      requires Valid() && i < |rows|
      modifies this`rows, this`grandTotal
      ensures Valid()
      ensures rows == old(rows)[i := old(rows[i]).(qty := qty,
                                                   subtotal := Some(LineAmount(qty, old(rows[i].price))))]
      ensures grandTotal == old(grandTotal) - ValueOr0(old(rows[i].subtotal)) + LineAmount(qty, old(rows[i].price))
    {
      SetRow(i, rows[i].(qty := qty));
    }

    /** The `input` handler of row `i`'s price field. */
    method OnPriceInput(i: nat, price: Option<int>)
      requires Valid() && i < |rows|
      modifies this`rows, this`grandTotal
      ensures Valid()
      ensures rows == old(rows)[i := old(rows[i]).(price := price,
                                                   subtotal := Some(LineAmount(old(rows[i].qty), price)))]
      ensures grandTotal == old(grandTotal) - ValueOr0(old(rows[i].subtotal)) + LineAmount(old(rows[i].qty), price)
    {
      SetRow(i, rows[i].(price := price));
    }

    /** The `beforeprint` handler: hide every row with an empty description, then renumber. */
    method BeforePrint()
      requires Valid()
      modifies this`rows, this`rowCount
      ensures Valid()
      ensures rows == NumberFrom(HideEmpty(old(rows)), 1)
      ensures rowCount == VisibleCount(HideEmpty(old(rows)))
    {
      HideEmptyRows();
      RenumberRows();
      BeforePrintKeepsInvariant(old(rows));
    }

    /** The loop of `beforeprint`: a row whose select has no value is hidden. */
    method HideEmptyRows()
      modifies this`rows
      ensures rows == HideEmpty(old(rows))
    {
      var i := 0;
      while i < |rows|
        invariant 0 <= i <= |rows| == |old(rows)|
        invariant forall j :: 0 <= j < i ==> rows[j] == HideEmpty(old(rows))[j]
        invariant forall j :: i <= j < |rows| ==> rows[j] == old(rows)[j]
      {
        if rows[i].desc == "" {
          rows := rows[i := rows[i].(hidden := true)];
        }
        i := i + 1;
      }
    }

    /**
     * The `afterprint` handler: show every row, then renumber, so that the
     * rows are numbered 1..n in order and the counter is n.
     */
    method AfterPrint()
      requires Valid()
      modifies this`rows, this`rowCount
      ensures Valid()
      ensures rows == NumberFrom(ShowAll(old(rows)), 1)
      ensures rowCount == |rows|
      ensures forall j :: 0 <= j < |rows| ==> !rows[j].hidden && rows[j].number == j + 1
    {
      ShowAllRows();
      RenumberRows();
      AfterPrintKeepsInvariant(old(rows));
    }

    /** The loop of `afterprint`: every row is shown. */
    method ShowAllRows()
      modifies this`rows
      ensures rows == ShowAll(old(rows))
    {
      var i := 0;
      while i < |rows|
        invariant 0 <= i <= |rows| == |old(rows)|
        invariant forall j :: 0 <= j < i ==> rows[j] == ShowAll(old(rows))[j]
        invariant forall j :: i <= j < |rows| ==> rows[j] == old(rows)[j]
      {
        rows := rows[i := rows[i].(hidden := false)];
        i := i + 1;
      }
    }

    /**
     * The print button: `window.print()` raises `beforeprint` and then
     * `afterprint`. A note with no hidden row comes back exactly as it was.
     */
    method Print()
      requires Valid()
      requires forall j :: 0 <= j < |rows| ==> !rows[j].hidden
      modifies this`rows, this`rowCount
      ensures Valid()
      ensures rows == old(rows) && rowCount == old(rowCount)
    {
      NumberFromAllVisible(rows, 1);
      PrintRoundTrip(rows);
      BeforePrint();
      AfterPrint();
    }
  }

  /**
   * Adding a row and deleting it again with its delete button gives back
   * the rows, the counter and the total that held before.
   */
  method AddThenDelete(p: Page)
    requires p.Valid()
    modifies p
    ensures p.Valid()
    ensures p.rows == old(p.rows) && p.rowCount == old(p.rowCount) && p.grandTotal == old(p.grandTotal)
  {
    p.AddRow();
    assert p.rows[..|p.rows| - 1] + p.rows[|p.rows|..] == old(p.rows);
    p.DeleteRow(|p.rows| - 1);
  }
}
