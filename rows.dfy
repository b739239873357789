/**
 * The rows of the delivery note and their numbering.
 *
 * A row of the table is reduced to the values the script reads and writes:
 * the text of its number cell, the value of its description select, its
 * quantity and unit-price inputs, the text of its subtotal cell and whether
 * it is hidden (`style.display == "none"`). Amounts are integers (prices and
 * subtotals in cents); an input that is empty or does not parse is `None`.
 */
module Rows {
  import opened Wrappers

  datatype Row = Row(
    number: nat,           // text of the row-number cell
    desc: string,          // value of the description select, "" when nothing is selected
    qty: Option<int>,      // quantity input
    price: Option<int>,    // unit-price input, in cents
    subtotal: Option<int>, // subtotal cell, in cents
    hidden: bool)          // hidden for printing

  /** The row `addRow` builds: quantity 1, nothing selected, no price, subtotal "0.00". */
  function BlankRow(number: nat): Row {
    Row(number, "", Some(1), None, Some(0), false)
  }

  /** The number of rows that are not hidden. */
  function VisibleCount(s: seq<Row>): (k: nat)
    ensures k <= |s|
  {
    if s == [] then 0 else (if s[0].hidden then 0 else 1) + VisibleCount(s[1..])
  }

  /**
   * The rows after numbering them in display order starting from `n`:
   * every row that is not hidden gets the next number, a hidden row keeps
   * its own. `renumberRows` computes `NumberFrom(rows, 1)`.
   */
  function NumberFrom(s: seq<Row>, n: nat): (r: seq<Row>)
    ensures |r| == |s|
    ensures forall i :: 0 <= i < |s| ==> r[i].(number := s[i].number) == s[i]
    ensures forall i :: 0 <= i < |s| && s[i].hidden ==> r[i] == s[i]
  {
    if s == [] then []
    else if s[0].hidden then [s[0]] + NumberFrom(s[1..], n)
    else [s[0].(number := n)] + NumberFrom(s[1..], n + 1)
  }

  /** The numbers shown by the rows that are not hidden, in display order. */
  function VisibleNumbers(s: seq<Row>): seq<nat> {
    if s == [] then [] else (if s[0].hidden then [] else [s[0].number]) + VisibleNumbers(s[1..])
  }

  /** The numbers lo, lo + 1, ..., hi - 1. */
  function Range(lo: nat, hi: nat): seq<nat>
    decreases hi - lo
  {
    if hi <= lo then [] else [lo] + Range(lo + 1, hi)
  }

  /** The rows are numbered as `renumberRows` leaves them and `count` is the number of rows shown. */
  predicate Numbered(s: seq<Row>, count: int) {
    NumberFrom(s, 1) == s && count == VisibleCount(s)
  }

  /** Numbering gives the rows that are not hidden the numbers n .. n+k-1, in display order. */
  lemma {:induction false} NumberFromContiguous(s: seq<Row>, n: nat)
    ensures VisibleNumbers(NumberFrom(s, n)) == Range(n, n + VisibleCount(s))
  {
    if s != [] {
      var n' := if s[0].hidden then n else n + 1;
      var r := NumberFrom(s, n);
      assert r[1..] == NumberFrom(s[1..], n');
      NumberFromContiguous(s[1..], n');
    }
  }

  /** A row that is not hidden is numbered by its position among the rows shown. */
  lemma {:induction false} NumberFromAt(s: seq<Row>, n: nat, i: nat)
    requires i < |s| && !s[i].hidden
    ensures NumberFrom(s, n)[i].number == n + VisibleCount(s[..i])
  {
    var n' := if s[0].hidden then n else n + 1;
    assert NumberFrom(s, n)[1..] == NumberFrom(s[1..], n');
    if i > 0 {
      NumberFromAt(s[1..], n', i - 1);
      assert s[1..][..i - 1] == s[..i][1..];
    }
  }

  /** When no row is hidden, every row is numbered by its position. */
  lemma {:induction false} NumberFromAllVisible(s: seq<Row>, n: nat)
    requires forall i :: 0 <= i < |s| ==> !s[i].hidden
    ensures forall i :: 0 <= i < |s| ==> NumberFrom(s, n)[i] == s[i].(number := n + i)
    ensures VisibleCount(s) == |s|
  {
    if s != [] {
      assert NumberFrom(s, n)[1..] == NumberFrom(s[1..], n + 1);
      NumberFromAllVisible(s[1..], n + 1);
    }
  }

  /** The visible count depends on the hidden flags alone. */
  lemma {:induction false} VisibleCountSameFlags(s: seq<Row>, t: seq<Row>)
    requires |s| == |t|
    requires forall i :: 0 <= i < |s| ==> s[i].hidden == t[i].hidden
    ensures VisibleCount(s) == VisibleCount(t)
  {
    if s != [] {
      VisibleCountSameFlags(s[1..], t[1..]);
    }
  }

  lemma {:induction false} VisibleCountAppend(s: seq<Row>, t: seq<Row>)
    ensures VisibleCount(s + t) == VisibleCount(s) + VisibleCount(t)
  {
    if s != [] {
      assert (s + t)[1..] == s[1..] + t;
      VisibleCountAppend(s[1..], t);
    } else {
      assert s + t == t;
    }
  }

  /** Numbering twice changes nothing. */
  lemma {:induction false} NumberFromIdempotent(s: seq<Row>, n: nat)
    ensures NumberFrom(NumberFrom(s, n), n) == NumberFrom(s, n)
  {
    if s != [] {
      var n' := if s[0].hidden then n else n + 1;
      var r := NumberFrom(s, n);
      assert r[1..] == NumberFrom(s[1..], n');
      NumberFromIdempotent(s[1..], n');
    }
  }

  /** After `renumberRows` the rows are numbered and the counter equals the number of rows shown. */
  lemma NumberedAfterRenumber(s: seq<Row>)
    ensures Numbered(NumberFrom(s, 1), VisibleCount(s))
  {
    NumberFromIdempotent(s, 1);
    VisibleCountSameFlags(s, NumberFrom(s, 1));
  }

  /** Numbering a row appended at the end continues where the others stop. */
  lemma {:induction false} NumberFromAppend(s: seq<Row>, n: nat, x: Row)
    ensures NumberFrom(s + [x], n) == NumberFrom(s, n) + NumberFrom([x], n + VisibleCount(s))
  {
    if s != [] {
      var n' := if s[0].hidden then n else n + 1;
      assert (s + [x])[1..] == s[1..] + [x];
      NumberFromAppend(s[1..], n', x);
    }
  }

  /** Appending a shown row numbered one past the count keeps the rows numbered. */
  lemma NumberedAppend(s: seq<Row>, count: int, x: Row)
    requires Numbered(s, count)
    requires !x.hidden && x.number == count + 1
    ensures Numbered(s + [x], count + 1)
  {
    NumberFromAppend(s, 1, x);
    VisibleCountAppend(s, [x]);
  }

  /** Changing a row without touching its number or its hidden flag keeps the rows numbered. */
  lemma {:induction false} NumberFromUpdate(s: seq<Row>, n: nat, i: nat, x: Row)
    requires i < |s| && NumberFrom(s, n) == s
    requires x.number == s[i].number && x.hidden == s[i].hidden
    ensures NumberFrom(s[i := x], n) == s[i := x]
  {
    var n' := if s[0].hidden then n else n + 1;
    assert NumberFrom(s, n)[1..] == NumberFrom(s[1..], n');
    if i == 0 {
      assert s[i := x] == [x] + s[1..];
    } else {
      assert s[i := x] == [s[0]] + s[1..][i - 1 := x];
      NumberFromUpdate(s[1..], n', i - 1, x);
    }
  }

  lemma NumberedUpdate(s: seq<Row>, count: int, i: nat, x: Row)
    requires i < |s| && Numbered(s, count)
    requires x.number == s[i].number && x.hidden == s[i].hidden
    ensures Numbered(s[i := x], count)
  {
    NumberFromUpdate(s, 1, i, x);
    VisibleCountSameFlags(s, s[i := x]);
  }

  /**
   * The description selects after `populateSelectOptions` has rebuilt their
   * options: the selected option is removed, so each select falls back to
   * its empty placeholder. Nothing else about a row changes.
   */
  function ClearDescriptions(s: seq<Row>): (r: seq<Row>)
    ensures |r| == |s|
    ensures forall i :: 0 <= i < |s| ==> r[i].desc == ""
    ensures forall i :: 0 <= i < |s| ==> r[i].(desc := s[i].desc) == s[i]
  {
    if s == [] then [] else [s[0].(desc := "")] + ClearDescriptions(s[1..])
  }

  /** Rows with the same numbers and hidden flags as numbered rows are numbered too. */
  lemma {:induction false} NumberFromSameShape(s: seq<Row>, t: seq<Row>, n: nat)
    requires |s| == |t| && NumberFrom(s, n) == s
    requires forall i :: 0 <= i < |s| ==> s[i].number == t[i].number && s[i].hidden == t[i].hidden
    ensures NumberFrom(t, n) == t
  {
    if s != [] {
      var n' := if s[0].hidden then n else n + 1;
      var head := if s[0].hidden then s[0] else s[0].(number := n);
      assert NumberFrom(s, n) == [head] + NumberFrom(s[1..], n');
      assert s[1..] == NumberFrom(s[1..], n');
      NumberFromSameShape(s[1..], t[1..], n');
      assert NumberFrom(t, n) == [if t[0].hidden then t[0] else t[0].(number := n)] + t[1..];
    }
  }

  /** Resetting every description keeps the rows numbered with the same counter. */
  lemma NumberedClearDescriptions(s: seq<Row>, count: int)
    requires Numbered(s, count)
    ensures Numbered(ClearDescriptions(s), count)
  {
    NumberFromSameShape(s, ClearDescriptions(s), 1);
    VisibleCountSameFlags(s, ClearDescriptions(s));
  }
}
