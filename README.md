# Delivery-note row list, modelled in Dafny

The delivery-note editor is a single browser script. It keeps a table of product rows. Each row has a number, a description chosen from a searchable select, a quantity, a unit price and a subtotal. The script also keeps a global row counter, a product catalog of `{desc, price}` entries loaded at start-up, and a grand-total cell. Event handlers do the work:

- adding a row appends it with the next number;
- the delete button removes a row and renumbers the rest;
- picking a product fills in the price of the first catalog entry with that description;
- typing in a quantity or price recomputes the row's subtotal and the grand total;
- before printing, rows with no description are hidden and the rest renumbered; after printing, all rows are shown again.

This project models that state and those handlers with the DOM removed.

- `wrappers.dfy` (`Wrappers`): `Option`, which stands for an empty or unparseable input and for a lookup that finds nothing.
- `rows.dfy` (`Rows`): the `Row` record and the numbering that `renumberRows` performs (`NumberFrom`), with its properties.
- `totals.dfy` (`Totals`): the subtotal rule (`parseFloat(x) || 0` on both inputs) and the grand total as the sum of the displayed subtotal cells.
- `print_visibility.dfy` (`PrintVisibility`): the `beforeprint` and `afterprint` loops as functions on rows, and the print round trip.
- `selection.dfy` (`Selection`): the catalog lookup that decides a row's price, and the `createTag` trim rule.
- `delivery_note.dfy` (`DeliveryNote`): class `Page` holds the rows (`seq<Row>`), `rowCount`, the catalog and the grand-total cell. Its methods are the handlers and the helpers they call, written as loops that update the state in place. `Page.Valid()` is the invariant every handler keeps:
  - the rows are numbered as `renumberRows` leaves them;
  - `rowCount` is the number of rows shown;
  - every subtotal cell shows quantity times price;
  - the grand-total cell shows the sum of the subtotal cells.

Amounts are integers: prices, subtotals and totals are in cents and quantities are whole units. An input that is empty or does not parse is `None` and counts as 0.

The model follows the code on three points:
- A hidden row becomes visible again only through `afterprint`. The code has no rule that shows a row again when it gets a description.
- The grand total adds the subtotal cells of all rows, hidden ones included.
- The number a new row gets is `rowCount + 1`. Because `rowCount` always equals the number of rows shown (`Page.Valid()`), this is the count of visible rows plus one.

## Model

| member | source | states |
|---|---|---|
| `Rows.NumberFrom` | script.js:149-157 | Renumbering changes only the number of each row. A hidden row comes out unchanged, and the length of the list is kept. |
| `Rows.NumberFromContiguous` | script.js:149-157 | After renumbering, the rows that are not hidden carry exactly the numbers n, n+1, …, n+k-1, in display order, where k is the number of rows shown. |
| `Rows.NumberFromAt` | script.js:149-157 | A row that is shown gets n plus the number of shown rows before it. |
| `Rows.NumberFromAllVisible` | script.js:149-157 | When no row is hidden, each row is numbered n plus its position and nothing else changes. The count of rows shown is the number of rows. |
| `Rows.NumberFromIdempotent` | script.js:149-157 | Renumbering rows that were just renumbered changes nothing. |
| `Rows.NumberedAfterRenumber` | script.js:149-157 | After `renumberRows` the rows are a fixed point of numbering, and `rowCount` equals the number of rows that are not hidden. |
| `Rows.NumberFromAppend` | script.js:149-157 | Numbering rows with one more row at the end numbers the old rows as before and continues the count for the new row. |
| `Rows.NumberedAppend` | script.js:66-81 | Appending a shown row numbered `rowCount + 1` keeps the rows numbered, with counter `rowCount + 1`. |
| `Rows.NumberedUpdate` | script.js:93-103 | Changing a row's description, quantity, price or subtotal keeps the rows numbered with the same counter. |
| `Rows.ClearDescriptions` | script.js:61-62 | Every row's description becomes empty, and nothing else about any row changes. |
| `Rows.NumberFromSameShape` | script.js:149-157 | Rows that carry the same numbers and hidden flags as a numbered list are themselves numbered. |
| `Rows.NumberedClearDescriptions` | script.js:61-62 | Resetting every description keeps the rows numbered with the same counter. |
| `Totals.LineAmount` | script.js:120-123 | The subtotal is 0 when the quantity or the price is missing or does not parse. Otherwise it is quantity times price. |
| `Totals.SumSubtotalsSameCells` | script.js:141-147 | The grand total depends only on the subtotal cells, not on numbers, visibility, descriptions, quantities or prices. |
| `Totals.SumSubtotalsRemove` | script.js:131-134 | Deleting a row lowers the grand total by exactly the subtotal that row displayed. |
| `Totals.SumSubtotalsUpdate` | script.js:120-124 | Changing one row's subtotal cell moves the grand total by the difference between the new and old cell values. |
| `Totals.GrandTotalMatchesLineAmounts` | script.js:141-147 | While every subtotal cell is current, the sum of the displayed subtotals equals the sum of quantity times price over all rows. |
| `Totals.ClearDescriptionsKeepsTotals` | script.js:61-62 | Resetting every description keeps every subtotal cell current and leaves the grand total unchanged. |
| `PrintVisibility.HideEmpty` | script.js:179-182 | A row becomes hidden exactly when its description is empty or it was already hidden. Nothing else about any row changes. |
| `PrintVisibility.ShowAll` | script.js:187 | Every row is shown and nothing else about any row changes. |
| `PrintVisibility.BeforePrintHidesEmpty` | script.js:178-184 | After `beforeprint`, a row is hidden exactly when its description is empty or it was hidden already. Only its number and hidden flag can differ. |
| `PrintVisibility.AfterPrintNumbering` | script.js:186-189 | After `afterprint`, every row is shown and numbered by its position 1..n, and the count of rows shown is n. |
| `PrintVisibility.AfterPrintForgetsHiding` | script.js:178-189 | The result of `afterprint` does not depend on what `beforeprint` hid or renumbered. |
| `PrintVisibility.AfterPrintKeepsNumbered` | script.js:186-189 | On rows that are all shown and numbered 1..n, `afterprint` changes nothing. |
| `PrintVisibility.PrintRoundTrip` | script.js:178-189 | `beforeprint` followed by `afterprint` restores rows that were all shown and numbered 1..n exactly. |
| `PrintVisibility.PrintKeepsTotal` | script.js:178-189 | Hiding and showing rows does not change the sum of the subtotal cells, so hidden rows still count. |
| `PrintVisibility.BeforePrintKeepsInvariant` | script.js:178-184 | After `beforeprint` the rows are numbered and the counter is the number of rows still shown. The subtotal cells stay current and the total is unchanged. |
| `PrintVisibility.AfterPrintKeepsInvariant` | script.js:186-189 | After `afterprint` every row is shown and numbered 1..n with counter n. The subtotal cells stay current and the total is unchanged. |
| `PrintVisibility.ClearedRowsAllHide` | script.js:178-184 | After a catalog load has reset every description, `beforeprint` hides every row and the counter drops to 0. |
| `Selection.TrimStart` | script.js:49 | Only leading white space is removed, and the result does not start with white space. |
| `Selection.TrimEnd` | script.js:49 | Only trailing white space is removed, and the result does not end with white space. |
| `Selection.Trim` | script.js:49 | The result is the slice of the term between all-white-space margins, with no white space at either end. It is empty exactly when the term is all white space. |
| `Selection.TrimCore` | script.js:49 | Trimming the front and then the back leaves a slice of the term whose margins are all white space. |
| `Selection.CoreOfSlices` | script.js:49 | Cutting white space off the front and then off the back of the rest leaves a slice whose margins are white space. |
| `Selection.TrimIdempotent` | script.js:49 | Trimming twice gives the same as trimming once. |
| `Selection.CreateTag` | script.js:48-52 | There is no new option exactly when the term is blank after trimming. Otherwise the option's id and text are both the trimmed term, which is not blank, and it is marked as new. |
| `Selection.FirstMatch` | script.js:95 | A found index is the first catalog entry whose description equals the selected text. Nothing is found only when no entry has that description. |
| `Selection.ResolvePrice` | script.js:93-101 | The price is empty exactly when no catalog entry has the selected description. Otherwise it is the price of the first such entry. |
| `Selection.ResolvePriceFirstWins` | script.js:95 | Entries after a match, duplicates included, never change the resolved price. |
| `DeliveryNote.Page.constructor` | script.js:3-4 | The page starts with no rows, counter 0, an empty catalog and total 0, and the invariant holds. |
| `DeliveryNote.Page.LoadCatalog` | script.js:13-27 | A catalog that arrives replaces `productsDB` and every row's description is reset to empty, with the invariant kept. On a failure the catalog is kept and no row changes. |
| `DeliveryNote.Page.PopulateAllSelects` | script.js:30-31 | Rebuilding the options of every row removes the selected option, so every description becomes empty. Numbers, counter, subtotals and total are kept. |
| `DeliveryNote.Page.UpdateGrandTotal` | script.js:141-147 | The grand-total cell becomes the sum of every row's displayed subtotal, hidden rows included, with an unparseable cell counted as 0. |
| `DeliveryNote.Page.RenumberRows` | script.js:149-157 | The rows become their renumbering from 1, and `rowCount` becomes the number of rows that are not hidden. |
| `DeliveryNote.Page.UpdateSubtotal` | script.js:120-125 | Only row i's subtotal cell changes, to quantity times price. Then the grand total is recomputed. |
| `DeliveryNote.Page.AddRow` | script.js:66-81 | Exactly one row is appended, numbered old `rowCount` + 1, with quantity 1, empty description and price, and subtotal 0. `rowCount` goes up by 1, existing rows are unchanged, the total is unchanged and the invariant holds. |
| `DeliveryNote.Page.DeleteRow` | script.js:131-135 | Exactly row i is removed and the others keep their order and are renumbered. `rowCount` becomes the number shown, and the total drops by that row's subtotal. |
| `DeliveryNote.Page.OnSelect` | script.js:93-103 | Row i gets the selected description and the price resolved from the catalog, and its subtotal is recomputed. No other row changes, and the total moves by the subtotal's change. |
| `DeliveryNote.Page.OnQuantityInput` | script.js:127 | Only row i's quantity and subtotal change, and the total moves by the subtotal's change. |
| `DeliveryNote.Page.OnPriceInput` | script.js:128 | Only row i's price and subtotal change, and the total moves by the subtotal's change. |
| `DeliveryNote.Page.BeforePrint` | script.js:178-184 | The rows with an empty description are hidden and the rows renumbered, and `rowCount` becomes the number still shown. The total and the invariant are kept. |
| `DeliveryNote.Page.HideEmptyRows` | script.js:179-182 | The rows become exactly what hiding every row with an empty description gives. |
| `DeliveryNote.Page.AfterPrint` | script.js:186-189 | Every row is shown and renumbered 1..n in order and `rowCount` is n. The total and the invariant are kept. |
| `DeliveryNote.Page.ShowAllRows` | script.js:187 | The rows become exactly what showing every row gives. |
| `DeliveryNote.Page.Print` | script.js:175 | `window.print()` raises `beforeprint` and then `afterprint`. A note with no hidden row comes back with the same rows and the same counter. |
| `DeliveryNote.AddThenDelete` | script.js:131-135 | Adding a row and then deleting that same row gives back the same rows, the same counter and the same grand total, with the invariant kept. |

## Left out

- Numbers: the script parses floats with `parseFloat` and rounds subtotals and the total with `toFixed(2)`. The model uses exact integers, with cents for money and whole units for quantities. It does not model fractional quantities, rounding, or the text form of the cells.
- `DeliveryNote.Page.LoadCatalog`: the fetch of `products.json`, its HTTP status check, the JSON parse and the loading overlay are I/O. The fetch outcome is a parameter (`None` on any failure). Of the option rebuilding that follows, only its effect on the rows is modelled: every description becomes empty. The option lists themselves are not.
- The select widget (Select2): building the options, starting and stopping the widget, and the "Add new" display template are third-party DOM code. Only the `createTag` rule is modelled (`Selection.CreateTag`).
- The native `change` handler of the description select takes the price from the chosen option's `data-price` text by stripping and `parseFloat`. With integer catalog prices it gives the same price as the `select2:select` handler, so it is not modelled separately.
- `DeliveryNote.Page.OnSelect`: the new description is taken to be the selected text, because the widget sets the select's value to the option id, which equals its text both for catalog entries and for typed tags. The widget itself is not modelled.
- `Selection.IsSpace`: JavaScript strings are UTF-16 code units while Dafny characters are Unicode scalar values. All characters that trim removes lie in the Basic Multilingual Plane, so the trim rule is unaffected.
- The row identity a handler closes over is modelled as the row's index at the time of the event. Handlers attached to detached DOM nodes are not modelled.
- The Enter-key handler, which only calls `addRow`, the date-field initialisation, the HTML of each row and `window.print` itself are UI plumbing.
- `DeliveryNote.Page.constructor`: the grand-total cell's initial text lives in the page's HTML, which is not part of this model, and is taken to be 0. The table is taken to start empty.
