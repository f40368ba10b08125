# Invoice builder: escaping, line items, totals and the preview rows

This project models the logic of `app.js`, the script behind the IEDC Summit
invoice builder page, and proves properties of it. The page holds a table of
line items (name, description, quantity, price) and a tax-rate input. It
shows a per-row amount and the subtotal, tax and total, and renders a
printable preview in which user text is HTML-escaped.

The model has five modules:

- `Wrappers` (`wrappers.dfy`): the `Option` type.
- `Markup` (`markup.dfy`): `escapeHtml`, a chain of four global replacements
  with `&` first, and the "From"/"Bill To" transform, which escapes and then
  turns each newline into `<br>`. Each transform has a decoder, and the
  round trips are proved: escape then decode, and escape plus `<br>` then
  decode.
- `Numbers` (`numbers.dfy`): exact decimal numbers. This covers:
  - the lenient reading `Number(v) || 0` of a field's text, as a parser that
    returns `Option` and falls back to 0;
  - `x.toFixed(2)` on exact reals;
  - how `${n}` prints a number.
- `LineItems` (`items.dfy`): a row as the text of its four inputs and its
  amount cell, `newRow`'s new row, each row's `update`, and the totals of
  `calcTotals` as functions of the rows and the tax-rate text.
- `Preview` (`preview.dfy`): the logic in `renderPreview`:
  - the fallbacks for empty header fields;
  - the secondary-logo filter;
  - the markup of one preview table row per line item.
- `Form` (`form.dfy`): the page state as the class `InvoiceForm`, with the
  rows, the tax-rate text, the three totals cells and the four header
  inputs. Its methods are the handlers:
  - start-up;
  - add item, remove row, typing into a row, typing into the tax rate,
    editing the header;
  - `calcTotals`, with its loop;
  - the item-row loop of `renderPreview`, and render/print.

  Each handler keeps the invariant `Valid()`: every amount cell and every
  totals cell shows the two-decimal value of the current inputs.

Numbers are exact: a `Decimal(mant, exp)` stands for `mant / 10^exp`, and
amounts and totals are `real`. The clock is a parameter: the milliseconds of
`Date.now()`, the ISO text of `new Date()`, and the year.

## Model

| member | source | states |
|---|---|---|
| Markup.ReplaceChar | app.js:63-66 | `s.replace(/c/g, rep)` leaves text without `c` unchanged; when `rep` holds no `c`, no `c` remains |
| Markup.ReplaceCharAppend | app.js:63-66 | a global replacement works piece by piece: replacing in `a + b` gives the replacement of `a` followed by that of `b` |
| Markup.EscapeChar | app.js:63-66 | a character's escape starts with `&` exactly when the character is one of `& < > "`, and only those four grow longer |
| Markup.EscapeHtml | app.js:61-67 | `escapeHtml`, four global replacements with `&` first: its output holds no `<`, `>` or `"`, and text holding none of `& < > "` comes out unchanged |
| Markup.EscapeHtmlAppend | app.js:61-67 | escaping distributes over concatenation |
| Markup.EscapeHtmlOneChar | app.js:61-67 | the four chained replacements turn a single character into its entity, or leave it unchanged |
| Markup.EscapeHtmlIsSinglePass | app.js:61-67 | the chain of replacements, `&` first, equals escaping each character exactly once: no entity is escaped twice |
| Markup.EscapeHtmlIsEscaped | app.js:61-67 | the output contains no `<`, `>` or `"`, and every `&` in it begins `&amp;`, `&lt;`, `&gt;` or `&quot;` |
| Markup.EscapeHtmlIdentity | app.js:61-67 | escaping leaves a string unchanged if and only if it contains none of `& < > "` |
| Markup.UnescapeEscapeHtml | app.js:61-67 | decoding the four entities gives back the original string |
| Markup.EscapeHtmlInjective | app.js:61-67 | two different strings never escape to the same text |
| Markup.BillInfoHtml | app.js:137-141 | the "From"/"Bill To" transform, escape then `\n` to `<br>`: the markup holds no newline and no `"` |
| Markup.BillInfoIsSinglePass | app.js:137-141 | escaping and then replacing `\n` with `<br>` equals one pass that escapes each character or turns a newline into `<br>` |
| Markup.BillInfoHtmlIsBillMarkup | app.js:137-141 | the "From"/"Bill To" markup contains no newline and no `"`; every `&` begins an entity; every `<` begins `<br>` and every `>` ends one |
| Markup.BillInfoRoundTrip | app.js:137-141 | turning each `<br>` back into a newline and decoding the entities gives back the field's text |
| Numbers.Normalize | app.js:164 | the shortest form of a decimal has the same value and sign and no trailing zero after the point |
| Numbers.NatToString | app.js:90 | the decimal digits of `n` are digits, denote `n`, and start with `0` only for 0 |
| Numbers.ProductValue | app.js:48 | multiplying the mantissas and adding the exponents gives the product of the two values, exactly |
| Numbers.ParseUnsignedWhole | app.js:46-47 | a non-empty run of digits reads as the number it denotes |
| Numbers.ParseUnsignedPoint | app.js:46-47 | digits with one point read as the number they denote, with as many decimals as follow the point |
| Numbers.ParseNumber | app.js:46-47 | `Number(v)` on a field's text: the empty text is 0, a number after a leading `-` is never positive, and one without it is never negative |
| Numbers.Lenient | app.js:46-47 | the lenient reading, `Number` falling back to 0: text that does not parse reads as 0; a non-zero number reads as itself; every zero, `-0` included, reads as 0 |
| Numbers.LenientValue | app.js:73-74 | the lenient reading keeps the value of every text that parses |
| Numbers.LenientFailureIsZero | app.js:77 | a field that does not parse reads exactly like one holding `0`, or an empty one |
| Numbers.Cents | app.js:49 | `toFixed(2)` rounds the magnitude to the nearest hundredth: within half a cent |
| Numbers.Fixed2 | app.js:49 | `x.toFixed(2)`: at least four characters (`0.00` at the least), starting with `-` exactly when `x` is negative |
| Numbers.Fixed2Zero | app.js:40-49 | zero is displayed as `0.00`, the text the new amount cell starts with |
| Numbers.Fixed2Whole | app.js:80-82 | a whole number `n` is displayed as its digits followed by `.00` |
| Numbers.Fixed2RoundTrip | app.js:80-82 | what `toFixed(2)` displays reads back as a number with two decimals, within half a cent of the value |
| Numbers.NumberText | app.js:36-39 | `${n}`: a non-empty text that starts with `-` exactly when the number is negative |
| Numbers.NumberTextRoundTrip | app.js:36-39 | a number printed by `${n}` reads back as the same number in its shortest form, with the same value |
| Numbers.LenientNumberText | app.js:36-39 | a number printed into an input and read back leniently keeps its value |
| Numbers.Fixed2IsNumeral | app.js:161-164 | a `toFixed(2)` text holds only digits, `-` and `.` |
| Numbers.NumberTextIsNumeral | app.js:164 | a `${qty}` text holds only digits, `-` and `.` |
| LineItems.Updated | app.js:45-49 | `update` leaves the four inputs as they are and makes the amount cell show the row's own amount |
| LineItems.NewRow | app.js:31-43 | the new row holds the item's name and description and the printed quantity and price, and its amount cell shows its amount |
| LineItems.NewRowAttributes | app.js:34-35 | decoding the escaped `value` attributes of the template gives exactly the name and description the row holds |
| LineItems.NewRowReads | app.js:36-39 | the quantity and price printed into the new row read back as the item's numbers |
| LineItems.NewRowAmount | app.js:45-48 | a new row's amount is the item's quantity times its price |
| LineItems.Amount | app.js:48 | a row's amount, quantity times price, is 0 exactly when its quantity or its price reads as 0 |
| LineItems.AmountValue | app.js:46-48 | a row's amount is the value read from its quantity times the value read from its price |
| LineItems.BlankRowAmount | app.js:31-49 | a row added with the defaults (quantity 1, price 0) is worth 0 and its amount cell shows `0.00` |
| LineItems.Subtotal | app.js:71-76 | the sum of the amounts: 0 for an empty table, and never negative when no row is |
| LineItems.TaxRate | app.js:77 | the tax rate is the number typed in percent, or 0 when the text is not a number |
| LineItems.ComputeTotals | app.js:77-79 | the totals hold the subtotal of the rows and `total == subtotal + tax`; a rate of 0, which includes one that does not parse, adds no tax |
| LineItems.TotalsAt | app.js:78-79 | `tax * 100 == subtotal * rate` and `total == subtotal + tax` |
| LineItems.SubtotalAddRow | app.js:71-76 | appending a row adds exactly its amount to the subtotal |
| LineItems.SubtotalRemoveRow | app.js:54-56 | removing row `i` takes exactly its amount off the subtotal |
| LineItems.SubtotalReplaceRow | app.js:72-75 | changing row `i` changes the subtotal by the difference of the two amounts |
| LineItems.NoRowsNoTotals | app.js:69-83 | with no rows, the subtotal, tax and total are all 0, whatever the tax rate |
| LineItems.SameReadingSameTotals | app.js:73-77 | replacing a row by one whose inputs read as the same numbers leaves every total unchanged |
| LineItems.UnparsedQtyIsZero | app.js:73 | a quantity that does not parse gives the same totals as a quantity of `0` |
| LineItems.UnparsedPriceIsZero | app.js:74 | a price that does not parse gives the same totals as a price of `0` |
| LineItems.UnparsedRateIsZero | app.js:77-79 | a tax rate that does not parse gives the totals of rate `0`: no tax, and the total equals the subtotal |
| LineItems.SeedRowSubtotal | app.js:207-213 | the seeded row, 1 at 100, is worth 100, and so is the subtotal of the starting table |
| LineItems.TwoAtFiftyTotals | app.js:69-83 | one row of 2 at 50 with the tax rate `10` gives 100, 10 and 110, displayed `100.00`, `10.00` and `110.00` |
| LineItems.BlankRowsTotals | app.js:54-57 | a table of only blank rows, for example the only row removed and a blank one added, has totals 0 and shows `0.00` |
| Preview.Without | app.js:107 | `filter((l) => l !== x)` keeps exactly the elements other than `x`, and never lengthens the list |
| Preview.WithoutAppend | app.js:107 | the filter works element by element, so it keeps the order of what it keeps |
| Preview.WithoutAbsent | app.js:107 | filtering out an element that is not there changes nothing |
| Preview.OtherLogos | app.js:97-107 | the summit logo is in the list, and the other logos are the rest of the list, in order |
| Preview.Take | app.js:92 | `s.slice(0, n)` is a prefix of `s` holding its first `n` characters, or all of a shorter `s` |
| Preview.Last | app.js:90 | `s.slice(-n)` is a suffix of `s` holding its last `n` characters, or all of a shorter `s` |
| Preview.LastSixDigitsOf | app.js:90 | the last six characters of a digit string denote its value modulo 10^6, and there are six of them once the value reaches 100000 |
| Preview.DefaultInvoiceNumber | app.js:89-90 | the fallback number is `IEDC-` followed by the clock's value modulo 10^6, in exactly six digits once the clock passes 100000 ms |
| Preview.ItemsHtmlAppend | app.js:156-165 | the rows' markup is the concatenation of each row's markup, in table order |
| Preview.RowMarkup | app.js:162-164 | the row template is one table row: it opens with `<tr><td><strong>` and closes with `</td></tr>` |
| Preview.RowMarkupTags | app.js:162-164 | the row template holds exactly 14 tags whenever none of its five cell texts contains a `<` |
| Preview.ItemRowHtml | app.js:162-164 | every row's markup holds exactly 14 tags, whatever the user typed |
| Preview.ItemsHtml | app.js:156-165 | the items markup holds 14 tags per line item: one table row per row of the form |
| Preview.ItemRowCells | app.js:162-163 | the text of the first cell is the escaped name, and that of the second the escaped description |
| Preview.ItemRowHtmlInjective | app.js:162-163 | two rows that render alike have the same name and the same description |
| Preview.ItemRowDecodes | app.js:162-163 | decoding the first two cells gives back the name and the description typed in the form |
| Preview.ItemRowNumbers | app.js:159-164 | the quantity cell reads back as the quantity the totals use; the amount cell is within half a cent of the amount |
| Form.FirstNumber | app.js:206 | the first number is `IEDC-`, then the digits of the year, then `-001`, and the year reads back from it |
| Form.ShownTotals | app.js:77-82 | the three texts computed from the summed subtotal are the totals of the rows at the current rate |
| Form.AmountsShownRemove | app.js:54-57 | removing a row keeps every remaining amount cell in step with its row |
| Form.InvoiceForm.Valid | app.js:45-83 | every amount cell shows its row's amount and the totals cells show the rows' totals; with no rows they show `0.00` |
| Form.InvoiceForm.constructor | app.js:204-213 | the page starts with today's date, the number `IEDC-<year>-001` and the one seed row; the totals cells show its totals, the subtotal `100.00` |
| Form.InvoiceForm.SumAmounts | app.js:70-76 | the loop's sum of quantity times price over the rows is the subtotal of the rows |
| Form.InvoiceForm.CalcTotals | app.js:69-83 | the three cells show the subtotal, tax and total of the current rows at the current rate, to two decimals |
| Form.InvoiceForm.AddItem | app.js:31-59 | the new row goes at the end, the earlier rows are unchanged, and every cell is in step afterwards |
| Form.InvoiceForm.AddRow | app.js:85 | one blank row (quantity 1, price 0) is appended, the others are kept in order, and the subtotal does not change |
| Form.InvoiceForm.RemoveRow | app.js:54-57 | only row `i` goes, the others keep their order, and the subtotal drops by exactly its amount |
| Form.InvoiceForm.EditRow | app.js:45-53 | only row `i` changes, its amount cell is rewritten, and the subtotal changes by the difference of the amounts |
| Form.InvoiceForm.SetTaxRate | app.js:86 | the rate changes and the totals cells follow it |
| Form.InvoiceForm.SetHeader | app.js:89-94 | editing the header inputs changes nothing else, and the cells stay in step |
| Form.InvoiceForm.RenderItemRows | app.js:156-165 | the loop builds exactly the concatenated markup of the rows, in order |
| Form.InvoiceForm.RenderPreview | app.js:88-186 | empty header inputs fall back to their defaults, all user text is escaped, the logos are split as the filter says, and the totals cells are copied verbatim |
| Form.InvoiceForm.Render | app.js:188-191 | recomputing before rendering leaves the (already consistent) totals cells unchanged; the preview shows the header with its fallbacks, the escaped "From" and "Bill To" blocks, the logos, the item rows and those totals |

## Left out

- The DOM: element lookup, `innerHTML` and `textContent`, listener registration. The rows are an explicit sequence in `InvoiceForm.rows`, and each handler is a method.
- Image preloading (app.js:19-29), `requestAnimationFrame` and `window.print` (app.js:193-202): these are browser calls. Print is modelled as `Render`, the part before the two frames.
- IEEE-754 doubles: amounts and totals are exact reals, so the binary rounding of `qty * price`, of the running sum and of `toFixed(2)` is not captured. `Cents` rounds exact ties away from zero.
- The full grammar of JS `Number(string)`: surrounding whitespace, exponents, hexadecimal, `Infinity`. The parser accepts an optional sign and digits with at most one point; the empty text is 0.
- Numbers.NumberText: does not produce JS's exponent notation (below 1e-6 or from 1e21 up).
- Numbers.Fixed2: does not produce JS's exponent notation from 1e21 up.
- The clock: `Date.now()`, `new Date().toISOString()` and `getFullYear()` are parameters of the constructor and of `RenderPreview`.
- The initial values that the page's HTML gives the tax-rate, "From" and "Bill To" inputs are not part of this model; the constructor takes them as parameters.
- The literal template text of the header, footer and table scaffolding (app.js:110-155, 166-183). `Rendered` keeps each piece of logic as its own field: escaped number and date, bill-info blocks, logos, item rows and the copied totals.
- The row template's markup (app.js:33-42) is not built as text. `LineItems.NewRowAttributes` states that decoding its escaped `value` attributes gives back the row's name and description.
- Markup.Unescape: decodes only the four entities `escapeHtml` emits, not HTML's full set of character references.
- Form.InvoiceForm.EditRow: takes all four inputs of a row at once. One keystroke in the page changes one input, which is the special case where the other three stay the same.
- Form.InvoiceForm.constructor: computes the seed row's totals directly instead of calling `AddItem` and `CalcTotals`. The result is the same state: the seed row, its amount cell and the three totals cells.
- Form.InvoiceForm.AddItem: requires only that the amount cells are in step, because `newRow` recomputes all three totals cells itself.
- The quantity and price inputs carry `min="0"` (app.js:36-39), but the code reads whatever is typed, so negative numbers are modelled as they parse.
- An empty "From" falls back to "IEDC Summit 2025" and an empty "To" to the empty text (app.js:93-94). Neither input is given any other default, and `RenderPreview` states exactly these two fallbacks.
