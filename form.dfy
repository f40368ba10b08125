/**
 * The invoice form as the page holds it: the rows of the items table, the
 * tax-rate input, the three totals cells and the four header inputs, with
 * the handlers that change them (app.js:31-59, 69-86, 88-213).
 */
module Form {
  import opened Markup
  import opened Numbers
  import opened LineItems
  import opened Preview

  /** What the preview shows: header texts, logos, the item rows' markup and the totals. */
  datatype Rendered = Rendered(
    number: string,         // escaped invoice number (app.js:129-131)
    date: string,           // escaped date (app.js:131)
    from: string,           // "From" block, escaped with `<br>` line breaks (app.js:137)
    to: string,             // "Bill To" block, likewise (app.js:141)
    summitLogo: bool,       // whether the summit logo is drawn on the left (app.js:113-115)
    otherLogos: seq<string>, // the logos of the right-hand row, in order (app.js:120-127)
    items: string,          // the `<tr>` rows of the items table (app.js:156-165)
    subtotal: string,       // the totals box copies the three cells verbatim (app.js:172-180)
    tax: string,
    total: string)

  /** The sender shown when the "From" input is empty (app.js:93). */
  const DefaultFrom: string := "IEDC Summit 2025"

  /** The number the page starts with, `IEDC-<year>-001` (app.js:206): the year reads back from between the dashes. */
  function FirstNumber(year: nat): (n: string)
    ensures |n| >= 10 && n[..5] == "IEDC-" && n[|n| - 4..] == "-001"
    ensures AllDigits(n[5..|n| - 4]) && DigitsValue(n[5..|n| - 4]) == year
  {
    var digits := NatToString(year);
    var n := "IEDC-" + digits + "-001";
    assert n[5..|n| - 4] == digits;
    n
  }

  /** The three totals cells show the totals of `rows` at the rate read from `rateText`, to two decimals. */
  predicate TotalsShown(rows: seq<Row>, rateText: string, subtotalText: string, taxText: string, totalText: string) {
    var t := ComputeTotals(rows, rateText);
    subtotalText == Fixed2(t.subtotal) && taxText == Fixed2(t.tax) && totalText == Fixed2(t.total)
  }

  /** Every amount cell shows its own row's amount. */
  predicate AmountsShown(rows: seq<Row>) {
    forall r :: r in rows ==> AmountShown(r)
  }

  lemma SubtotalStep(rows: seq<Row>, i: nat)
    requires i < |rows|
    ensures Subtotal(rows[..i + 1]) == Subtotal(rows[..i]) + Amount(rows[i])
  {
    assert rows[..i + 1] == rows[..i] + [rows[i]];
    SubtotalAddRow(rows[..i], rows[i]);
  }

  lemma ShownTotals(rows: seq<Row>, rateText: string, subtotal: real)
    requires subtotal == Subtotal(rows)
    ensures var t := TotalsAt(subtotal, Value(Lenient(rateText)));
            TotalsShown(rows, rateText, Fixed2(t.subtotal), Fixed2(t.tax), Fixed2(t.total))
  {
  }

  lemma AmountsShownRemove(rows: seq<Row>, i: nat)
    requires AmountsShown(rows) && i < |rows|
    ensures AmountsShown(rows[..i] + rows[i + 1..])
  {
    var rows' := rows[..i] + rows[i + 1..];
    forall r | r in rows' ensures AmountShown(r) {
      var j :| 0 <= j < |rows'| && rows'[j] == r;
      if j < i { assert rows'[j] == rows[j]; } else { assert rows'[j] == rows[j + 1]; }
    }
  }

  lemma AmountsShownReplace(rows: seq<Row>, i: nat, r: Row)
    requires AmountsShown(rows) && i < |rows| && AmountShown(r)
    ensures AmountsShown(rows[i := r])
  {
    var rows' := rows[i := r];
    forall x | x in rows' ensures AmountShown(x) {
      var j :| 0 <= j < |rows'| && rows'[j] == x;
      if j != i { assert rows'[j] == rows[j]; }
    }
  }

  lemma AmountsShownAdd(rows: seq<Row>, r: Row)
    requires AmountsShown(rows) && AmountShown(r)
    ensures AmountsShown(rows + [r])
  {
  }

  /** The seeded table of the start-up code is in step and shows a subtotal of 100.00. */
  lemma SeedShown(rateText: string)
    ensures AmountsShown([NewRow(SeedItem)])
    ensures var t := ComputeTotals([NewRow(SeedItem)], rateText);
      TotalsShown([NewRow(SeedItem)], rateText, Fixed2(t.subtotal), Fixed2(t.tax), Fixed2(t.total))
      && Fixed2(t.subtotal) == "100.00"
  {
    AmountsShownAdd([], NewRow(SeedItem));
    assert [] + [NewRow(SeedItem)] == [NewRow(SeedItem)];
    SeedRowSubtotal();
    HundredShown();
  }

  lemma ItemsHtmlStep(rows: seq<Row>, i: nat)
    requires i < |rows|
    ensures var r := rows[i];
            var qty, price := Lenient(r.qty), Lenient(r.price);
            ItemsHtml(rows[..i + 1]) == ItemsHtml(rows[..i])
              + RowMarkup(EscapeHtml(r.name), EscapeHtml(r.desc), NumberText(qty), Fixed2(Value(price)), Fixed2(Amount(r)))
  {
    assert rows[..i + 1][..i] == rows[..i];
  }

  class InvoiceForm {
    /** The rows of `#itemsBody`, in table order. */
    var rows: seq<Row>
    /** The value of `#taxRate`. */
    var taxRate: string
    /** The text of `#subtotal`, `#taxAmount` and `#totalAmount`. */
    var subtotalText: string
    var taxText: string
    var totalText: string
    /** The values of `#invoiceNumber`, `#invoiceDate`, `#from` and `#to`. */
    var invoiceNumber: string
    var invoiceDate: string
    var from: string
    var to: string

    /**
     * Every handler leaves the amount cells and the totals cells in step with
     * the inputs; with every row removed, the three totals cells show 0.00.
     */
    predicate Valid()
      reads this`rows, this`taxRate, this`subtotalText, this`taxText, this`totalText
      ensures Valid() && rows == [] ==> subtotalText == "0.00" && taxText == "0.00" && totalText == "0.00"
    {
      NoRowsNoTotals(taxRate);
      Fixed2Zero();
      AmountsShown(rows) && TotalsShown(rows, taxRate, subtotalText, taxText, totalText)
    }

    /**
     * The page's start-up code (app.js:204-213): today's date, the number
     * `IEDC-<year>-001`, the one seed row, then the totals. The clock is given
     * as the ISO text of `new Date()` and its year; the tax-rate, "From" and
     * "Bill To" inputs start with the values the page gives them.
     */
    constructor(isoNow: string, year: nat, rateText: string, fromText: string, toText: string)
      ensures Valid()
      ensures rows == [NewRow(SeedItem)] && subtotalText == "100.00"
      ensures invoiceDate == Take(isoNow, 10)
      ensures invoiceNumber == FirstNumber(year)
      ensures taxRate == rateText && from == fromText && to == toText
    {
      var seeded := [NewRow(SeedItem)];
      var t := ComputeTotals(seeded, rateText);
      SeedShown(rateText);
      rows, taxRate := seeded, rateText;
      subtotalText, taxText, totalText := Fixed2(t.subtotal), Fixed2(t.tax), Fixed2(t.total);
      invoiceDate := Take(isoNow, 10);
      invoiceNumber := FirstNumber(year);
      from, to := fromText, toText;
    }

    /** The loop of `calcTotals` (app.js:70-76): quantity times price, summed over the rows in order. */
    method SumAmounts() returns (subtotal: real)
      ensures subtotal == Subtotal(rows)
    {
      subtotal := 0.0;
      var i := 0;
      while i < |rows|
        invariant 0 <= i <= |rows|
        invariant subtotal == Subtotal(rows[..i])
      {
        SubtotalStep(rows, i);
        subtotal := subtotal + Amount(rows[i]);
        i := i + 1;
      }
      assert rows[..i] == rows;
    }

    /**
     * `calcTotals` (app.js:69-83): the subtotal, the tax at the rate read from
     * the tax-rate input, their sum, each written to its cell to two decimals.
     */
    method CalcTotals()
      modifies this`subtotalText, this`taxText, this`totalText
      ensures TotalsShown(rows, taxRate, subtotalText, taxText, totalText)
    {
      var subtotal := SumAmounts();
      var t := TotalsAt(subtotal, Value(Lenient(taxRate)));
      ShownTotals(rows, taxRate, subtotal);
      subtotalText, taxText, totalText := Fixed2(t.subtotal), Fixed2(t.tax), Fixed2(t.total);
    }

    /** `newRow(item)` (app.js:31-59): append the row, run its `update`, which recomputes the totals. */
    method AddItem(item: LineItem)
      modifies this`rows, this`subtotalText, this`taxText, this`totalText
      requires AmountsShown(rows)
      ensures Valid()
      ensures rows == old(rows) + [NewRow(item)]
    {
      AmountsShownAdd(rows, NewRow(item));
      rows := rows + [NewRow(item)];
      CalcTotals();
    }

    /** The "add item" button (app.js:85): a blank row, quantity 1 and price 0, at the end. */
    method AddRow()
      modifies this`rows, this`subtotalText, this`taxText, this`totalText
      requires Valid()
      ensures Valid()
      ensures |rows| == |old(rows)| + 1 && rows[..|old(rows)|] == old(rows)
      ensures rows[|rows| - 1] == NewRow(BlankItem)
      ensures Subtotal(rows) == Subtotal(old(rows))
    {
      AddItem(BlankItem);
      assert rows[..|old(rows)|] == old(rows);
      SubtotalAddRow(old(rows), NewRow(BlankItem));
      BlankRowAmount();
    }

    /** A row's remove button (app.js:54-57): drop row `i`, keep the others in order, recompute. */
    method RemoveRow(i: nat)
      modifies this`rows, this`subtotalText, this`taxText, this`totalText
      requires Valid() && i < |rows|
      ensures Valid()
      ensures rows == old(rows)[..i] + old(rows)[i + 1..]
      ensures Subtotal(rows) == Subtotal(old(rows)) - Amount(old(rows)[i])
    {
      SubtotalRemoveRow(rows, i);
      AmountsShownRemove(rows, i);
      rows := rows[..i] + rows[i + 1..];
      CalcTotals();
    }

    /** Typing into one of row `i`'s inputs (app.js:53): the new values, then its `update`. */
    method EditRow(i: nat, name: string, desc: string, qty: string, price: string)
      modifies this`rows, this`subtotalText, this`taxText, this`totalText
      requires Valid() && i < |rows|
      ensures Valid()
      ensures rows == old(rows)[i := Updated(Row(name, desc, qty, price, old(rows)[i].amountText))]
      ensures Subtotal(rows) == Subtotal(old(rows)) - Amount(old(rows)[i]) + Amount(rows[i])
    {
      var r := Updated(Row(name, desc, qty, price, rows[i].amountText));
      SubtotalReplaceRow(rows, i, r);
      AmountsShownReplace(rows, i, r);
      rows := rows[i := r];
      CalcTotals();
    }

    /** Typing into the tax-rate input (app.js:86). */
    method SetTaxRate(text: string)
      modifies this`taxRate, this`subtotalText, this`taxText, this`totalText
      requires Valid()
      ensures Valid()
      ensures taxRate == text
    {
      taxRate := text;
      CalcTotals();
    }

    /** Typing into the header inputs: no handler runs, only the values change. */
    method SetHeader(number: string, date: string, fromText: string, toText: string)
      modifies this`invoiceNumber, this`invoiceDate, this`from, this`to
      requires Valid()
      ensures Valid()
      ensures invoiceNumber == number && invoiceDate == date && from == fromText && to == toText
    {
      invoiceNumber, invoiceDate, from, to := number, date, fromText, toText;
      assert unchanged(this`rows, this`taxRate, this`subtotalText, this`taxText, this`totalText);
    }

    /** The item-row loop of `renderPreview` (app.js:156-165). */
    method RenderItemRows() returns (html: string)
      ensures html == ItemsHtml(rows)
    {
      html := "";
      var i := 0;
      while i < |rows|
        invariant 0 <= i <= |rows|
        invariant html == ItemsHtml(rows[..i])
      {
        var r := rows[i];
        var qty := Lenient(r.qty);
        var price := Lenient(r.price);
        var amount := Fixed2(Amount(r));
        ItemsHtmlStep(rows, i);
        html := html + RowMarkup(EscapeHtml(r.name), EscapeHtml(r.desc), NumberText(qty), Fixed2(Value(price)), amount);
        i := i + 1;
      }
      assert rows[..i] == rows;
    }

    /**
     * `renderPreview` (app.js:88-186), with the clock given as milliseconds and
     * as ISO text: empty header inputs fall back to their defaults, user text
     * is escaped, and the totals cells are copied as they stand.
     */
    method RenderPreview(nowMs: nat, isoNow: string) returns (p: Rendered)
      ensures p.number == EscapeHtml(if invoiceNumber != "" then invoiceNumber else DefaultInvoiceNumber(nowMs))
      ensures p.date == EscapeHtml(if invoiceDate != "" then invoiceDate else Take(isoNow, 10))
      ensures p.from == BillInfoHtml(if from != "" then from else DefaultFrom)
      ensures p.to == BillInfoHtml(to)
      ensures p.summitLogo && p.otherLogos == Logos[1..]
      ensures p.items == ItemsHtml(rows)
      ensures p.subtotal == subtotalText && p.tax == taxText && p.total == totalText
    {
      var number := if invoiceNumber != "" then invoiceNumber else DefaultInvoiceNumber(nowMs);
      var date := if invoiceDate != "" then invoiceDate else Take(isoNow, 10);
      var fromText := if from != "" then from else DefaultFrom;
      OtherLogos();
      var hasSummit := SummitKey in Logos;
      var others := Without(Logos, SummitKey);
      var items := RenderItemRows();
      p := Rendered(EscapeHtml(number), EscapeHtml(date), BillInfoHtml(fromText), BillInfoHtml(to),
                    hasSummit, others, items, subtotalText, taxText, totalText);
    }

    /** The "render" and "print" buttons (app.js:188-195): recompute the totals, then render. */
    method Render(nowMs: nat, isoNow: string) returns (p: Rendered)
      modifies this`subtotalText, this`taxText, this`totalText
      requires Valid()
      ensures Valid()
      ensures subtotalText == old(subtotalText) && taxText == old(taxText) && totalText == old(totalText)
      ensures p.number == EscapeHtml(if invoiceNumber != "" then invoiceNumber else DefaultInvoiceNumber(nowMs))
      ensures p.date == EscapeHtml(if invoiceDate != "" then invoiceDate else Take(isoNow, 10))
      ensures p.from == BillInfoHtml(if from != "" then from else DefaultFrom)
      ensures p.to == BillInfoHtml(to)
      ensures p.summitLogo && p.otherLogos == Logos[1..]
      ensures p.items == ItemsHtml(rows)
      ensures p.subtotal == subtotalText && p.tax == taxText && p.total == totalText
    {
      CalcTotals();
      p := RenderPreview(nowMs, isoNow);
    }
  }
}
