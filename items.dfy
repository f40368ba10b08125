/**
 * The line items of the invoice and the totals computed from them
 * (app.js:31-59, 69-83): each row holds the text of its four inputs and of
 * its amount cell, numeric inputs are read leniently, and the totals are an
 * exact function of the rows and the tax-rate input.
 */
module LineItems {
  import opened Numbers
  import opened Markup

  /** The values a row is created from (the `item` argument of `newRow`, app.js:31). */
  datatype LineItem = LineItem(name: string, desc: string, qty: Decimal, price: Decimal)

  /** The default item of a row added with the "add item" button: quantity 1, price 0. */
  const BlankItem := LineItem("", "", Decimal(1, 0), Zero)

  /** The row the form starts with (app.js:207-212). */
  const SeedItem := LineItem("Registration Fee", "IEDC Summit 2025 participation", Decimal(1, 0), Decimal(100, 0))

  /** One row of the items table: the values of its four inputs and the text of its amount cell. */
  datatype Row = Row(name: string, desc: string, qty: string, price: string, amountText: string)

  /** The quantity and the price of a row, read with `Number(v) || 0`. */
  function Qty(r: Row): Decimal { Lenient(r.qty) }
  function Price(r: Row): Decimal { Lenient(r.price) }

  /**
   * The row's amount, quantity times price, exactly: the mantissas multiply
   * and the exponents add. A row is worth nothing exactly when its quantity or
   * its price reads as 0; `AmountValue` gives the value in general.
   */
  function Amount(r: Row): (a: real)
    ensures a == 0.0 <==> Qty(r) == Zero || Price(r) == Zero
  {
    var q, p := Qty(r), Price(r);
    ShiftZero((q.mant * p.mant) as real, q.exp + p.exp);
    assert q.mant * p.mant == 0 <==> q.mant == 0 || p.mant == 0;
    Shift((q.mant * p.mant) as real, q.exp + p.exp)
  }

  /** The amount cell shows the row's own amount, as `update` writes it (app.js:45-49). */
  predicate AmountShown(r: Row) {
    r.amountText == Fixed2(Amount(r))
  }

  /** `update` (app.js:45-49): the amount cell is rewritten from the row's current inputs. */
  function Updated(r: Row): (u: Row)
    ensures AmountShown(u)
    ensures u.name == r.name && u.desc == r.desc && u.qty == r.qty && u.price == r.price
  {
    r.(amountText := Fixed2(Amount(r)))
  }

  /**
   * The row that `newRow(item)` puts in the table (app.js:31-43, 58): the text
   * inputs hold the item's name and description (see `NewRowAttributes`), the
   * numeric inputs hold `${item.qty}` and `${item.price}`, and the amount cell,
   * written "0.00" by the template, is rewritten by the final `update`.
   */
  function NewRow(item: LineItem): (r: Row)
    ensures r.name == item.name && r.desc == item.desc
    ensures r.qty == NumberText(item.qty) && r.price == NumberText(item.price)
    ensures AmountShown(r)
  {
    Updated(Row(item.name, item.desc, NumberText(item.qty), NumberText(item.price), "0.00"))
  }

  /**
   * The template writes the text inputs as `value="${escapeHtml(v)}"`
   * (app.js:34-35); decoding those attributes gives back exactly the
   * name and description the new row holds.
   */
  lemma NewRowAttributes(item: LineItem)
    ensures Unescape(EscapeHtml(item.name)) == NewRow(item).name
    ensures Unescape(EscapeHtml(item.desc)) == NewRow(item).desc
  {
    UnescapeEscapeHtml(item.name);
    UnescapeEscapeHtml(item.desc);
  }

  /** A new row's amount is the item's quantity times its price. */
  lemma NewRowAmount(item: LineItem)
    ensures Amount(NewRow(item)) == Value(item.qty) * Value(item.price)
  {
    NewRowReads(item);
    AmountOf(NewRow(item), Value(item.qty), Value(item.price));
  }

  /** The amount is the product of the values read from the two inputs. */
  lemma AmountOf(r: Row, q: real, p: real)
    requires Value(Qty(r)) == q && Value(Price(r)) == p
    ensures Amount(r) == q * p
  {
    ProductOf(Qty(r), Price(r), q, p);
  }

  /** Reading back the printed quantity and price gives the item's numbers. */
  lemma NewRowReads(item: LineItem)
    ensures Value(Qty(NewRow(item))) == Value(item.qty)
    ensures Value(Price(NewRow(item))) == Value(item.price)
  {
    LenientNumberText(item.qty);
    LenientNumberText(item.price);
  }

  /** The amount is the value of the quantity times the value of the price. */
  lemma AmountValue(r: Row)
    ensures Amount(r) == Value(Qty(r)) * Value(Price(r))
  {
    ProductValue(Qty(r), Price(r));
  }

  /** A new blank row is worth nothing, and its amount cell shows "0.00". */
  lemma BlankRowAmount()
    ensures Amount(NewRow(BlankItem)) == 0.0
    ensures NewRow(BlankItem).amountText == "0.00"
  {
    BlankRowIsZero();
    Fixed2Zero();
  }

  lemma BlankRowIsZero()
    ensures Amount(NewRow(BlankItem)) == 0.0
  {
    NewRowAmount(BlankItem);
    assert Value(Zero) == 0.0;
  }

  // ---------------------------------------------------------------------------
  // Totals

  /** The sum of `f` over `xs`, accumulated from the first element to the last. */
  function SumOf<T>(xs: seq<T>, f: T -> real): real {
    if xs == [] then 0.0 else SumOf(xs[..|xs| - 1], f) + f(xs[|xs| - 1])
  }

  lemma {:induction false} SumOfAppend<T>(a: seq<T>, b: seq<T>, f: T -> real)
    ensures SumOf(a + b, f) == SumOf(a, f) + SumOf(b, f)
  {
    if b == [] {
      assert a + b == a;
    } else {
      var b' := b[..|b| - 1];
      assert (a + b)[..|a + b| - 1] == a + b';
      SumOfAppend(a, b', f);
    }
  }

  lemma SumOfSingle<T>(x: T, f: T -> real)
    ensures SumOf([x], f) == f(x)
  {
    assert [x][..0] == [];
  }

  lemma {:induction false} SumOfNonNegative<T>(xs: seq<T>, f: T -> real)
    ensures (forall i :: 0 <= i < |xs| ==> f(xs[i]) >= 0.0) ==> SumOf(xs, f) >= 0.0
  {
    if xs != [] {
      SumOfNonNegative(xs[..|xs| - 1], f);
    }
  }

  /**
   * The subtotal: the sum of the rows' amounts, in table order (app.js:71-76).
   * An empty table sums to 0, and rows that are each worth 0 or more never
   * sum to less.
   */
  function Subtotal(rows: seq<Row>): (s: real)
    ensures rows == [] ==> s == 0.0
    ensures (forall i :: 0 <= i < |rows| ==> Amount(rows[i]) >= 0.0) ==> s >= 0.0
  {
    SumOfNonNegative(rows, Amount);
    SumOf(rows, Amount)
  }

  /**
   * The tax rate in percent, read with `Number(v) || 0` (app.js:77): the
   * number typed, or 0 when the text is not a number.
   */
  function TaxRate(text: string): (rate: real)
    ensures ParseNumber(text).Some? ==> rate == Value(ParseNumber(text).value)
    ensures ParseNumber(text).None? ==> rate == 0.0
  {
    if ParseNumber(text).Some? then
      LenientValue(text);
      Value(Lenient(text))
    else Value(Lenient(text))
  }

  datatype Totals = Totals(subtotal: real, tax: real, total: real)

  /** The three totals `calcTotals` computes from the rows and the tax-rate input (app.js:69-83). */
  function ComputeTotals(rows: seq<Row>, rateText: string): (t: Totals)
    ensures t.subtotal == Subtotal(rows) && t.total == t.subtotal + t.tax
    ensures TaxRate(rateText) == 0.0 ==> t.tax == 0.0 && t.total == t.subtotal
  {
    TotalsAt(Subtotal(rows), TaxRate(rateText))
  }

  /** `tax = subtotal * (taxRate / 100)` and `total = subtotal + tax` (app.js:78-79). */
  function TotalsAt(subtotal: real, rate: real): (t: Totals)
    ensures t.subtotal == subtotal && t.total == t.subtotal + t.tax
    ensures t.tax * 100.0 == subtotal * rate
  {
    var tax := subtotal * (rate / 100.0);
    Totals(subtotal, tax, subtotal + tax)
  }

  /** Appending a row adds its amount to the subtotal. */
  lemma SubtotalAddRow(rows: seq<Row>, r: Row)
    ensures Subtotal(rows + [r]) == Subtotal(rows) + Amount(r)
  {
    assert (rows + [r])[..|rows|] == rows;
  }

  /** Removing row `i` takes exactly its amount off the subtotal. */
  lemma SubtotalRemoveRow(rows: seq<Row>, i: nat)
    requires i < |rows|
    ensures Subtotal(rows[..i] + rows[i + 1..]) == Subtotal(rows) - Amount(rows[i])
  {
    assert rows == rows[..i] + [rows[i]] + rows[i + 1..];
    SumOfAppend(rows[..i] + [rows[i]], rows[i + 1..], Amount);
    SumOfAppend(rows[..i], [rows[i]], Amount);
    SumOfAppend(rows[..i], rows[i + 1..], Amount);
    SumOfSingle(rows[i], Amount);
  }

  /** Replacing row `i` changes the subtotal by the difference of the two amounts. */
  lemma SubtotalReplaceRow(rows: seq<Row>, i: nat, r: Row)
    requires i < |rows|
    ensures Subtotal(rows[i := r]) == Subtotal(rows) - Amount(rows[i]) + Amount(r)
  {
    var rows' := rows[i := r];
    assert rows' == rows[..i] + [r] + rows[i + 1..];
    assert rows'[..i] == rows[..i] && rows'[i + 1..] == rows[i + 1..];
    SubtotalRemoveRow(rows, i);
    SubtotalRemoveRow(rows', i);
  }

  /** With no rows, every total is zero whatever the tax rate. */
  lemma NoRowsNoTotals(rateText: string)
    ensures ComputeTotals([], rateText) == Totals(0.0, 0.0, 0.0)
  {
  }

  /** Two rows whose numeric inputs read the same have the same amount. */
  lemma SameReadingSameAmount(r: Row, r': Row)
    requires Lenient(r.qty) == Lenient(r'.qty) && Lenient(r.price) == Lenient(r'.price)
    ensures Amount(r) == Amount(r')
  {
  }

  /** Replacing a row by one whose inputs read the same leaves every total unchanged. */
  lemma SameReadingSameTotals(rows: seq<Row>, i: nat, r: Row, rateText: string)
    requires i < |rows|
    requires Lenient(r.qty) == Lenient(rows[i].qty) && Lenient(r.price) == Lenient(rows[i].price)
    ensures ComputeTotals(rows[i := r], rateText) == ComputeTotals(rows, rateText)
  {
    SameReadingSameSubtotal(rows, i, r);
    SameSubtotalSameTotals(rows[i := r], rows, rateText);
  }

  lemma SameReadingSameSubtotal(rows: seq<Row>, i: nat, r: Row)
    requires i < |rows|
    requires Lenient(r.qty) == Lenient(rows[i].qty) && Lenient(r.price) == Lenient(rows[i].price)
    ensures Subtotal(rows[i := r]) == Subtotal(rows)
  {
    SameReadingSameAmount(rows[i], r);
    SubtotalReplaceRow(rows, i, r);
  }

  lemma SameSubtotalSameTotals(rows: seq<Row>, rows': seq<Row>, rateText: string)
    requires Subtotal(rows) == Subtotal(rows')
    ensures ComputeTotals(rows, rateText) == ComputeTotals(rows', rateText)
  {
  }

  /** A quantity that does not parse gives the same totals as a quantity of 0. */
  lemma UnparsedQtyIsZero(rows: seq<Row>, i: nat, rateText: string)
    requires i < |rows| && ParseNumber(rows[i].qty).None?
    ensures ComputeTotals(rows[i := rows[i].(qty := "0")], rateText) == ComputeTotals(rows, rateText)
  {
    LenientFailureIsZero(rows[i].qty);
    SameReadingSameTotals(rows, i, rows[i].(qty := "0"), rateText);
  }

  /** A price that does not parse gives the same totals as a price of 0. */
  lemma UnparsedPriceIsZero(rows: seq<Row>, i: nat, rateText: string)
    requires i < |rows| && ParseNumber(rows[i].price).None?
    ensures ComputeTotals(rows[i := rows[i].(price := "0")], rateText) == ComputeTotals(rows, rateText)
  {
    LenientFailureIsZero(rows[i].price);
    SameReadingSameTotals(rows, i, rows[i].(price := "0"), rateText);
  }

  /** A tax rate that does not parse gives the same totals as a rate of 0: no tax. */
  lemma UnparsedRateIsZero(rows: seq<Row>, rateText: string)
    requires ParseNumber(rateText).None?
    ensures ComputeTotals(rows, rateText) == ComputeTotals(rows, "0")
    ensures ComputeTotals(rows, rateText).tax == 0.0
    ensures ComputeTotals(rows, rateText).total == Subtotal(rows)
  {
    LenientFailureIsZero(rateText);
  }

  // ---------------------------------------------------------------------------
  // Worked cases

  /** The seeded row, 1 at 100, is worth 100 (app.js:207-212). */
  lemma SeedRowSubtotal()
    ensures Amount(NewRow(SeedItem)) == 100.0
    ensures Subtotal([NewRow(SeedItem)]) == 100.0
  {
    NewRowAmount(SeedItem);
    assert Value(Decimal(1, 0)) == 1.0 && Value(Decimal(100, 0)) == 100.0;
    SumOfSingle(NewRow(SeedItem), Amount);
  }

  /** One row of 2 at 50 with the tax rate "10": 100.00, 10.00 and 110.00. */
  lemma TwoAtFiftyTotals()
    ensures var t := ComputeTotals([NewRow(LineItem("", "", Decimal(2, 0), Decimal(50, 0)))], "10");
            t == Totals(100.0, 10.0, 110.0)
            && Fixed2(t.subtotal) == "100.00" && Fixed2(t.tax) == "10.00" && Fixed2(t.total) == "110.00"
  {
    TwoAtFiftySums();
    HundredShown();
    TenShown();
    HundredTenShown();
  }

  lemma TwoAtFiftySums()
    ensures ComputeTotals([NewRow(LineItem("", "", Decimal(2, 0), Decimal(50, 0)))], "10") == Totals(100.0, 10.0, 110.0)
  {
    var item := LineItem("", "", Decimal(2, 0), Decimal(50, 0));
    NewRowAmount(item);
    assert Value(Decimal(2, 0)) == 2.0 && Value(Decimal(50, 0)) == 50.0;
    SumOfSingle(NewRow(item), Amount);
    TenPercent();
  }

  lemma HundredShown()
    ensures Fixed2(100.0) == "100.00"
  {
    Fixed2Whole(100);
    assert NatToString(100) == "100";
  }

  lemma TenShown()
    ensures Fixed2(10.0) == "10.00"
  {
    Fixed2Whole(10);
    assert NatToString(10) == "10";
  }

  lemma HundredTenShown()
    ensures Fixed2(110.0) == "110.00"
  {
    Fixed2Whole(110);
    assert NatToString(110) == "110";
  }

  lemma TenPercent()
    ensures TaxRate("10") == 10.0
  {
    ParseUnsignedWhole("10");
    assert DigitsValue("10") == 10 by { assert "10"[..1] == "1"; }
  }

  /** A table holding only blank rows shows 0.00 in every totals cell, whatever the tax rate. */
  lemma BlankRowsTotals(rows: seq<Row>, rateText: string)
    requires forall r :: r in rows ==> r == NewRow(BlankItem)
    ensures ComputeTotals(rows, rateText) == Totals(0.0, 0.0, 0.0)
    ensures Fixed2(ComputeTotals(rows, rateText).total) == "0.00"
  {
    BlankRowsSubtotal(rows);
    Fixed2Zero();
  }

  lemma {:induction false} BlankRowsSubtotal(rows: seq<Row>)
    requires forall r :: r in rows ==> r == NewRow(BlankItem)
    ensures Subtotal(rows) == 0.0
  {
    if rows != [] {
      var n := |rows| - 1;
      assert rows[n] in rows;
      assert forall r :: r in rows[..n] ==> r in rows;
      BlankRowsSubtotal(rows[..n]);
      BlankRowIsZero();
    }
  }
}
