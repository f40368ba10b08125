/**
 * The pieces of `renderPreview` (app.js:88-186) that carry logic: the
 * fallbacks for empty header fields, the secondary-logo filter, and the
 * markup of the item rows, one table row per line item.
 */
module Preview {
  import opened Markup
  import opened Numbers
  import opened LineItems

  // ---------------------------------------------------------------------------
  // Logos (app.js:97-107)

  /** The summit logo, shown on its own at the left of the header. */
  const SummitKey: string := "iedc-summit-25-logo"

  /** The hardcoded list of logo names. */
  const Logos: seq<string> := ["iedc-summit-25-logo", "ksum-logo-black", "iedc-logo-color", "lbscek-logo-black", "cuk-logo"]

  /** `xs.filter((l) => l !== x)`: every element other than `x`, in order. */
  function Without(xs: seq<string>, x: string): (r: seq<string>)
    ensures forall y :: y in r <==> y in xs && y != x
    ensures |r| <= |xs|
  {
    if xs == [] then [] else (if xs[0] == x then [] else [xs[0]]) + Without(xs[1..], x)
  }

  /** The filter works element by element, so it keeps the order of what it keeps. */
  lemma {:induction false} WithoutAppend(a: seq<string>, b: seq<string>, x: string)
    ensures Without(a + b, x) == Without(a, x) + Without(b, x)
  {
    if a != [] {
      assert (a + b)[0] == a[0] && (a + b)[1..] == a[1..] + b;
      WithoutAppend(a[1..], b, x);
    } else {
      assert a + b == b;
    }
  }

  /** Removing an element that is not there changes nothing. */
  lemma {:induction false} WithoutAbsent(xs: seq<string>, x: string)
    requires x !in xs
    ensures Without(xs, x) == xs
  {
    if xs != [] {
      assert x !in xs[1..];
      WithoutAbsent(xs[1..], x);
    }
  }

  /** The summit logo is in the list, and the other logos are the rest of the list, in order. */
  lemma OtherLogos()
    ensures SummitKey in Logos
    ensures Without(Logos, SummitKey) == Logos[1..]
  {
    assert Logos == [SummitKey] + Logos[1..];
    WithoutAppend([SummitKey], Logos[1..], SummitKey);
    assert Without([SummitKey], SummitKey) == [] by { assert [SummitKey][1..] == []; }
    WithoutAbsent(Logos[1..], SummitKey);
  }

  // ---------------------------------------------------------------------------
  // Header fields and their fallbacks (app.js:89-94)

  /** `s.slice(0, n)`: the first `n` characters, or all of a shorter string. */
  function Take(s: string, n: nat): (r: string)
    ensures |r| == if |s| < n then |s| else n
    ensures r <= s
  {
    if |s| <= n then s else s[..n]
  }

  /** `s.slice(-n)`: the last `n` characters, or all of a shorter string. */
  function Last(s: string, n: nat): (r: string)
    requires n > 0
    ensures |r| == if |s| < n then |s| else n
    ensures exists k :: 0 <= k <= |s| && s[..k] + r == s
  {
    if |s| <= n then (assert s[..0] + s == s; s)
    else (assert s[..|s| - n] + s[|s| - n..] == s; s[|s| - n..])
  }

  /**
   * `IEDC-${Date.now().toString().slice(-6)}`, the clock reading in
   * milliseconds given: "IEDC-" followed by the last six decimal digits of the
   * clock, or by all of them before the clock reaches 100000.
   */
  function DefaultInvoiceNumber(nowMs: nat): (n: string)
    ensures |n| >= 5 && n[..5] == "IEDC-"
    ensures AllDigits(n[5..]) && DigitsValue(n[5..]) == nowMs % 1000000
    ensures nowMs >= 100000 ==> |n| == 11
  {
    var s := NatToString(nowMs);
    LastSixDigitsOf(s);
    var n := "IEDC-" + Last(s, 6);
    assert n[5..] == Last(s, 6);
    n
  }

  /** The last six characters of a digit string denote its value modulo 10^6. */
  lemma LastSixDigitsOf(s: string)
    requires AllDigits(s)
    ensures AllDigits(Last(s, 6))
    ensures DigitsValue(Last(s, 6)) == DigitsValue(s) % 1000000
    ensures DigitsValue(s) >= 100000 ==> |Last(s, 6)| == 6
  {
    var t := Last(s, 6);
    DigitsValueBound(s);
    assert Pow10(5) == 100000;
    assert Pow10(6) == 1000000;
    if |s| <= 6 {
      PowerMonotone(|s|, 6);
      if |s| < 6 {
        PowerMonotone(|s|, 5);
      }
    } else {
      var h := s[..|s| - 6];
      assert h + t == s;
      assert AllDigits(h) && AllDigits(t) by {
        forall i | 0 <= i < |t| ensures IsDigit(t[i]) { assert t[i] == s[|s| - 6 + i]; }
        forall i | 0 <= i < |h| ensures IsDigit(h[i]) { assert h[i] == s[i]; }
      }
      DigitsValueAppend(h, t);
      DigitsValueBound(t);
      LowDigits(DigitsValue(h), DigitsValue(t), DigitsValue(s));
    }
  }

  lemma {:induction false} PowerMonotone(a: nat, b: nat)
    requires a <= b
    ensures Pow10(a) <= Pow10(b)
  {
    if a < b {
      PowerMonotone(a, b - 1);
    }
  }

  /** With `n == h * 10^6 + v` and `v < 10^6`, `v` is `n`'s remainder modulo 10^6. */
  lemma LowDigits(h: nat, v: nat, n: nat)
    requires n == h * 1000000 + v && v < 1000000
    ensures v == n % 1000000
  {
  }

  // ---------------------------------------------------------------------------
  // The item rows of the preview table (app.js:156-165)

  /**
   * One `<tr>` of the preview table: the escaped name and description,
   * `${qty}`, `price.toFixed(2)` and the amount. It holds exactly 14 tags:
   * no user text adds or hides one.
   */
  function ItemRowHtml(r: Row): (h: string)
    ensures Occurrences(h, '<') == 14
  {
    var name, desc := EscapeHtml(r.name), EscapeHtml(r.desc);
    var qty, price, amount := NumberText(Qty(r)), Fixed2(Value(Price(r))), Fixed2(Amount(r));
    NumberTextIsNumeral(Qty(r));
    Fixed2IsNumeral(Value(Price(r)));
    Fixed2IsNumeral(Amount(r));
    NumeralHasNoTag(qty);
    NumeralHasNoTag(price);
    NumeralHasNoTag(amount);
    RowMarkupTags(name, desc, qty, price, amount);
    RowMarkup(name, desc, qty, price, amount)
  }

  /** The row template of app.js:162-164 with its five cell texts filled in: one `<tr>` element. */
  function RowMarkup(name: string, desc: string, qty: string, price: string, amount: string): (h: string)
    ensures |h| >= 18 && h[..16] == "<tr><td><strong>" && h[|h| - 10..] == "</td></tr>"
  {
    var tail := NumberCells(qty, price, amount);
    var h := "<tr><td>" + ("<strong>" + (name + ("</strong>" + ("</td><td>" + (desc + tail)))));
    assert h[..16] == "<tr><td><strong>";
    assert h[|h| - 10..] == tail[|tail| - 10..];
    h
  }

  /** The end of the row template: the quantity, price and amount cells and the closing tags. */
  function NumberCells(qty: string, price: string, amount: string): (t: string)
    ensures |t| >= 10 && t[|t| - 10..] == "</td></tr>"
  {
    var t := "</td><td>" + (qty + ("</td><td>" + (price + ("</td><td>" + (amount + "</td></tr>")))));
    assert t[|t| - 10..] == "</td></tr>";
    t
  }

  /** The rows' markup, concatenated in table order: 14 tags per line item, one table row per row of the form. */
  function ItemsHtml(rows: seq<Row>): (h: string)
    ensures Occurrences(h, '<') == 14 * |rows|
  {
    ConcatOccurrences(rows, ItemRowHtml, '<', 14);
    Concat(rows, ItemRowHtml)
  }

  /** The strings `f(x)` for the elements of `xs`, joined in order. */
  function Concat<T>(xs: seq<T>, f: T -> string): string {
    if xs == [] then "" else Concat(xs[..|xs| - 1], f) + f(xs[|xs| - 1])
  }

  lemma {:induction false} ConcatAppend<T>(a: seq<T>, b: seq<T>, f: T -> string)
    ensures Concat(a + b, f) == Concat(a, f) + Concat(b, f)
  {
    if b == [] {
      assert a + b == a;
    } else {
      var b', x := b[..|b| - 1], b[|b| - 1];
      assert (a + b)[..|a + b| - 1] == a + b' && (a + b)[|a + b| - 1] == x;
      ConcatAppend(a, b', f);
      var u, v := Concat(a, f), Concat(b', f);
      assert Concat(a + b, f) == (u + v) + f(x);
      assert Concat(b, f) == v + f(x);
      assert (u + v) + f(x) == u + (v + f(x));
    }
  }

  lemma ItemsHtmlAppend(a: seq<Row>, b: seq<Row>)
    ensures ItemsHtml(a + b) == ItemsHtml(a) + ItemsHtml(b)
  {
    ConcatAppend(a, b, ItemRowHtml);
  }

  lemma RowMarkupTags(name: string, desc: string, qty: string, price: string, amount: string)
    requires '<' !in name && '<' !in desc
    requires '<' !in qty && '<' !in price && '<' !in amount
    ensures Occurrences(RowMarkup(name, desc, qty, price, amount), '<') == 14
  {
    RowOpenTags();
    StrongOpenTags();
    StrongCloseTags();
    CellBreakTags();
    var tail := NumberCells(qty, price, amount);
    NumberCellsTags(qty, price, amount);
    TextThenTags(desc, tail, 8);
    TagsThenTags("</td><td>", desc + tail, 2, 8);
    TagsThenTags("</strong>", "</td><td>" + (desc + tail), 1, 10);
    TextThenTags(name, "</strong>" + ("</td><td>" + (desc + tail)), 11);
    TagsThenTags("<strong>", name + ("</strong>" + ("</td><td>" + (desc + tail))), 1, 11);
    TagsThenTags("<tr><td>", "<strong>" + (name + ("</strong>" + ("</td><td>" + (desc + tail)))), 2, 12);
  }

  lemma NumberCellsTags(qty: string, price: string, amount: string)
    requires '<' !in qty && '<' !in price && '<' !in amount
    ensures Occurrences(NumberCells(qty, price, amount), '<') == 8
  {
    CellBreakTags();
    RowCloseTags();
    OccurrencesAbsent("", '<');
    TextThenTags(amount, "</td></tr>", 2);
    TagsThenTags("</td><td>", amount + "</td></tr>", 2, 2);
    TextThenTags(price, "</td><td>" + (amount + "</td></tr>"), 4);
    TagsThenTags("</td><td>", price + ("</td><td>" + (amount + "</td></tr>")), 2, 4);
    TextThenTags(qty, "</td><td>" + (price + ("</td><td>" + (amount + "</td></tr>"))), 6);
    TagsThenTags("</td><td>", qty + ("</td><td>" + (price + ("</td><td>" + (amount + "</td></tr>")))), 2, 6);
  }

  /** The tags in each fixed piece of the row template. */
  lemma RowOpenTags() ensures Occurrences("<tr><td>", '<') == 2 {}
  lemma StrongOpenTags() ensures Occurrences("<strong>", '<') == 1 {}
  lemma StrongCloseTags() ensures Occurrences("</strong>", '<') == 1 {}
  lemma CellBreakTags() ensures Occurrences("</td><td>", '<') == 2 {}
  lemma RowCloseTags() ensures Occurrences("</td></tr>", '<') == 2 {}

  lemma TextThenTags(text: string, rest: string, n: nat)
    requires '<' !in text && Occurrences(rest, '<') == n
    ensures Occurrences(text + rest, '<') == n
  {
    OccurrencesAbsent(text, '<');
    OccurrencesAppend(text, rest, '<');
  }

  lemma TagsThenTags(piece: string, rest: string, k: nat, n: nat)
    requires Occurrences(piece, '<') == k && Occurrences(rest, '<') == n
    ensures Occurrences(piece + rest, '<') == k + n
  {
    OccurrencesAppend(piece, rest, '<');
  }

  lemma NumeralHasNoTag(s: string)
    requires IsNumeral(s)
    ensures '<' !in s
  {
    forall i | 0 <= i < |s| ensures s[i] != '<' {
      assert IsDigit(s[i]) || s[i] == '-' || s[i] == '.';
    }
  }

  lemma MultiplyNext(k: nat, n: nat)
    ensures k * n + k == k * (n + 1)
  {
  }

  /** Pieces with `k` occurrences of `c` each join into a text with `k` per piece. */
  lemma {:induction false} ConcatOccurrences<T>(xs: seq<T>, f: T -> string, c: char, k: nat)
    requires forall i :: 0 <= i < |xs| ==> Occurrences(f(xs[i]), c) == k
    ensures Occurrences(Concat(xs, f), c) == k * |xs|
  {
    if xs != [] {
      var n := |xs| - 1;
      var front, last := Concat(xs[..n], f), f(xs[n]);
      assert Concat(xs, f) == front + last;
      assert forall i :: 0 <= i < n ==> xs[..n][i] == xs[i];
      ConcatOccurrences(xs[..n], f, c, k);
      OccurrencesAppend(front, last, c);
      MultiplyNext(k, n);
    }
  }

  // ---------------------------------------------------------------------------
  // Reading a row's name and description back from its markup

  /** The text of `s` before its first `c`. */
  function UpTo(s: string, c: char): (r: string)
    ensures r <= s
  {
    if s == [] || s[0] == c then [] else [s[0]] + UpTo(s[1..], c)
  }

  lemma {:induction false} UpToAppend(a: string, b: string, c: char)
    requires c !in a && b != [] && b[0] == c
    ensures UpTo(a + b, c) == a
  {
    if a != [] {
      assert (a + b)[0] == a[0] && (a + b)[1..] == a[1..] + b;
      assert c !in a[1..];
      UpToAppend(a[1..], b, c);
    } else {
      assert a + b == b;
    }
  }

  /** The escaped name is the text of the first cell, and the escaped description of the second. */
  lemma ItemRowCells(r: Row)
    ensures UpTo(ItemRowHtml(r)[16..], '<') == EscapeHtml(r.name)
    ensures UpTo(ItemRowHtml(r)[16 + |EscapeHtml(r.name)| + 18..], '<') == EscapeHtml(r.desc)
  {
    EscapeHtmlIsEscaped(r.name);
    EscapeHtmlIsEscaped(r.desc);
    RowMarkupCells(EscapeHtml(r.name), EscapeHtml(r.desc), NumberText(Qty(r)), Fixed2(Value(Price(r))), Fixed2(Amount(r)));
  }

  lemma RowMarkupCells(name: string, desc: string, qty: string, price: string, amount: string)
    requires '<' !in name && '<' !in desc
    ensures UpTo(RowMarkup(name, desc, qty, price, amount)[16..], '<') == name
    ensures UpTo(RowMarkup(name, desc, qty, price, amount)[16 + |name| + 18..], '<') == desc
  {
    var tail := NumberCells(qty, price, amount);
    var r2 := "</td><td>" + (desc + tail);
    var r1 := "</strong>" + r2;
    var html := RowMarkup(name, desc, qty, price, amount);
    DropAppend("<tr><td>", "<strong>" + (name + r1));
    DropAppend("<strong>", name + r1);
    assert html[16..] == name + r1;
    UpToAppend(name, r1, '<');
    DropAppend(name, r1);
    DropAppend("</strong>", r2);
    DropAppend("</td><td>", desc + tail);
    assert html[16 + |name| + 18..] == desc + tail;
    UpToAppend(desc, tail, '<');
  }

  lemma DropAppend(p: string, s: string)
    ensures (p + s)[|p|..] == s
  {
  }

  /** The preview row determines the row's name and description: distinct texts never render alike. */
  lemma ItemRowHtmlInjective(r: Row, r': Row)
    requires ItemRowHtml(r) == ItemRowHtml(r')
    ensures r.name == r'.name && r.desc == r'.desc
  {
    ItemRowCells(r);
    ItemRowCells(r');
    EscapeHtmlInjective(r.name, r'.name);
    EscapeHtmlInjective(r.desc, r'.desc);
  }

  /** Decoding the first two cells gives back the name and the description typed in the form. */
  lemma ItemRowDecodes(r: Row)
    ensures Unescape(UpTo(ItemRowHtml(r)[16..], '<')) == r.name
    ensures Unescape(UpTo(ItemRowHtml(r)[16 + |EscapeHtml(r.name)| + 18..], '<')) == r.desc
  {
    ItemRowCells(r);
    UnescapeEscapeHtml(r.name);
    UnescapeEscapeHtml(r.desc);
  }

  /** The quantity cell reads back as the quantity the totals use; the amount cell is within half a cent of the amount. */
  lemma ItemRowNumbers(r: Row)
    ensures Value(Lenient(NumberText(Qty(r)))) == Value(Qty(r))
    ensures ParseNumber(Fixed2(Amount(r))).Some?
    ensures -0.005 <= Value(ParseNumber(Fixed2(Amount(r))).value) - Amount(r) <= 0.005
  {
    LenientNumberText(Qty(r));
    Fixed2RoundTrip(Amount(r));
  }
}
