/**
 * The numbers of the form, in exact arithmetic: the lenient reading of a
 * numeric field (`Number(v) || 0`, app.js:46-47, 73-74, 77, 159-160), the
 * two-decimal display of `toFixed(2)` (app.js:49, 80-82, 161, 164) and the
 * plain display of a number spliced into a template (`${qty}`, app.js:164).
 * A value is a finite decimal `mant / 10^exp`; IEEE doubles are not modelled.
 */
module Numbers {
  import opened Wrappers

  /** The number `mant / 10^exp`. */
  datatype Decimal = Decimal(mant: int, exp: nat)

  const Zero := Decimal(0, 0)

  function Pow10(e: nat): (r: nat)
    ensures r >= 1
  {
    if e == 0 then 1 else 10 * Pow10(e - 1)
  }

  /** The real number `mant / 10^exp`. */
  function Value(d: Decimal): real {
    Shift(d.mant as real, d.exp)
  }

  /** `x / 10^e`, one place at a time. */
  function Shift(x: real, e: nat): real {
    if e == 0 then x else Shift(x, e - 1) / 10.0
  }

  lemma {:induction false} ShiftScales(x: real, e: nat)
    ensures Shift(10.0 * x, e) == 10.0 * Shift(x, e)
  {
    if e > 0 { ShiftScales(x, e - 1); }
  }

  lemma {:induction false} ShiftProduct(x: real, y: real, e: nat, f: nat)
    ensures Shift(x * y, e + f) == Shift(x, e) * Shift(y, f)
  {
    if f > 0 {
      ShiftProduct(x, y, e, f - 1);
    } else if e > 0 {
      ShiftProduct(x, y, e - 1, 0);
    }
  }

  /** Multiplying the mantissas and adding the exponents multiplies the values. */
  lemma ProductValue(a: Decimal, b: Decimal)
    ensures Shift((a.mant * b.mant) as real, a.exp + b.exp) == Value(a) * Value(b)
  {
    ShiftProduct(a.mant as real, b.mant as real, a.exp, b.exp);
    assert (a.mant * b.mant) as real == a.mant as real * b.mant as real;
  }

  /** The same product, for decimals whose values are known to be `x` and `y`. */
  lemma ProductOf(a: Decimal, b: Decimal, x: real, y: real)
    requires Value(a) == x && Value(b) == y
    ensures Shift((a.mant * b.mant) as real, a.exp + b.exp) == x * y
  {
    ProductValue(a, b);
  }

  function Abs(n: int): nat {
    if n < 0 then -n else n
  }

  // ---------------------------------------------------------------------------
  // Digits

  predicate IsDigit(c: char) {
    '0' <= c <= '9'
  }

  predicate AllDigits(s: string) {
    forall i :: 0 <= i < |s| ==> IsDigit(s[i])
  }

  function DigitValue(c: char): nat
    requires IsDigit(c)
  {
    c as int - '0' as int
  }

  function DigitChar(n: nat): (c: char)
    requires n < 10
    ensures IsDigit(c) && DigitValue(c) == n
  {
    ('0' as int + n) as char
  }

  /** The number a string of decimal digits denotes (the empty string denotes 0). */
  function DigitsValue(s: string): nat
    requires AllDigits(s)
  {
    if s == [] then 0 else DigitsValue(s[..|s| - 1]) * 10 + DigitValue(s[|s| - 1])
  }

  lemma {:induction false} DigitsValueAppend(a: string, b: string)
    requires AllDigits(a) && AllDigits(b)
    ensures AllDigits(a + b)
    ensures DigitsValue(a + b) == DigitsValue(a) * Pow10(|b|) + DigitsValue(b)
  {
    AllDigitsAppend(a, b);
    if b != [] {
      var b' := b[..|b| - 1];
      assert (a + b)[..|a + b| - 1] == a + b';
      assert (a + b)[|a + b| - 1] == b[|b| - 1];
      DigitsValueAppend(a, b');
      var x, p, y, d := DigitsValue(a), Pow10(|b'|), DigitsValue(b'), DigitValue(b[|b| - 1]);
      assert DigitsValue(a + b) == (x * p + y) * 10 + d;
      assert DigitsValue(b) == y * 10 + d;
      assert Pow10(|b|) == p * 10;
      Regroup(x, p, y, d);
    } else {
      assert a + b == a;
    }
  }

  /** A string of `k` digits denotes a number below 10^k. */
  lemma {:induction false} DigitsValueBound(s: string)
    requires AllDigits(s)
    ensures DigitsValue(s) < Pow10(|s|)
  {
    if s != [] {
      var s' := s[..|s| - 1];
      DigitsValueBound(s');
      var v, d, p := DigitsValue(s'), DigitValue(s[|s| - 1]), Pow10(|s'|);
      assert DigitsValue(s) == v * 10 + d;
      assert Pow10(|s|) == 10 * p;
      assert v * 10 + d < 10 * p by {
        assert v + 1 <= p;
        assert (v + 1) * 10 <= p * 10;
      }
    }
  }

  lemma AllDigitsAppend(a: string, b: string)
    requires AllDigits(a) && AllDigits(b)
    ensures AllDigits(a + b)
  {
    forall i | 0 <= i < |a + b| ensures IsDigit((a + b)[i]) {
      if i < |a| { assert (a + b)[i] == a[i]; } else { assert (a + b)[i] == b[i - |a|]; }
    }
  }

  lemma Regroup(x: int, p: int, y: int, d: int)
    ensures (x * p + y) * 10 + d == x * (p * 10) + (y * 10 + d)
  {
  }

  /** The decimal digits of `n`, with no leading zero. */
  function NatToString(n: nat): (s: string)
    ensures |s| >= 1 && AllDigits(s) && DigitsValue(s) == n
    ensures s[0] == '0' ==> n == 0
  {
    if n < 10 then [DigitChar(n)]
    else
      var s := NatToString(n / 10) + [DigitChar(n % 10)];
      assert s[..|s| - 1] == NatToString(n / 10);
      s
  }

  function Zeros(k: int): (s: string)
    ensures |s| == (if k < 0 then 0 else k) && AllDigits(s) && DigitsValue(s) == 0
  {
    if k <= 0 then [] else
      var s := Zeros(k - 1) + ['0'];
      assert s[..|s| - 1] == Zeros(k - 1);
      s
  }

  // ---------------------------------------------------------------------------
  // Parsing: `Number(v)` on the text of a numeric field

  /**
   * Reads `s` left to right after `digits` digits, `frac` of them after a
   * point, have been read into `mant`; `point` says whether the point has
   * been seen. Accepts digits and at most one point, with a digit somewhere.
   */
  function Scan(s: string, mant: nat, frac: nat, digits: nat, point: bool): (r: Option<Decimal>)
    ensures r.Some? ==> r.value.mant >= 0
  {
    if s == [] then (if digits > 0 then Some(Decimal(mant, frac)) else None)
    else if IsDigit(s[0]) then
      Scan(s[1..], mant * 10 + DigitValue(s[0]), if point then frac + 1 else frac, digits + 1, point)
    else if s[0] == '.' && !point then Scan(s[1..], mant, frac, digits, true)
    else None
  }

  /** Digits, optionally with one `.` among them; at least one digit in all. */
  function ParseUnsigned(s: string): (r: Option<Decimal>)
    ensures r.Some? ==> r.value.mant >= 0
  {
    Scan(s, 0, 0, 0, false)
  }

  lemma {:induction false} ScanDigits(w: string, rest: string, mant: nat, frac: nat, digits: nat, point: bool)
    requires AllDigits(w)
    ensures Scan(w + rest, mant, frac, digits, point)
         == Scan(rest, mant * Pow10(|w|) + DigitsValue(w), if point then frac + |w| else frac, digits + |w|, point)
  {
    if w == [] {
      assert w + rest == rest;
    } else {
      var c, w' := w[0], w[1..];
      assert (w + rest)[1..] == w' + rest;
      assert AllDigits(w');
      ScanDigits(w', rest, mant * 10 + DigitValue(c), if point then frac + 1 else frac, digits + 1, point);
      assert w == [c] + w';
      DigitsValueAppend([c], w');
      assert DigitsValue([c]) == DigitValue(c) by { assert [c][..0] == []; }
      ShiftInDigit(mant, DigitValue(c), Pow10(|w'|), DigitsValue(w'));
    }
  }

  lemma ShiftInDigit(mant: nat, d: nat, p: nat, v: nat)
    ensures (mant * 10 + d) * p + v == mant * (10 * p) + (d * p + v)
  {
  }

  lemma ParseUnsignedWhole(w: string)
    requires AllDigits(w) && |w| > 0
    ensures ParseUnsigned(w) == Some(Decimal(DigitsValue(w), 0))
  {
    ScanDigits(w, [], 0, 0, 0, false);
    assert w + [] == w;
  }

  lemma ParseUnsignedPoint(w: string, f: string)
    requires AllDigits(w) && AllDigits(f) && |w| + |f| > 0
    ensures ParseUnsigned(w + "." + f) == Some(Decimal(DigitsValue(w + f), |f|))
  {
    var m := DigitsValue(w);
    var p := "." + f;
    assert w + "." + f == w + p;
    ScanDigits(w, p, 0, 0, 0, false);
    assert 0 * Pow10(|w|) + m == m;
    ScanPoint(f, m, |w|);
    DigitsValueAppend(w, f);
  }

  /** After the whole part: the point, then the decimals up to the end. */
  lemma ScanPoint(f: string, m: nat, digits: nat)
    requires AllDigits(f) && digits + |f| > 0
    ensures Scan("." + f, m, 0, digits, false) == Some(Decimal(m * Pow10(|f|) + DigitsValue(f), |f|))
  {
    var p := "." + f;
    assert p[0] == '.' && p[1..] == f;
    ScanDigits(f, [], m, 0, digits, true);
    assert f + [] == f;
  }

  /**
   * `Number(v)` for the text of a numeric input: the empty text is 0, an
   * optional sign is followed by an unsigned decimal, anything else is NaN
   * (`None`).
   */
  function ParseNumber(s: string): (r: Option<Decimal>)
    ensures s == "" ==> r == Some(Zero)
    ensures r.Some? && s != "" && s[0] == '-' ==> r.value.mant <= 0
    ensures r.Some? && (s == "" || s[0] != '-') ==> r.value.mant >= 0
  {
    if s == "" then Some(Zero)
    else if s[0] == '-' then
      match ParseUnsigned(s[1..])
      case Some(d) => Some(Decimal(-d.mant, d.exp))
      case None => None
    else if s[0] == '+' then ParseUnsigned(s[1..])
    else ParseUnsigned(s)
  }

  /** `Number(v) || 0`: NaN and every zero become the number 0. */
  function Lenient(s: string): (d: Decimal)
    ensures ParseNumber(s).None? ==> d == Zero
    ensures ParseNumber(s).Some? && ParseNumber(s).value.mant != 0 ==> d == ParseNumber(s).value
    ensures ParseNumber(s).Some? && ParseNumber(s).value.mant == 0 ==> d == Zero
    ensures d.mant == 0 ==> d == Zero
  {
    match ParseNumber(s)
    case Some(d) => if d.mant == 0 then Zero else d
    case None => Zero
  }

  lemma {:induction false} ShiftZero(x: real, e: nat)
    ensures Shift(x, e) == 0.0 <==> x == 0.0
  {
    if e > 0 {
      ShiftZero(x, e - 1);
    }
  }

  lemma ZeroValue(d: Decimal)
    ensures Value(d) == 0.0 <==> d.mant == 0
  {
    ShiftZero(d.mant as real, d.exp);
  }

  /** The lenient reading keeps the value of every number that parses. */
  lemma LenientValue(s: string)
    requires ParseNumber(s).Some?
    ensures Value(Lenient(s)) == Value(ParseNumber(s).value)
  {
    ZeroValue(ParseNumber(s).value);
  }

  /** A field that does not parse reads exactly like one holding `0`. */
  lemma LenientFailureIsZero(s: string)
    requires ParseNumber(s).None?
    ensures Lenient(s) == Lenient("0") == Lenient("")
  {
    assert "0"[1..] == [];
  }

  // ---------------------------------------------------------------------------
  // `x.toFixed(2)`

  /** |x| in hundredths, rounded to the nearest integer, ties away from zero. */
  function Cents(x: real): (n: nat)
    ensures n as real - 0.5 <= (if x < 0.0 then -x else x) * 100.0 < n as real + 0.5
  {
    ((if x < 0.0 then -x else x) * 100.0 + 0.5).Floor
  }

  /** The digits of `n` hundredths: the whole part, a point, exactly two decimals. */
  function CentsText(n: nat): string {
    NatToString(n / 100) + "." + [DigitChar(n % 100 / 10), DigitChar(n % 10)]
  }

  /** `x.toFixed(2)`: a `-` when x is negative, then |x| rounded to hundredths. */
  function Fixed2(x: real): (r: string)
    ensures |r| >= 4 && (r[0] == '-' <==> x < 0.0)
  {
    var t := CentsText(Cents(x));
    assert IsDigit(t[0]);
    if x < 0.0 then "-" + t else t
  }

  lemma TwoDigitsValue(n: nat)
    ensures DigitsValue([DigitChar(n % 100 / 10), DigitChar(n % 10)]) == n % 100
  {
    var f := [DigitChar(n % 100 / 10), DigitChar(n % 10)];
    assert f[..|f| - 1] == [f[0]];
    assert [f[0]][..0] == [];
    assert DigitsValue([f[0]]) == DigitValue(f[0]) == n % 100 / 10;
    assert DigitsValue(f) == DigitsValue([f[0]]) * 10 + DigitValue(f[1]);
    assert DigitValue(f[1]) == n % 10;
    var t := n % 100;
    assert n == (n / 100) * 100 + t;
    assert t == (t / 10) * 10 + t % 10;
    assert n % 10 == t % 10 by {
      assert n == ((n / 100) * 10 + t / 10) * 10 + t % 10;
    }
  }

  lemma CentsTextParses(n: nat)
    ensures ParseUnsigned(CentsText(n)) == Some(Decimal(n, 2))
    ensures IsDigit(CentsText(n)[0])
  {
    var w, f := NatToString(n / 100), [DigitChar(n % 100 / 10), DigitChar(n % 10)];
    TwoDigitsValue(n);
    DigitsValueAppend(w, f);
    assert Pow10(|f|) == 100;
    assert DigitsValue(w + f) == n;
    ParseUnsignedPoint(w, f);
    assert CentsText(n) == w + "." + f;
  }

  /** Zero is displayed as `0.00`. */
  lemma Fixed2Zero()
    ensures Fixed2(0.0) == "0.00"
  {
    assert Cents(0.0) == 0;
    assert NatToString(0) == "0";
    assert DigitChar(0) == '0';
  }

  /** A whole number is displayed with `.00`. */
  lemma Fixed2Whole(n: nat)
    ensures Fixed2(n as real) == NatToString(n) + ".00"
  {
    var m := 100 * n;
    assert (n as real) * 100.0 + 0.5 == m as real + 0.5;
    assert Cents(n as real) == m;
    WholeHundreds(n, m);
    assert DigitChar(0) == '0';
    assert CentsText(m) == NatToString(n) + ".00";
  }

  lemma WholeHundreds(n: nat, m: nat)
    requires m == 100 * n
    ensures m / 100 == n && m % 100 / 10 == 0 && m % 10 == 0
  {
    var q, r := m / 100, m % 100;
    assert m == 100 * q + r && 0 <= r < 100;
    assert q <= n < q + 1;
    var q', r' := m / 10, m % 10;
    assert m == 10 * q' + r' && 0 <= r' < 10;
    assert q' <= 10 * n < q' + 1;
  }

  /**
   * What `toFixed(2)` displays reads back as a number with two decimals at most
   * half a cent away from `x`.
   */
  lemma Fixed2RoundTrip(x: real)
    ensures ParseNumber(Fixed2(x)).Some?
    ensures ParseNumber(Fixed2(x)).value.exp == 2
    ensures -0.005 <= Value(ParseNumber(Fixed2(x)).value) - x <= 0.005
  {
    var n := Cents(x);
    CentsTextParses(n);
    var u, s := CentsText(n), Fixed2(x);
    assert forall y: real :: Shift(y, 2) == y / 100.0 by {
      forall y: real ensures Shift(y, 2) == y / 100.0 {
        assert Shift(y, 1) == y / 10.0;
      }
    }
    if x < 0.0 {
      assert s[1..] == u;
      assert ParseNumber(s) == Some(Decimal(-(n as int), 2));
      assert Value(Decimal(-(n as int), 2)) == -(n as real) / 100.0;
    } else {
      assert s == u;
      assert ParseNumber(s) == Some(Decimal(n, 2));
      assert Value(Decimal(n, 2)) == (n as real) / 100.0;
    }
  }

  // ---------------------------------------------------------------------------
  // `${x}`: a number spliced into a template

  /** The same number with no trailing zero after the point. */
  function Normalize(d: Decimal): (c: Decimal)
    ensures Value(c) == Value(d)
    ensures c.exp > 0 ==> c.mant % 10 != 0
    ensures c.mant < 0 <==> d.mant < 0
    decreases d.exp
  {
    if d.exp > 0 && d.mant % 10 == 0 then
      var q := d.mant / 10;
      assert Value(d) == Value(Decimal(q, d.exp - 1)) by {
        assert d.mant as real == 10.0 * q as real;
        ShiftScales(q as real, d.exp);
      }
      Normalize(Decimal(q, d.exp - 1))
    else d
  }

  /**
   * How a number prints in a template literal: an optional `-`, the whole
   * part, and when there are any, a point and the significant decimals.
   */
  function NumberText(d: Decimal): (r: string)
    ensures |r| >= 1 && (r[0] == '-' <==> d.mant < 0)
  {
    var c := Normalize(d);
    var digits := NatToString(Abs(c.mant));
    var u := UnsignedText(digits, c.exp);
    UnsignedTextParses(digits, c.exp);
    if c.mant < 0 then "-" + u else u
  }

  /** The digits of a magnitude with the point placed `exp` digits from the right. */
  function UnsignedText(digits: string, exp: nat): string
    requires AllDigits(digits)
  {
    if exp == 0 then digits else Pointed(Padded(digits, exp), exp)
  }

  /** `digits` with leading zeros so that at least one digit stands before the point. */
  function Padded(digits: string, exp: nat): (padded: string)
    requires AllDigits(digits)
    ensures |padded| > exp && |padded| >= |digits| && AllDigits(padded)
    ensures DigitsValue(padded) == DigitsValue(digits)
  {
    var z := Zeros(exp + 1 - |digits|);
    DigitsValueAppend(z, digits);
    z + digits
  }

  /** `padded` with a point inserted before its last `exp` digits. */
  function Pointed(padded: string, exp: nat): string
    requires |padded| > exp
  {
    padded[..|padded| - exp] + "." + padded[|padded| - exp..]
  }

  lemma SplitJoin(s: string, k: nat)
    requires k <= |s|
    ensures s[..k] + s[k..] == s
  {
  }

  lemma PointedTextParses(padded: string, exp: nat)
    requires AllDigits(padded) && |padded| > exp > 0
    ensures ParseUnsigned(Pointed(padded, exp)) == Some(Decimal(DigitsValue(padded), exp))
    ensures IsDigit(Pointed(padded, exp)[0])
  {
    var k := |padded| - exp;
    var w, f := padded[..k], padded[k..];
    SplitJoin(padded, k);
    ParseUnsignedPoint(w, f);
    assert Pointed(padded, exp)[0] == padded[0];
  }

  lemma UnsignedTextParses(digits: string, exp: nat)
    requires AllDigits(digits) && |digits| > 0
    ensures ParseUnsigned(UnsignedText(digits, exp)) == Some(Decimal(DigitsValue(digits), exp))
    ensures IsDigit(UnsignedText(digits, exp)[0])
  {
    if exp == 0 {
      ParseUnsignedWhole(digits);
    } else {
      PointedTextParses(Padded(digits, exp), exp);
    }
  }

  lemma ParseSigned(u: string, d: Decimal)
    requires ParseUnsigned(u) == Some(d) && |u| > 0 && IsDigit(u[0])
    ensures ParseNumber(u) == Some(d)
    ensures ParseNumber("-" + u) == Some(Decimal(-d.mant, d.exp))
  {
    assert ("-" + u)[1..] == u;
  }

  /** Printing a number and reading it back gives the same number, in its shortest form. */
  lemma NumberTextRoundTrip(d: Decimal)
    ensures ParseNumber(NumberText(d)) == Some(Normalize(d))
    ensures Value(Normalize(d)) == Value(d)
  {
    var c := Normalize(d);
    var digits := NatToString(Abs(c.mant));
    UnsignedTextParses(digits, c.exp);
    ParseSigned(UnsignedText(digits, c.exp), Decimal(Abs(c.mant), c.exp));
  }

  /** A printed number read back with `Number(v) || 0` keeps its value. */
  lemma LenientNumberText(d: Decimal)
    ensures Value(Lenient(NumberText(d))) == Value(d)
  {
    NumberTextRoundTrip(d);
    LenientValue(NumberText(d));
  }

  // ---------------------------------------------------------------------------
  // Displayed numbers need no escaping

  /** Only digits, `-` and `.`. */
  predicate IsNumeral(s: string) {
    forall i :: 0 <= i < |s| ==> IsDigit(s[i]) || s[i] == '-' || s[i] == '.'
  }

  lemma NumeralAppend(a: string, b: string)
    requires IsNumeral(a) && IsNumeral(b)
    ensures IsNumeral(a + b)
  {
    forall i | 0 <= i < |a + b| ensures IsDigit((a + b)[i]) || (a + b)[i] == '-' || (a + b)[i] == '.' {
      if i < |a| { assert (a + b)[i] == a[i]; } else { assert (a + b)[i] == b[i - |a|]; }
    }
  }

  lemma Fixed2IsNumeral(x: real)
    ensures IsNumeral(Fixed2(x))
  {
    var n := Cents(x);
    var w, f := NatToString(n / 100), [DigitChar(n % 100 / 10), DigitChar(n % 10)];
    NumeralAppend(w, ".");
    NumeralAppend(w + ".", f);
    NumeralAppend("-", CentsText(n));
  }

  lemma NumberTextIsNumeral(d: Decimal)
    ensures IsNumeral(NumberText(d))
  {
    var c := Normalize(d);
    var digits := NatToString(Abs(c.mant));
    if c.exp != 0 {
      var padded := Padded(digits, c.exp);
      var k := |padded| - c.exp;
      NumeralAppend(padded[..k], ".");
      NumeralAppend(padded[..k] + ".", padded[k..]);
    }
    NumeralAppend("-", UnsignedText(digits, c.exp));
  }
}
