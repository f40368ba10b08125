/**
 * The text transforms applied to user-supplied strings before they are
 * spliced into the preview markup: `escapeHtml` (app.js:61-67) and, for the
 * "From" and "Bill To" blocks, escaping followed by turning every newline
 * into a `<br>` tag (app.js:137, 141).
 */
module Markup {

  /** The four characters that `escapeHtml` rewrites. */
  predicate IsMarkupChar(c: char) {
    c == '&' || c == '<' || c == '>' || c == '"'
  }

  /** `s.replace(/c/g, rep)` for a one-character pattern: every occurrence of `c`, left to right. */
  function ReplaceChar(s: string, c: char, rep: string): (r: string)
    ensures c !in s ==> r == s
    ensures c !in rep ==> c !in r
  {
    if s == [] then [] else (if s[0] == c then rep else [s[0]]) + ReplaceChar(s[1..], c, rep)
  }

  lemma {:induction false} ReplaceCharAppend(a: string, b: string, c: char, rep: string)
    ensures ReplaceChar(a + b, c, rep) == ReplaceChar(a, c, rep) + ReplaceChar(b, c, rep)
  {
    if a != [] {
      var h := if a[0] == c then rep else [a[0]];
      var s := a + b;
      assert s[0] == a[0] && s[1..] == a[1..] + b;
      ReplaceCharAppend(a[1..], b, c, rep);
      var ta, tb := ReplaceChar(a[1..], c, rep), ReplaceChar(b, c, rep);
      assert ReplaceChar(s, c, rep) == h + (ta + tb);
      assert ReplaceChar(a, c, rep) == h + ta;
      assert h + (ta + tb) == (h + ta) + tb;
    } else {
      assert a + b == b;
    }
  }

  /** A replacement never brings in a character that neither the text nor the replacement holds. */
  lemma {:induction false} ReplaceCharAbsent(s: string, c: char, rep: string, d: char)
    requires d !in s && d !in rep
    ensures d !in ReplaceChar(s, c, rep)
  {
    if s != [] {
      assert d !in s[1..] by { assert forall i :: 0 <= i < |s[1..]| ==> s[1..][i] == s[i + 1]; }
      ReplaceCharAbsent(s[1..], c, rep, d);
    }
  }

  /** None of the entities holds `<`, `>` or `"`. */
  lemma EntitiesHoldNoMarkup()
    ensures '<' !in "&lt;" && '<' !in "&gt;" && '<' !in "&quot;"
    ensures '>' !in "&gt;" && '>' !in "&quot;" && '"' !in "&quot;"
  {
  }

  /**
   * The transform as the source writes it: four global replacements, `&` first.
   * No `<`, `>` or `"` is left, and text without any of the four characters
   * passes through unchanged.
   */
  function EscapeHtml(s: string): (r: string)
    ensures '<' !in r && '>' !in r && '"' !in r
    ensures (forall i :: 0 <= i < |s| ==> !IsMarkupChar(s[i])) ==> r == s
  {
    EntitiesHoldNoMarkup();
    var amp := ReplaceChar(s, '&', "&amp;");
    var lt := ReplaceChar(amp, '<', "&lt;");
    var gt := ReplaceChar(lt, '>', "&gt;");
    ReplaceCharAbsent(lt, '>', "&gt;", '<');
    ReplaceCharAbsent(gt, '"', "&quot;", '<');
    ReplaceCharAbsent(gt, '"', "&quot;", '>');
    ReplaceChar(gt, '"', "&quot;")
  }

  /** What a single input character turns into. */
  function EscapeChar(x: char): (r: string)
    ensures |r| >= 1 && r[0] == (if IsMarkupChar(x) then '&' else x)
    ensures IsMarkupChar(x) <==> |r| > 1
  {
    if x == '&' then "&amp;"
    else if x == '<' then "&lt;"
    else if x == '>' then "&gt;"
    else if x == '"' then "&quot;"
    else [x]
  }

  /** Reference definition: one left-to-right pass that escapes each character once. */
  function EscapeEach(s: string): string {
    if s == [] then [] else EscapeChar(s[0]) + EscapeEach(s[1..])
  }

  lemma EscapeHtmlAppend(a: string, b: string)
    ensures EscapeHtml(a + b) == EscapeHtml(a) + EscapeHtml(b)
  {
    var r1a, r1b := ReplaceChar(a, '&', "&amp;"), ReplaceChar(b, '&', "&amp;");
    ReplaceCharAppend(a, b, '&', "&amp;");
    var r2a, r2b := ReplaceChar(r1a, '<', "&lt;"), ReplaceChar(r1b, '<', "&lt;");
    ReplaceCharAppend(r1a, r1b, '<', "&lt;");
    var r3a, r3b := ReplaceChar(r2a, '>', "&gt;"), ReplaceChar(r2b, '>', "&gt;");
    ReplaceCharAppend(r2a, r2b, '>', "&gt;");
    ReplaceCharAppend(r3a, r3b, '"', "&quot;");
  }

  lemma EscapeHtmlOneChar(x: char)
    ensures EscapeHtml([x]) == EscapeChar(x)
  {
    ReplaceOne(x, '&', "&amp;");
    if x == '&' {
      assert '<' !in "&amp;" && '>' !in "&amp;" && '"' !in "&amp;";
    } else {
      ReplaceOne(x, '<', "&lt;");
      if x == '<' {
        assert '>' !in "&lt;" && '"' !in "&lt;";
      } else {
        ReplaceOne(x, '>', "&gt;");
        if x == '>' {
          assert '"' !in "&gt;";
        } else {
          ReplaceOne(x, '"', "&quot;");
        }
      }
    }
  }

  lemma ReplaceOne(x: char, c: char, rep: string)
    ensures ReplaceChar([x], c, rep) == if x == c then rep else [x]
  {
    assert [x][1..] == [];
  }

  /**
   * The four chained replacements equal the single pass: because `&` is
   * replaced first, no entity introduced by a later step is escaped again.
   */
  lemma {:induction false} EscapeHtmlIsSinglePass(s: string)
    ensures EscapeHtml(s) == EscapeEach(s)
  {
    if s != [] {
      assert s == [s[0]] + s[1..];
      EscapeHtmlAppend([s[0]], s[1..]);
      EscapeHtmlOneChar(s[0]);
      EscapeHtmlIsSinglePass(s[1..]);
    }
  }

  // ---------------------------------------------------------------------------
  // What escaped text looks like

  /** Position `i` of `r` begins one of the four entities that `escapeHtml` emits. */
  predicate EntityAt(r: string, i: nat)
    requires i <= |r|
  {
    "&amp;" <= r[i..] || "&lt;" <= r[i..] || "&gt;" <= r[i..] || "&quot;" <= r[i..]
  }

  /** Every `&` in `r` is the start of an entity, so no `&` is left bare. */
  predicate AmpersandsAreEntities(r: string) {
    forall i :: 0 <= i < |r| && r[i] == '&' ==> EntityAt(r, i)
  }

  /** Text that a browser reads back as plain characters: no tag or attribute delimiter, no bare `&`. */
  predicate IsEscaped(r: string) {
    '<' !in r && '>' !in r && '"' !in r && AmpersandsAreEntities(r)
  }

  lemma PrefixOfLeftPart(p: string, a: string, b: string, i: nat)
    requires i <= |a| && p <= a[i..]
    ensures p <= (a + b)[i..]
  {
    assert (a + b)[i..] == a[i..] + b;
  }

  lemma AmpersandsAppend(a: string, b: string)
    requires AmpersandsAreEntities(a) && AmpersandsAreEntities(b)
    ensures AmpersandsAreEntities(a + b)
  {
    forall i | 0 <= i < |a + b| && (a + b)[i] == '&'
      ensures EntityAt(a + b, i)
    {
      if i < |a| {
        assert a[i] == '&' && EntityAt(a, i);
        if "&amp;" <= a[i..] { PrefixOfLeftPart("&amp;", a, b, i); }
        else if "&lt;" <= a[i..] { PrefixOfLeftPart("&lt;", a, b, i); }
        else if "&gt;" <= a[i..] { PrefixOfLeftPart("&gt;", a, b, i); }
        else { PrefixOfLeftPart("&quot;", a, b, i); }
      } else {
        assert b[i - |a|] == '&' && EntityAt(b, i - |a|);
        assert (a + b)[i..] == b[i - |a|..];
      }
    }
  }

  lemma EscapedAppend(a: string, b: string)
    requires IsEscaped(a) && IsEscaped(b)
    ensures IsEscaped(a + b)
  {
    AmpersandsAppend(a, b);
  }

  lemma EscapeCharIsEscaped(x: char)
    ensures IsEscaped(EscapeChar(x))
  {
    var r := EscapeChar(x);
    forall i | 0 <= i < |r| && r[i] == '&'
      ensures EntityAt(r, i)
    {
      assert i == 0 && r[i..] == r;
    }
  }

  lemma {:induction false} EscapeEachIsEscaped(s: string)
    ensures IsEscaped(EscapeEach(s))
  {
    if s != [] {
      EscapeCharIsEscaped(s[0]);
      EscapeEachIsEscaped(s[1..]);
      EscapedAppend(EscapeChar(s[0]), EscapeEach(s[1..]));
    } else {
      assert EscapeEach(s) == [];
    }
  }

  /**
   * No raw `<`, `>` or `"` survives escaping, and every `&` in the output
   * begins `&amp;`, `&lt;`, `&gt;` or `&quot;`.
   */
  lemma EscapeHtmlIsEscaped(s: string)
    ensures '<' !in EscapeHtml(s) && '>' !in EscapeHtml(s) && '"' !in EscapeHtml(s)
    ensures forall i :: 0 <= i < |EscapeHtml(s)| && EscapeHtml(s)[i] == '&' ==> EntityAt(EscapeHtml(s), i)
  {
    EscapeHtmlIsSinglePass(s);
    EscapeEachIsEscaped(s);
  }

  lemma {:induction false} EscapeEachLength(s: string)
    ensures |EscapeEach(s)| >= |s|
    ensures (exists i :: 0 <= i < |s| && IsMarkupChar(s[i])) ==> |EscapeEach(s)| > |s|
  {
    if s != [] {
      EscapeEachLength(s[1..]);
      if exists i :: 0 <= i < |s| && IsMarkupChar(s[i]) {
        var i :| 0 <= i < |s| && IsMarkupChar(s[i]);
        if i > 0 { assert s[1..][i - 1] == s[i]; }
      }
    }
  }

  /** Escaping changes a string exactly when the string holds one of `& < > "`. */
  lemma EscapeHtmlIdentity(s: string)
    ensures EscapeHtml(s) == s <==> forall i :: 0 <= i < |s| ==> !IsMarkupChar(s[i])
  {
    EscapeHtmlIsSinglePass(s);
    EscapeEachLength(s);
    if forall i :: 0 <= i < |s| ==> !IsMarkupChar(s[i]) {
      assert '&' !in s && '<' !in s && '>' !in s && '"' !in s;
    }
  }

  // ---------------------------------------------------------------------------
  // Decoding: the inverse of escaping

  /** Replaces each of the four entities by the character it stands for, left to right. */
  function Unescape(r: string): string
    decreases |r|
  {
    if r == [] then []
    else if "&amp;" <= r then "&" + Unescape(r[5..])
    else if "&lt;" <= r then "<" + Unescape(r[4..])
    else if "&gt;" <= r then ">" + Unescape(r[4..])
    else if "&quot;" <= r then "\"" + Unescape(r[6..])
    else [r[0]] + Unescape(r[1..])
  }

  lemma UnescapeAfterChar(x: char, rest: string)
    ensures Unescape(EscapeChar(x) + rest) == [x] + Unescape(rest)
  {
    var e := EscapeChar(x);
    var r := e + rest;
    assert r[..|e|] == e;
    assert r[|e|..] == rest;
    if !IsMarkupChar(x) {
      assert r[0] == x && x != '&';
      assert !("&amp;" <= r) && !("&lt;" <= r) && !("&gt;" <= r) && !("&quot;" <= r);
    } else {
      // the second character tells the four entities apart
      assert r[1] == e[1];
      assert r[1] == 'a' ==> x == '&';
    }
  }

  lemma {:induction false} UnescapeEscapeEach(s: string)
    ensures Unescape(EscapeEach(s)) == s
  {
    if s != [] {
      UnescapeAfterChar(s[0], EscapeEach(s[1..]));
      UnescapeEscapeEach(s[1..]);
    }
  }

  /** Decoding the entities gives back the original string. */
  lemma UnescapeEscapeHtml(s: string)
    ensures Unescape(EscapeHtml(s)) == s
  {
    EscapeHtmlIsSinglePass(s);
    UnescapeEscapeEach(s);
  }

  /** Two different strings never escape to the same text. */
  lemma EscapeHtmlInjective(a: string, b: string)
    ensures EscapeHtml(a) == EscapeHtml(b) ==> a == b
  {
    UnescapeEscapeHtml(a);
    UnescapeEscapeHtml(b);
  }

  // ---------------------------------------------------------------------------
  // The "From" and "Bill To" blocks: escape, then newlines become `<br>`

  /** `escapeHtml(v).replace(/\n/g, "<br>")` (app.js:137, 141): one line of markup with no `"`. */
  function BillInfoHtml(s: string): (r: string)
    ensures '\n' !in r && '"' !in r
  {
    assert '"' !in "<br>" && '\n' !in "<br>";
    ReplaceCharAbsent(EscapeHtml(s), '\n', "<br>", '"');
    ReplaceChar(EscapeHtml(s), '\n', "<br>")
  }

  function BillChar(x: char): string {
    if x == '\n' then "<br>" else EscapeChar(x)
  }

  /** Reference definition: one pass that escapes each character or turns it into `<br>`. */
  function BillEach(s: string): string {
    if s == [] then [] else BillChar(s[0]) + BillEach(s[1..])
  }

  lemma {:induction false} NewlinesAfterEscapeEach(s: string)
    ensures ReplaceChar(EscapeEach(s), '\n', "<br>") == BillEach(s)
  {
    if s != [] {
      ReplaceCharAppend(EscapeChar(s[0]), EscapeEach(s[1..]), '\n', "<br>");
      NewlineAfterEscapeChar(s[0]);
      NewlinesAfterEscapeEach(s[1..]);
    } else {
      assert EscapeEach(s) == [];
    }
  }

  lemma NewlineAfterEscapeChar(x: char)
    ensures ReplaceChar(EscapeChar(x), '\n', "<br>") == BillChar(x)
  {
    if x == '\n' {
      ReplaceOne(x, '\n', "<br>");
    } else if !IsMarkupChar(x) {
      ReplaceOne(x, '\n', "<br>");
    } else {
      assert '\n' !in EscapeChar(x);
    }
  }

  lemma BillInfoIsSinglePass(s: string)
    ensures BillInfoHtml(s) == BillEach(s)
  {
    EscapeHtmlIsSinglePass(s);
    NewlinesAfterEscapeEach(s);
  }

  /**
   * The only markup in a bill-info value is the `<br>` tag: no newline and no
   * `"` remains, every `&` begins an entity, every `<` begins `<br>` and every
   * `>` ends one.
   */
  predicate IsBillMarkup(r: string) {
    && '\n' !in r && '"' !in r && AmpersandsAreEntities(r)
    && (forall i :: 0 <= i < |r| && r[i] == '<' ==> "<br>" <= r[i..])
    && (forall i :: 0 <= i < |r| && r[i] == '>' ==> 3 <= i && r[i - 3..i + 1] == "<br>")
  }

  lemma BillMarkupAppend(a: string, b: string)
    requires IsBillMarkup(a) && IsBillMarkup(b)
    ensures IsBillMarkup(a + b)
  {
    AmpersandsAppend(a, b);
    var r := a + b;
    forall i | 0 <= i < |r| && r[i] == '<'
      ensures "<br>" <= r[i..]
    {
      if i < |a| {
        assert a[i] == '<';
        PrefixOfLeftPart("<br>", a, b, i);
      } else {
        assert b[i - |a|] == '<';
        assert r[i..] == b[i - |a|..];
      }
    }
    forall i | 0 <= i < |r| && r[i] == '>'
      ensures 3 <= i && r[i - 3..i + 1] == "<br>"
    {
      if i < |a| {
        assert a[i] == '>';
        assert r[i - 3..i + 1] == a[i - 3..i + 1];
      } else {
        assert b[i - |a|] == '>';
        assert r[i - 3..i + 1] == b[i - |a| - 3..i - |a| + 1];
      }
    }
  }

  lemma BillCharIsBillMarkup(x: char)
    ensures IsBillMarkup(BillChar(x))
  {
    if x != '\n' {
      EscapedCharIsBillMarkup(x);
    } else {
      BrIsBillMarkup();
    }
  }

  lemma EscapedCharIsBillMarkup(x: char)
    requires x != '\n'
    ensures IsBillMarkup(EscapeChar(x))
  {
    EscapeCharIsEscaped(x);
    var r := EscapeChar(x);
    assert '\n' !in r;
  }

  lemma BrIsBillMarkup()
    ensures IsBillMarkup("<br>")
  {
    var r := "<br>";
    assert '\n' !in r && '"' !in r && '&' !in r;
    forall i | 0 <= i < |r| && r[i] == '<' ensures "<br>" <= r[i..] {
      assert i == 0;
    }
    forall i | 0 <= i < |r| && r[i] == '>' ensures 3 <= i && r[i - 3..i + 1] == "<br>" {
      assert i == 3;
    }
  }

  lemma {:induction false} BillEachIsBillMarkup(s: string)
    ensures IsBillMarkup(BillEach(s))
  {
    if s != [] {
      BillCharIsBillMarkup(s[0]);
      BillEachIsBillMarkup(s[1..]);
      BillMarkupAppend(BillChar(s[0]), BillEach(s[1..]));
    } else {
      assert BillEach(s) == [];
    }
  }

  /** A bill-info value contains no newline, and its only tag is `<br>`. */
  lemma BillInfoHtmlIsBillMarkup(s: string)
    ensures IsBillMarkup(BillInfoHtml(s))
  {
    BillInfoIsSinglePass(s);
    BillEachIsBillMarkup(s);
  }

  /** Turns each `<br>` back into a newline, left to right. */
  function BrToNewline(r: string): string
    decreases |r|
  {
    if r == [] then []
    else if "<br>" <= r then "\n" + BrToNewline(r[4..])
    else [r[0]] + BrToNewline(r[1..])
  }

  lemma {:induction false} BrToNewlineKeepsPlain(p: string, rest: string)
    requires '<' !in p
    ensures BrToNewline(p + rest) == p + BrToNewline(rest)
  {
    if p != [] {
      var r := p + rest;
      assert r[0] == p[0] != '<';
      assert r[1..] == p[1..] + rest;
      BrToNewlineKeepsPlain(p[1..], rest);
    } else {
      assert p + rest == rest;
    }
  }

  lemma {:induction false} BrToNewlineBillEach(s: string)
    ensures BrToNewline(BillEach(s)) == EscapeEach(s)
  {
    if s != [] {
      var rest := BillEach(s[1..]);
      if s[0] == '\n' {
        var r := "<br>" + rest;
        assert "<br>" <= r && r[4..] == rest;
      } else {
        EscapeCharIsEscaped(s[0]);
        BrToNewlineKeepsPlain(EscapeChar(s[0]), rest);
      }
      BrToNewlineBillEach(s[1..]);
    }
  }

  /** The bill-info transform loses nothing: undoing `<br>` and then the entities gives the field back. */
  lemma BillInfoRoundTrip(s: string)
    ensures Unescape(BrToNewline(BillInfoHtml(s))) == s
  {
    BillInfoIsSinglePass(s);
    BrToNewlineBillEach(s);
    UnescapeEscapeEach(s);
  }

  // ---------------------------------------------------------------------------
  // Counting characters, to count the tags of generated markup

  function Occurrences(s: string, c: char): nat {
    if s == [] then 0 else (if s[0] == c then 1 else 0) + Occurrences(s[1..], c)
  }

  lemma {:induction false} OccurrencesAppend(a: string, b: string, c: char)
    ensures Occurrences(a + b, c) == Occurrences(a, c) + Occurrences(b, c)
  {
    if a != [] {
      assert (a + b)[1..] == a[1..] + b;
      OccurrencesAppend(a[1..], b, c);
    } else {
      assert a + b == b;
    }
  }

  lemma {:induction false} OccurrencesAbsent(s: string, c: char)
    requires c !in s
    ensures Occurrences(s, c) == 0
  {
    if s != [] {
      assert c !in s[1..] by { forall i | 0 <= i < |s[1..]| ensures s[1..][i] != c { assert s[1..][i] == s[i + 1]; } }
      OccurrencesAbsent(s[1..], c);
    }
  }
}
