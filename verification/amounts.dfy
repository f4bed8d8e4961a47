/**
 * Reading the wage (IBC) and weeks cells of a contribution row.
 *
 * A wage cell keeps only digits, dots and commas; the separators are then
 * resolved by a fixed rule (both present: dots are thousands and the comma is
 * decimal; several dots: all thousands; commas only: decimal when the second
 * comma-separated field has exactly two characters, thousands otherwise), and
 * the result is read as a decimal number. A text that is not a number makes the
 * whole row fail (None); an empty text is 0.0. Values are exact reals: binary
 * floating point is not modelled.
 */
module Amounts {
  import opened Common
  import opened Text

  predicate IsAmountChar(c: char) {
    IsDigit(c) || c == '.' || c == ','
  }

  predicate IsDecimalChar(c: char) {
    IsDigit(c) || c == '.'
  }

  predicate AllAmountChars(s: string) {
    forall c :: c in s ==> IsAmountChar(c)
  }

  predicate AllDecimalChars(s: string) {
    forall c :: c in s ==> IsDecimalChar(c)
  }

  /** The text holds no digit, dot or comma: currency signs, letters, blanks. */
  predicate NoAmountChars(s: string) {
    forall i :: 0 <= i < |s| ==> !IsAmountChar(s[i])
  }

  /**
   * re.sub(r'[^\d\.,]', '', s): only digits, dots and commas remain; a text
   * made of them is kept whole and a text with none of them vanishes
   * (KeepAmountCharsAppend: the filter works piece by piece, so every digit,
   * dot and comma survives, in order).
   */
  function KeepAmountChars(s: string): (r: string)
    ensures AllAmountChars(r)
    ensures |r| <= |s|
    ensures AllAmountChars(s) ==> r == s
    ensures NoAmountChars(s) ==> r == []
  {
    if s == [] then [] else (if IsAmountChar(s[0]) then [s[0]] else []) + KeepAmountChars(s[1..])
  }

  /** s.replace(c, '') */
  function RemoveChar(s: string, c: char): (r: string)
    ensures c !in r
    ensures forall x :: x in r <==> x in s && x != c
  {
    if s == [] then [] else (if s[0] == c then [] else [s[0]]) + RemoveChar(s[1..], c)
  }

  /** s.replace(c, d) */
  function ReplaceChar(s: string, c: char, d: char): (r: string)
    ensures |r| == |s|
    ensures forall i :: 0 <= i < |s| ==> r[i] == (if s[i] == c then d else s[i])
    ensures forall x :: x in r ==> x == d || (x in s && x != c)
  {
    if s == [] then [] else [if s[0] == c then d else s[0]] + ReplaceChar(s[1..], c, d)
  }

  /** s.count(c) */
  function CountChar(s: string, c: char): (n: nat)
    ensures n == 0 <==> c !in s
  {
    if s == [] then 0 else (if s[0] == c then 1 else 0) + CountChar(s[1..], c)
  }

  /** s.find(c), or |s| when c does not occur. */
  function IndexOfChar(s: string, c: char): (k: nat)
    ensures k <= |s|
    ensures c !in s[..k]
    ensures k < |s| ==> s[k] == c
  {
    if s == [] || s[0] == c then 0
    else
      var k := 1 + IndexOfChar(s[1..], c);
      assert s[..k] == [s[0]] + s[1..][..k - 1];
      k
  }

  /** s.split(',')[1]: the text between the first comma and the next comma (or the end). */
  function SecondCommaField(s: string): (f: string)
    requires ',' in s
    ensures ',' !in f
  {
    var rest := s[IndexOfChar(s, ',') + 1..];
    rest[..IndexOfChar(rest, ',')]
  }

  /** The separator resolution applied to a cleaned wage text. */
  function ResolveSeparators(s: string): (r: string)
    requires AllAmountChars(s)
    ensures AllDecimalChars(r)
  {
    if ',' in s && '.' in s then ReplaceChar(RemoveChar(s, '.'), ',', '.')
    else if CountChar(s, '.') > 1 then RemoveChar(s, '.')
    else if ',' in s then
      (if |SecondCommaField(s)| == 2 then ReplaceChar(s, ',', '.') else RemoveChar(s, ','))
    else s
  }

  /** A text of digits and dots without a dot is all digits. */
  lemma DecimalWithoutDot(s: string)
    requires AllDecimalChars(s) && '.' !in s
    ensures AllDigits(s)
  {
    forall i | 0 <= i < |s| ensures IsDigit(s[i]) {
      assert s[i] in s;
    }
  }

  /**
   * Python's float() on a text of digits and dots: a number when there is at
   * most one dot and at least one digit ("5." and ".5" are numbers, "." is not).
   */
  function ParseDecimal(s: string): (r: Option<real>)
    requires AllDecimalChars(s)
    ensures r.Some? ==> r.value >= 0.0
  {
    var k := IndexOfChar(s, '.');
    if k == |s| then
      DecimalWithoutDot(s);
      if s == [] then None else Some(DigitsValue(s) as real)
    else
      assert forall c :: c in s[k + 1..] ==> c in s;
      DecimalWithoutDot(s[..k]);
      PointValue(s[..k], s[k + 1..])
  }

  /** The reading of `whole.fraction`; None when the fraction holds a second dot or both parts are empty. */
  function PointValue(whole: string, fraction: string): (r: Option<real>)
    requires AllDigits(whole) && AllDecimalChars(fraction)
    ensures r.Some? ==> r.value >= 0.0
  {
    if '.' in fraction || (whole == [] && fraction == []) then None
    else
      DecimalWithoutDot(fraction);
      Some(DecimalValue(DigitsValue(whole), DigitsValue(fraction), |fraction|))
  }

  /** The number written `whole.fraction` where the fraction has `places` digits. */
  function DecimalValue(whole: nat, fraction: nat, places: nat): (v: real)
    ensures v >= whole as real
  {
    whole as real + fraction as real / Pow10(places) as real
  }

  /** The wage cell: None when float() would raise, which drops the row. */
  function ParseIbc(raw: string): (r: Option<real>)
    ensures r.Some? ==> r.value >= 0.0
  {
    var clean := ResolveSeparators(KeepAmountChars(raw));
    if clean == [] then Some(0.0) else ParseDecimal(clean)
  }

  /** The weeks cell: commas become decimal points; None when float() would raise. */
  function ParseWeeks(raw: string): (r: Option<real>)
    ensures r.Some? ==> r.value >= 0.0
  {
    var clean := ReplaceChar(KeepAmountChars(raw), ',', '.');
    if clean == [] then Some(0.0) else ParseDecimal(clean)
  }


  // ---------------------------------------------------------------------------
  // Laws of the character-level helpers.

  /** The filter distributes over concatenation. */
  lemma {:induction false} KeepAmountCharsAppend(a: string, b: string)
    ensures KeepAmountChars(a + b) == KeepAmountChars(a) + KeepAmountChars(b)
  {
    if a == [] {
      assert a + b == b;
    } else {
      assert (a + b)[1..] == a[1..] + b;
      KeepAmountCharsAppend(a[1..], b);
    }
  }

  /** Text without digits, dots or commas around a cell's content is dropped by the filter. */
  lemma KeepAmountCharsAround(p: string, s: string, q: string)
    requires NoAmountChars(p) && NoAmountChars(q)
    ensures KeepAmountChars(p + s + q) == KeepAmountChars(s)
  {
    KeepAmountCharsAppend(p + s, q);
    KeepAmountCharsAppend(p, s);
  }

  lemma {:induction false} RemoveCharAppend(a: string, b: string, c: char)
    ensures RemoveChar(a + b, c) == RemoveChar(a, c) + RemoveChar(b, c)
  {
    if a == [] {
      assert a + b == b;
    } else {
      assert (a + b)[1..] == a[1..] + b;
      RemoveCharAppend(a[1..], b, c);
    }
  }

  lemma {:induction false} RemoveCharAbsent(s: string, c: char)
    requires c !in s
    ensures RemoveChar(s, c) == s
  {
    if s != [] {
      RemoveCharAbsent(s[1..], c);
    }
  }

  /** Removing c around one other character x. */
  lemma RemoveCharAround(a: string, x: char, b: string, c: char)
    requires x != c
    ensures RemoveChar(a + [x] + b, c) == RemoveChar(a, c) + [x] + RemoveChar(b, c)
  {
    RemoveCharAppend(a + [x], b, c);
    RemoveCharAppend(a, [x], c);
  }

  lemma ReplaceCharAround(a: string, x: char, b: string, c: char, d: char)
    ensures ReplaceChar(a + [x] + b, c, d) == ReplaceChar(a, c, d) + ReplaceChar([x], c, d) + ReplaceChar(b, c, d)
  {
  }

  lemma ReplaceCharAbsent(s: string, c: char, d: char)
    requires c !in s
    ensures ReplaceChar(s, c, d) == s
  {
  }

  lemma {:induction false} CountCharAppend(a: string, b: string, c: char)
    ensures CountChar(a + b, c) == CountChar(a, c) + CountChar(b, c)
  {
    if a == [] {
      assert a + b == b;
    } else {
      assert (a + b)[1..] == a[1..] + b;
      CountCharAppend(a[1..], b, c);
    }
  }

  lemma NoCharInDigits(s: string, c: char)
    requires AllDigits(s) && !IsDigit(c)
    ensures c !in s
  {
    forall i | 0 <= i < |s| ensures s[i] != c { }
  }

  /** The first occurrence of c in a + [c] + b, when a has none. */
  lemma {:induction false} IndexOfCharAt(a: string, c: char, b: string)
    requires c !in a
    ensures IndexOfChar(a + [c] + b, c) == |a|
  {
    if a != [] {
      assert (a + [c] + b)[1..] == a[1..] + [c] + b;
      IndexOfCharAt(a[1..], c, b);
    }
  }

  lemma IndexOfCharAbsent(s: string, c: char)
    requires c !in s
    ensures IndexOfChar(s, c) == |s|
  {
  }

  // ---------------------------------------------------------------------------
  // How float() reads a text with one decimal point, or with none.

  lemma ParseDecimalInteger(d: string)
    requires AllDigits(d) && d != []
    ensures AllDecimalChars(d)
    ensures ParseDecimal(d) == Some(DigitsValue(d) as real)
  {
    NoCharInDigits(d, '.');
    IndexOfCharAbsent(d, '.');
  }

  lemma DecimalCharsAround(d: string, f: string)
    requires AllDigits(d) && AllDigits(f)
    ensures AllDecimalChars(d + ['.'] + f)
  {
    var s := d + ['.'] + f;
    forall c | c in s ensures IsDecimalChar(c) {
      var i :| 0 <= i < |s| && s[i] == c;
      if i < |d| { assert s[i] == d[i]; } else if i > |d| { assert s[i] == f[i - |d| - 1]; }
    }
  }

  lemma ParseDecimalSplit(d: string, f: string)
    requires AllDigits(d) && AllDecimalChars(f) && AllDecimalChars(d + ['.'] + f)
    requires IndexOfChar(d + ['.'] + f, '.') == |d|
    ensures ParseDecimal(d + ['.'] + f) == PointValue(d, f)
  {
    var s := d + ['.'] + f;
    assert s[..|d|] == d;
    assert s[|d| + 1..] == f;
  }

  lemma PointValueDigits(d: string, f: string)
    requires AllDigits(d) && AllDigits(f) && |d| + |f| > 0
    ensures AllDecimalChars(f)
    ensures PointValue(d, f) == Some(DecimalValue(DigitsValue(d), DigitsValue(f), |f|))
  {
    NoCharInDigits(f, '.');
  }

  lemma ParseDecimalPoint(d: string, f: string)
    requires AllDigits(d) && AllDigits(f) && |d| + |f| > 0
    ensures AllDecimalChars(d + ['.'] + f)
    ensures ParseDecimal(d + ['.'] + f) == Some(DecimalValue(DigitsValue(d), DigitsValue(f), |f|))
  {
    DecimalCharsAround(d, f);
    NoCharInDigits(d, '.');
    NoCharInDigits(f, '.');
    IndexOfCharAt(d, '.', f);
    PointValueDigits(d, f);
    ParseDecimalSplit(d, f);
  }

  /** When the cleaned text resolves to a non-empty text, the wage is what float() reads. */
  lemma ParseIbcResolved(s: string, clean: string)
    requires AllAmountChars(s) && ResolveSeparators(s) == clean && clean != []
    ensures ParseIbc(s) == ParseDecimal(clean)
  {
    assert KeepAmountChars(s) == s;
  }

  // ---------------------------------------------------------------------------
  // Amounts written with thousands groups, as they appear in contribution reports.

  /** Two digits with a leading zero (the cents). */
  function Pad2(k: nat): (s: string)
    requires k < 100
    ensures |s| == 2 && AllDigits(s)
  {
    [DigitChar(k / 10), DigitChar(k % 10)]
  }

  /** Three digits with leading zeros. */
  function Pad3(k: nat): (s: string)
    requires k < 1000
    ensures |s| == 3 && AllDigits(s)
  {
    [DigitChar(k / 100)] + Pad2(k % 100)
  }

  lemma Pad2Value(k: nat)
    requires k < 100
    ensures DigitsValue(Pad2(k)) == k
  {
    var s := Pad2(k);
    assert s[..1] == [DigitChar(k / 10)];
    assert s[..1][..0] == [];
    assert DigitsValue(s[..1]) == k / 10;
    assert DigitsValue(s) == (k / 10) * 10 + k % 10;
  }

  lemma Pad3Value(k: nat)
    requires k < 1000
    ensures DigitsValue(Pad3(k)) == k
  {
    var h := [DigitChar(k / 100)];
    assert h[..0] == [];
    assert DigitsValue(h) == k / 100;
    DigitsValueAppend(h, Pad2(k % 100));
    Pad2Value(k % 100);
    assert Pow10(2) == 100;
  }

  /** n written with a separator between groups of three digits ("1.234.567"). */
  function Grouped(n: nat, sep: char): (s: string)
    decreases n
  {
    if n < 1000 then NatToString(n) else Grouped(n / 1000, sep) + [sep] + Pad3(n % 1000)
  }

  /** The number of separators in Grouped(n, sep). */
  function SeparatorCount(n: nat): nat
    decreases n
  {
    if n < 1000 then 0 else 1 + SeparatorCount(n / 1000)
  }

  lemma {:induction false} GroupedShape(n: nat, sep: char)
    requires !IsDigit(sep)
    ensures forall x :: x in Grouped(n, sep) ==> IsDigit(x) || x == sep
    ensures CountChar(Grouped(n, sep), sep) == SeparatorCount(n)
  {
    if n < 1000 {
      NoCharInDigits(NatToString(n), sep);
    } else {
      GroupedShape(n / 1000, sep);
      NoCharInDigits(Pad3(n % 1000), sep);
      CountCharAppend(Grouped(n / 1000, sep) + [sep], Pad3(n % 1000), sep);
      CountCharAppend(Grouped(n / 1000, sep), [sep], sep);
    }
  }

  lemma GroupedRemoveStep(n: nat, sep: char)
    requires n >= 1000 && !IsDigit(sep)
    ensures RemoveChar(Grouped(n, sep), sep) == RemoveChar(Grouped(n / 1000, sep), sep) + Pad3(n % 1000)
  {
    NoCharInDigits(Pad3(n % 1000), sep);
    RemoveCharAbsent(Pad3(n % 1000), sep);
    RemoveCharAppend(Grouped(n / 1000, sep) + [sep], Pad3(n % 1000), sep);
    RemoveCharAppend(Grouped(n / 1000, sep), [sep], sep);
    assert RemoveChar([sep], sep) == [];
  }

  /** Taking the separators out of a grouped amount leaves the digits of n. */
  lemma {:induction false} GroupedDigits(n: nat, sep: char)
    requires !IsDigit(sep)
    ensures AllDigits(RemoveChar(Grouped(n, sep), sep))
    ensures DigitsValue(RemoveChar(Grouped(n, sep), sep)) == n
  {
    if n < 1000 {
      NoCharInDigits(NatToString(n), sep);
      RemoveCharAbsent(NatToString(n), sep);
      NatToStringValue(n);
    } else {
      var q, r := n / 1000, n % 1000;
      GroupedDigits(q, sep);
      var head := RemoveChar(Grouped(q, sep), sep);
      GroupedRemoveStep(n, sep);
      DigitsValueAppend(head, Pad3(r));
      Pad3Value(r);
      assert Pow10(3) == 1000;
      assert DigitsValue(head + Pad3(r)) == q * 1000 + r;
    }
  }

  /** Changing the separator of a grouped amount. */
  lemma {:induction false} GroupedSwap(n: nat)
    ensures ReplaceChar(Grouped(n, ','), ',', '.') == Grouped(n, '.')
  {
    if n < 1000 {
      NoCharInDigits(NatToString(n), ',');
      ReplaceCharAbsent(NatToString(n), ',', '.');
    } else {
      GroupedSwap(n / 1000);
      NoCharInDigits(Pad3(n % 1000), ',');
      ReplaceCharAbsent(Pad3(n % 1000), ',', '.');
      ReplaceCharAround(Grouped(n / 1000, ','), ',', Pad3(n % 1000), ',', '.');
    }
  }

  /** A grouped amount of four or more digits: leading group, separator, then a full group of three. */
  lemma {:induction false} GroupedHead(n: nat, sep: char) returns (a: string, b: string)
    requires n >= 1000
    ensures Grouped(n, sep) == a + [sep] + b
    ensures AllDigits(a) && a != []
    ensures |b| >= 3 && AllDigits(b[..3]) && (|b| == 3 || b[3] == sep)
    ensures n >= 1000000 ==> |b| > 3
  {
    if n / 1000 < 1000 {
      a, b := NatToString(n / 1000), Pad3(n % 1000);
      assert b[..3] == b;
    } else {
      var b';
      a, b' := GroupedHead(n / 1000, sep);
      b := b' + [sep] + Pad3(n % 1000);
      assert b[..3] == b'[..3];
      assert Grouped(n, sep) == a + [sep] + b;
    }
  }

  // ---------------------------------------------------------------------------
  // What the separator rule does with the usual ways of writing an amount.

  /**
   * Unfolding steps for the proofs below: each one selects a single branch of
   * ResolveSeparators. The behaviour on concrete formats is stated by the
   * ParseIbc lemmas that follow.
   */
  lemma ResolveBoth(s: string)
    requires AllAmountChars(s) && ',' in s && '.' in s
    ensures ResolveSeparators(s) == ReplaceChar(RemoveChar(s, '.'), ',', '.')
  {
  }

  lemma ResolveManyDots(s: string)
    requires AllAmountChars(s) && ',' !in s && CountChar(s, '.') > 1
    ensures ResolveSeparators(s) == RemoveChar(s, '.')
  {
  }

  lemma ResolveCommas(s: string)
    requires AllAmountChars(s) && ',' in s && '.' !in s
    ensures ResolveSeparators(s)
            == if |SecondCommaField(s)| == 2 then ReplaceChar(s, ',', '.') else RemoveChar(s, ',')
  {
    assert CountChar(s, '.') == 0;
  }

  lemma ResolveUnchanged(s: string)
    requires AllAmountChars(s) && ',' !in s && CountChar(s, '.') <= 1
    ensures ResolveSeparators(s) == s
  {
  }

  lemma DigitsAreAmountChars(s: string)
    requires AllDigits(s)
    ensures AllAmountChars(s)
  {
    forall c | c in s ensures IsAmountChar(c) {
      var i :| 0 <= i < |s| && s[i] == c;
    }
  }

  lemma AmountCharsAround(a: string, x: char, b: string)
    requires AllAmountChars(a) && IsAmountChar(x) && AllAmountChars(b)
    ensures AllAmountChars(a + [x] + b)
  {
  }

  lemma ReplaceCharAppend(a: string, b: string, c: char, d: char)
    ensures ReplaceChar(a + b, c, d) == ReplaceChar(a, c, d) + ReplaceChar(b, c, d)
  {
  }

  /** Dropping the dots, then turning the one comma into a point. */
  lemma DotsAndCommaRewrite(g: string, t: string)
    requires ',' !in g && AllDigits(t)
    ensures ReplaceChar(RemoveChar(g + [','] + t, '.'), ',', '.') == RemoveChar(g, '.') + ['.'] + t
  {
    NoCharInDigits(t, '.');
    NoCharInDigits(t, ',');
    RemoveCharAround(g, ',', t, '.');
    RemoveCharAbsent(t, '.');
    var d := RemoveChar(g, '.');
    ReplaceCharAround(d, ',', t, ',', '.');
    ReplaceCharAbsent(d, ',', '.');
    ReplaceCharAbsent(t, ',', '.');
  }

  /** Dots and a decimal comma: the dots go, the comma becomes the decimal point. */
  lemma ResolveDotsAndComma(g: string, t: string)
    requires AllDecimalChars(g) && '.' in g && AllDigits(t)
    ensures AllAmountChars(g + [','] + t)
    ensures ResolveSeparators(g + [','] + t) == RemoveChar(g, '.') + ['.'] + t
  {
    var s := g + [','] + t;
    DigitsAreAmountChars(t);
    AmountCharsAround(g, ',', t);
    assert s[|g|] == ',';
    assert '.' in s;
    ResolveBoth(s);
    DotsAndCommaRewrite(g, t);
  }

  /** Digits, one comma and exactly two digits after it: a decimal comma. */
  lemma ResolveDecimalComma(g: string, t: string)
    requires AllDigits(g) && AllDigits(t) && |t| == 2
    ensures AllAmountChars(g + [','] + t)
    ensures ResolveSeparators(g + [','] + t) == g + ['.'] + t
  {
    var s := g + [','] + t;
    DigitsAreAmountChars(g);
    DigitsAreAmountChars(t);
    AmountCharsAround(g, ',', t);
    NoCharInDigits(g, '.');
    NoCharInDigits(t, '.');
    NoCharInDigits(g, ',');
    NoCharInDigits(t, ',');
    assert s[|g|] == ',';
    assert '.' !in s;
    IndexOfCharAt(g, ',', t);
    assert s[|g| + 1..] == t;
    IndexOfCharAbsent(t, ',');
    assert SecondCommaField(s) == t;
    ResolveCommas(s);
    ReplaceCharAround(g, ',', t, ',', '.');
    ReplaceCharAbsent(g, ',', '.');
    ReplaceCharAbsent(t, ',', '.');
  }

  /** Plain digits read back as the number they spell. */
  lemma ParseIbcPlain(n: nat)
    ensures ParseIbc(NatToString(n)) == Some(n as real)
  {
    var s := NatToString(n);
    NoCharInDigits(s, '.');
    NoCharInDigits(s, ',');
    DigitsAreAmountChars(s);
    ResolveUnchanged(s);
    ParseIbcResolved(s, s);
    ParseDecimalInteger(s);
    NatToStringValue(n);
  }

  lemma ColombianGrouped(n: nat, t: string)
    requires n >= 1000 && AllDigits(t)
    ensures ParseIbc(Grouped(n, '.') + [','] + t) == Some(DecimalValue(n, DigitsValue(t), |t|))
  {
    var g := Grouped(n, '.');
    GroupedShape(n, '.');
    assert '.' in g by { assert CountChar(g, '.') > 0; }
    ResolveDotsAndComma(g, t);
    GroupedDigits(n, '.');
    var d := RemoveChar(g, '.');
    assert d != [] by { assert DigitsValue(d) == n; }
    ParseIbcResolved(g + [','] + t, d + ['.'] + t);
    ParseDecimalPoint(d, t);
  }

  lemma ColombianSmall(n: nat, t: string)
    requires n < 1000 && AllDigits(t) && |t| == 2
    ensures ParseIbc(NatToString(n) + [','] + t) == Some(DecimalValue(n, DigitsValue(t), |t|))
  {
    var g := NatToString(n);
    ResolveDecimalComma(g, t);
    ParseIbcResolved(g + [','] + t, g + ['.'] + t);
    ParseDecimalPoint(g, t);
    NatToStringValue(n);
  }

  lemma CentsValue(n: nat, cents: nat)
    requires cents < 100
    ensures DecimalValue(n, DigitsValue(Pad2(cents)), |Pad2(cents)|) == n as real + cents as real / 100.0
  {
    Pad2Value(cents);
    assert Pow10(2) == 100;
  }

  /** Colombian format "1.234.567,89": dots group thousands, the comma marks the cents. */
  lemma ParseIbcColombian(n: nat, cents: nat)
    requires cents < 100
    ensures ParseIbc(Grouped(n, '.') + [','] + Pad2(cents)) == Some(n as real + cents as real / 100.0)
  {
    var t := Pad2(cents);
    CentsValue(n, cents);
    assert DecimalValue(n, DigitsValue(t), |t|) == n as real + cents as real / 100.0;
    if n >= 1000 {
      ColombianGrouped(n, t);
    } else {
      assert Grouped(n, '.') == NatToString(n);
      ColombianSmall(n, t);
    }
  }

  /** Two or more dot groups ("1.500.000"): every dot is a thousands separator. */
  lemma ParseIbcDotThousands(n: nat)
    requires n >= 1000000
    ensures ParseIbc(Grouped(n, '.')) == Some(n as real)
  {
    var s := Grouped(n, '.');
    GroupedShape(n, '.');
    assert SeparatorCount(n) > 1;
    assert ',' !in s;
    ResolveManyDots(s);
    GroupedDigits(n, '.');
    var d := RemoveChar(s, '.');
    assert d != [] by { assert DigitsValue(d) == n; }
    ParseIbcResolved(s, d);
    ParseDecimalInteger(d);
  }

  /** Currency signs, letters and blanks around an amount ("$ ", " COP") do not change its value. */
  lemma ParseIbcIgnoresNoise(p: string, s: string, q: string)
    requires NoAmountChars(p) && NoAmountChars(q)
    ensures ParseIbc(p + s + q) == ParseIbc(s)
  {
    KeepAmountCharsAround(p, s, q);
  }

  /** A dot-grouped amount of two or more groups, inside any such noise, reads as n. */
  lemma ParseIbcDotThousandsInText(p: string, n: nat, q: string)
    requires NoAmountChars(p) && NoAmountChars(q) && n >= 1000000
    ensures ParseIbc(p + Grouped(n, '.') + q) == Some(n as real)
  {
    ParseIbcIgnoresNoise(p, Grouped(n, '.'), q);
    ParseIbcDotThousands(n);
  }

  /** A wage cell as a report prints it: "$ 1.500.000" reads as 1,500,000. */
  lemma ParseIbcReportCell()
    ensures ParseIbc("$ 1.500.000") == Some(1500000.0)
  {
    var n := 1500000;
    assert Grouped(n / 1000, '.') == Grouped(1, '.') + ['.'] + Pad3(500);
    assert Grouped(n, '.') == "1.500.000";
    assert "$ 1.500.000" == "$ " + Grouped(n, '.') + "";
    ParseIbcDotThousandsInText("$ ", n, "");
  }

  lemma SingleDotShape(n: nat)
    requires 1000 <= n < 1000000
    ensures Grouped(n, '.') == NatToString(n / 1000) + ['.'] + Pad3(n % 1000)
    ensures AllAmountChars(Grouped(n, '.'))
    ensures ResolveSeparators(Grouped(n, '.')) == Grouped(n, '.')
  {
    var s := Grouped(n, '.');
    assert Grouped(n / 1000, '.') == NatToString(n / 1000);
    GroupedShape(n, '.');
    assert SeparatorCount(n) == 1;
    assert ',' !in s;
    ResolveUnchanged(s);
  }

  lemma SingleDotDecimal(n: nat)
    requires 1000 <= n < 1000000
    ensures AllDecimalChars(NatToString(n / 1000) + ['.'] + Pad3(n % 1000))
    ensures ParseDecimal(NatToString(n / 1000) + ['.'] + Pad3(n % 1000)) == Some(DecimalValue(n / 1000, n % 1000, 3))
  {
    ParseDecimalPoint(NatToString(n / 1000), Pad3(n % 1000));
    NatToStringValue(n / 1000);
    Pad3Value(n % 1000);
  }

  /** A single dot group ("1.500") is read as a decimal point: the value is n / 1000. */
  lemma ParseIbcSingleDot(n: nat)
    requires 1000 <= n < 1000000
    ensures ParseIbc(Grouped(n, '.')) == Some(n as real / 1000.0)
  {
    var s := Grouped(n, '.');
    SingleDotShape(n);
    ParseIbcResolved(s, s);
    assert ParseIbc(s) == ParseDecimal(s);
    SingleDotDecimal(n);
    assert ParseDecimal(s) == Some(DecimalValue(n / 1000, n % 1000, 3));
    ThousandthsValue(n);
  }

  lemma ThousandthsValue(n: nat)
    ensures DecimalValue(n / 1000, n % 1000, 3) == n as real / 1000.0
  {
    assert Pow10(3) == 1000;
    var q, r := n / 1000, n % 1000;
    assert n == q * 1000 + r;
    assert (n as real) / 1000.0 == (q as real) + (r as real) / 1000.0;
  }

  /** The second comma-separated field of a comma-grouped amount is a full group of three digits. */
  lemma SecondFieldOfCommaGroups(n: nat)
    requires n >= 1000
    ensures ',' in Grouped(n, ',')
    ensures |SecondCommaField(Grouped(n, ','))| == 3
  {
    var s := Grouped(n, ',');
    var a, b := GroupedHead(n, ',');
    assert s[|a|] == ',';
    NoCharInDigits(a, ',');
    IndexOfCharAt(a, ',', b);
    assert s[|a| + 1..] == b;
    NoCharInDigits(b[..3], ',');
    if |b| == 3 {
      assert b[..3] == b;
      IndexOfCharAbsent(b, ',');
    } else {
      assert b == b[..3] + [','] + b[4..];
      IndexOfCharAt(b[..3], ',', b[4..]);
    }
  }

  /** Comma thousands without cents ("1,500", "1,500,000") read back as n. */
  lemma ParseIbcCommaThousands(n: nat)
    ensures ParseIbc(Grouped(n, ',')) == Some(n as real)
  {
    if n < 1000 {
      ParseIbcPlain(n);
    } else {
      var s := Grouped(n, ',');
      GroupedShape(n, ',');
      assert '.' !in s;
      SecondFieldOfCommaGroups(n);
      ResolveCommas(s);
      GroupedDigits(n, ',');
      var d := RemoveChar(s, ',');
      assert d != [] by { assert DigitsValue(d) == n; }
      ParseIbcResolved(s, d);
      ParseDecimalInteger(d);
    }
  }

  lemma RemoveLastChar(g: string, c: char)
    requires c !in g
    ensures RemoveChar(g + [c], c) == g
  {
    RemoveCharAppend(g, [c], c);
    RemoveCharAbsent(g, c);
    assert RemoveChar([c], c) == [];
  }

  lemma RemoveOneChar(g: string, c: char, t: string)
    requires c !in g && c !in t
    ensures RemoveChar(g + [c] + t, c) == g + t
  {
    RemoveCharAppend(g + [c], t, c);
    RemoveLastChar(g, c);
    RemoveCharAbsent(t, c);
  }

  /** Dropping the one dot after comma groups, then turning the commas into points. */
  lemma UsCentsRewrite(n: nat, t: string)
    requires AllDigits(t)
    ensures ReplaceChar(RemoveChar(Grouped(n, ',') + ['.'] + t, '.'), ',', '.') == Grouped(n, '.') + t
  {
    var g := Grouped(n, ',');
    GroupedShape(n, ',');
    NoCharInDigits(t, '.');
    NoCharInDigits(t, ',');
    RemoveOneChar(g, '.', t);
    ReplaceCharAppend(g, t, ',', '.');
    ReplaceCharAbsent(t, ',', '.');
    GroupedSwap(n);
  }

  /** US format with cents: the dot goes and the commas become points. */
  lemma ResolveUsCents(n: nat, t: string)
    requires n >= 1000 && AllDigits(t)
    ensures AllAmountChars(Grouped(n, ',') + ['.'] + t)
    ensures ResolveSeparators(Grouped(n, ',') + ['.'] + t) == Grouped(n, '.') + t
  {
    var g := Grouped(n, ',');
    var s := g + ['.'] + t;
    GroupedShape(n, ',');
    DigitsAreAmountChars(t);
    AmountCharsAround(g, '.', t);
    assert ',' in g by { assert CountChar(g, ',') > 0; }
    assert s[|g|] == '.';
    ResolveBoth(s);
    UsCentsRewrite(n, t);
  }

  /** A text with a second decimal point after the first is not a number. */
  lemma ParseDecimalTwoDots(a: string, f: string)
    requires AllDigits(a) && AllDecimalChars(f) && '.' in f
    ensures AllDecimalChars(a + ['.'] + f)
    ensures ParseDecimal(a + ['.'] + f) == None
  {
    var s := a + ['.'] + f;
    forall c | c in s ensures IsDecimalChar(c) {
      var i :| 0 <= i < |s| && s[i] == c;
      if i < |a| { assert s[i] == a[i]; } else if i > |a| { assert s[i] == f[i - |a| - 1]; }
    }
    NoCharInDigits(a, '.');
    IndexOfCharAt(a, '.', f);
    ParseDecimalSplit(a, f);
  }

  lemma DecimalCharsAppend(x: string, y: string)
    requires AllDecimalChars(x) && AllDecimalChars(y)
    ensures AllDecimalChars(x + y)
  {
  }

  lemma DecimalCharsSuffix(s: string, k: nat)
    requires AllDecimalChars(s) && k <= |s|
    ensures AllDecimalChars(s[k..])
  {
    forall c | c in s[k..] ensures IsDecimalChar(c) {
      var i :| 0 <= i < |s[k..]| && s[k..][i] == c;
      assert s[k + i] in s;
    }
  }

  /** A dot-grouped amount of three or more groups, with digits after it, has a second dot after the first. */
  lemma GroupedDotsThenDigits(n: nat, t: string) returns (a: string, f: string)
    requires n >= 1000000 && AllDigits(t)
    ensures AllDigits(a) && AllDecimalChars(f) && '.' in f
    ensures Grouped(n, '.') + t == a + ['.'] + f
  {
    var b;
    a, b := GroupedHead(n, '.');
    GroupedShape(n, '.');
    var g := Grouped(n, '.');
    assert AllDecimalChars(g);
    assert g[|a| + 1..] == b;
    DecimalCharsSuffix(g, |a| + 1);
    DigitsAreDecimalChars(t);
    DecimalCharsAppend(b, t);
    f := b + t;
    assert f[3] == '.';
  }

  lemma DigitsAreDecimalChars(s: string)
    requires AllDigits(s)
    ensures AllDecimalChars(s)
  {
    forall c | c in s ensures IsDecimalChar(c) {
      var i :| 0 <= i < |s| && s[i] == c;
    }
  }

  /** US format with cents and two or more thousands commas ("1,234,567.00"): the row is dropped. */
  lemma ParseIbcUsCentsRejected(n: nat, cents: nat)
    requires n >= 1000000 && cents < 100
    ensures ParseIbc(Grouped(n, ',') + ['.'] + Pad2(cents)) == None
  {
    var t := Pad2(cents);
    var s := Grouped(n, ',') + ['.'] + t;
    ResolveUsCents(n, t);
    var a, f := GroupedDotsThenDigits(n, t);
    ParseDecimalTwoDots(a, f);
    ParseIbcResolved(s, a + ['.'] + f);
  }

  // ---------------------------------------------------------------------------
  // What the weeks cleaning reads: the comma is always a decimal mark.

  /** When the cleaned weeks text is non-empty, the weeks are what float() reads. */
  lemma ParseWeeksResolved(s: string, clean: string)
    requires AllAmountChars(s) && ReplaceChar(s, ',', '.') == clean && clean != []
    ensures AllDecimalChars(clean)
    ensures ParseWeeks(s) == ParseDecimal(clean)
  {
    assert KeepAmountChars(s) == s;
  }

  /** A whole number of weeks reads back as itself. */
  lemma ParseWeeksWhole(n: nat)
    ensures ParseWeeks(NatToString(n)) == Some(n as real)
  {
    var s := NatToString(n);
    DigitsAreAmountChars(s);
    NoCharInDigits(s, ',');
    ReplaceCharAbsent(s, ',', '.');
    ParseWeeksResolved(s, s);
    ParseDecimalInteger(s);
    NatToStringValue(n);
  }

  /** The one comma between two comma-free texts becomes a point. */
  lemma CommaToPoint(h: string, f: string)
    requires ',' !in h && ',' !in f
    ensures ReplaceChar(h + [','] + f, ',', '.') == h + ['.'] + f
  {
    ReplaceCharAppend(h + [','], f, ',', '.');
    ReplaceCharAppend(h, [','], ',', '.');
    assert ReplaceChar([','], ',', '.') == ['.'];
    ReplaceCharAbsent(h, ',', '.');
    ReplaceCharAbsent(f, ',', '.');
  }

  /** Digits, a comma and digits: the comma becomes the decimal point. */
  lemma WeeksCommaRewrite(g: string, t: string)
    requires AllDigits(g) && AllDigits(t)
    ensures AllAmountChars(g + [','] + t)
    ensures ReplaceChar(g + [','] + t, ',', '.') == g + ['.'] + t
  {
    DigitsAreAmountChars(g);
    DigitsAreAmountChars(t);
    AmountCharsAround(g, ',', t);
    NoCharInDigits(g, ',');
    NoCharInDigits(t, ',');
    CommaToPoint(g, t);
  }

  /** Weeks with a decimal comma ("4,29") read as n plus the fraction after the comma. */
  lemma ParseWeeksDecimalComma(n: nat, t: string)
    requires AllDigits(t)
    ensures ParseWeeks(NatToString(n) + [','] + t) == Some(DecimalValue(n, DigitsValue(t), |t|))
  {
    var g := NatToString(n);
    WeeksCommaRewrite(g, t);
    ParseWeeksResolved(g + [','] + t, g + ['.'] + t);
    ParseDecimalPoint(g, t);
    NatToStringValue(n);
  }

  /** Two decimal places: n,cc reads as n + cc/100. */
  lemma ParseWeeksCents(n: nat, cents: nat)
    requires cents < 100
    ensures ParseWeeks(NatToString(n) + [','] + Pad2(cents)) == Some(n as real + cents as real / 100.0)
  {
    ParseWeeksDecimalComma(n, Pad2(cents));
    CentsValue(n, cents);
  }

  /** The weeks of a report row: "4,29" is 4.29 weeks. */
  lemma ParseWeeksReportCell()
    ensures ParseWeeks("4,29") == Some(4.29)
  {
    assert "4,29" == NatToString(4) + [','] + Pad2(29);
    ParseWeeksCents(4, 29);
    assert 4.0 + 29.0 / 100.0 == 4.29;
  }

  /** Digits, a dot and digits: amount characters without a comma. */
  lemma DottedDigits(a: string, b: string)
    requires AllDigits(a) && AllDigits(b)
    ensures AllAmountChars(a + ['.'] + b) && ',' !in a + ['.'] + b
  {
    DigitsAreAmountChars(a);
    DigitsAreAmountChars(b);
    AmountCharsAround(a, '.', b);
    NoCharInDigits(a, ',');
    NoCharInDigits(b, ',');
  }

  /** A dot and then a comma ("1.234,5"): the comma becomes a second point, so float() fails. */
  lemma ParseWeeksDotThenCommaRejected(a: string, b: string, f: string)
    requires AllDigits(a) && AllDigits(b) && AllDigits(f)
    ensures ParseWeeks(a + ['.'] + b + [','] + f) == None
  {
    var h, tail := a + ['.'] + b, b + ['.'] + f;
    DottedDigits(a, b);
    DigitsAreAmountChars(f);
    AmountCharsAround(h, ',', f);
    NoCharInDigits(f, ',');
    CommaToPoint(h, f);
    assert h + ['.'] + f == a + ['.'] + tail;
    DecimalCharsAround(b, f);
    assert tail[|b|] == '.';
    ParseWeeksResolved(a + ['.'] + b + [','] + f, a + ['.'] + tail);
    ParseDecimalTwoDots(a, tail);
  }

  /** Weeks as a report may misprint them: "1.234,5" cannot be read and the row drops. */
  lemma ParseWeeksDotThenCommaCell()
    ensures ParseWeeks("1.234,5") == None
  {
    assert "1.234,5" == "1" + ['.'] + "234" + [','] + "5";
    ParseWeeksDotThenCommaRejected("1", "234", "5");
  }
}
