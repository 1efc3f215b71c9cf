/**
 * Reading and writing numbers the Brazilian-Portuguese way: `,` is the
 * decimal separator and `.` groups thousands.
 *
 * A field's text is turned into a number by deleting every `.`, turning every
 * `,` into `.` and handing the result to JavaScript's `parseFloat`.  The
 * computed index is shown with `toLocaleString('pt-BR')` and two fraction
 * digits.
 */
module LocaleNumber {
  import opened Text
  import Sanitizer

  datatype Option<T> = None | Some(value: T)

  /** `valor.replaceAll('.', '').replaceAll(',', '.')` */
  function Normalize(s: string): string {
    ReplaceAll(RemoveAll(s, '.'), ',', '.')
  }

  /** Digits with at most one `.`: the texts the normalisation of a field produces. */
  predicate IsDecimalText(t: string) {
    && (forall i :: 0 <= i < |t| ==> IsDigit(t[i]) || t[i] == '.')
    && Count(t, '.') <= 1
  }

  // ---------------------------------------------------------------------
  // parseFloat

  /** Length of the run of digits that starts `s`. */
  function DigitRun(s: string): (n: nat)
    ensures n <= |s|
    ensures forall i :: 0 <= i < n ==> IsDigit(s[i])
    ensures n < |s| ==> !IsDigit(s[n])
  {
    if s != [] && IsDigit(s[0]) then 1 + DigitRun(s[1..]) else 0
  }

  function DigitValue(ch: char): nat
    requires IsDigit(ch)
  {
    ch as int - '0' as int
  }

  /** The value of a run of decimal digits. */
  function DigitsValue(ds: string): nat
    requires AllDigits(ds)
  {
    if ds == [] then 0 else 10 * DigitsValue(ds[..|ds| - 1]) + DigitValue(ds[|ds| - 1])
  }

  function Pow10(n: nat): (p: nat)
    ensures p >= 1
  {
    if n == 0 then 1 else 10 * Pow10(n - 1)
  }

  /**
   * `parseFloat` on a text without sign, blanks or exponent: it reads the
   * longest prefix of the form digits, optionally followed by `.` and digits.
   * A prefix without any digit is NaN, here `None`.
   */
  function ParseFloat(t: string): (r: Option<real>)
    ensures r.Some? ==> r.value >= 0.0
  {
    var i := DigitRun(t);
    DecimalValue(t[..i], FractionDigits(t, i))
  }

  /** The digits after a `.` at position `i`, if there is one. */
  function FractionDigits(t: string, i: nat): (f: string)
    requires i <= |t|
    ensures AllDigits(f)
  {
    if i < |t| && t[i] == '.' then t[i + 1..][..DigitRun(t[i + 1..])] else []
  }

  /** The number written by a whole part and a fraction part; NaN when both are empty. */
  function DecimalValue(whole: string, frac: string): (r: Option<real>)
    requires AllDigits(whole) && AllDigits(frac)
    ensures r.Some? ==> r.value >= 0.0
  {
    if whole == [] && frac == [] then None
    else Some(DigitsValue(whole) as real + DigitsValue(frac) as real / Pow10(|frac|) as real)
  }

  /** A run of digits has a positive value exactly when one of its digits is not `0`. */
  lemma {:induction false} DigitsValuePositive(ds: string)
    requires AllDigits(ds)
    ensures DigitsValue(ds) > 0 <==> HasNonZeroDigit(ds)
  {
    if ds != [] {
      var init, last := ds[..|ds| - 1], ds[|ds| - 1];
      DigitsValuePositive(init);
      assert ds == init + [last];
      HasNonZeroDigitAppend(init, [last]);
    }
  }

  /** `parseFloat` on digits alone. */
  lemma ParseDigits(w: string)
    requires AllDigits(w)
    ensures ParseFloat(w) == DecimalValue(w, [])
  {
    DigitRunStops(w, []);
    assert w + [] == w;
    assert w[..|w|] == w;
  }

  /** `parseFloat` on digits, `.` and digits. */
  lemma ParsePoint(w: string, f: string)
    requires AllDigits(w) && AllDigits(f)
    ensures ParseFloat(w + ['.'] + f) == DecimalValue(w, f)
  {
    var t := w + ['.'] + f;
    DigitRunStops(w, ['.'] + f);
    assert t == w + (['.'] + f);
    assert t[..|w|] == w;
    assert t[|w|] == '.';
    assert t[|w| + 1..] == f;
    DigitRunStops(f, []);
    assert f + [] == f;
    assert f[..|f|] == f;
    assert FractionDigits(t, |w|) == f;
  }

  /** The leading run of digits ends where the digits end. */
  lemma {:induction false} DigitRunStops(w: string, rest: string)
    requires AllDigits(w)
    requires rest == [] || !IsDigit(rest[0])
    ensures DigitRun(w + rest) == |w|
  {
    if w == [] {
      assert w + rest == rest;
    } else {
      assert (w + rest)[1..] == w[1..] + rest;
      DigitRunStops(w[1..], rest);
    }
  }

  /** A text of digits with at most one `.` is digits, or digits, `.` and digits. */
  lemma DecimalTextShape(t: string) returns (w: string, f: string)
    requires IsDecimalText(t)
    ensures AllDigits(w) && AllDigits(f)
    ensures t == w || t == w + ['.'] + f
  {
    var i := DigitRun(t);
    w, f := t[..i], [];
    if i < |t| {
      f := t[i + 1..];
      assert t == w + ['.'] + f;
      CountAppend(w + ['.'], f, '.');
      CountAppend(w, ['.'], '.');
      CountZero(f, '.');
    } else {
      assert t == w;
    }
  }

  /**
   * On digits with at most one `.`, `parseFloat` fails exactly when there is
   * no digit, and gives a positive number exactly when some digit is not `0`.
   */
  lemma ParseDecimalText(t: string)
    requires IsDecimalText(t)
    ensures ParseFloat(t).Some? <==> Digits(t) != []
    ensures ParseFloat(t).Some? ==> (ParseFloat(t).value > 0.0 <==> HasNonZeroDigit(t))
  {
    var w, f := DecimalTextShape(t);
    DigitsOfDigits(w);
    DigitsValuePositive(w);
    if t == w {
      ParseDigits(w);
    } else {
      ParsePoint(w, f);
      DigitsOfDigits(f);
      DigitsValuePositive(f);
      DigitsAppend(w + ['.'], f);
      DigitsAppend(w, ['.']);
      HasNonZeroDigitAppend(w + ['.'], f);
      HasNonZeroDigitAppend(w, ['.']);
      assert !HasNonZeroDigit(['.']);
      assert Digits(['.']) == [];
      PointValuePositive(DigitsValue(w), DigitsValue(f), Pow10(|f|));
    }
  }

  lemma PointValuePositive(a: nat, b: nat, p: nat)
    requires p >= 1
    ensures a as real + b as real / p as real > 0.0 <==> a > 0 || b > 0
  {
    assert b as real / p as real >= 0.0;
    assert b > 0 ==> b as real / p as real > 0.0;
  }

  // ---------------------------------------------------------------------
  // Normalisation of a field's text

  /** Every `.` goes, every `,` becomes the one kind of `.` left, the digits stay in order. */
  lemma NormalizeSeparators(s: string)
    ensures ',' !in Normalize(s)
    ensures Count(Normalize(s), '.') == Count(s, ',')
    ensures Digits(Normalize(s)) == Digits(s)
  {
    var n := RemoveAll(s, '.');
    RemoveAllCounts(s, '.', ',');
    ReplaceAllCounts(n, ',', '.', ',');
    RemoveAllCounts(s, '.', '.');
    CountZero(Normalize(s), ',');
    DigitsRemoveAll(s, '.');
    DigitsReplaceAll(n, ',', '.');
  }

  /** The text of a field normalises to digits with at most one `.`. */
  lemma NormalizeSanitized(s: string)
    requires Sanitizer.IsSanitized(s)
    ensures IsDecimalText(Normalize(s))
  {
    NormalizeSeparators(s);
    var t := Normalize(s);
    forall i | 0 <= i < |t|
      ensures IsDigit(t[i]) || t[i] == '.'
    {
      assert t[i] in t;
    }
  }

  /** Deleting surplus dots never changes the number a text is read as. */
  lemma DotCollapseKeepsNumber(s: string)
    ensures Normalize(Sanitizer.KeepFirst(s, '.')) == Normalize(s)
  {
    RemoveAllOfKeepFirst(s, '.');
  }

  lemma {:induction false} RemoveAllOfKeepFirst(s: string, c: char)
    ensures RemoveAll(Sanitizer.KeepFirst(s, c), c) == RemoveAll(s, c)
  {
    if s != [] {
      if s[0] == c {
        RemoveAllTwice(s[1..], c);
        assert ([c] + RemoveAll(s[1..], c))[1..] == RemoveAll(s[1..], c);
      } else {
        RemoveAllOfKeepFirst(s[1..], c);
        assert ([s[0]] + Sanitizer.KeepFirst(s[1..], c))[1..] == Sanitizer.KeepFirst(s[1..], c);
      }
    }
  }

  // ---------------------------------------------------------------------
  // toLocaleString('pt-BR', { minimumFractionDigits: 2, maximumFractionDigits: 2 })

  function DigitChar(d: nat): (ch: char)
    requires d < 10
    ensures IsDigit(ch) && DigitValue(ch) == d
  {
    ('0' as int + d) as char
  }

  /** The decimal digits of `n`, without leading zeros. */
  function NatDigits(n: nat): (ds: string)
    ensures ds != [] && AllDigits(ds)
    ensures DigitsValue(ds) == n
  {
    if n < 10 then [DigitChar(n)]
    else
      var ds := NatDigits(n / 10) + [DigitChar(n % 10)];
      assert ds[..|ds| - 1] == NatDigits(n / 10);
      ds
  }

  /**
   * Digits grouped in threes from the right with `.` between the groups: one
   * dot for every full group of three in front of the last group, and no
   * character other than the digits and those dots.
   */
  function Group(ds: string): (r: string)
    ensures ds != [] ==> |r| == |ds| + (|ds| - 1) / 3
    ensures forall x :: x in r ==> x == '.' || x in ds
  {
    if |ds| <= 3 then ds
    else
      var init := ds[..|ds| - 3];
      assert forall x :: x in init ==> x in ds;
      Group(init) + ['.'] + ds[|ds| - 3..]
  }

  /** `c` hundredths written with a grouped whole part, `,` and two fraction digits. */
  function FormatCents(c: nat): string {
    var fraction := c % 100;
    Group(NatDigits(c / 100)) + [','] + [DigitChar(fraction / 10), DigitChar(fraction % 10)]
  }

  /** Rounds to hundredths, ties upwards, and writes the result. */
  function FormatImc(r: real): string
    requires r >= 0.0
  {
    FormatCents((r * 100.0 + 0.5).Floor)
  }

  lemma {:induction false} GroupRemoveDots(ds: string)
    requires AllDigits(ds)
    ensures RemoveAll(Group(ds), '.') == ds
    ensures ',' !in Group(ds)
  {
    if |ds| <= 3 {
      DigitsHaveNoSeparator(ds);
      RemoveAllAbsent(ds, '.');
    } else {
      var init, tail := ds[..|ds| - 3], ds[|ds| - 3..];
      GroupRemoveDots(init);
      DigitsHaveNoSeparator(tail);
      RemoveDotBetween(Group(init), tail);
      assert ds == init + tail;
    }
  }

  lemma RemoveDotBetween(g: string, tail: string)
    requires '.' !in tail
    ensures RemoveAll(g + ['.'] + tail, '.') == RemoveAll(g, '.') + tail
  {
    RemoveAllAbsent(tail, '.');
    RemoveAllAppend(g + ['.'], tail, '.');
    RemoveAllAppend(g, ['.'], '.');
  }

  /** The normalised text of a formatted amount: its digits, `.`, two digits. */
  lemma NormalizeFormatCents(c: nat)
    ensures var fraction := c % 100;
            Normalize(FormatCents(c)) == NatDigits(c / 100) + ['.'] + [DigitChar(fraction / 10), DigitChar(fraction % 10)]
  {
    var ds := NatDigits(c / 100);
    var fraction := c % 100;
    var dd := [DigitChar(fraction / 10), DigitChar(fraction % 10)];
    UngroupFormatted(ds, dd);
    DigitsHaveNoSeparator(ds);
    ReplaceAllAbsent(ds, ',', '.');
    ReplaceAllAbsent(dd, ',', '.');
    ReplaceAllAppend(ds + [','], dd, ',', '.');
    ReplaceAllAppend(ds, [','], ',', '.');
  }

  /** Deleting the dots of grouped digits, `,` and two digits keeps digits, `,` and two digits. */
  lemma UngroupFormatted(ds: string, dd: string)
    requires AllDigits(ds) && AllDigits(dd)
    ensures RemoveAll(Group(ds) + [','] + dd, '.') == ds + [','] + dd
    ensures ',' !in dd
  {
    GroupRemoveDots(ds);
    DigitsHaveNoSeparator(dd);
    RemoveDotsBefore(Group(ds), ',', dd);
  }

  lemma RemoveDotsBefore(g: string, m: char, tail: string)
    requires m != '.' && '.' !in tail
    ensures RemoveAll(g + [m] + tail, '.') == RemoveAll(g, '.') + [m] + tail
  {
    RemoveAllAbsent(tail, '.');
    RemoveAllAppend(g + [m], tail, '.');
    RemoveAllAppend(g, [m], '.');
    assert RemoveAll([m], '.') == [m];
  }

  lemma TwoDigitsValue(a: char, b: char)
    requires IsDigit(a) && IsDigit(b)
    ensures DigitsValue([a, b]) == 10 * DigitValue(a) + DigitValue(b)
  {
    var ab := [a, b];
    assert ab[..|ab| - 1] == [a] && ab[|ab| - 1] == b;
    assert [a][..0] == [];
    assert DigitsValue([a]) == 10 * DigitsValue([]) + DigitValue(a);
  }

  lemma DigitsHaveNoSeparator(ds: string)
    requires AllDigits(ds)
    ensures '.' !in ds && ',' !in ds
  {
    forall i | 0 <= i < |ds|
      ensures ds[i] != '.' && ds[i] != ','
    {
      assert IsDigit(ds[i]);
    }
  }

  /** Two digits written for a number below 100 have that value. */
  lemma TwoDigitsOf(fraction: nat)
    requires fraction < 100
    ensures DigitsValue([DigitChar(fraction / 10), DigitChar(fraction % 10)]) == fraction
  {
    TwoDigitsValue(DigitChar(fraction / 10), DigitChar(fraction % 10));
  }

  lemma CentsValue(c: nat)
    ensures (c / 100) as real + (c % 100) as real / 100.0 == c as real / 100.0
  {
    var q, m := c / 100, c % 100;
    assert c == 100 * q + m;
    assert c as real == 100.0 * q as real + m as real;
  }

  lemma ParseHundredths(ds: string, dd: string)
    requires AllDigits(ds) && AllDigits(dd) && |dd| == 2
    ensures ParseFloat(ds + ['.'] + dd) == Some(DigitsValue(ds) as real + DigitsValue(dd) as real / 100.0)
  {
    ParsePoint(ds, dd);
    Hundredths(ds, dd);
  }

  lemma Hundredths(w: string, f: string)
    requires AllDigits(w) && AllDigits(f) && |f| == 2
    ensures DecimalValue(w, f) == Some(DigitsValue(w) as real + DigitsValue(f) as real / 100.0)
  {
    assert Pow10(|f|) == 100 by {
      assert Pow10(0) == 1;
      assert Pow10(1) == 10;
    }
  }

  /** A formatted amount reads back as its whole part plus its hundredths. */
  lemma ParseFormatted(c: nat)
    ensures ParseFloat(Normalize(FormatCents(c))) == Some((c / 100) as real + (c % 100) as real / 100.0)
  {
    var fraction := c % 100;
    var ds, dd := NatDigits(c / 100), [DigitChar(fraction / 10), DigitChar(fraction % 10)];
    NormalizeFormatCents(c);
    ParseHundredths(ds, dd);
    assert DigitsValue(ds) == c / 100;
    TwoDigitsOf(fraction);
  }

  /** Reading a formatted amount back gives the amount exactly. */
  lemma FormatCentsRoundTrip(c: nat)
    ensures ParseFloat(Normalize(FormatCents(c))) == Some(c as real / 100.0)
  {
    ParseFormatted(c);
    CentsValue(c);
  }

  /** The index shown on screen, read back the way a field is read, is within half a hundredth of the computed one. */
  lemma FormatImcPrecision(r: real)
    requires r >= 0.0
    ensures ParseFloat(Normalize(FormatImc(r))).Some?
    ensures var shown := ParseFloat(Normalize(FormatImc(r))).value;
            r - 0.005 < shown <= r + 0.005
  {
    FormatCentsRoundTrip((r * 100.0 + 0.5).Floor);
  }
}
