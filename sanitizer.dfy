/**
 * The keystroke sanitiser of the numeric fields (`tratarEntrada` in
 * `CampoNumerico`).  Every time the text of a field changes, the new text is
 * stripped of everything but digits, `.` and `,`; then a surplus of commas is
 * collapsed onto the first comma, and a surplus of dots onto the first dot.
 *
 * `TratarEntrada` follows the source step by step (regular-expression filter,
 * `split` and `join`).  `Sanitize` is an independent one-pass description of
 * the same text, and the properties the field relies on are proved about it.
 */
module Sanitizer {
  import opened Text

  /** The characters kept by `/[^0-9.,]/g`. */
  predicate IsAllowed(ch: char) {
    IsDigit(ch) || ch == '.' || ch == ','
  }

  /** What a field can hold: the allowed characters, at most one `,` and at most one `.`. */
  predicate IsSanitized(s: string) {
    && (forall i :: 0 <= i < |s| ==> IsAllowed(s[i]))
    && Count(s, ',') <= 1
    && Count(s, '.') <= 1
  }

  /** `texto.replace(/[^0-9.,]/g, '')`: the allowed characters of `s`, and only those. */
  function Filter(s: string): (r: string)
    ensures forall x :: x in r <==> x in s && IsAllowed(x)
  {
    if s == [] then []
    else if IsAllowed(s[0]) then [s[0]] + Filter(s[1..])
    else Filter(s[1..])
  }

  /**
   * Keeps the first `c` of `s` and deletes every later one: no kind of
   * character disappears, and the text shrinks by the surplus of `c`.
   */
  function KeepFirst(s: string, c: char): (r: string)
    ensures forall x :: x in r <==> x in s
    ensures |r| == |s| - (if Count(s, c) == 0 then 0 else Count(s, c) - 1)
  {
    if s == [] then []
    else if s[0] == c then [c] + RemoveAll(s[1..], c)
    else [s[0]] + KeepFirst(s[1..], c)
  }

  /** `KeepFirst`, once a `c` may already have been kept further left. */
  function KeepFirstAfter(s: string, c: char, seen: bool): string {
    if seen then RemoveAll(s, c) else KeepFirst(s, c)
  }

  /**
   * One left-to-right pass: a character is kept when it is allowed and is not
   * a separator of a kind that has already been kept.
   */
  function Scan(s: string, seenComma: bool, seenDot: bool): (r: string)
    ensures forall i :: 0 <= i < |r| ==> IsAllowed(r[i])
  {
    if s == [] then []
    else
      var ch := s[0];
      if !IsAllowed(ch) then Scan(s[1..], seenComma, seenDot)
      else if ch == ',' then (if seenComma then [] else [',']) + Scan(s[1..], true, seenDot)
      else if ch == '.' then (if seenDot then [] else ['.']) + Scan(s[1..], seenComma, true)
      else [ch] + Scan(s[1..], seenComma, seenDot)
  }

  /** The text a field holds after the user has typed `s`. */
  function Sanitize(s: string): (r: string)
    ensures IsSanitized(r)
  {
    ScanCounts(s, false, false);
    Scan(s, false, false)
  }

  // ---------------------------------------------------------------------
  // The source's steps

  /**
   * The sanitiser as the source writes it: filter, then collapse commas
   * (lines 17-18), then collapse dots (lines 19-20), reassigning one variable.
   */
  method TratarEntrada(texto: string) returns (filtrado: string)
    ensures filtrado == Sanitize(texto)
  {
    filtrado := Filter(texto);
    ghost var soPermitidos := filtrado;
    var partesVirgula := Split(filtrado, ',');
    if |partesVirgula| > 2 {
      filtrado := partesVirgula[0] + [','] + Concat(partesVirgula[1..]);
    }
    CollapseIsKeepFirst(soPermitidos, ',');
    ghost var semVirgulaExtra := filtrado;
    var partesPonto := Split(filtrado, '.');
    if |partesPonto| > 2 {
      filtrado := partesPonto[0] + ['.'] + Concat(partesPonto[1..]);
    }
    CollapseIsKeepFirst(semVirgulaExtra, '.');
    FilterThenKeepFirstIsScan(texto, false, false);
  }

  /**
   * One collapse step of the source: when `split(c)` gives more than two
   * pieces, the first piece, one `c` and the remaining pieces glued together.
   * That is the text before the first `c`, the `c`, and the rest without `c`.
   */
  lemma {:induction false} CollapseIsKeepFirst(s: string, c: char)
    ensures var parts := Split(s, c);
            (if |parts| > 2 then parts[0] + [c] + Concat(parts[1..]) else s) == KeepFirst(s, c)
  {
    if Count(s, c) <= 1 {
      KeepFirstUnchanged(s, c);
    } else {
      KeepFirstBySplit(s, c);
    }
  }

  lemma {:induction false} KeepFirstBySplit(s: string, c: char)
    requires Count(s, c) >= 1
    ensures var parts := Split(s, c); parts[0] + [c] + Concat(parts[1..]) == KeepFirst(s, c)
  {
    var parts := Split(s, c);
    var rest := Split(s[1..], c);
    if s[0] == c {
      assert parts[1..] == rest;
      ConcatSplit(s[1..], c);
    } else {
      assert parts[0] == [s[0]] + rest[0] && parts[1..] == rest[1..];
      KeepFirstBySplit(s[1..], c);
      assert parts[0] + [c] + Concat(parts[1..]) == [s[0]] + (rest[0] + [c] + Concat(rest[1..]));
    }
  }

  /** The text before the first `c` (the first piece of `split(c)`) is kept intact at the front. */
  lemma {:induction false} KeepFirstKeepsHead(s: string, c: char)
    ensures Split(s, c)[0] <= KeepFirst(s, c)
  {
    if s != [] && s[0] != c {
      KeepFirstKeepsHead(s[1..], c);
    }
  }

  /** With at most one `c`, there is nothing to collapse. */
  lemma {:induction false} KeepFirstUnchanged(s: string, c: char)
    requires Count(s, c) <= 1
    ensures KeepFirst(s, c) == s
  {
    if s != [] {
      if s[0] == c {
        CountZero(s[1..], c);
        RemoveAllAbsent(s[1..], c);
      } else {
        KeepFirstUnchanged(s[1..], c);
      }
      assert s == [s[0]] + s[1..];
    }
  }

  /** Collapsing `c` leaves exactly one `c` when there was any, and no other character is lost. */
  lemma {:induction false} KeepFirstCounts(s: string, c: char, d: char)
    ensures Count(KeepFirst(s, c), c) == if Count(s, c) == 0 then 0 else 1
    ensures d != c ==> Count(KeepFirst(s, c), d) == Count(s, d)
  {
    if s != [] {
      if s[0] == c {
        RemoveAllCounts(s[1..], c, d);
        CountAppend([c], RemoveAll(s[1..], c), c);
        CountAppend([c], RemoveAll(s[1..], c), d);
      } else {
        KeepFirstCounts(s[1..], c, d);
        CountAppend([s[0]], KeepFirst(s[1..], c), c);
        CountAppend([s[0]], KeepFirst(s[1..], c), d);
      }
    }
  }

  lemma KeepFirstAfterCons(x: char, t: string, c: char, seen: bool)
    ensures KeepFirstAfter([x] + t, c, seen)
         == if x == c then (if seen then [] else [c]) + KeepFirstAfter(t, c, true)
            else [x] + KeepFirstAfter(t, c, seen)
  {
    assert ([x] + t)[0] == x && ([x] + t)[1..] == t;
  }

  /** The source's filter-then-collapse-twice computes the one-pass scan. */
  lemma {:induction false} FilterThenKeepFirstIsScan(s: string, seenComma: bool, seenDot: bool)
    ensures KeepFirstAfter(KeepFirstAfter(Filter(s), ',', seenComma), '.', seenDot) == Scan(s, seenComma, seenDot)
  {
    if s != [] {
      var ch, f := s[0], Filter(s[1..]);
      if !IsAllowed(ch) {
        FilterThenKeepFirstIsScan(s[1..], seenComma, seenDot);
      } else if ch == ',' {
        FilterThenKeepFirstIsScan(s[1..], true, seenDot);
        KeepFirstAfterCons(ch, f, ',', seenComma);
        if !seenComma {
          KeepFirstAfterCons(',', KeepFirstAfter(f, ',', true), '.', seenDot);
        }
      } else if ch == '.' {
        FilterThenKeepFirstIsScan(s[1..], seenComma, true);
        KeepFirstAfterCons(ch, f, ',', seenComma);
        KeepFirstAfterCons('.', KeepFirstAfter(f, ',', seenComma), '.', seenDot);
      } else {
        FilterThenKeepFirstIsScan(s[1..], seenComma, seenDot);
        KeepFirstAfterCons(ch, f, ',', seenComma);
        KeepFirstAfterCons(ch, KeepFirstAfter(f, ',', seenComma), '.', seenDot);
      }
    }
  }

  // ---------------------------------------------------------------------
  // Properties of the one-pass description

  /** At most one separator of each kind survives, and only one already seen is dropped. */
  lemma {:induction false} ScanCounts(s: string, seenComma: bool, seenDot: bool)
    ensures Count(Scan(s, seenComma, seenDot), ',') == if seenComma || Count(s, ',') == 0 then 0 else 1
    ensures Count(Scan(s, seenComma, seenDot), '.') == if seenDot || Count(s, '.') == 0 then 0 else 1
  {
    if s != [] {
      var ch := s[0];
      if !IsAllowed(ch) {
        ScanCounts(s[1..], seenComma, seenDot);
      } else if ch == ',' {
        ScanCounts(s[1..], true, seenDot);
        CountAppend(if seenComma then [] else [','], Scan(s[1..], true, seenDot), ',');
        CountAppend(if seenComma then [] else [','], Scan(s[1..], true, seenDot), '.');
      } else if ch == '.' {
        ScanCounts(s[1..], seenComma, true);
        CountAppend(if seenDot then [] else ['.'], Scan(s[1..], seenComma, true), ',');
        CountAppend(if seenDot then [] else ['.'], Scan(s[1..], seenComma, true), '.');
      } else {
        ScanCounts(s[1..], seenComma, seenDot);
        CountAppend([ch], Scan(s[1..], seenComma, seenDot), ',');
        CountAppend([ch], Scan(s[1..], seenComma, seenDot), '.');
      }
    }
  }

  /** No digit is ever dropped, and their order is kept. */
  lemma {:induction false} ScanDigits(s: string, seenComma: bool, seenDot: bool)
    ensures Digits(Scan(s, seenComma, seenDot)) == Digits(s)
  {
    if s != [] {
      var ch := s[0];
      if !IsAllowed(ch) {
        ScanDigits(s[1..], seenComma, seenDot);
      } else if ch == ',' {
        ScanDigits(s[1..], true, seenDot);
        DigitsAppend(if seenComma then [] else [','], Scan(s[1..], true, seenDot));
      } else if ch == '.' {
        ScanDigits(s[1..], seenComma, true);
        DigitsAppend(if seenDot then [] else ['.'], Scan(s[1..], seenComma, true));
      } else {
        ScanDigits(s[1..], seenComma, seenDot);
        DigitsAppend([ch], Scan(s[1..], seenComma, seenDot));
      }
    }
  }

  /** The result only deletes characters of the input; it never adds or reorders. */
  lemma {:induction false} ScanSubsequence(s: string, seenComma: bool, seenDot: bool)
    ensures IsSubsequence(Scan(s, seenComma, seenDot), s)
  {
    if s != [] {
      var ch := s[0];
      var sc' := seenComma || ch == ',';
      var sd' := seenDot || ch == '.';
      ScanSubsequence(s[1..], sc', sd');
      var r := Scan(s, seenComma, seenDot);
      if r != [] && r != Scan(s[1..], sc', sd') {
        assert r == [ch] + Scan(s[1..], sc', sd');
        assert r[1..] == Scan(s[1..], sc', sd');
      }
    }
  }

  /** A text that already satisfies the field's rules passes through unchanged. */
  lemma {:induction false} ScanUnchanged(s: string, seenComma: bool, seenDot: bool)
    requires forall i :: 0 <= i < |s| ==> IsAllowed(s[i])
    requires Count(s, ',') <= (if seenComma then 0 else 1)
    requires Count(s, '.') <= (if seenDot then 0 else 1)
    ensures Scan(s, seenComma, seenDot) == s
  {
    if s != [] {
      var ch := s[0];
      assert forall i :: 0 <= i < |s[1..]| ==> IsAllowed(s[1..][i]) by {
        forall i | 0 <= i < |s[1..]| ensures IsAllowed(s[1..][i]) {
          assert s[1..][i] == s[i + 1];
        }
      }
      ScanUnchanged(s[1..], seenComma || ch == ',', seenDot || ch == '.');
      assert s == [ch] + s[1..];
    }
  }

  // ---------------------------------------------------------------------
  // What the field's text satisfies

  /** The source's statement order and the one-pass description agree. */
  lemma SanitizeBySteps(s: string)
    ensures Sanitize(s) == KeepFirst(KeepFirst(Filter(s), ','), '.')
  {
    FilterThenKeepFirstIsScan(s, false, false);
  }

  /**
   * Whatever was typed, the field ends up with exactly one `,` when the input
   * had at least one (none otherwise), and likewise for `.`.
   */
  lemma SanitizeSeparators(s: string)
    ensures Count(Sanitize(s), ',') == if Count(s, ',') == 0 then 0 else 1
    ensures Count(Sanitize(s), '.') == if Count(s, '.') == 0 then 0 else 1
  {
    ScanCounts(s, false, false);
  }

  /** The dot collapse does not touch the commas left by the comma collapse. */
  lemma DotCollapseKeepsCommas(s: string)
    ensures Count(KeepFirst(KeepFirst(Filter(s), ','), '.'), ',') == Count(KeepFirst(Filter(s), ','), ',')
  {
    KeepFirstCounts(KeepFirst(Filter(s), ','), '.', ',');
  }

  /** Every digit typed appears in the field, in order, and nothing is added. */
  lemma SanitizeKeepsDigits(s: string)
    ensures Digits(Sanitize(s)) == Digits(s)
    ensures IsSubsequence(Sanitize(s), s)
    ensures s == [] ==> Sanitize(s) == []
  {
    ScanDigits(s, false, false);
    ScanSubsequence(s, false, false);
  }

  /** The sanitiser leaves a text unchanged exactly when it already satisfies the field's rules. */
  lemma SanitizeFixpoint(s: string)
    ensures Sanitize(s) == s <==> IsSanitized(s)
  {
    if IsSanitized(s) {
      ScanUnchanged(s, false, false);
    }
  }

  /** Typing the field's own text again changes nothing. */
  lemma SanitizeIdempotent(s: string)
    ensures Sanitize(Sanitize(s)) == Sanitize(s)
  {
    SanitizeFixpoint(Sanitize(s));
  }

  /** Letters go; so do the commas after the first. */
  lemma SanitizeExemploVirgulas()
    ensures Sanitize("7a0,5,kg") == "70,5"
  {
    assert Scan(",kg", true, false) == "";
    assert Scan("5,kg", true, false) == "5";
    assert Scan(",5,kg", false, false) == ",5";
    assert Scan("a0,5,kg", false, false) == "0,5";
  }

  /** Surplus dots and commas are collapsed independently. */
  lemma SanitizeExemploSeparadores()
    ensures Sanitize("1.2.3,4,5") == "1.23,45"
  {
    ScanExemploSeparadores();
  }

  lemma ScanExemploSeparadores()
    ensures Scan("1.2.3,4,5", false, false) == "1.23,45"
  {
    ScanExemploCauda();
    assert Scan("2.3,4,5", false, true) == "23,45";
    assert Scan(".2.3,4,5", false, false) == ".23,45";
  }

  lemma ScanExemploCauda()
    ensures Scan(".3,4,5", false, true) == "3,45"
  {
    assert Scan("4,5", true, true) == "45";
    assert Scan(",4,5", false, true) == ",45";
    assert Scan("3,4,5", false, true) == "3,45";
  }

  /** A text of separators only keeps one of each. */
  lemma SanitizeExemploSoSeparadores()
    ensures Sanitize(",,..") == ",."
  {
  }
}
