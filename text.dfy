/**
 * The JavaScript string operations the calculator is built from
 * (`replaceAll`, `split`, `join`), stated over `seq<char>`, with the
 * facts about them that the rest of the model needs.
 */
module Text {

  predicate IsDigit(ch: char) {
    '0' <= ch <= '9'
  }

  predicate IsNonZeroDigit(ch: char) {
    '1' <= ch <= '9'
  }

  predicate AllDigits(s: string) {
    forall i :: 0 <= i < |s| ==> IsDigit(s[i])
  }

  /** Number of occurrences of `c` in `s`. */
  function Count(s: string, c: char): nat {
    if s == [] then 0
    else (if s[0] == c then 1 else 0) + Count(s[1..], c)
  }

  /** The digits of `s`, in order. */
  function Digits(s: string): (ds: string)
    ensures AllDigits(ds)
  {
    if s == [] then []
    else if IsDigit(s[0]) then [s[0]] + Digits(s[1..])
    else Digits(s[1..])
  }

  /** True when some character of `s` is a digit other than `0`. */
  predicate HasNonZeroDigit(s: string) {
    s != [] && (IsNonZeroDigit(s[0]) || HasNonZeroDigit(s[1..]))
  }

  /** `s.replaceAll(c, '')`: every `c` is deleted and nothing else. */
  function RemoveAll(s: string, c: char): (r: string)
    ensures |r| == |s| - Count(s, c)
    ensures forall x :: x in r <==> x in s && x != c
  {
    if s == [] then []
    else if s[0] == c then RemoveAll(s[1..], c)
    else [s[0]] + RemoveAll(s[1..], c)
  }

  /** `s.replaceAll(c, d)`: position by position, a `c` becomes `d`. */
  function ReplaceAll(s: string, c: char, d: char): (r: string)
    ensures |r| == |s|
    ensures forall i :: 0 <= i < |s| ==> r[i] == if s[i] == c then d else s[i]
    ensures forall x :: x in r <==> (x == d && c in s) || (x in s && x != c)
  {
    if s == [] then []
    else [if s[0] == c then d else s[0]] + ReplaceAll(s[1..], c, d)
  }

  /** `s.split(sep)`: the pieces between the occurrences of `sep`. */
  function Split(s: string, sep: char): (parts: seq<string>)
    ensures |parts| == Count(s, sep) + 1
    ensures forall k :: 0 <= k < |parts| ==> sep !in parts[k]
  {
    if s == [] then [[]]
    else
      var rest := Split(s[1..], sep);
      if s[0] == sep then [[]] + rest
      else [[s[0]] + rest[0]] + rest[1..]
  }

  /** `parts.join('')`: holds exactly the characters of the pieces. */
  function Concat(parts: seq<string>): (r: string)
    ensures forall x :: x in r <==> exists k :: 0 <= k < |parts| && x in parts[k]
  {
    if parts == [] then []
    else
      var r := parts[0] + Concat(parts[1..]);
      assert forall x, k :: 0 <= k < |parts[1..]| && x in parts[1..][k] ==> x in parts[k + 1];
      assert forall x, k :: 1 <= k < |parts| && x in parts[k] ==> x in parts[1..][k - 1];
      r
  }

  /**
   * `parts.join(sep)`: the first piece comes first, and pieces free of `sep`
   * are joined with exactly one `sep` between neighbours.
   */
  function JoinWith(parts: seq<string>, sep: char): (r: string)
    requires parts != []
    ensures parts[0] <= r
    ensures (forall k :: 0 <= k < |parts| ==> sep !in parts[k]) ==> Count(r, sep) == |parts| - 1
  {
    if |parts| == 1 then
      CountZero(parts[0], sep);
      parts[0]
    else
      var rest := JoinWith(parts[1..], sep);
      CountZero(parts[0], sep);
      CountAppend(parts[0] + [sep], rest, sep);
      CountAppend(parts[0], [sep], sep);
      parts[0] + [sep] + rest
  }

  /** `a` can be obtained from `b` by deleting characters. */
  ghost predicate IsSubsequence(a: string, b: string) {
    a == [] || (b != [] && ((a[0] == b[0] && IsSubsequence(a[1..], b[1..])) || IsSubsequence(a, b[1..])))
  }

  // ---------------------------------------------------------------------
  // split / join

  /** Joining the pieces of a split with the same separator gives the text back. */
  lemma {:induction false} JoinSplit(s: string, sep: char)
    ensures JoinWith(Split(s, sep), sep) == s
  {
    if s != [] {
      var rest := Split(s[1..], sep);
      JoinSplit(s[1..], sep);
      if s[0] == sep {
        assert Split(s, sep)[1..] == rest;
      } else {
        var parts := Split(s, sep);
        assert parts[1..] == rest[1..];
        if |rest| == 1 {
          assert JoinWith(rest, sep) == rest[0];
        } else {
          assert JoinWith(rest, sep) == rest[0] + [sep] + JoinWith(rest[1..], sep);
        }
      }
    }
  }

  /** Joining the pieces of a split with nothing between them deletes the separator. */
  lemma {:induction false} ConcatSplit(s: string, sep: char)
    ensures Concat(Split(s, sep)) == RemoveAll(s, sep)
  {
    if s != [] {
      var rest := Split(s[1..], sep);
      ConcatSplit(s[1..], sep);
      if s[0] == sep {
        assert Split(s, sep)[1..] == rest;
      } else {
        var parts := Split(s, sep);
        assert parts[1..] == rest[1..];
        assert Concat(rest) == rest[0] + Concat(rest[1..]);
      }
    }
  }

  // ---------------------------------------------------------------------
  // counting, removing, replacing

  lemma {:induction false} CountAppend(a: string, b: string, c: char)
    ensures Count(a + b, c) == Count(a, c) + Count(b, c)
  {
    if a == [] {
      assert a + b == b;
    } else {
      assert (a + b)[1..] == a[1..] + b;
      CountAppend(a[1..], b, c);
    }
  }

  lemma {:induction false} CountZero(s: string, c: char)
    ensures Count(s, c) == 0 <==> c !in s
  {
    if s != [] {
      CountZero(s[1..], c);
      assert s == [s[0]] + s[1..];
    }
  }

  /** `replaceAll(c, '')` leaves no `c` and keeps every other character. */
  lemma {:induction false} RemoveAllCounts(s: string, c: char, d: char)
    ensures Count(RemoveAll(s, c), c) == 0
    ensures d != c ==> Count(RemoveAll(s, c), d) == Count(s, d)
  {
    if s != [] {
      RemoveAllCounts(s[1..], c, d);
    }
  }

  /** Deleting a character that is absent changes nothing. */
  lemma {:induction false} RemoveAllAbsent(s: string, c: char)
    requires c !in s
    ensures RemoveAll(s, c) == s
  {
    if s != [] {
      RemoveAllAbsent(s[1..], c);
      assert s == [s[0]] + s[1..];
    }
  }

  lemma {:induction false} RemoveAllAppend(a: string, b: string, c: char)
    ensures RemoveAll(a + b, c) == RemoveAll(a, c) + RemoveAll(b, c)
  {
    if a == [] {
      assert a + b == b;
    } else {
      assert (a + b)[1..] == a[1..] + b;
      RemoveAllAppend(a[1..], b, c);
    }
  }

  lemma {:induction false} RemoveAllTwice(s: string, c: char)
    ensures RemoveAll(RemoveAll(s, c), c) == RemoveAll(s, c)
  {
    RemoveAllCounts(s, c, c);
    CountZero(RemoveAll(s, c), c);
    RemoveAllAbsent(RemoveAll(s, c), c);
  }

  /** `replaceAll(c, d)` turns every `c` into a `d` and leaves other characters alone. */
  lemma {:induction false} ReplaceAllCounts(s: string, c: char, d: char, e: char)
    requires c != d
    ensures Count(ReplaceAll(s, c, d), c) == 0
    ensures Count(ReplaceAll(s, c, d), d) == Count(s, c) + Count(s, d)
    ensures e != c && e != d ==> Count(ReplaceAll(s, c, d), e) == Count(s, e)
  {
    if s != [] {
      ReplaceAllCounts(s[1..], c, d, e);
    }
  }

  lemma {:induction false} ReplaceAllAbsent(s: string, c: char, d: char)
    requires c !in s
    ensures ReplaceAll(s, c, d) == s
  {
    if s != [] {
      ReplaceAllAbsent(s[1..], c, d);
      assert s == [s[0]] + s[1..];
    }
  }

  lemma {:induction false} ReplaceAllAppend(a: string, b: string, c: char, d: char)
    ensures ReplaceAll(a + b, c, d) == ReplaceAll(a, c, d) + ReplaceAll(b, c, d)
  {
    if a == [] {
      assert a + b == b;
    } else {
      assert (a + b)[1..] == a[1..] + b;
      ReplaceAllAppend(a[1..], b, c, d);
    }
  }

  // ---------------------------------------------------------------------
  // digits

  lemma {:induction false} DigitsAppend(a: string, b: string)
    ensures Digits(a + b) == Digits(a) + Digits(b)
  {
    if a == [] {
      assert a + b == b;
    } else {
      assert (a + b)[1..] == a[1..] + b;
      DigitsAppend(a[1..], b);
    }
  }

  /** A text made only of digits is its own digit sequence. */
  lemma {:induction false} DigitsOfDigits(s: string)
    requires AllDigits(s)
    ensures Digits(s) == s
  {
    if s != [] {
      DigitsOfDigits(s[1..]);
      assert s == [s[0]] + s[1..];
    }
  }

  /** Deleting or replacing non-digits keeps the digits, in order. */
  lemma {:induction false} DigitsRemoveAll(s: string, c: char)
    requires !IsDigit(c)
    ensures Digits(RemoveAll(s, c)) == Digits(s)
  {
    if s != [] {
      DigitsRemoveAll(s[1..], c);
    }
  }

  lemma {:induction false} DigitsReplaceAll(s: string, c: char, d: char)
    requires !IsDigit(c) && !IsDigit(d)
    ensures Digits(ReplaceAll(s, c, d)) == Digits(s)
  {
    if s != [] {
      DigitsReplaceAll(s[1..], c, d);
    }
  }

  lemma {:induction false} HasNonZeroDigitAppend(a: string, b: string)
    ensures HasNonZeroDigit(a + b) <==> HasNonZeroDigit(a) || HasNonZeroDigit(b)
  {
    if a == [] {
      assert a + b == b;
    } else {
      assert (a + b)[1..] == a[1..] + b;
      HasNonZeroDigitAppend(a[1..], b);
    }
  }

  /** Whether a text holds a non-zero digit depends on its digits only. */
  lemma {:induction false} HasNonZeroDigitOfDigits(s: string)
    ensures HasNonZeroDigit(Digits(s)) <==> HasNonZeroDigit(s)
  {
    if s != [] {
      HasNonZeroDigitOfDigits(s[1..]);
      if IsDigit(s[0]) {
        assert Digits(s)[1..] == Digits(s[1..]);
      }
    }
  }
}
