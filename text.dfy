/** The two pieces of Python string handling the pipeline depends on:
    `str.strip()` (used by both classifiers) and the conversion of a year column
    label such as "Y1961" into an integer (`str.replace("Y", "")` followed by
    `astype(int)`). */
module Text {
  import opened Wrappers

  /** The characters Python's `str.isspace()` accepts; `str.strip()` with no
      argument removes exactly these from both ends. */
  predicate IsSpace(c: char) {
    || ('\t' <= c <= '\r')
    || ('\U{1C}' <= c <= ' ')
    || c == '\U{85}' || c == '\U{A0}' || c == '\U{1680}'
    || ('\U{2000}' <= c <= '\U{200A}')
    || c == '\U{2028}' || c == '\U{2029}' || c == '\U{202F}' || c == '\U{205F}'
    || c == '\U{3000}'
  }

  predicate AllSpace(s: string) {
    forall i :: 0 <= i < |s| ==> IsSpace(s[i])
  }

  /** A string `strip()` leaves alone: empty, or neither end is whitespace. */
  predicate IsTrimmed(s: string) {
    s == [] || (!IsSpace(s[0]) && !IsSpace(s[|s| - 1]))
  }

  /** `str.lstrip()`: the suffix left after dropping leading whitespace. */
  function StripLeft(s: string): (r: string)
    ensures |r| <= |s| && r == s[|s| - |r|..]
    ensures AllSpace(s[..|s| - |r|])
    ensures r == [] || !IsSpace(r[0])
  {
    if s != [] && IsSpace(s[0]) then StripLeft(s[1..]) else s
  }

  /** `str.rstrip()`: the prefix left after dropping trailing whitespace. */
  function StripRight(s: string): (r: string)
    ensures |r| <= |s| && r == s[..|r|]
    ensures AllSpace(s[|r|..])
    ensures r == [] || !IsSpace(r[|r| - 1])
  {
    if s != [] && IsSpace(s[|s| - 1]) then
      var r := StripRight(s[..|s| - 1]);
      assert s[|r|..] == s[..|s| - 1][|r|..] + [s[|s| - 1]];
      r
    else s
  }

  /** `str.strip()`. */
  function Strip(s: string): (r: string)
    ensures |r| <= |s|
    ensures IsTrimmed(r)
  {
    StripRight(StripLeft(s))
  }

  lemma {:induction false} StripLeftPadded(p: string, x: string)
    requires AllSpace(p)
    ensures StripLeft(p + x) == StripLeft(x)
  {
    if p != [] {
      assert (p + x)[1..] == p[1..] + x;
      StripLeftPadded(p[1..], x);
    } else {
      assert p + x == x;
    }
  }

  lemma {:induction false} StripRightPadded(x: string, q: string)
    requires AllSpace(q)
    ensures StripRight(x + q) == StripRight(x)
  {
    if q != [] {
      assert (x + q)[..|x + q| - 1] == x + q[..|q| - 1];
      StripRightPadded(x, q[..|q| - 1]);
    } else {
      assert x + q == x;
    }
  }

  lemma {:induction false} StripLeftAppend(s: string, q: string)
    requires !AllSpace(s)
    ensures StripLeft(s + q) == StripLeft(s) + q
  {
    if IsSpace(s[0]) {
      assert (s + q)[1..] == s[1..] + q;
      StripLeftAppend(s[1..], q);
    }
  }

  /** A trimmed string is its own strip, and stripping twice strips once. */
  lemma StripTrimmed(s: string)
    requires IsTrimmed(s)
    ensures Strip(s) == s
  {
  }

  lemma StripIdempotent(s: string)
    ensures Strip(Strip(s)) == Strip(s)
  {
    StripTrimmed(Strip(s));
  }

  lemma AllSpaceConcat(a: string, b: string)
    requires AllSpace(a) && AllSpace(b)
    ensures AllSpace(a + b)
  {
    forall i | 0 <= i < |a + b| ensures IsSpace((a + b)[i]) {
      if i >= |a| {
        assert (a + b)[i] == b[i - |a|];
      }
    }
  }

  /** A string made only of whitespace strips to the empty string. */
  lemma StripLeftAllSpace(s: string)
    requires AllSpace(s)
    ensures StripLeft(s) == []
  {
    StripLeftPadded(s, []);
    assert s + [] == s;
  }

  /** Whitespace around a name does not change what `strip()` yields. */
  lemma StripIgnoresPadding(p: string, s: string, q: string)
    requires AllSpace(p) && AllSpace(q)
    ensures Strip(p + s + q) == Strip(s)
  {
    assert p + s + q == p + (s + q);
    StripLeftPadded(p, s + q);
    if AllSpace(s) {
      AllSpaceConcat(s, q);
      StripLeftAllSpace(s + q);
      StripLeftAllSpace(s);
    } else {
      StripLeftAppend(s, q);
      StripRightPadded(StripLeft(s), q);
    }
  }

  predicate IsDigit(c: char) {
    '0' <= c <= '9'
  }

  predicate AllDigits(s: string) {
    forall i :: 0 <= i < |s| ==> IsDigit(s[i])
  }

  function DigitValue(c: char): (d: nat)
    requires IsDigit(c)
    ensures d < 10
  {
    (c as int) - ('0' as int)
  }

  function Digit(d: nat): (c: char)
    requires d < 10
    ensures IsDigit(c) && DigitValue(c) == d
  {
    (('0' as int) + d) as char
  }

  /** The value of a decimal numeral, most significant digit first. */
  function DigitsValue(s: string): nat
    requires AllDigits(s)
  {
    if s == [] then 0 else DigitsValue(s[..|s| - 1]) * 10 + DigitValue(s[|s| - 1])
  }

  /** Python's `str(n)` for a natural number. */
  function ShowNat(n: nat): (r: string)
    ensures |r| > 0 && AllDigits(r)
  {
    if n < 10 then [Digit(n)] else ShowNat(n / 10) + [Digit(n % 10)]
  }

  /** `s.replace(c, "")`: every occurrence of `c` deleted, the rest in order. */
  function Without(s: string, c: char): (r: string)
    ensures |r| <= |s|
    ensures forall x :: x in r <==> x in s && x != c
    ensures multiset(r) == multiset(s)[c := 0]
  {
    if s == [] then []
    else
      var r := (if s[0] == c then [] else [s[0]]) + Without(s[1..], c);
      assert s == [s[0]] + s[1..];
      r
  }

  /** Deleting a character distributes over concatenation, so the characters
      that remain keep their order. */
  lemma {:induction false} WithoutAppend(a: string, b: string, c: char)
    ensures Without(a + b, c) == Without(a, c) + Without(b, c)
  {
    if a != [] {
      var head := if a[0] == c then [] else [a[0]];
      assert (a + b)[0] == a[0] && (a + b)[1..] == a[1..] + b;
      assert Without(a + b, c) == head + Without(a[1..] + b, c);
      WithoutAppend(a[1..], b, c);
      assert Without(a, c) == head + Without(a[1..], c);
    } else {
      assert a + b == b;
    }
  }

  /** numpy's int64 holds values below 2^63; `astype(int)` raises OverflowError
      on a larger one. */
  const Int64Bound: nat := 0x8000_0000_0000_0000

  /** `label.replace("Y", "")` converted by `astype(int)` for a year column
      name; None where that raises, with ValueError on a non-numeral and
      OverflowError on a value int64 cannot hold. Only ASCII digits are
      modelled. */
  function ParseYear(column: string): (r: Option<nat>)
    ensures r.Some? <==>
      |Without(column, 'Y')| > 0 && AllDigits(Without(column, 'Y')) && DigitsValue(Without(column, 'Y')) < Int64Bound
    ensures r.Some? ==> r.value < Int64Bound
  {
    var digits := Without(column, 'Y');
    if |digits| > 0 && AllDigits(digits) && DigitsValue(digits) < Int64Bound then Some(DigitsValue(digits)) else None
  }

  lemma {:induction false} WithoutAbsent(s: string, c: char)
    requires c !in s
    ensures Without(s, c) == s
  {
    if s != [] {
      WithoutAbsent(s[1..], c);
    }
  }

  lemma {:induction false} DigitsValueShowNat(n: nat)
    ensures DigitsValue(ShowNat(n)) == n
  {
    if n >= 10 {
      DigitsValueShowNat(n / 10);
      var s := ShowNat(n);
      assert s[..|s| - 1] == ShowNat(n / 10);
    }
  }

  /** Reading back the label "Y<n>" gives the year n when int64 holds it,
      and raises otherwise. */
  lemma YearLabelRoundTrip(n: nat)
    ensures ParseYear("Y" + ShowNat(n)) == if n < Int64Bound then Some(n) else None
  {
    var s := ShowNat(n);
    assert forall i :: 0 <= i < |s| ==> s[i] != 'Y';
    WithoutAbsent(s, 'Y');
    assert ("Y" + s)[1..] == s;
    assert Without("Y" + s, 'Y') == s;
    DigitsValueShowNat(n);
  }
}
