/**
 * `validRange()`: whether the two date inputs hold a range the fetch button
 * may request. The inputs' values are strings (`""` when unset, otherwise
 * `yyyy-mm-dd`) and the code compares them with JavaScript's `<=` on
 * strings, which is the code-unit lexicographic order. Here it is the
 * lexicographic order on characters, which agrees with it on text inside
 * the Basic Multilingual Plane.
 */
module DateRange {

  /**
   * JavaScript's `a < b` on two strings: the first differing character
   * decides, and a proper prefix comes before the longer string.
   */
  predicate Less(a: string, b: string)
    decreases |a|
  {
    if b == [] then false
    else if a == [] then true
    else if a[0] != b[0] then a[0] < b[0]
    else Less(a[1..], b[1..])
  }

  lemma {:induction false} LessIrreflexive(a: string)
    ensures !Less(a, a)
    decreases |a|
  {
    if a != [] {
      LessIrreflexive(a[1..]);
    }
  }

  /** Exactly one of `a < b`, `a == b`, `b < a` holds. */
  lemma {:induction false} LessTrichotomy(a: string, b: string)
    ensures a == b || Less(a, b) || Less(b, a)
    ensures !(Less(a, b) && Less(b, a))
    ensures a == b ==> !Less(a, b)
    decreases |a|
  {
    if a == [] || b == [] {
    } else if a[0] != b[0] {
    } else {
      LessTrichotomy(a[1..], b[1..]);
      if a[1..] == b[1..] {
        assert a == [a[0]] + a[1..] && b == [b[0]] + b[1..];
      }
      LessIrreflexive(a);
    }
  }

  lemma {:induction false} LessTransitive(a: string, b: string, c: string)
    requires Less(a, b) && Less(b, c)
    ensures Less(a, c)
    decreases |a|
  {
    if a != [] && a[0] == b[0] && b[0] == c[0] {
      LessTransitive(a[1..], b[1..], c[1..]);
    }
  }

  /**
   * `validRange()`: false when either input is empty, otherwise
   * `start <= end`, which JavaScript evaluates as `!(end < start)`.
   */
  function ValidRange(start: string, end: string): (ok: bool)
    ensures ok <==> start != "" && end != "" && (start == end || Less(start, end))
  {
    LessTrichotomy(start, end);
    if start == "" || end == "" then false else !Less(end, start)
  }

  /** A one-day range is valid. */
  lemma ValidRangeReflexive(s: string)
    requires s != ""
    ensures ValidRange(s, s)
  {
  }

  /** Two ranges valid in both directions have the same start and end. */
  lemma ValidRangeAntisymmetric(a: string, b: string)
    ensures ValidRange(a, b) && ValidRange(b, a) ==> a == b
  {
    LessTrichotomy(a, b);
  }

  lemma ValidRangeTransitive(a: string, b: string, c: string)
    ensures ValidRange(a, b) && ValidRange(b, c) ==> ValidRange(a, c)
  {
    if ValidRange(a, b) && ValidRange(b, c) && a != b && b != c {
      LessTransitive(a, b, c);
    }
  }

  /** Of two non-empty values, one order or the other is a valid range. */
  lemma ValidRangeTotal(a: string, b: string)
    requires a != "" && b != ""
    ensures ValidRange(a, b) || ValidRange(b, a)
  {
    LessTrichotomy(a, b);
  }

  /** Comparing two strings that agree in length on their first parts. */
  lemma {:induction false} LessAppend(x: string, y: string, x': string, y': string)
    requires |x| == |x'|
    ensures Less(x + y, x' + y') <==> Less(x, x') || (x == x' && Less(y, y'))
    decreases |x|
  {
    if x == [] {
      assert x + y == y && x' + y' == y';
    } else {
      assert (x + y)[0] == x[0] && (x' + y')[0] == x'[0];
      if x[0] == x'[0] {
        assert (x + y)[1..] == x[1..] + y && (x' + y')[1..] == x'[1..] + y';
        LessAppend(x[1..], y, x'[1..], y');
        assert x == [x[0]] + x[1..] && x' == [x'[0]] + x'[1..];
      }
    }
  }

  predicate IsDigit(c: char) {
    '0' <= c <= '9'
  }

  predicate AllDigits(d: string) {
    forall i :: 0 <= i < |d| ==> IsDigit(d[i])
  }

  function Pow10(n: nat): (p: nat)
    ensures p >= 1
  {
    if n == 0 then 1 else 10 * Pow10(n - 1)
  }

  /** The number a string of decimal digits spells, most significant first. */
  function DigitsValue(d: string): (v: nat)
    requires AllDigits(d)
    ensures v < Pow10(|d|)
  {
    if d == [] then 0
    else
      var h := d[0] as int - '0' as int;
      var rest := DigitsValue(d[1..]);
      DigitBound(h, Pow10(|d| - 1), rest);
      h * Pow10(|d| - 1) + rest
  }

  /** One more digit in front stays below the next power of ten. */
  lemma DigitBound(h: int, p: nat, r: nat)
    requires 0 <= h <= 9 && r < p
    ensures 0 <= h * p + r < 10 * p
  {
    MulLe(h + 1, 10, p);
    assert (h + 1) * p == h * p + p;
  }

  lemma MulLe(a: int, b: int, c: nat)
    requires a <= b
    ensures a * c <= b * c
  {
  }

  /** A smaller leading digit makes a smaller number, whatever follows. */
  lemma LeadingDigitDecides(hx: int, hy: int, p: nat, rx: nat, ry: nat)
    requires hx < hy && rx < p
    ensures hx * p + rx < hy * p + ry
  {
    MulLe(hx + 1, hy, p);
    assert (hx + 1) * p == hx * p + p;
  }

  /** On digit strings of one length, string order is numeric order. */
  lemma {:induction false} DigitsOrder(x: string, y: string)
    requires AllDigits(x) && AllDigits(y) && |x| == |y|
    ensures Less(x, y) <==> DigitsValue(x) < DigitsValue(y)
    ensures x == y <==> DigitsValue(x) == DigitsValue(y)
    decreases |x|
  {
    if x != [] {
      var p := Pow10(|x| - 1);
      var hx := x[0] as int - '0' as int;
      var hy := y[0] as int - '0' as int;
      var rx, ry := DigitsValue(x[1..]), DigitsValue(y[1..]);
      assert DigitsValue(x) == hx * p + rx;
      assert DigitsValue(y) == hy * p + ry;
      if hx < hy {
        LeadingDigitDecides(hx, hy, p, rx, ry);
      } else if hy < hx {
        LeadingDigitDecides(hy, hx, p, ry, rx);
      } else {
        DigitsOrder(x[1..], y[1..]);
        assert x == [x[0]] + x[1..] && y == [y[0]] + y[1..];
      }
    }
  }

  /** The value an `<input type="date">` holds once set: `yyyy-mm-dd`. */
  predicate IsIsoDate(s: string) {
    && |s| == 10
    && AllDigits(s[..4]) && s[4] == '-'
    && AllDigits(s[5..7]) && s[7] == '-'
    && AllDigits(s[8..])
  }

  function Year(s: string): nat
    requires IsIsoDate(s)
  {
    DigitsValue(s[..4])
  }

  function Month(s: string): nat
    requires IsIsoDate(s)
  {
    DigitsValue(s[5..7])
  }

  function Day(s: string): nat
    requires IsIsoDate(s)
  {
    DigitsValue(s[8..])
  }

  /** Calendar order of two dates by year, then month, then day. */
  predicate DateBefore(a: string, b: string)
    requires IsIsoDate(a) && IsIsoDate(b)
  {
    || Year(a) < Year(b)
    || (Year(a) == Year(b) && Month(a) < Month(b))
    || (Year(a) == Year(b) && Month(a) == Month(b) && Day(a) < Day(b))
  }

  /** Comparing at a cut point: the parts before it decide first. */
  lemma LessSplit(a: string, b: string, n: nat)
    requires n <= |a| && n <= |b|
    ensures Less(a, b) <==> Less(a[..n], b[..n]) || (a[..n] == b[..n] && Less(a[n..], b[n..]))
  {
    assert a == a[..n] + a[n..] && b == b[..n] + b[n..];
    LessAppend(a[..n], a[n..], b[..n], b[n..]);
  }

  /** Month and day decide the order of the parts after the year's dash. */
  lemma IsoMonthDayOrder(a: string, b: string)
    requires IsIsoDate(a) && IsIsoDate(b)
    ensures Less(a[5..], b[5..]) <==>
      || Month(a) < Month(b)
      || (Month(a) == Month(b) && Day(a) < Day(b))
    ensures a[5..] == b[5..] <==> Month(a) == Month(b) && Day(a) == Day(b)
  {
    var x, y := a[5..], b[5..];
    assert x[..2] == a[5..7] && y[..2] == b[5..7];
    assert x[2..] == a[7..] && y[2..] == b[7..];
    assert a[7..][1..] == a[8..] && b[7..][1..] == b[8..];
    LessSplit(x, y, 2);
    DigitsOrder(a[5..7], b[5..7]);
    DigitsOrder(a[8..], b[8..]);
    assert x == a[5..7] + [a[7]] + a[8..] && y == b[5..7] + [b[7]] + b[8..];
  }

  /** On `yyyy-mm-dd` values the string order is the calendar order. */
  lemma IsoDateOrder(a: string, b: string)
    requires IsIsoDate(a) && IsIsoDate(b)
    ensures Less(a, b) <==> DateBefore(a, b)
    ensures a == b <==> (Year(a), Month(a), Day(a)) == (Year(b), Month(b), Day(b))
  {
    assert a[4..][1..] == a[5..] && b[4..][1..] == b[5..];
    LessSplit(a, b, 4);
    DigitsOrder(a[..4], b[..4]);
    IsoMonthDayOrder(a, b);
    assert a == a[..4] + [a[4]] + a[5..] && b == b[..4] + [b[4]] + b[5..];
  }

  /** With both inputs set, the range is valid exactly when the start is not after the end. */
  lemma ValidRangeOfDates(start: string, end: string)
    requires IsIsoDate(start) && IsIsoDate(end)
    ensures ValidRange(start, end) <==> !DateBefore(end, start)
  {
    IsoDateOrder(end, start);
  }

  /**
   * A date input may hold a year of five or more digits. On such a value the
   * string order is not the calendar order: a start in year 10000 and an end
   * in 2024 pass `validRange()`, because `'2'` is not less than `'1'`.
   */
  lemma LongYearOutOfOrder()
    ensures !IsIsoDate("10000-01-01")
    ensures ValidRange("10000-01-01", "2024-06-01")
  {
  }
}
