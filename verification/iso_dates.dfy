/**
 * Calendar dates as the server formats and compares them: `formatISO(d,
 * { representation: 'date' })` writes the full-date form `YYYY-MM-DD` of
 * section 5.6 of RFC 3339. The habit event log is expected to hold such
 * strings (the handler stores whatever string it is given), the analytics
 * look formatted days up in the set of stored strings, and the SQL filter
 * compares them with `>=`, which on TEXT is the lexicographic order of the
 * characters.
 *
 * The rest of the model works on day numbers. This module shows why that is
 * sound: formatting is injective (parsing gives the date back), and the
 * string order of two formatted dates is the calendar order of the dates.
 */
module IsoDates {
  import opened Wrappers

  datatype Date = Date(year: int, month: int, day: int)

  /** The Gregorian leap-year rule. */
  predicate IsLeapYear(y: int) {
    y % 4 == 0 && (y % 100 != 0 || y % 400 == 0)
  }

  function DaysInMonth(y: int, m: int): (n: int)
    requires 1 <= m <= 12
    ensures 28 <= n <= 31
    ensures n == 29 <==> m == 2 && IsLeapYear(y)
  {
    if m == 2 then (if IsLeapYear(y) then 29 else 28)
    else if m == 4 || m == 6 || m == 9 || m == 11 then 30
    else 31
  }

  /** A real calendar date whose year has four digits. */
  predicate ValidDate(d: Date) {
    && 0 <= d.year <= 9999
    && 1 <= d.month <= 12
    && 1 <= d.day <= DaysInMonth(d.year, d.month)
  }

  /** Calendar order: by year, then month, then day. */
  predicate DateBefore(d1: Date, d2: Date) {
    || d1.year < d2.year
    || (d1.year == d2.year && d1.month < d2.month)
    || (d1.year == d2.year && d1.month == d2.month && d1.day < d2.day)
  }

  // ---------------------------------------------------------------------------
  // Decimal digits

  function Pow10(k: nat): (p: nat)
    ensures p >= 1
  {
    if k == 0 then 1 else 10 * Pow10(k - 1)
  }

  predicate IsDigit(c: char) {
    '0' <= c <= '9'
  }

  predicate AllDigits(s: string) {
    forall i | 0 <= i < |s| :: IsDigit(s[i])
  }

  /** `n` written with exactly `width` digits, padded with leading zeros. */
  function Digits(n: nat, width: nat): (s: string)
    requires n < Pow10(width)
    ensures |s| == width && AllDigits(s)
  {
    if width == 0 then []
    else Digits(n / 10, width - 1) + [(48 + n % 10) as char]
  }

  /** The number a string of digits denotes. */
  function Value(s: string): nat
    requires AllDigits(s)
  {
    if s == [] then 0 else 10 * Value(s[..|s| - 1]) + (s[|s| - 1] as int - 48)
  }

  lemma {:induction false} ValueOfDigits(n: nat, width: nat)
    requires n < Pow10(width)
    ensures Value(Digits(n, width)) == n
  {
    if width > 0 {
      var s := Digits(n, width);
      assert s[..|s| - 1] == Digits(n / 10, width - 1);
      ValueOfDigits(n / 10, width - 1);
    }
  }

  lemma {:induction false} DigitsOfValue(s: string)
    requires AllDigits(s)
    ensures Value(s) < Pow10(|s|)
    ensures Digits(Value(s), |s|) == s
  {
    if s != [] {
      var init := s[..|s| - 1];
      DigitsOfValue(init);
      var c := s[|s| - 1] as int - 48;
      assert Value(s) / 10 == Value(init) && Value(s) % 10 == c;
      assert Digits(Value(s), |s|) == init + [s[|s| - 1]];
    }
  }

  // ---------------------------------------------------------------------------
  // Lexicographic order of strings

  /** `s < t` on strings: the first differing character decides, and a proper prefix comes first. */
  predicate StrLess(s: string, t: string) {
    if s == [] then t != []
    else if t == [] then false
    else s[0] < t[0] || (s[0] == t[0] && StrLess(s[1..], t[1..]))
  }

  /** Comparing two strings behind prefixes of equal length: the prefixes decide unless equal. */
  lemma {:induction false} StrLessConcat(p: string, q: string, s: string, t: string)
    requires |p| == |q|
    ensures StrLess(p + s, q + t) <==> StrLess(p, q) || (p == q && StrLess(s, t))
  {
    if p != [] {
      assert (p + s)[1..] == p[1..] + s;
      assert (q + t)[1..] == q[1..] + t;
      assert (p + s)[0] == p[0] && (q + t)[0] == q[0];
      StrLessConcat(p[1..], q[1..], s, t);
      assert p == q <==> p[0] == q[0] && p[1..] == q[1..] by {
        if p[0] == q[0] && p[1..] == q[1..] {
          assert p == [p[0]] + p[1..] && q == [q[0]] + q[1..];
        }
      }
    } else {
      assert p + s == s && q + t == t;
    }
  }

  /** Numbers compare by all but their last digit first, then by the last digit. */
  lemma DecimalOrder(a: nat, b: nat)
    ensures a < b <==> a / 10 < b / 10 || (a / 10 == b / 10 && a % 10 < b % 10)
  {
    assert a == 10 * (a / 10) + a % 10 && b == 10 * (b / 10) + b % 10;
  }

  /** One-character strings compare as their characters. */
  lemma SingleLess(c: char, e: char)
    ensures StrLess([c], [e]) <==> c < e
  {
    assert [c][1..] == [] && [e][1..] == [];
  }

  /** For padded numbers of one width, string order is numeric order. */
  lemma {:induction false} DigitsOrder(a: nat, b: nat, width: nat)
    requires a < Pow10(width) && b < Pow10(width)
    ensures StrLess(Digits(a, width), Digits(b, width)) <==> a < b
  {
    if width > 0 {
      var da, db := Digits(a / 10, width - 1), Digits(b / 10, width - 1);
      var ca, cb := (48 + a % 10) as char, (48 + b % 10) as char;
      StrLessConcat(da, db, [ca], [cb]);
      DigitsOrder(a / 10, b / 10, width - 1);
      DigitsEqual(a / 10, b / 10, width - 1);
      SingleLess(ca, cb);
      DecimalOrder(a, b);
    }
  }

  /** Equal widths, equal numbers: padded numbers are equal exactly when the numbers are. */
  lemma DigitsEqual(a: nat, b: nat, width: nat)
    requires a < Pow10(width) && b < Pow10(width)
    ensures Digits(a, width) == Digits(b, width) <==> a == b
  {
    ValueOfDigits(a, width);
    ValueOfDigits(b, width);
  }

  // ---------------------------------------------------------------------------
  // The full-date form

  /** `YYYY-MM-DD`. */
  function Format(d: Date): (s: string)
    requires ValidDate(d)
    ensures |s| == 10 && s[4] == '-' && s[7] == '-'
  {
    Digits(d.year, 4) + "-" + Digits(d.month, 2) + "-" + Digits(d.day, 2)
  }

  /**
   * The inverse of `Format`: reads a full-date `YYYY-MM-DD` string back, and
   * gives None for any other string or a day the calendar lacks.
   */
  function Parse(s: string): (r: Option<Date>)
    ensures r.Some? ==> ValidDate(r.value)
  {
    if |s| == 10 && s[4] == '-' && s[7] == '-'
       && AllDigits(s[..4]) && AllDigits(s[5..7]) && AllDigits(s[8..])
    then
      var d := Date(Value(s[..4]), Value(s[5..7]), Value(s[8..]));
      if ValidDate(d) then Some(d) else None
    else None
  }

  /** The three fields of a formatted date, read back by position. */
  lemma FormatFields(d: Date)
    requires ValidDate(d)
    ensures Format(d)[..4] == Digits(d.year, 4)
    ensures Format(d)[5..7] == Digits(d.month, 2)
    ensures Format(d)[8..] == Digits(d.day, 2)
  {
  }

  /** Parsing a formatted date gives the date back. */
  lemma ParseFormat(d: Date)
    requires ValidDate(d)
    ensures Parse(Format(d)) == Some(d)
  {
    FormatFields(d);
    ValueOfDigits(d.year, 4);
    ValueOfDigits(d.month, 2);
    ValueOfDigits(d.day, 2);
  }

  /** Every string that parses is the format of what it parses to. */
  lemma FormatParse(s: string)
    requires Parse(s).Some?
    ensures Format(Parse(s).value) == s
  {
    DigitsOfValue(s[..4]);
    DigitsOfValue(s[5..7]);
    DigitsOfValue(s[8..]);
    assert s == s[..4] + "-" + s[5..7] + "-" + s[8..];
  }

  /** Two dates format to the same string only when they are the same date. */
  lemma FormatInjective(d1: Date, d2: Date)
    requires ValidDate(d1) && ValidDate(d2)
    ensures Format(d1) == Format(d2) <==> d1 == d2
  {
    ParseFormat(d1);
    ParseFormat(d2);
  }

  /** Two fields of equal width, each followed by a dash and the rest, compare field first. */
  lemma FieldThenRest(a: string, b: string, s: string, t: string)
    requires |a| == |b|
    ensures StrLess(a + ("-" + s), b + ("-" + t)) <==> StrLess(a, b) || (a == b && StrLess(s, t))
  {
    StrLessConcat(a, b, "-" + s, "-" + t);
    assert ("-" + s)[1..] == s && ("-" + t)[1..] == t;
  }

  /**
   * The string order of formatted dates is the calendar order, so the SQL
   * filter `date >= ?` on stored strings selects the dates on or after the
   * given one.
   */
  lemma FormatOrder(d1: Date, d2: Date)
    requires ValidDate(d1) && ValidDate(d2)
    ensures StrLess(Format(d1), Format(d2)) <==> DateBefore(d1, d2)
  {
    var y1, y2 := Digits(d1.year, 4), Digits(d2.year, 4);
    var m1, m2 := Digits(d1.month, 2), Digits(d2.month, 2);
    var e1, e2 := Digits(d1.day, 2), Digits(d2.day, 2);
    assert Format(d1) == y1 + ("-" + (m1 + ("-" + e1)));
    assert Format(d2) == y2 + ("-" + (m2 + ("-" + e2)));
    FieldThenRest(y1, y2, m1 + ("-" + e1), m2 + ("-" + e2));
    FieldThenRest(m1, m2, e1, e2);
    DigitsOrder(d1.year, d2.year, 4);
    DigitsOrder(d1.month, d2.month, 2);
    DigitsOrder(d1.day, d2.day, 2);
    DigitsEqual(d1.year, d2.year, 4);
    DigitsEqual(d1.month, d2.month, 2);
  }
}
