/**
 * Timestamps and calendar dates. A row's time is written with
 * `strftime('%Y-%m-%d %H:%M:%S')`, so it is fixed-width and its text order is
 * the order of its six fields; the date filter compares only the date part.
 * The filter's date texts are read with `strptime(text, '%Y-%m-%d').date()`.
 */
module Dates {
  import opened Wrappers
  import opened Text

  datatype Date = Date(year: nat, month: nat, day: nat)

  datatype Timestamp = Timestamp(year: nat, month: nat, day: nat, hour: nat, minute: nat, second: nat)

  /** `datetime.date()`: the calendar date of a timestamp. */
  function DateOf(t: Timestamp): Date {
    Date(t.year, t.month, t.day)
  }

  /** Python's `date` comparison: year, then month, then day. */
  predicate DateLess(a: Date, b: Date) {
    a.year < b.year ||
    (a.year == b.year && (a.month < b.month || (a.month == b.month && a.day < b.day)))
  }

  predicate DateLeq(a: Date, b: Date) {
    DateLess(a, b) || a == b
  }

  /** Python's `datetime` comparison: the date first, then hour, minute and second. */
  predicate TimeLess(a: Timestamp, b: Timestamp) {
    DateLess(DateOf(a), DateOf(b)) ||
    (DateOf(a) == DateOf(b) &&
     (a.hour < b.hour ||
      (a.hour == b.hour && (a.minute < b.minute || (a.minute == b.minute && a.second < b.second)))))
  }

  predicate TimeLeq(a: Timestamp, b: Timestamp) {
    TimeLess(a, b) || a == b
  }

  /** `TimeLeq` is a total order. */
  lemma TimeLeqTotalOrder(a: Timestamp, b: Timestamp, c: Timestamp)
    ensures TimeLeq(a, a)
    ensures TimeLeq(a, b) || TimeLeq(b, a)
    ensures TimeLeq(a, b) && TimeLeq(b, a) ==> a == b
    ensures TimeLeq(a, b) && TimeLeq(b, c) ==> TimeLeq(a, c)
    ensures TimeLess(a, b) <==> !TimeLeq(b, a)
  {
  }

  /** An earlier-or-equal timestamp has an earlier-or-equal date. */
  lemma TimeLeqDate(a: Timestamp, b: Timestamp)
    requires TimeLeq(a, b)
    ensures DateLeq(DateOf(a), DateOf(b))
  {
  }

  /** `DateLeq` is a total order. */
  lemma DateLeqTotalOrder(a: Date, b: Date, c: Date)
    ensures DateLeq(a, b) || DateLeq(b, a)
    ensures DateLeq(a, b) && DateLeq(b, a) ==> a == b
    ensures DateLeq(a, b) && DateLeq(b, c) ==> DateLeq(a, c)
  {
  }

  /** The Gregorian leap-year rule used by Python's `datetime`. */
  predicate IsLeapYear(y: nat) {
    y % 4 == 0 && (y % 100 != 0 || y % 400 == 0)
  }

  function DaysInMonth(y: nat, m: nat): (n: nat)
    requires 1 <= m <= 12
    ensures 28 <= n <= 31
  {
    if m == 2 then (if IsLeapYear(y) then 29 else 28)
    else if m == 4 || m == 6 || m == 9 || m == 11 then 30
    else 31
  }

  /** A date Python's `date` type can hold (years 1 to 9999, real calendar days). */
  predicate ValidDate(d: Date) {
    1 <= d.year <= 9999 && 1 <= d.month <= 12 && 1 <= d.day <= DaysInMonth(d.year, d.month)
  }

  /** `%m`: one or two digits naming a month from 1 to 12 (`1`, `01`, `12`). */
  function MonthValue(t: string): (r: Option<nat>)
    ensures r.Some? ==> 1 <= r.value <= 12
  {
    if 1 <= |t| <= 2 && AllDigits(t) && 1 <= DigitsValue(t) <= 12 then Some(DigitsValue(t)) else None
  }

  /** `%d`: one or two digits naming a day from 1 to 31, or a space and one digit from 1 to 9. */
  function DayValue(t: string): (r: Option<nat>)
    ensures r.Some? ==> 1 <= r.value <= 31
  {
    if 1 <= |t| <= 2 && AllDigits(t) && 1 <= DigitsValue(t) <= 31 then Some(DigitsValue(t))
    else if |t| == 2 && t[0] == ' ' && '1' <= t[1] <= '9' then Some(DigitValue(t[1]))
    else None
  }

  /**
   * `strptime(s, '%Y-%m-%d').date()`: four digits of year, a dash, the month,
   * a dash and the day, with nothing before or after; the date must exist in
   * the calendar. `None` where Python raises `ValueError`.
   */
  function ParseDate(s: string): (r: Option<Date>)
    ensures r.Some? ==> ValidDate(r.value)
  {
    if |s| < 5 || !AllDigits(s[..4]) || s[4] != '-' then None
    else
      var rest := s[5..];
      var j := IndexOf(rest, '-');
      if j == |rest| then None
      else
        DigitsValueBound(s[..4]);
        var y := DigitsValue(s[..4]);
        match (MonthValue(rest[..j]), DayValue(rest[j + 1..]))
        case (Some(m), Some(d)) =>
          if 1 <= y && d <= DaysInMonth(y, m) then Some(Date(y, m, d)) else None
        case _ => None
  }

  /** The canonical text `YYYY-MM-DD` of a date, zero-padded. */
  function FormatDate(d: Date): string {
    ZeroPadded(d.year, 4) + "-" + ZeroPadded(d.month, 2) + "-" + ZeroPadded(d.day, 2)
  }

  lemma ZeroPaddedWidth(n: nat, width: nat)
    requires 1 <= width && n < Pow10(width)
    ensures |ZeroPadded(n, width)| == width
  {
    NatTextLength(n, width);
  }

  /** Every valid date, written as `YYYY-MM-DD`, reads back as itself. */
  lemma ParseFormatRoundTrip(d: Date)
    requires ValidDate(d)
    ensures ParseDate(FormatDate(d)) == Some(d)
  {
    var y, m, dd := ZeroPadded(d.year, 4), ZeroPadded(d.month, 2), ZeroPadded(d.day, 2);
    FormattedFields(d);
    var s := FormatDate(d);
    DateTextLayout(y, m, dd);
    var rest := s[5..];
    assert MonthValue(rest[..2]) == Some(d.month);
    assert DayValue(rest[3..]) == Some(d.day);
  }

  /** The three fields of the canonical text have their widths and read back as the date's numbers. */
  lemma FormattedFields(d: Date)
    requires ValidDate(d)
    ensures |ZeroPadded(d.year, 4)| == 4 && DigitsValue(ZeroPadded(d.year, 4)) == d.year
    ensures |ZeroPadded(d.month, 2)| == 2 && DigitsValue(ZeroPadded(d.month, 2)) == d.month
    ensures |ZeroPadded(d.day, 2)| == 2 && DigitsValue(ZeroPadded(d.day, 2)) == d.day
  {
    assert Pow10(2) == 100 && Pow10(4) == 10000;
    ZeroPaddedWidth(d.year, 4);
    ZeroPaddedWidth(d.month, 2);
    ZeroPaddedWidth(d.day, 2);
    ZeroPaddedRoundTrip(d.year, 4);
    ZeroPaddedRoundTrip(d.month, 2);
    ZeroPaddedRoundTrip(d.day, 2);
  }

  /** Where the parser finds the fields of `y-m-d` when the year has four digits and the month two. */
  lemma DateTextLayout(y: string, m: string, dd: string)
    requires |y| == 4 && |m| == 2 && AllDigits(m)
    ensures var s := y + "-" + m + "-" + dd;
      |s| >= 5 && s[..4] == y && s[4] == '-' &&
      IndexOf(s[5..], '-') == 2 && s[5..][..2] == m && s[5..][3..] == dd
  {
    var s := y + "-" + m + "-" + dd;
    var rest := s[5..];
    assert rest == m + "-" + dd;
    assert rest[0] == m[0] && rest[1] == m[1] && rest[2] == '-';
    assert s[..4] == y;
    assert rest[..2] == m;
    assert rest[3..] == dd;
  }
}
