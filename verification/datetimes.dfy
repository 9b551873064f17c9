/**
 Naive Python `datetime` values, their ordering and their calendar date.

 A datetime is the tuple (year, month, day, hour, minute, second, microsecond)
 restricted to the values Python's `datetime` constructor admits; two datetimes
 compare lexicographically on that tuple.
 */
module DateTimes {

  /** The calendar date of a datetime, as returned by `datetime.date()`. */
  datatype Date = Date(year: int, month: int, day: int)

  /** The seven fields of a naive datetime, in comparison order. */
  datatype Fields = Fields(year: int, month: int, day: int,
                           hour: int, minute: int, second: int, micro: int)

  /** Leap years of the proleptic Gregorian calendar. */
  predicate IsLeapYear(y: int) {
    y % 4 == 0 && (y % 100 != 0 || y % 400 == 0)
  }

  function DaysInMonth(y: int, m: int): (n: int)
    requires 1 <= m <= 12
    ensures 28 <= n <= 31
    ensures n == 29 <==> m == 2 && IsLeapYear(y)
  {
    if m == 2 then (if IsLeapYear(y) then 29 else 28)
    else if m == 4 || m == 6 || m == 9 || m == 11 then 30
    else 31
  }

  /** The field ranges the `datetime` constructor accepts (it raises otherwise). */
  predicate Valid(f: Fields) {
    && 1 <= f.year <= 9999
    && 1 <= f.month <= 12
    && 1 <= f.day <= DaysInMonth(f.year, f.month)
    && 0 <= f.hour < 24
    && 0 <= f.minute < 60
    && 0 <= f.second < 60
    && 0 <= f.micro < 1000000
  }

  type DateTime = f: Fields | Valid(f) witness Fields(1, 1, 1, 0, 0, 0, 0)

  /** `a < b` on datetimes: lexicographic on the seven fields. */
  predicate Less(a: Fields, b: Fields) {
    if a.year != b.year then a.year < b.year
    else if a.month != b.month then a.month < b.month
    else if a.day != b.day then a.day < b.day
    else if a.hour != b.hour then a.hour < b.hour
    else if a.minute != b.minute then a.minute < b.minute
    else if a.second != b.second then a.second < b.second
    else a.micro < b.micro
  }

  lemma LessIsStrictTotalOrder(a: Fields, b: Fields, c: Fields)
    ensures !Less(a, a)
    ensures Less(a, b) ==> !Less(b, a)
    ensures Less(a, b) && Less(b, c) ==> Less(a, c)
    ensures a != b ==> Less(a, b) || Less(b, a)
  {
  }

  /** `min_date <= d < max_date`: the half-open window test. */
  predicate InRange(d: Fields, lo: Fields, hi: Fields) {
    !Less(d, lo) && Less(d, hi)
  }

  function DateOf(d: DateTime): Date {
    Date(d.year, d.month, d.day)
  }

  /** Midnight on the first of January of `year`: `datetime(year, 1, 1)`. */
  function NewYear(year: int): (d: DateTime)
    requires 1 <= year <= 9999
    ensures d.year == year && d.month == 1 && d.day == 1
    ensures d.hour == 0 && d.minute == 0 && d.second == 0 && d.micro == 0
  {
    Fields(year, 1, 1, 0, 0, 0, 0)
  }

  /** New Year's midnight comes after every datetime of earlier years and no later than any of its own year. */
  lemma NewYearStartsTheYear(year: int, d: DateTime)
    requires 1 <= year <= 9999
    ensures d.year < year <==> Less(d, NewYear(year))
    ensures d.year == year ==> (d == NewYear(year) || Less(NewYear(year), d))
  {
    if d.year == year && d != NewYear(year) {
      assert d.month >= 1 && d.day >= 1;
      assert d.hour >= 0 && d.minute >= 0 && d.second >= 0 && d.micro >= 0;
    }
  }

  /** Python's `min` over a non-empty sequence of datetimes. */
  function MinDate(ds: seq<DateTime>): DateTime
    requires |ds| > 0
  {
    if |ds| == 1 then ds[0]
    else
      var rest := MinDate(ds[1..]);
      if Less(ds[0], rest) then ds[0] else rest
  }

  /** The minimum is one of the elements, and no element lies below it. */
  lemma {:induction false} MinDateIsLeast(ds: seq<DateTime>)
    requires |ds| > 0
    ensures MinDate(ds) in ds
    ensures forall i :: 0 <= i < |ds| ==> !Less(ds[i], MinDate(ds))
  {
    if |ds| > 1 {
      var rest := MinDate(ds[1..]);
      MinDateIsLeast(ds[1..]);
      forall i | 0 <= i < |ds|
        ensures !Less(ds[i], MinDate(ds))
      {
        if i > 0 {
          assert ds[i] == ds[1..][i - 1];
          LessIsStrictTotalOrder(ds[i], rest, ds[0]);
        }
        LessIsStrictTotalOrder(ds[0], rest, ds[i]);
      }
    }
  }

  /** The minimum undercuts a bound exactly when some element does. */
  lemma MinBelowIff(ds: seq<DateTime>, bound: DateTime)
    requires |ds| > 0
    ensures Less(MinDate(ds), bound) <==> exists i :: 0 <= i < |ds| && Less(ds[i], bound)
  {
    var m := MinDate(ds);
    MinDateIsLeast(ds);
    if i :| 0 <= i < |ds| && Less(ds[i], bound) {
      LessIsStrictTotalOrder(m, ds[i], bound);
      if m != ds[i] {
        LessIsStrictTotalOrder(ds[i], m, bound);
      }
    }
  }
}
