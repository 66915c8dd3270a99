/** Calendar dates at day granularity, as the program handles `time.Time`
    values parsed with the layout "2006-01-02" (`common.TIME_PTN`): midnight UTC
    of a proleptic Gregorian day. Arithmetic follows Go's `time.Date`
    normalisation, which `AddDate` relies on: a day-of-month past the end of
    its month spills into the following months. */
module CivilDate {
  import opened Wrappers
  import opened Decimal

  datatype Date = Date(year: nat, month: nat, day: nat)

  predicate IsLeap(y: nat) {
    y % 4 == 0 && (y % 100 != 0 || y % 400 == 0)
  }

  function DaysInMonth(y: nat, m: nat): (n: nat)
    requires 1 <= m <= 12
    ensures 28 <= n <= 31
  {
    if m == 2 then (if IsLeap(y) then 29 else 28)
    else if m == 4 || m == 6 || m == 9 || m == 11 then 30
    else 31
  }

  predicate Valid(d: Date) {
    1 <= d.month <= 12 && 1 <= d.day <= DaysInMonth(d.year, d.month)
  }

  function DaysInYear(y: nat): nat {
    if IsLeap(y) then 366 else 365
  }

  /** Days from 0000-01-01 to the first day of year `y`. */
  function DaysBeforeYear(y: nat): nat {
    if y == 0 then 0 else DaysBeforeYear(y - 1) + DaysInYear(y - 1)
  }

  /** Days from the first of January of year `y` to the first of month `m`. */
  function DaysBeforeMonth(y: nat, m: nat): (n: nat)
    requires 1 <= m <= 12
    ensures n + DaysInMonth(y, m) <= DaysInYear(y)
  {
    var leap := if m > 2 && IsLeap(y) then 1 else 0;
    [0, 31, 59, 90, 120, 151, 181, 212, 243, 273, 304, 334][m - 1] + leap
  }

  /** The absolute position of a day on the time line (0000-01-01 is day 0);
      Go's `Before`/`After` on midnight instants compare exactly this. */
  function DayNumber(d: Date): nat
    requires Valid(d)
  {
    DaysBeforeYear(d.year) + DaysBeforeMonth(d.year, d.month) + d.day - 1
  }

  /** `t.After(u)` for two midnight instants: `a` lies later on the time line.
      This agrees with comparing (year, month, day) lexicographically. */
  predicate After(a: Date, b: Date)
    requires Valid(a) && Valid(b)
    ensures After(a, b) <==>
      (a.year > b.year
       || (a.year == b.year && a.month > b.month)
       || (a.year == b.year && a.month == b.month && a.day > b.day))
  {
    DayNumberOrder(a, b);
    DayNumber(a) > DayNumber(b)
  }

  function NextMonth(y: nat, m: nat): (nm: (nat, nat))
    requires 1 <= m <= 12
    ensures 1 <= nm.1 <= 12
  {
    if m == 12 then (y + 1, 1) else (y, m + 1)
  }

  /** The first day of the month after (y, m) lies a whole month-length after
      the first day of (y, m). */
  lemma FirstOfNextMonth(y: nat, m: nat)
    requires 1 <= m <= 12
    ensures DayNumber(Date(NextMonth(y, m).0, NextMonth(y, m).1, 1))
            == DayNumber(Date(y, m, 1)) + DaysInMonth(y, m)
  {
  }

  /** `time.Date(y, m, day, ...)` for a day-of-month that may overrun month m:
      the excess days carry into the following months. The result is the day
      `day - 1` days after the first of (y, m). */
  function Normalize(y: nat, m: nat, day: nat): (d: Date)
    requires 1 <= m <= 12 && 1 <= day
    ensures Valid(d)
    ensures DayNumber(d) == DayNumber(Date(y, m, 1)) + day - 1
    decreases day
  {
    if day <= DaysInMonth(y, m) then Date(y, m, day)
    else
      FirstOfNextMonth(y, m);
      Normalize(NextMonth(y, m).0, NextMonth(y, m).1, day - DaysInMonth(y, m))
  }

  /** `t.AddDate(0, 0, 1)`: the following calendar day. */
  function NextDay(d: Date): (r: Date)
    requires Valid(d)
    ensures Valid(r) && DayNumber(r) == DayNumber(d) + 1
  {
    Normalize(d.year, d.month, d.day + 1)
  }

  /** `t.AddDate(0, 1, 0)`: same day-of-month in the next month, overflowing
      into the month after when that month is shorter (January 31 becomes
      March 3, or March 2 in a leap year). */
  function AddMonth(d: Date): (r: Date)
    requires Valid(d)
    ensures Valid(r)
    ensures DayNumber(r) == DayNumber(d) + DaysInMonth(d.year, d.month)
    ensures After(r, d)
    ensures var (ny, nm) := NextMonth(d.year, d.month);
            d.day <= DaysInMonth(ny, nm) ==> r == Date(ny, nm, d.day)
  {
    FirstOfNextMonth(d.year, d.month);
    Normalize(NextMonth(d.year, d.month).0, NextMonth(d.year, d.month).1, d.day)
  }

  /** January 31 plus one month overflows February: March 3 in a common
      year. */
  lemma AddMonthOverflowsFebruary()
    ensures AddMonth(Date(2023, 1, 31)) == Date(2023, 3, 3)
  {
  }

  /** ... and March 2 in a leap year. */
  lemma AddMonthOverflowsLeapFebruary()
    ensures AddMonth(Date(2024, 1, 31)) == Date(2024, 3, 2)
  {
  }

  /** March 31 plus one month overflows April's 30 days into May 1; a
      December date rolls into January of the next year. */
  lemma AddMonthOverflowsApril()
    ensures AddMonth(Date(2023, 3, 31)) == Date(2023, 5, 1)
    ensures AddMonth(Date(2022, 12, 15)) == Date(2023, 1, 15)
  {
  }

  lemma {:induction false} DaysBeforeYearMonotone(a: nat, b: nat)
    requires a < b
    ensures DaysBeforeYear(a) + DaysInYear(a) <= DaysBeforeYear(b)
    decreases b
  {
    if a + 1 < b {
      DaysBeforeYearMonotone(a, b - 1);
    }
  }

  /** Day numbers order dates as (year, month, day) does. */
  lemma DayNumberOrder(a: Date, b: Date)
    requires Valid(a) && Valid(b)
    ensures DayNumber(a) > DayNumber(b) <==>
      (a.year > b.year
       || (a.year == b.year && a.month > b.month)
       || (a.year == b.year && a.month == b.month && a.day > b.day))
  {
    if a.year < b.year {
      DaysBeforeYearMonotone(a.year, b.year);
    } else if a.year > b.year {
      DaysBeforeYearMonotone(b.year, a.year);
    } else if a.month < b.month {
      DaysBeforeMonthMonotone(a.year, a.month, b.month);
    } else if a.month > b.month {
      DaysBeforeMonthMonotone(a.year, b.month, a.month);
    }
  }

  lemma {:induction false} DaysBeforeMonthMonotone(y: nat, m1: nat, m2: nat)
    requires 1 <= m1 < m2 <= 12
    ensures DaysBeforeMonth(y, m1) + DaysInMonth(y, m1) <= DaysBeforeMonth(y, m2)
    decreases m2
  {
  }

  /** `t.Format("2006-01-02")`. */
  function Format(d: Date): string
    requires Valid(d)
  {
    Padded(d.year, 4) + "-" + Fixed(d.month, 2) + "-" + Fixed(d.day, 2)
  }

  /** For a four-digit year the formatted text has the layout's shape, and its
      three fields read back as the year, month and day. */
  lemma FormatFields(d: Date)
    requires Valid(d)
    ensures var s := Format(d);
      d.year < 10000 ==>
        && Shaped(s)
        && ValueOf(s[0..4]) == d.year && ValueOf(s[5..7]) == d.month && ValueOf(s[8..10]) == d.day
  {
    if d.year < 10000 {
      var s := Format(d);
      assert s[0..4] == Fixed(d.year, 4);
      assert s[5..7] == Fixed(d.month, 2);
      assert s[8..10] == Fixed(d.day, 2);
      ValueOfFixed(d.year, 4);
      ValueOfFixed(d.month, 2);
      ValueOfFixed(d.day, 2);
    }
  }

  /** The shape the layout "2006-01-02" demands: four digits, a dash, two
      digits, a dash, two digits, and nothing more. */
  predicate Shaped(s: string) {
    |s| == 10 && AllDigits(s[0..4]) && s[4] == '-' && AllDigits(s[5..7])
    && s[7] == '-' && AllDigits(s[8..10])
  }

  /** `time.Parse("2006-01-02", s)`: the string must have the layout's shape,
      the month must lie in 1..12 and the day inside that month. Any failure
      is `None`. */
  function Parse(s: string): (r: Option<Date>)
    ensures r.Some? ==> Valid(r.value) && r.value.year < 10000
    ensures !Shaped(s) ==> r == None
    ensures r.Some? ==> r.value == Date(ValueOf(s[0..4]), ValueOf(s[5..7]), ValueOf(s[8..10]))
    ensures Shaped(s) && Valid(Date(ValueOf(s[0..4]), ValueOf(s[5..7]), ValueOf(s[8..10]))) ==> r.Some?
  {
    if Shaped(s) then
      var y := ValueOf(s[0..4]);
      var m := ValueOf(s[5..7]);
      var d := ValueOf(s[8..10]);
      if 1 <= m <= 12 && 1 <= d <= DaysInMonth(y, m) then Some(Date(y, m, d)) else None
    else None
  }

  /** Formatting then parsing returns the date (for the four-digit years the
      layout can read). */
  lemma ParseFormat(d: Date)
    requires Valid(d) && d.year < 10000
    ensures Parse(Format(d)) == Some(d)
  {
    FormatFields(d);
  }

  /** A string that parses is exactly the formatting of what it parses to. */
  lemma FormatParse(s: string)
    requires Parse(s).Some?
    ensures Format(Parse(s).value) == s
  {
    assert Shaped(s);
    var ys, ms, ds := s[0..4], s[5..7], s[8..10];
    FormatOfFields(ys, ms, ds);
    Fields(s);
  }

  /** A shaped text is its three fields joined by dashes. */
  lemma Fields(s: string)
    requires |s| == 10 && s[4] == '-' && s[7] == '-'
    ensures s == s[0..4] + "-" + s[5..7] + "-" + s[8..10]
  {
    assert s == s[0..4] + [s[4]] + s[5..7] + [s[7]] + s[8..10];
  }

  lemma FormatOfFields(ys: string, ms: string, ds: string)
    requires |ys| == 4 && |ms| == 2 && |ds| == 2
    requires AllDigits(ys) && AllDigits(ms) && AllDigits(ds)
    requires Valid(Date(ValueOf(ys), ValueOf(ms), ValueOf(ds)))
    ensures Format(Date(ValueOf(ys), ValueOf(ms), ValueOf(ds))) == ys + "-" + ms + "-" + ds
  {
    FixedOfValue(ys);
    FixedOfValue(ms);
    FixedOfValue(ds);
  }

  /** Distinct dates with four-digit years have distinct formatted keys. */
  lemma FormatInjective(a: Date, b: Date)
    requires Valid(a) && Valid(b) && a.year < 10000 && b.year < 10000
    ensures Format(a) == Format(b) <==> a == b
  {
    ParseFormat(a);
    ParseFormat(b);
  }

  /** The zero `time.Time` (January 1, year 1), which `time.Parse` returns
      alongside an error. */
  const ZeroTime: Date := Date(1, 1, 1)

  /** `Format` on two sample days gives the "YYYY-MM-DD" text. */
  lemma AprilKeys()
    ensures Format(Date(2022, 4, 12)) == "2022-04-12"
    ensures Format(Date(2022, 4, 13)) == "2022-04-13"
  {
    YearDigits();
    MonthDayDigits();
    assert Padded(2022, 4) == "2022";
  }

  lemma YearDigits()
    ensures Fixed(2022, 4) == "2022"
  {
    TwoDigits(2, 0);
    assert Pow10(4) == 10000 && Pow10(3) == 1000;
    assert 2022 / 10 == 202 && 2022 % 10 == 2 && 202 / 10 == 20 && 202 % 10 == 2;
    assert Fixed(202, 3) == Fixed(20, 2) + [DigitChar(2)];
  }

  lemma MonthDayDigits()
    ensures Fixed(4, 2) == "04" && Fixed(12, 2) == "12" && Fixed(13, 2) == "13"
  {
    TwoDigits(0, 4);
    TwoDigits(1, 2);
    TwoDigits(1, 3);
  }

  /** Two decimal digits `a` and `b` print as the number 10a + b. */
  lemma TwoDigits(a: nat, b: nat)
    requires a < 10 && b < 10
    ensures Fixed(10 * a + b, 2) == [DigitChar(a), DigitChar(b)]
  {
    assert Pow10(2) == 100 && Pow10(1) == 10;
    assert (10 * a + b) / 10 == a && (10 * a + b) % 10 == b;
    assert a / 10 == 0 && a % 10 == a;
    assert Fixed(a, 1) == Fixed(0, 0) + [DigitChar(a)];
  }
}
