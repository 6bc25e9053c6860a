/** Calendar dates as the release-date filter sees them. date-fns is
    represented by what the pipeline needs of it: parsing `yyyy-MM-dd`
    text into a valid calendar date, and comparing two dates. A date is
    represented by its day number in the proleptic Gregorian calendar
    (day 0 is 0001-01-01), so comparing dates is comparing integers. */
module Dates {
  import opened Wrappers
  import opened Numbers

  datatype CalendarDate = CalendarDate(year: int, month: int, day: int)

  predicate IsLeapYear(y: int) {
    y % 4 == 0 && (y % 100 != 0 || y % 400 == 0)
  }

  function YearDays(y: int): int {
    if IsLeapYear(y) then 366 else 365
  }

  function DaysInMonth(y: int, m: int): (r: int)
    requires 1 <= m <= 12
    ensures 28 <= r <= 31
  {
    if m == 2 then (if IsLeapYear(y) then 29 else 28)
    else if m == 4 || m == 6 || m == 9 || m == 11 then 30
    else 31
  }

  /** The month-length table and the table of days before each month
      agree: each month ends where the next one starts, and December ends
      where the year does. */
  lemma MonthTablesAgree(y: int, m: int)
    requires 1 <= m <= 12
    ensures DaysBeforeMonth(y, m) + DaysInMonth(y, m)
            == if m < 12 then DaysBeforeMonth(y, m + 1) else YearDays(y)
  {
  }

  /** What date-fns' `isValid` accepts of a parsed date: a real month and
      a day that month has. */
  predicate IsValidDate(c: CalendarDate) {
    1 <= c.month <= 12 && 1 <= c.day <= DaysInMonth(c.year, c.month)
  }

  /** Days from 0001-01-01 to January 1st of year y. */
  function DaysBeforeYear(y: int): int {
    365 * (y - 1) + (y - 1) / 4 - (y - 1) / 100 + (y - 1) / 400
  }

  /** Days from January 1st to the first of month m. */
  function DaysBeforeMonth(y: int, m: int): int
    requires 1 <= m <= 12
  {
    (if m == 1 then 0 else if m == 2 then 31 else if m == 3 then 59
     else if m == 4 then 90 else if m == 5 then 120 else if m == 6 then 151
     else if m == 7 then 181 else if m == 8 then 212 else if m == 9 then 243
     else if m == 10 then 273 else if m == 11 then 304 else 334)
    + (if m > 2 && IsLeapYear(y) then 1 else 0)
  }

  function DayNumber(c: CalendarDate): int
    requires IsValidDate(c)
  {
    DaysBeforeYear(c.year) + DaysBeforeMonth(c.year, c.month) + c.day - 1
  }

  /** Calendar order: a falls strictly before b. */
  predicate Before(a: CalendarDate, b: CalendarDate) {
    a.year < b.year
    || (a.year == b.year && a.month < b.month)
    || (a.year == b.year && a.month == b.month && a.day < b.day)
  }

  /** A `yyyy-MM-dd` string: four, two and two decimal digits separated by
      hyphens. */
  predicate IsYmdText(s: string) {
    |s| == 10 && s[4] == '-' && s[7] == '-'
    && AllDigits(s[..4]) && AllDigits(s[5..7]) && AllDigits(s[8..])
  }

  /** `parse(s, "yyyy-MM-dd", ...)` followed by `isValid`: the calendar
      date the text names, or None when the text does not have the format,
      names no real date (2023-02-30, 2023-13-01) or has year 0000, which
      the year pattern of date-fns rejects. */
  function ParseYmd(s: string): (r: Option<CalendarDate>)
    ensures r.Some? ==> IsValidDate(r.value) && r.value.year >= 1
    ensures r.Some? ==> IsYmdText(s)
  {
    if !IsYmdText(s) then None
    else
      var c := CalendarDate(DigitsValue(s[..4]), DigitsValue(s[5..7]), DigitsValue(s[8..]));
      if IsValidDate(c) && c.year >= 1 then Some(c) else None
  }

  /** The day number of a release-date string, when it parses. */
  function ParseDate(s: string): Option<int> {
    match ParseYmd(s)
    case None => None
    case Some(c) => Some(DayNumber(c))
  }

  function Pad2(n: nat): (r: string)
    requires n < 100
    ensures |r| == 2 && AllDigits(r)
  {
    [DigitChar(n / 10), DigitChar(n % 10)]
  }

  /** Writes a date with a four-digit year as `yyyy-MM-dd`. */
  function FormatYmd(c: CalendarDate): (r: string)
    requires IsValidDate(c) && 0 <= c.year <= 9999
    ensures IsYmdText(r)
  {
    var y := c.year;
    var r := [DigitChar(y / 1000), DigitChar(y / 100 % 10), DigitChar(y / 10 % 10), DigitChar(y % 10)]
             + "-" + Pad2(c.month) + "-" + Pad2(c.day);
    assert r[5..7] == Pad2(c.month);
    assert r[8..] == Pad2(c.day);
    r
  }

  lemma Pad2Value(n: nat)
    requires n < 100
    ensures DigitsValue(Pad2(n)) == n
  {
    var r := Pad2(n);
    assert r[..1] == [DigitChar(n / 10)];
    assert r[..1][..0] == [];
    assert DigitsValue(r[..1]) == n / 10;
    assert DigitsValue(r) == n / 10 * 10 + n % 10;
  }

  lemma FourDigitsValue(y: int)
    requires 0 <= y <= 9999
    ensures DigitsValue([DigitChar(y / 1000), DigitChar(y / 100 % 10), DigitChar(y / 10 % 10), DigitChar(y % 10)]) == y
  {
    var r := [DigitChar(y / 1000), DigitChar(y / 100 % 10), DigitChar(y / 10 % 10), DigitChar(y % 10)];
    assert r[..3] == [DigitChar(y / 1000), DigitChar(y / 100 % 10), DigitChar(y / 10 % 10)];
    assert r[..3][..2] == [DigitChar(y / 1000), DigitChar(y / 100 % 10)];
    assert r[..3][..2][..1] == [DigitChar(y / 1000)];
    assert r[..3][..2][..1][..0] == [];
    var a, b, c, d := y / 1000, y / 100 % 10, y / 10 % 10, y % 10;
    assert DigitsValue(r[..3][..2][..1]) == a;
    assert DigitsValue(r[..3][..2]) == a * 10 + b;
    assert DigitsValue(r[..3]) == (a * 10 + b) * 10 + c;
    assert DigitsValue(r) == ((a * 10 + b) * 10 + c) * 10 + d;
    ThousandsSplit(y);
  }

  /** Splitting off the last decimal digit, three times over. */
  lemma ThousandsSplit(y: int)
    requires 0 <= y
    ensures y / 1000 * 10 + y / 100 % 10 == y / 100
    ensures y / 100 * 10 + y / 10 % 10 == y / 10
    ensures y / 10 * 10 + y % 10 == y
  {
    assert y / 1000 == y / 100 / 10;
    assert y / 100 == y / 10 / 10;
  }

  /** Parsing reads back every date it formats. */
  lemma ParseFormat(c: CalendarDate)
    requires IsValidDate(c) && 1 <= c.year <= 9999
    ensures ParseYmd(FormatYmd(c)) == Some(c)
  {
    var y := c.year;
    var r := FormatYmd(c);
    var yy := [DigitChar(y / 1000), DigitChar(y / 100 % 10), DigitChar(y / 10 % 10), DigitChar(y % 10)];
    assert r[..4] == yy;
    assert r[5..7] == Pad2(c.month);
    assert r[8..] == Pad2(c.day);
    FourDigitsValue(y);
    Pad2Value(c.month);
    Pad2Value(c.day);
  }

  /** The value of four and of two decimal digits. */
  function D4(a: char, b: char, c: char, d: char): nat
    requires IsDigit(a) && IsDigit(b) && IsDigit(c) && IsDigit(d)
  { ((DigitValue(a) * 10 + DigitValue(b)) * 10 + DigitValue(c)) * 10 + DigitValue(d) }
  function D2(a: char, b: char): nat
    requires IsDigit(a) && IsDigit(b)
  { DigitValue(a) * 10 + DigitValue(b) }

  /** Parsing a text made of eight digits and two hyphens reads off the
      year, the month and the day, and accepts them iff they name a real
      day of a year from 1 on. */
  lemma ParseYmdOfDigits(y0: char, y1: char, y2: char, y3: char, m0: char, m1: char, d0: char, d1: char)
    requires IsDigit(y0) && IsDigit(y1) && IsDigit(y2) && IsDigit(y3)
    requires IsDigit(m0) && IsDigit(m1) && IsDigit(d0) && IsDigit(d1)
    ensures var c := CalendarDate(D4(y0, y1, y2, y3), D2(m0, m1), D2(d0, d1));
      ParseYmd([y0, y1, y2, y3, '-', m0, m1, '-', d0, d1]) == if IsValidDate(c) && c.year >= 1 then Some(c) else None
  {
    var s := [y0, y1, y2, y3, '-', m0, m1, '-', d0, d1];
    assert s[..4] == [y0, y1, y2, y3];
    assert s[5..7] == [m0, m1];
    assert s[8..] == [d0, d1];
    assert [y0, y1, y2, y3][..3] == [y0, y1, y2];
    assert [y0, y1, y2][..2] == [y0, y1];
    assert [y0, y1][..1] == [y0];
    assert [y0][..0] == [];
    assert [m0, m1][..1] == [m0];
    assert [d0, d1][..1] == [d0];
    assert DigitsValue([y0]) == DigitValue(y0);
    assert DigitsValue([y0, y1]) == DigitValue(y0) * 10 + DigitValue(y1);
    assert DigitsValue([y0, y1, y2]) == (DigitValue(y0) * 10 + DigitValue(y1)) * 10 + DigitValue(y2);
    assert DigitsValue(s[..4]) == D4(y0, y1, y2, y3);
    assert DigitsValue([m0]) == DigitValue(m0);
    assert DigitsValue(s[5..7]) == D2(m0, m1);
    assert DigitsValue([d0]) == DigitValue(d0);
    assert DigitsValue(s[8..]) == D2(d0, d1);
    assert IsYmdText(s);
  }
  lemma YearLength(y: int)
    ensures DaysBeforeYear(y + 1) == DaysBeforeYear(y) + YearDays(y)
  {
    var q4, r4 := (y - 1) / 4, (y - 1) % 4;
    var q100, r100 := (y - 1) / 100, (y - 1) % 100;
    var q400, r400 := (y - 1) / 400, (y - 1) % 400;
    assert y / 4 == if r4 == 3 then q4 + 1 else q4;
    assert y / 100 == if r100 == 99 then q100 + 1 else q100;
    assert y / 400 == if r400 == 399 then q400 + 1 else q400;
    assert y % 4 == 0 <==> r4 == 3;
    assert y % 100 == 0 <==> r100 == 99;
    assert y % 400 == 0 <==> r400 == 399;
  }

  lemma {:induction false} DaysBeforeYearGrows(y1: int, y2: int)
    requires y1 < y2
    ensures DaysBeforeYear(y1) + YearDays(y1) <= DaysBeforeYear(y2)
    decreases y2 - y1
  {
    YearLength(y1);
    if y1 + 1 < y2 {
      DaysBeforeYearGrows(y1 + 1, y2);
    }
  }

  /** A valid date's offset within its year lies inside that year. */
  lemma DayOfYearInRange(c: CalendarDate)
    requires IsValidDate(c)
    ensures 0 <= DaysBeforeMonth(c.year, c.month) + c.day - 1 < YearDays(c.year)
  {
  }

  lemma MonthsGrow(y: int, m1: int, m2: int)
    requires 1 <= m1 < m2 <= 12
    ensures DaysBeforeMonth(y, m1) + DaysInMonth(y, m1) <= DaysBeforeMonth(y, m2)
  {
  }

  /** Later in the calendar means a larger day number. */
  lemma DayNumberMonotone(a: CalendarDate, b: CalendarDate)
    requires IsValidDate(a) && IsValidDate(b) && Before(a, b)
    ensures DayNumber(a) < DayNumber(b)
  {
    if a.year < b.year {
      DayOfYearInRange(a);
      DaysBeforeYearGrows(a.year, b.year);
    } else if a.month < b.month {
      MonthsGrow(a.year, a.month, b.month);
    }
  }

  /** Comparing day numbers is comparing dates in calendar order, and
      distinct valid dates have distinct day numbers. */
  lemma DayNumberOrder(a: CalendarDate, b: CalendarDate)
    requires IsValidDate(a) && IsValidDate(b)
    ensures DayNumber(a) < DayNumber(b) <==> Before(a, b)
    ensures DayNumber(a) == DayNumber(b) <==> a == b
  {
    if Before(a, b) {
      DayNumberMonotone(a, b);
    } else if Before(b, a) {
      DayNumberMonotone(b, a);
    }
  }

  /** Year 0000 is refused even though 0000-01-01 is well formed. */
  lemma YearZeroRejected()
    ensures ParseYmd("0000-01-01") == None
  {
    ParseYmdOfDigits('0', '0', '0', '0', '0', '1', '0', '1');
  }
}
