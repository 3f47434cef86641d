/**
 * Calendar dates as the statement writes them (`5 Jan 24`) and as Python's
 * `datetime.strptime(f"{day} {month} {year}", '%d %b %y')` reads them.
 */
module Dates {
  import opened Wrappers
  import opened Text

  datatype CalendarDate = CalendarDate(year: nat, month: nat, day: nat)

  predicate IsLeapYear(y: nat) { y % 4 == 0 && (y % 100 != 0 || y % 400 == 0) }

  function DaysInMonth(y: nat, m: nat): nat
    requires 1 <= m <= 12
  {
    if m == 2 then (if IsLeapYear(y) then 29 else 28)
    else if m == 4 || m == 6 || m == 9 || m == 11 then 30
    else 31
  }

  /** The dates a Python `datetime` can hold. */
  predicate IsValidDate(d: CalendarDate) {
    1 <= d.year <= 9999 && 1 <= d.month <= 12 && 1 <= d.day <= DaysInMonth(d.year, d.month)
  }

  type Date = d: CalendarDate | IsValidDate(d) witness CalendarDate(2000, 1, 1)

  const MonthAbbreviations: seq<string> :=
    ["Jan", "Feb", "Mar", "Apr", "May", "Jun", "Jul", "Aug", "Sep", "Oct", "Nov", "Dec"]

  /** The month a `%b` abbreviation names (1 to 12), or 0 for any other text. */
  function MonthNumber(s: string): (m: nat)
    ensures m <= 12
    ensures m > 0 <==> s in MonthAbbreviations
    ensures m > 0 ==> MonthAbbreviations[m - 1] == s
  {
    if s == "Jan" then 1 else if s == "Feb" then 2 else if s == "Mar" then 3
    else if s == "Apr" then 4 else if s == "May" then 5 else if s == "Jun" then 6
    else if s == "Jul" then 7 else if s == "Aug" then 8 else if s == "Sep" then 9
    else if s == "Oct" then 10 else if s == "Nov" then 11 else if s == "Dec" then 12
    else 0
  }

  /**
   * A text the date column of a statement line can contribute: a number of
   * at most two digits, or a month abbreviation.
   */
  predicate IsDatePartText(s: string) {
    (IsDigitString(s) && |s| <= 2) || s in MonthAbbreviations
  }

  /** `%y`: 00 to 68 are years 2000 to 2068, 69 to 99 are years 1969 to 1999. */
  function ExpandYear(yy: nat): (y: nat)
    requires yy < 100
    ensures 1969 <= y <= 2068 && y % 100 == yy
  {
    if yy <= 68 then 2000 + yy else 1900 + yy
  }

  /**
   * `parse_date_parts`: `strptime` with `%d %b %y` on the three texts joined
   * by spaces. `%d` takes 1 to 31 written with one or two digits, `%b` a month
   * abbreviation, `%y` exactly two digits; a day past the end of its month is
   * a `ValueError`, which the parser turns into `None`. Its one caller passes
   * date-column texts only; for those the three regular-expression groups
   * line up with the three texts.
   */
  function ParseDateParts(day: string, month: string, year: string): (r: Option<Date>)
    requires IsDatePartText(day) && IsDatePartText(month) && IsDatePartText(year)
    ensures r.Some? ==> 1969 <= r.value.year <= 2068
    ensures r.Some? ==> IsDigitString(day) && r.value.day == Value(day)
    ensures r.Some? ==> MonthAbbreviations[r.value.month - 1] == month
    ensures r.Some? ==> IsDigitString(year) && |year| == 2 && r.value.year % 100 == Value(year)
    ensures r.Some? <==>
      && IsDigitString(day) && 1 <= Value(day) <= 31 && MonthNumber(month) > 0
      && IsDigitString(year) && |year| == 2 && Value(year) < 100
      && IsValidDate(CalendarDate(ExpandYear(Value(year)), MonthNumber(month), Value(day)))
  {
    if IsDigitString(day) && 1 <= Value(day) <= 31 && MonthNumber(month) > 0
       && IsDigitString(year) && |year| == 2
    then
      ValueShort(year);
      var d := CalendarDate(ExpandYear(Value(year)), MonthNumber(month), Value(day));
      if IsValidDate(d) then Some(d) else None
    else None
  }

  /** Sort key of a date: orders dates as `datetime` comparison does. */
  function DateKey(d: Date): real
  {
    (d.year * 10000 + d.month * 100 + d.day) as real
  }

  lemma DateKeyOrder(a: Date, b: Date)
    ensures DateKey(a) <= DateKey(b) <==>
      a.year < b.year || (a.year == b.year && (a.month < b.month || (a.month == b.month && a.day <= b.day)))
    ensures DateKey(a) == DateKey(b) <==> a == b
  {
  }

  lemma TwoDigitNumeral(n: nat)
    requires n < 100
    ensures |NatToString(n)| <= 2
  {
    if n >= 10 {
      assert NatToString(n) == NatToString(n / 10) + [DigitChar(n % 10)];
    }
  }

  /**
   * `%d` also reads a zero-padded day: a date of the statement's range reads
   * back as itself from any one- or two-digit day text of its day.
   */
  lemma ParseDatePartsAnyDayText(d: Date, dayText: string)
    requires 1969 <= d.year <= 2068
    requires IsDigitString(dayText) && |dayText| <= 2 && Value(dayText) == d.day
    ensures IsDatePartText(dayText) && IsDatePartText(MonthAbbreviations[d.month - 1])
    ensures IsDatePartText(Pad2(d.year % 100))
    ensures ParseDateParts(dayText, MonthAbbreviations[d.month - 1], Pad2(d.year % 100)) == Some(d)
  {
    var monthText := MonthAbbreviations[d.month - 1];
    var yearText := Pad2(d.year % 100);
    MonthNumberOfAbbreviation(d.month);
    ExpandYearOfRange(d.year);
    var e := CalendarDate(ExpandYear(Value(yearText)), MonthNumber(monthText), Value(dayText));
    assert e == d;
    assert ParseDateParts(dayText, monthText, yearText) == Some(e);
  }

  /** `%y` reads the last two digits of a year from 1969 to 2068 back as that year. */
  lemma ExpandYearOfRange(y: nat)
    requires 1969 <= y <= 2068
    ensures ExpandYear(y % 100) == y
  {
    if y >= 2000 {
      assert y % 100 == y - 2000;
    } else {
      assert y % 100 == y - 1900;
    }
  }

  lemma MonthNumberOfAbbreviation(m: nat)
    requires 1 <= m <= 12
    ensures MonthNumber(MonthAbbreviations[m - 1]) == m
  {
  }

  /** A date of the statement's range, written the way the statement writes it, reads back as itself. */
  lemma {:induction false} ParseDatePartsRoundTrip(d: Date)
    requires 1969 <= d.year <= 2068
    ensures IsDatePartText(NatToString(d.day)) && IsDatePartText(MonthAbbreviations[d.month - 1])
    ensures IsDatePartText(Pad2(d.year % 100))
    ensures ParseDateParts(NatToString(d.day), MonthAbbreviations[d.month - 1], Pad2(d.year % 100)) == Some(d)
  {
    TwoDigitNumeral(d.day);
    ParseDatePartsAnyDayText(d, NatToString(d.day));
  }
}
