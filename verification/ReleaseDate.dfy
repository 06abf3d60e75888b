/** Dates as the IGDB client writes them, YYYY-MM-DD, and as a catalog row reads them back. */
module ReleaseDate {
  import opened Wrappers

  datatype Date = Date(year: nat, month: nat, day: nat)

  /** Go's zero time, stored for a game without a date, or with one that does not parse. */
  const ZERO_DATE := Date(1, 1, 1)

  predicate IsLeap(year: nat) {
    year % 4 == 0 && (year % 100 != 0 || year % 400 == 0)
  }

  function DaysIn(month: nat, year: nat): nat {
    if month == 2 then if IsLeap(year) then 29 else 28
    else if month in {4, 6, 9, 11} then 30
    else 31
  }

  predicate Valid(d: Date) {
    d.year <= 9999 && 1 <= d.month <= 12 && 1 <= d.day <= DaysIn(d.month, d.year)
  }

  predicate IsDigit(c: char) {
    '0' <= c <= '9'
  }

  function Digit(n: nat): char
    requires n < 10
  {
    ('0' as int + n) as char
  }

  function Two(tens: char, ones: char): nat
    requires IsDigit(tens) && IsDigit(ones)
  {
    (tens as int - '0' as int) * 10 + (ones as int - '0' as int)
  }

  function TwoDigits(n: nat): string
    requires n < 100
  {
    [Digit(n / 10), Digit(n % 10)]
  }

  function FourDigits(n: nat): string
    requires n < 10000
  {
    TwoDigits(n / 100) + TwoDigits(n % 100)
  }

  function Format(d: Date): string
    requires Valid(d)
  {
    FourDigits(d.year) + "-" + TwoDigits(d.month) + "-" + TwoDigits(d.day)
  }

  /** Fixed widths, nothing after the day, and a day the month has. */
  function Parse(s: string): Option<Date> {
    if |s| != 10 || s[4] != '-' || s[7] != '-' then None
    else if !(forall i | i in {0, 1, 2, 3, 5, 6, 8, 9} :: IsDigit(s[i])) then None
    else
      var d := Date(Two(s[0], s[1]) * 100 + Two(s[2], s[3]), Two(s[5], s[6]), Two(s[8], s[9]));
      if Valid(d) then Some(d) else None
  }

  lemma TwoDigitsRead(n: nat)
    requires n < 100
    ensures var s := TwoDigits(n);
      IsDigit(s[0]) && IsDigit(s[1]) && Two(s[0], s[1]) == n
  {
  }

  lemma TwoDigitsWritten(tens: char, ones: char)
    requires IsDigit(tens) && IsDigit(ones)
    ensures Two(tens, ones) < 100 && TwoDigits(Two(tens, ones)) == [tens, ones]
  {
  }

  lemma FormatParses(d: Date)
    requires Valid(d)
    ensures Parse(Format(d)) == Some(d)
  {
    TwoDigitsRead(d.year / 100);
    TwoDigitsRead(d.year % 100);
    TwoDigitsRead(d.month);
    TwoDigitsRead(d.day);
  }

  lemma FourDigitsWritten(high: nat, low: nat)
    requires high < 100 && low < 100
    ensures FourDigits(high * 100 + low) == TwoDigits(high) + TwoDigits(low)
  {
    assert (high * 100 + low) / 100 == high;
    assert (high * 100 + low) % 100 == low;
  }

  lemma TenCharacters(s: string)
    requires |s| == 10 && s[4] == '-' && s[7] == '-'
    ensures s == [s[0], s[1], s[2], s[3]] + "-" + [s[5], s[6]] + "-" + [s[8], s[9]]
  {
  }

  lemma ParseFormats(s: string)
    requires Parse(s).Some?
    ensures Valid(Parse(s).value) && Format(Parse(s).value) == s
  {
    TwoDigitsWritten(s[0], s[1]);
    TwoDigitsWritten(s[2], s[3]);
    TwoDigitsWritten(s[5], s[6]);
    TwoDigitsWritten(s[8], s[9]);
    FourDigitsWritten(Two(s[0], s[1]), Two(s[2], s[3]));
    var d := Parse(s).value;
    assert FourDigits(d.year) == [s[0], s[1], s[2], s[3]];
    assert TwoDigits(d.month) == [s[5], s[6]] && TwoDigits(d.day) == [s[8], s[9]];
    TenCharacters(s);
  }

  /** Reading back is exactly the inverse of writing: every date up to the year 9999 comes
      back, and nothing else parses. */
  lemma ParsesExactlyFormats(s: string, d: Date)
    ensures Parse(s) == Some(d) <==> Valid(d) && s == Format(d)
  {
    if Valid(d) {
      FormatParses(d);
    }
    if Parse(s) == Some(d) {
      ParseFormats(s);
    }
  }

  function DaysBefore(month: nat, year: nat): nat {
    if month == 0 then 0 else DaysBefore(month - 1, year) + DaysIn(month, year)
  }

  /** The Gregorian calendar: a year has 365 days, or 366 if it is divisible by 4 and not by
      100, or by 400. */
  lemma CalendarYear(year: nat)
    ensures DaysBefore(12, year) == if year % 400 == 0 || (year % 4 == 0 && year % 100 != 0) then 366 else 365
  {
    assert DaysBefore(1, year) == 31;
    assert DaysBefore(2, year) == 31 + DaysIn(2, year);
    assert DaysBefore(4, year) == DaysBefore(2, year) + 61;
    assert DaysBefore(6, year) == DaysBefore(4, year) + 61;
    assert DaysBefore(8, year) == DaysBefore(6, year) + 62;
    assert DaysBefore(10, year) == DaysBefore(8, year) + 61;
    assert DaysBefore(12, year) == DaysBefore(10, year) + 61;
  }

  /** The year comes first, and the day last. */
  lemma DateWritten()
    ensures Valid(Date(2015, 5, 19)) && Format(Date(2015, 5, 19)) == "2015-05-19"
  {
    assert TwoDigits(20) == "20" && TwoDigits(15) == "15" && TwoDigits(5) == "05" && TwoDigits(19) == "19";
  }
}
