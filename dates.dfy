/**
  Calendar dates of the proleptic Gregorian calendar, in the range Python's
  `datetime` supports (years 1 to 9999), with day numbers, the day before a date,
  and the text form YYYY-MM-DD of ISO 8601 (extended calendar date format,
  section 4.1.2.2 of ISO 8601:2004) as `strftime("%Y-%m-%d")` writes it and
  `strptime(s, "%Y-%m-%d")` reads it.
*/
module Dates {
  import opened Wrappers
  import opened Digits

  datatype Date = Date(year: int, month: int, day: int)

  const MaxYear: int := 9999

  predicate IsLeapYear(y: int) {
    y % 4 == 0 && (y % 100 != 0 || y % 400 == 0)
  }

  function DaysInMonth(y: int, m: int): int
    requires 1 <= m <= 12
  {
    if m == 2 then (if IsLeapYear(y) then 29 else 28)
    else if m == 4 || m == 6 || m == 9 || m == 11 then 30
    else 31
  }

  function DaysInYear(y: int): int {
    if IsLeapYear(y) then 366 else 365
  }

  predicate ValidDate(x: Date) {
    1 <= x.year <= MaxYear && 1 <= x.month <= 12 && 1 <= x.day <= DaysInMonth(x.year, x.month)
  }

  /** Number of days in the years before year `y`, counted from year 1. */
  function DaysBeforeYear(y: int): nat {
    if y <= 1 then 0 else DaysBeforeYear(y - 1) + DaysInYear(y - 1)
  }

  /** Number of days in the months of year `y` before month `m`. */
  function DaysBeforeMonth(y: int, m: int): nat
    requires 1 <= m <= 12
  {
    if m == 1 then 0 else DaysBeforeMonth(y, m - 1) + DaysInMonth(y, m - 1)
  }

  /** The day number of a date; 0001-01-01 is day 1, as in Python's `date.toordinal()`. */
  function Ordinal(x: Date): int
    requires 1 <= x.month <= 12
  {
    DaysBeforeYear(x.year) + DaysBeforeMonth(x.year, x.month) + x.day
  }

  /** The months before December fill all of a year but December's 31 days. */
  lemma DaysBeforeDecember(y: int)
    ensures DaysBeforeMonth(y, 12) + 31 == DaysInYear(y)
  {
    var feb := if IsLeapYear(y) then 29 else 28;
    assert DaysBeforeMonth(y, 2) == 31;
    assert DaysBeforeMonth(y, 3) == 31 + feb;
    assert DaysBeforeMonth(y, 4) == 62 + feb;
    assert DaysBeforeMonth(y, 5) == 92 + feb;
    assert DaysBeforeMonth(y, 6) == 123 + feb;
    assert DaysBeforeMonth(y, 7) == 153 + feb;
    assert DaysBeforeMonth(y, 8) == 184 + feb;
    assert DaysBeforeMonth(y, 9) == 215 + feb;
    assert DaysBeforeMonth(y, 10) == 245 + feb;
    assert DaysBeforeMonth(y, 11) == 276 + feb;
  }

  /** The day before `x`; `None` for 0001-01-01, where Python raises OverflowError. */
  function PrevDay(x: Date): (r: Option<Date>)
    requires ValidDate(x)
    ensures r.Some? ==> ValidDate(r.value) && Ordinal(r.value) == Ordinal(x) - 1
    ensures r.None? <==> x == Date(1, 1, 1)
  {
    if x.day > 1 then Some(x.(day := x.day - 1))
    else if x.month > 1 then Some(Date(x.year, x.month - 1, DaysInMonth(x.year, x.month - 1)))
    else if x.year > 1 then
      DaysBeforeDecember(x.year - 1);
      Some(Date(x.year - 1, 12, 31))
    else None
  }

  /** Day numbers of valid dates start at 1, and only 0001-01-01 has day number 1. */
  lemma OrdinalPositive(x: Date)
    requires ValidDate(x)
    ensures Ordinal(x) >= 1
    ensures Ordinal(x) == 1 <==> x == Date(1, 1, 1)
    ensures Ordinal(x) <= 28 ==> x == Date(1, 1, Ordinal(x))
  {
    if x.year > 1 {
      assert DaysBeforeYear(x.year) >= DaysInYear(x.year - 1);
    }
    if x.month > 1 {
      assert DaysBeforeMonth(x.year, x.month) >= DaysInMonth(x.year, x.month - 1);
    }
  }

  /** The next day within the same month has the next day number. */
  lemma OrdinalNextInMonth(x: Date)
    requires ValidDate(x) && x.day < DaysInMonth(x.year, x.month)
    ensures ValidDate(x.(day := x.day + 1)) && Ordinal(x.(day := x.day + 1)) == Ordinal(x) + 1
  {
  }

  /** `x - timedelta(days=2)`; `None` when that falls before 0001-01-01. */
  function TwoDaysBefore(x: Date): (r: Option<Date>)
    requires ValidDate(x)
    ensures r.Some? ==> ValidDate(r.value) && Ordinal(r.value) == Ordinal(x) - 2
  {
    match PrevDay(x)
    case None => None
    case Some(y) => PrevDay(y)
  }

  /** Going back two days fails exactly for the first two days of year 1. */
  lemma TwoDaysBeforeUndefined(x: Date)
    requires ValidDate(x)
    ensures TwoDaysBefore(x).None? <==> Ordinal(x) <= 2
  {
    match PrevDay(x)
    case None =>
      OrdinalPositive(x);
    case Some(y) =>
      match PrevDay(y)
      case None =>
        OrdinalPositive(y);
      case Some(z) =>
        OrdinalPositive(z);
  }

  function Pad2(n: int): (s: string)
    requires 0 <= n <= 99
    ensures |s| == 2 && AllDigits(s)
  {
    [DigitChar(n / 10), DigitChar(n % 10)]
  }

  function Pad4(n: int): (s: string)
    requires 0 <= n <= 9999
    ensures |s| == 4 && AllDigits(s)
  {
    [DigitChar(n / 1000), DigitChar(n / 100 % 10), DigitChar(n / 10 % 10), DigitChar(n % 10)]
  }

  /** `strftime("%Y-%m-%d")`: four-digit year, two-digit month and day, zero-padded. */
  function FormatDate(x: Date): (s: string)
    requires ValidDate(x)
    ensures |s| == 10 && s[4] == '-' && s[7] == '-'
    ensures AllDigits(s[..4]) && AllDigits(s[5..7]) && AllDigits(s[8..])
  {
    Pad4(x.year) + "-" + Pad2(x.month) + "-" + Pad2(x.day)
  }

  /** The `%m` field: `1[0-2]|0[1-9]|[1-9]`. */
  function MonthField(t: string): (r: Option<int>)
    ensures r.Some? ==> 1 <= r.value <= 12
  {
    if |t| == 1 && '1' <= t[0] <= '9' then Some(DigitValue(t[0]))
    else if |t| == 2 && t[0] == '1' && '0' <= t[1] <= '2' then Some(10 + DigitValue(t[1]))
    else if |t| == 2 && t[0] == '0' && '1' <= t[1] <= '9' then Some(DigitValue(t[1]))
    else None
  }

  /** The `%d` field, which must end the text: `3[01]|[12]\d|0[1-9]|[1-9]| [1-9]`. */
  function DayField(t: string): (r: Option<int>)
    ensures r.Some? ==> 1 <= r.value <= 31
  {
    if |t| == 1 && '1' <= t[0] <= '9' then Some(DigitValue(t[0]))
    else if |t| == 2 && t[0] == '3' && (t[1] == '0' || t[1] == '1') then Some(30 + DigitValue(t[1]))
    else if |t| == 2 && (t[0] == '1' || t[0] == '2') && IsDigit(t[1]) then Some(10 * DigitValue(t[0]) + DigitValue(t[1]))
    else if |t| == 2 && (t[0] == '0' || t[0] == ' ') && '1' <= t[1] <= '9' then Some(DigitValue(t[1]))
    else None
  }

  /**
    `datetime.strptime(s, "%Y-%m-%d")`: four digits, a dash, the month field, a
    dash and the day field, with nothing left over; year 0 and a day past the end
    of its month are rejected.
  */
  function ParseDate(s: string): (r: Option<Date>)
    ensures r.Some? ==> ValidDate(r.value)
  {
    if |s| < 5 || !AllDigits(s[..4]) || s[4] != '-' then None
    else
      var rest := s[5..];
      var sep := if |rest| >= 2 && rest[1] == '-' then 1
                 else if |rest| >= 3 && rest[2] == '-' then 2
                 else 0;
      if sep == 0 then None
      else
        var y := NumberOf(s[..4]);
        match (MonthField(rest[..sep]), DayField(rest[sep + 1..]))
        case (Some(m), Some(d)) =>
          if 1 <= y && y <= MaxYear && d <= DaysInMonth(y, m) then Some(Date(y, m, d)) else None
        case _ => None
  }

  lemma NumberOfPad4(n: int)
    requires 0 <= n <= 9999
    ensures NumberOf(Pad4(n)) == n
  {
    var s := Pad4(n);
    assert s[..3][..2][..1][..0] == [];
    var q := n / 10;
    assert q / 10 == n / 100 && (n / 100) / 10 == n / 1000;
    assert NumberOf(s[..1]) == n / 1000;
    assert NumberOf(s[..2]) == 10 * (n / 1000) + (n / 100) % 10 == n / 100;
    assert s[..3][..2] == s[..2] && s[..3][2] == DigitChar(q % 10);
    assert NumberOf(s[..3]) == 10 * (q / 10) + q % 10 == q;
    assert s[..4] == s;
  }

  /** The fields of the date text spell the year, the month and the day, zero-padded to their widths. */
  lemma FormatDateFields(x: Date)
    requires ValidDate(x)
    ensures NumberOf(FormatDate(x)[..4]) == x.year
    ensures NumberOf(FormatDate(x)[5..7]) == x.month
    ensures NumberOf(FormatDate(x)[8..]) == x.day
  {
    var s := FormatDate(x);
    assert s[..4] == Pad4(x.year);
    NumberOfPad4(x.year);
    NumberOfPad2(x.month);
    NumberOfPad2(x.day);
    assert s[5..7] == Pad2(x.month);
    assert s[8..] == Pad2(x.day);
  }

  lemma NumberOfPad2(n: int)
    requires 0 <= n <= 99
    ensures NumberOf(Pad2(n)) == n
  {
    var s := Pad2(n);
    assert s[..1][..0] == [];
    assert NumberOf(s[..1]) == n / 10;
    assert s[..|s| - 1] == s[..1];
  }

  /** Reading back what `FormatDate` writes gives the date back. */
  lemma ParseFormat(x: Date)
    requires ValidDate(x)
    ensures ParseDate(FormatDate(x)) == Some(x)
  {
    var s := FormatDate(x);
    assert s[..4] == Pad4(x.year);
    NumberOfPad4(x.year);
    var rest := s[5..];
    assert rest[..2] == Pad2(x.month);
    assert rest[3..] == Pad2(x.day);
  }

  /** Two valid dates with the same text are the same date. */
  lemma FormatDateInjective(a: Date, b: Date)
    requires ValidDate(a) && ValidDate(b)
    requires FormatDate(a) == FormatDate(b)
    ensures a == b
  {
    ParseFormat(a);
    ParseFormat(b);
  }
}
