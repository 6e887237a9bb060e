/** Proleptic Gregorian calendar arithmetic as Python's `datetime` performs it:
    adding whole days to a date (`date + timedelta(days=n)`) and formatting
    with `strftime("%d%m%y")` and `strftime("%Y%m%d")`. */
module Calendar {
  import opened Wrappers

  datatype Date = Date(year: int, month: int, day: int)

  /** The range of years Python's `datetime` supports (MINYEAR, MAXYEAR). */
  const MinYear: int := 1
  const MaxYear: int := 9999

  /** The ordinal of 9999-12-31, i.e. `date.max.toordinal()`. */
  const MaxOrdinal: int := 3652059

  predicate IsLeapYear(y: int) {
    y % 4 == 0 && (y % 100 != 0 || y % 400 == 0)
  }

  function DaysInYear(y: int): int {
    if IsLeapYear(y) then 366 else 365
  }

  function DaysInMonth(y: int, m: int): (n: int)
    requires 1 <= m <= 12
    ensures 28 <= n <= 31
    ensures n == 29 <==> m == 2 && IsLeapYear(y)
  {
    if m == 2 then (if IsLeapYear(y) then 29 else 28)
    else if m == 4 || m == 6 || m == 9 || m == 11 then 30
    else 31
  }

  predicate ValidDate(d: Date) {
    MinYear <= d.year <= MaxYear && 1 <= d.month <= 12 && 1 <= d.day <= DaysInMonth(d.year, d.month)
  }

  /** Days in the years before `y`, counted from 0001-01-01. */
  function DaysBeforeYear(y: int): int
    requires y >= 1
  {
    var p := y - 1;
    p * 365 + p / 4 - p / 100 + p / 400
  }

  /** Days in the months of year `y` before month `m`. */
  function DaysBeforeMonth(y: int, m: int): int
    requires 1 <= m <= 12
  {
    [0, 31, 59, 90, 120, 151, 181, 212, 243, 273, 304, 334][m - 1]
      + (if m > 2 && IsLeapYear(y) then 1 else 0)
  }

  /** The proleptic Gregorian ordinal of a date; 0001-01-01 has ordinal 1
      (Python's `date.toordinal()`). */
  function DayNumber(d: Date): int
    requires ValidDate(d)
  {
    DaysBeforeYear(d.year) + DaysBeforeMonth(d.year, d.month) + d.day
  }

  lemma DaysBeforeNextYear(y: int)
    requires y >= 1
    ensures DaysBeforeYear(y + 1) == DaysBeforeYear(y) + DaysInYear(y)
  {
    assert y / 4 - (y - 1) / 4 == if y % 4 == 0 then 1 else 0;
    assert y / 100 - (y - 1) / 100 == if y % 100 == 0 then 1 else 0;
    assert y / 400 - (y - 1) / 400 == if y % 400 == 0 then 1 else 0;
  }

  lemma DaysBeforeNextMonth(y: int, m: int)
    requires 1 <= m < 12
    ensures DaysBeforeMonth(y, m + 1) == DaysBeforeMonth(y, m) + DaysInMonth(y, m)
  {
  }

  /** Within its year, a date's position lies between 1 and the length of the year. */
  lemma DayOfYearBounds(d: Date)
    requires ValidDate(d)
    ensures 1 <= DaysBeforeMonth(d.year, d.month) + d.day <= DaysInYear(d.year)
  {
  }

  lemma {:induction false} DaysBeforeYearMonotone(y1: int, y2: int)
    requires 1 <= y1 < y2
    ensures DaysBeforeYear(y1) + DaysInYear(y1) <= DaysBeforeYear(y2)
    decreases y2 - y1
  {
    DaysBeforeNextYear(y1);
    if y1 + 1 < y2 {
      DaysBeforeYearMonotone(y1 + 1, y2);
    }
  }

  lemma {:induction false} DaysBeforeMonthMonotone(y: int, m1: int, m2: int)
    requires 1 <= m1 < m2 <= 12
    ensures DaysBeforeMonth(y, m1) + DaysInMonth(y, m1) <= DaysBeforeMonth(y, m2)
    decreases m2 - m1
  {
    DaysBeforeNextMonth(y, m1);
    if m1 + 1 < m2 {
      DaysBeforeMonthMonotone(y, m1 + 1, m2);
    }
  }

  /** Distinct valid dates have distinct ordinals. */
  lemma DayNumberInjective(a: Date, b: Date)
    requires ValidDate(a) && ValidDate(b)
    requires DayNumber(a) == DayNumber(b)
    ensures a == b
  {
    DayOfYearBounds(a);
    DayOfYearBounds(b);
    if a.year < b.year {
      DaysBeforeYearMonotone(a.year, b.year);
    } else if b.year < a.year {
      DaysBeforeYearMonotone(b.year, a.year);
    }
    assert a.year == b.year;
    if a.month < b.month {
      DaysBeforeMonthMonotone(a.year, a.month, b.month);
    } else if b.month < a.month {
      DaysBeforeMonthMonotone(a.year, b.month, a.month);
    }
  }

  /** Every valid date has an ordinal from 1 to MaxOrdinal, and only 9999-12-31 has MaxOrdinal. */
  lemma DayNumberRange(d: Date)
    requires ValidDate(d)
    ensures 1 <= DayNumber(d) <= MaxOrdinal
    ensures DayNumber(d) == MaxOrdinal <==> d == Date(MaxYear, 12, 31)
  {
    DayOfYearBounds(d);
    if d.year < MaxYear {
      DaysBeforeYearMonotone(d.year, MaxYear);
    }
    if DayNumber(d) == MaxOrdinal {
      DayNumberInjective(d, Date(MaxYear, 12, 31));
    }
  }

  /** The following calendar day, or None past 9999-12-31. */
  function NextDay(d: Date): (r: Option<Date>)
    requires ValidDate(d)
    ensures r.Some? <==> DayNumber(d) < MaxOrdinal
    ensures r.Some? ==> ValidDate(r.value) && DayNumber(r.value) == DayNumber(d) + 1
  {
    DayNumberRange(d);
    if d.day < DaysInMonth(d.year, d.month) then
      Some(Date(d.year, d.month, d.day + 1))
    else if d.month < 12 then
      DaysBeforeNextMonth(d.year, d.month);
      Some(Date(d.year, d.month + 1, 1))
    else if d.year < MaxYear then
      DaysBeforeNextYear(d.year);
      Some(Date(d.year + 1, 1, 1))
    else
      None
  }

  /** `d + timedelta(days=n)`: None when the sum passes 9999-12-31, where
      Python raises OverflowError. */
  function AddDays(d: Date, n: nat): (r: Option<Date>)
    requires ValidDate(d)
    ensures r.Some? <==> DayNumber(d) + n <= MaxOrdinal
    ensures r.Some? ==> ValidDate(r.value) && DayNumber(r.value) == DayNumber(d) + n
    decreases n
  {
    if n == 0 then
      DayNumberRange(d);
      Some(d)
    else
      match NextDay(d)
      case None => None
      case Some(e) => AddDays(e, n - 1)
  }

  /** AddDays is the unique valid date whose ordinal is that of `d` plus `n`. */
  lemma AddDaysIs(d: Date, n: nat, e: Date)
    requires ValidDate(d) && ValidDate(e)
    requires DayNumber(e) == DayNumber(d) + n
    ensures AddDays(d, n) == Some(e)
  {
    DayNumberRange(e);
    DayNumberInjective(AddDays(d, n).value, e);
  }

  /** Adding `a` days and then `b` days is adding `a + b` days. */
  lemma AddDaysCompose(d: Date, a: nat, b: nat)
    requires ValidDate(d)
    requires AddDays(d, a).Some?
    ensures AddDays(AddDays(d, a).value, b) == AddDays(d, a + b)
  {
    var m := AddDays(d, a).value;
    if AddDays(m, b).Some? {
      AddDaysIs(d, a + b, AddDays(m, b).value);
    }
  }

  // ---- strftime ----

  predicate IsDigit(c: char) {
    '0' <= c <= '9'
  }

  predicate AllDigits(s: string) {
    forall k :: 0 <= k < |s| ==> IsDigit(s[k])
  }

  function DigitChar(n: int): (c: char)
    requires 0 <= n <= 9
    ensures IsDigit(c)
  {
    (48 + n) as char
  }

  function DigitValue(c: char): int
    requires IsDigit(c)
  {
    c as int - 48
  }

  /** A number below 100 as two zero-padded decimal digits. */
  function Pad2(n: int): (s: string)
    requires 0 <= n < 100
    ensures |s| == 2 && AllDigits(s)
  {
    [DigitChar(n / 10), DigitChar(n % 10)]
  }

  /** A number below 10000 as four zero-padded decimal digits. */
  function Pad4(n: int): (s: string)
    requires 0 <= n < 10000
    ensures |s| == 4 && AllDigits(s)
  {
    [DigitChar(n / 1000), DigitChar(n / 100 % 10), DigitChar(n / 10 % 10), DigitChar(n % 10)]
  }

  /** `strftime("%d%m%y")`: day, month and the last two digits of the year. */
  function ExpiryCode(d: Date): (s: string)
    requires ValidDate(d)
    ensures |s| == 6 && AllDigits(s)
  {
    Pad2(d.day) + Pad2(d.month) + Pad2(d.year % 100)
  }

  /** `strftime("%Y%m%d")`: four-digit year, month, day. */
  function DateKey(d: Date): (s: string)
    requires ValidDate(d)
    ensures |s| == 8 && AllDigits(s)
  {
    Pad4(d.year) + Pad2(d.month) + Pad2(d.day)
  }

  // ---- reading the codes back ----

  function ReadNumber(s: string): (n: nat)
    requires AllDigits(s)
    decreases |s|
  {
    if s == [] then 0 else ReadNumber(s[..|s| - 1]) * 10 + DigitValue(s[|s| - 1])
  }

  lemma ReadPad2(n: int)
    requires 0 <= n < 100
    ensures ReadNumber(Pad2(n)) == n
  {
    var s := Pad2(n);
    assert s[..1] == [DigitChar(n / 10)];
    assert s[..1][..0] == [];
    assert ReadNumber(s[..1]) == n / 10;
    assert ReadNumber(s) == ReadNumber(s[..1]) * 10 + DigitValue(s[1]);
  }

  lemma ReadPad4(n: int)
    requires 0 <= n < 10000
    ensures ReadNumber(Pad4(n)) == n
  {
    var s := Pad4(n);
    var s3, s2, s1 := s[..3], s[..2], s[..1];
    assert s3[..2] == s2 && s2[..1] == s1 && s1[..0] == [];
    assert ReadNumber(s1) == n / 1000;
    assert ReadNumber(s2) == n / 1000 * 10 + n / 100 % 10 == n / 100;
    assert ReadNumber(s3) == n / 100 * 10 + n / 10 % 10 == n / 10;
    assert ReadNumber(s) == n / 10 * 10 + n % 10;
  }

  /** The day, month and two-digit year an expiry code denotes. */
  function ReadExpiryCode(s: string): (r: (int, int, int))
    requires |s| == 6 && AllDigits(s)
  {
    (ReadNumber(s[0..2]), ReadNumber(s[2..4]), ReadNumber(s[4..6]))
  }

  /** The date a date key denotes. */
  function ReadDateKey(s: string): Date
    requires |s| == 8 && AllDigits(s)
  {
    Date(ReadNumber(s[0..4]), ReadNumber(s[4..6]), ReadNumber(s[6..8]))
  }

  /** The expiry code keeps the day, the month and the year modulo 100. */
  lemma ExpiryCodeRoundTrip(d: Date)
    requires ValidDate(d)
    ensures ReadExpiryCode(ExpiryCode(d)) == (d.day, d.month, d.year % 100)
  {
    var s := ExpiryCode(d);
    assert s[0..2] == Pad2(d.day);
    assert s[2..4] == Pad2(d.month);
    assert s[4..6] == Pad2(d.year % 100);
    ReadPad2(d.day);
    ReadPad2(d.month);
    ReadPad2(d.year % 100);
  }

  /** The date key keeps the whole date, so distinct days get distinct keys. */
  lemma DateKeyRoundTrip(d: Date)
    requires ValidDate(d)
    ensures ReadDateKey(DateKey(d)) == d
  {
    var s := DateKey(d);
    assert s[0..4] == Pad4(d.year);
    assert s[4..6] == Pad2(d.month);
    assert s[6..8] == Pad2(d.day);
    ReadPad4(d.year);
    ReadPad2(d.month);
    ReadPad2(d.day);
  }

  lemma DateKeyInjective(a: Date, b: Date)
    requires ValidDate(a) && ValidDate(b)
    requires DateKey(a) == DateKey(b)
    ensures a == b
  {
    DateKeyRoundTrip(a);
    DateKeyRoundTrip(b);
  }
}
