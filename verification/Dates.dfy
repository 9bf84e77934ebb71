/**
 * Calendar-date strings (src/time-off/dates.js).  The date object is the time value of
 * section 21.4.1 of ECMA-262; the calendar it is compared with (Real, NextDay) is stated
 * independently, month by month.
 */
module Dates {
  import opened Types
  import opened Texts

  const MS_PER_DAY := 86_400_000

  // ----- Day-number arithmetic of section 21.4.1 of ECMA-262 -----

  predicate IsLeap(y: int) { y % 4 == 0 && (y % 100 != 0 || y % 400 == 0) }

  function LeapDay(y: int): int { if IsLeap(y) then 1 else 0 }

  function DayFromYear(y: int): int {
    365 * (y - 1970) + (y - 1969) / 4 - (y - 1901) / 100 + (y - 1601) / 400
  }

  /** Day of the year on which month m (counted from 0) starts; leap is 1 in a leap year. */
  function MonthStart(m: int, leap: int): int
    requires 0 <= m <= 12
  {
    if m <= 1 then 31 * m
    else leap + [59, 90, 120, 151, 181, 212, 243, 273, 304, 334, 365][m - 2]
  }

  function MakeDay(year: int, month: int, date: int): int {
    var y := year + month / 12;
    DayFromYear(y) + MonthStart(month % 12, LeapDay(y)) + date - 1
  }

  /** Date.UTC maps the years 0 to 99 to 1900 to 1999. */
  function DateUTC(year: int, month: int, date: int): int {
    MakeDay(if 0 <= year <= 99 then 1900 + year else year, month, date) * MS_PER_DAY
  }

  /** The largest year that starts no later than the day; the search moves from a guess towards it. */
  function YearFromDay(day: int, guess: int): (y: int)
    ensures DayFromYear(y) <= day < DayFromYear(y + 1)
    decreases
      if day < DayFromYear(guess) then 1 else 0,
      if day < DayFromYear(guess) then DayFromYear(guess) - day else day - DayFromYear(guess)
  {
    YearLength(guess - 1); YearLength(guess);
    if day < DayFromYear(guess) then YearFromDay(day, guess - 1)
    else if DayFromYear(guess + 1) <= day then YearFromDay(day, guess + 1)
    else guess
  }

  function MonthFromDay(dayInYear: int, leap: int): (m: int)
    requires 0 <= leap <= 1 && 0 <= dayInYear < 365 + leap
    ensures 0 <= m <= 11 && MonthStart(m, leap) <= dayInYear < MonthStart(m + 1, leap)
  {
    if dayInYear < 31 then 0
    else if dayInYear < 59 + leap then 1
    else if dayInYear < 90 + leap then 2
    else if dayInYear < 120 + leap then 3
    else if dayInYear < 151 + leap then 4
    else if dayInYear < 181 + leap then 5
    else if dayInYear < 212 + leap then 6
    else if dayInYear < 243 + leap then 7
    else if dayInYear < 273 + leap then 8
    else if dayInYear < 304 + leap then 9
    else if dayInYear < 334 + leap then 10
    else 11
  }

  function UTCFullYear(t: int): int { YearFromDay(t / MS_PER_DAY, 1970) }

  function DayInYear(t: int): int { t / MS_PER_DAY - DayFromYear(UTCFullYear(t)) }

  lemma DayInYearRange(t: int)
    ensures 0 <= DayInYear(t) < 365 + LeapDay(UTCFullYear(t))
  {
    YearLength(UTCFullYear(t));
  }

  function UTCMonth(t: int): int {
    DayInYearRange(t);
    MonthFromDay(DayInYear(t), LeapDay(UTCFullYear(t)))
  }

  function UTCDate(t: int): int {
    DayInYearRange(t);
    DayInYear(t) - MonthStart(UTCMonth(t), LeapDay(UTCFullYear(t))) + 1
  }

  lemma YearLength(y: int)
    ensures DayFromYear(y + 1) == DayFromYear(y) + 365 + LeapDay(y)
  {
    Fourths(y);
    Hundredths(y);
    FourHundredths(y);
    CenturiesAreFourths(y);
  }

  lemma Fourths(y: int)
    ensures (y - 1968) / 4 == (y - 1969) / 4 + if y % 4 == 0 then 1 else 0
  {
  }

  lemma Hundredths(y: int)
    ensures (y - 1900) / 100 == (y - 1901) / 100 + if y % 100 == 0 then 1 else 0
  {
  }

  lemma FourHundredths(y: int)
    ensures (y - 1600) / 400 == (y - 1601) / 400 + if y % 400 == 0 then 1 else 0
  {
  }

  lemma CenturiesAreFourths(y: int)
    ensures y % 400 == 0 ==> y % 100 == 0
    ensures y % 100 == 0 ==> y % 4 == 0
  {
  }

  lemma {:induction false} YearsInOrder(y: int, z: int)
    requires y <= z
    ensures DayFromYear(z) >= DayFromYear(y) + 365 * (z - y)
    decreases z - y
  {
    if y < z {
      YearLength(z - 1);
      YearsInOrder(y, z - 1);
    }
  }

  /** A day lies in one year only. */
  lemma YearUnique(day: int, y: int, z: int)
    requires DayFromYear(y) <= day < DayFromYear(y + 1)
    requires DayFromYear(z) <= day < DayFromYear(z + 1)
    ensures y == z
  {
    if y < z { YearsInOrder(y + 1, z); }
    if z < y { YearsInOrder(z + 1, y); }
  }

  // ----- Calendar dates -----

  datatype Civil = Civil(year: int, month: int, day: int)

  function DaysInMonth(year: int, month: int): int {
    if month == 2 then 28 + LeapDay(year)
    else if month in {4, 6, 9, 11} then 30
    else 31
  }

  predicate Real(c: Civil) {
    1 <= c.month <= 12 && 1 <= c.day <= DaysInMonth(c.year, c.month)
  }

  function NextDay(c: Civil): Civil {
    if c.day < DaysInMonth(c.year, c.month) then Civil(c.year, c.month, c.day + 1)
    else if c.month < 12 then Civil(c.year, c.month + 1, 1)
    else Civil(c.year + 1, 1, 1)
  }

  function Later(c: Civil, n: nat): Civil {
    if n == 0 then c else NextDay(Later(c, n - 1))
  }

  function DayNumber(c: Civil): int { MakeDay(c.year, c.month - 1, c.day) }

  predicate Earlier(a: Civil, b: Civil) {
    || a.year < b.year
    || (a.year == b.year && a.month < b.month)
    || (a.year == b.year && a.month == b.month && a.day < b.day)
  }

  lemma DayNumberOfReal(c: Civil)
    requires Real(c)
    ensures DayNumber(c) == DayFromYear(c.year) + MonthStart(c.month - 1, LeapDay(c.year)) + c.day - 1
    ensures MonthStart(c.month, LeapDay(c.year)) == MonthStart(c.month - 1, LeapDay(c.year)) + DaysInMonth(c.year, c.month)
    ensures DayFromYear(c.year) <= DayNumber(c) < DayFromYear(c.year + 1)
  {
    hide IsLeap, DayFromYear;
    YearLength(c.year);
  }

  /** The month-by-month successor is one day number later. */
  lemma NextDayIsNext(c: Civil)
    requires Real(c)
    ensures Real(NextDay(c)) && DayNumber(NextDay(c)) == DayNumber(c) + 1
  {
    hide IsLeap, DayFromYear, MakeDay, DayNumber;
    DayNumberOfReal(c);
    YearLength(c.year);
    DayNumberOfReal(NextDay(c));
  }

  lemma {:induction false} LaterIsLater(c: Civil, n: nat)
    requires Real(c)
    ensures Real(Later(c, n)) && DayNumber(Later(c, n)) == DayNumber(c) + n
  {
    if n > 0 {
      LaterIsLater(c, n - 1);
      NextDayIsNext(Later(c, n - 1));
    }
  }

  /** Day numbers order real dates as the calendar does, so they also tell them apart. */
  lemma DayNumbersInOrder(a: Civil, b: Civil)
    requires Real(a) && Real(b)
    ensures Earlier(a, b) <==> DayNumber(a) < DayNumber(b)
    ensures a == b <==> DayNumber(a) == DayNumber(b)
  {
    EarlierIsLower(a, b);
    EarlierIsLower(b, a);
  }

  lemma MonthsInOrder(m: int, n: int, leap: int)
    requires 0 <= m <= n <= 12 && 0 <= leap <= 1
    ensures MonthStart(m, leap) <= MonthStart(n, leap)
  {
  }

  lemma EarlierIsLower(a: Civil, b: Civil)
    requires Real(a) && Real(b)
    ensures Earlier(a, b) ==> DayNumber(a) < DayNumber(b)
  {
    hide IsLeap, DayFromYear, MakeDay, DayNumber;
    DayNumberOfReal(a);
    DayNumberOfReal(b);
    if a.year < b.year { YearsInOrder(a.year + 1, b.year); }
    if a.year == b.year && a.month < b.month { MonthsInOrder(a.month, b.month - 1, LeapDay(a.year)); }
  }

  // ----- parseIsoDate and countDaysInclusive -----

  /** The pattern dddd-dd-dd. */
  predicate MatchesPattern(s: string) {
    |s| == 10 && forall i :: 0 <= i < 10 ==> if i == 4 || i == 7 then s[i] == '-' else IsDigit(s[i])
  }

  function Fields(s: string): Civil
    requires |s| == 10
  {
    Civil(1000 * Digit(s[0]) + 100 * Digit(s[1]) + 10 * Digit(s[2]) + Digit(s[3]),
          10 * Digit(s[5]) + Digit(s[6]),
          10 * Digit(s[8]) + Digit(s[9]))
  }

  function ParseIsoDate(s: string): Result<int, Error> {
    if !MatchesPattern(s) then Failure(InvalidDate)
    else
      var c := Fields(s);
      var dt := DateUTC(c.year, c.month - 1, c.day);
      if UTCFullYear(dt) != c.year || UTCMonth(dt) != c.month - 1 || UTCDate(dt) != c.day
      then Failure(InvalidDate)
      else Success(dt)
  }

  function CountDaysInclusive(start: string, end: string): Result<int, Error> {
    match ParseIsoDate(start)
    case Failure(e) => Failure(e)
    case Success(s) =>
      match ParseIsoDate(end)
      case Failure(e) => Failure(e)
      case Success(e) =>
        if e < s then Failure(EndBeforeStart) else Success((e - s) / MS_PER_DAY + 1)
  }

  predicate Accepted(s: string) {
    MatchesPattern(s) && Real(Fields(s)) && Fields(s).year >= 100
  }

  lemma ReadBackOfReal(c: Civil, t: int)
    requires Real(c) && t == DayNumber(c) * MS_PER_DAY
    ensures UTCFullYear(t) == c.year && UTCMonth(t) == c.month - 1 && UTCDate(t) == c.day
  {
    hide IsLeap, DayFromYear, MonthStart, MakeDay, DayNumber, DaysInMonth;
    DayNumberOfReal(c);
    WholeDays(DayNumber(c));
    YearUnique(DayNumber(c), UTCFullYear(t), c.year);
    DayInYearRange(t);
    MonthUnique(DayInYear(t), LeapDay(c.year), UTCMonth(t), c.month - 1);
  }

  lemma MonthUnique(dayInYear: int, leap: int, m: int, n: int)
    requires 0 <= leap <= 1 && 0 <= m <= 11 && 0 <= n <= 11
    requires MonthStart(m, leap) <= dayInYear < MonthStart(m + 1, leap)
    requires MonthStart(n, leap) <= dayInYear < MonthStart(n + 1, leap)
    ensures m == n
  {
  }

  lemma WholeDays(day: int)
    ensures (day * MS_PER_DAY) / MS_PER_DAY == day
  {
  }

  /** Whatever the time value, its read-back is a real date. */
  lemma ReadBackIsReal(t: int)
    ensures Real(Civil(UTCFullYear(t), UTCMonth(t) + 1, UTCDate(t)))
  {
    DayInYearRange(t);
  }

  /** Overflowing fields never carry a date back by more than two years. */
  lemma ReadBackYearNear(year: int, month: int, date: int)
    requires -1 <= month <= 98 && 0 <= date <= 99
    ensures UTCFullYear(MakeDay(year, month, date) * MS_PER_DAY) >= year - 2
  {
    var t := MakeDay(year, month, date) * MS_PER_DAY;
    WholeDays(MakeDay(year, month, date));
    var y := year + month / 12;
    assert y >= year - 1;
    YearsInOrder(year - 1, y);
    YearLength(year - 2);
    if UTCFullYear(t) < year - 2 {
      YearsInOrder(UTCFullYear(t) + 1, year - 2);
    }
  }

  /**
   * parseIsoDate accepts exactly the dddd-dd-dd strings that name a real date in the years
   * 0100 to 9999, and returns that date's midnight.
   */
  lemma ParseAcceptsRealDates(s: string)
    ensures ParseIsoDate(s).Success? <==> Accepted(s)
    ensures Accepted(s) ==> ParseIsoDate(s).value == DayNumber(Fields(s)) * MS_PER_DAY
  {
    hide IsLeap, DayFromYear, MonthStart, MakeDay, UTCFullYear, UTCMonth, UTCDate, DaysInMonth, Fields;
    if MatchesPattern(s) {
      var c := Fields(s);
      FieldRanges(s);
      var dt := DateUTC(c.year, c.month - 1, c.day);
      if Real(c) && c.year >= 100 {
        ReadBackOfReal(c, dt);
      }
      if ParseIsoDate(s).Success? {
        ReadBackIsReal(dt);
        if c.year <= 99 {
          ReadBackYearNear(1900 + c.year, c.month - 1, c.day);
        }
      }
    }
  }

  lemma FieldRanges(s: string)
    requires MatchesPattern(s)
    ensures 0 <= Fields(s).year <= 9999 && 0 <= Fields(s).month <= 99 && 0 <= Fields(s).day <= 99
  {
    assert forall i :: 0 <= i < 10 && i != 4 && i != 7 ==> 0 <= Digit(s[i]) <= 9;
  }

  // ----- Dates as they are written -----

  function DigitChar(d: int): char
    requires 0 <= d <= 9
  {
    ('0' as int + d) as char
  }

  /** A date in the years that are accepted. */
  predicate Writable(c: Civil) { Real(c) && 100 <= c.year <= 9999 }

  /** Four digits, two and two, with hyphens between. */
  function Written(c: Civil): string
    requires Writable(c)
  {
    [DigitChar(c.year / 10 / 10 / 10), DigitChar(c.year / 10 / 10 % 10), DigitChar(c.year / 10 % 10), DigitChar(c.year % 10), '-',
     DigitChar(c.month / 10), DigitChar(c.month % 10), '-', DigitChar(c.day / 10), DigitChar(c.day % 10)]
  }

  lemma LastDigit(n: int, d: int)
    requires 0 <= d <= 9
    ensures (10 * n + d) / 10 == n && (10 * n + d) % 10 == d
  {
  }

  lemma WrittenIsRead(c: Civil)
    requires Writable(c)
    ensures MatchesPattern(Written(c)) && Fields(Written(c)) == c
  {
    hide IsLeap;
    var n := c.year / 10;
    assert c.year == 10 * n + c.year % 10;
    assert n == 10 * (n / 10) + n % 10;
    assert n / 10 == 10 * (n / 10 / 10) + n / 10 % 10;
  }

  lemma ReadIsWritten(s: string)
    requires MatchesPattern(s) && Writable(Fields(s))
    ensures Written(Fields(s)) == s
  {
    hide IsLeap;
    assert forall i :: 0 <= i < 10 && i != 4 && i != 7 ==> 0 <= Digit(s[i]) <= 9 && DigitChar(Digit(s[i])) == s[i];
    var d := [Digit(s[0]), Digit(s[1]), Digit(s[2]), Digit(s[3])];
    LastDigit(100 * d[0] + 10 * d[1] + d[2], d[3]);
    LastDigit(10 * d[0] + d[1], d[2]);
    LastDigit(d[0], d[1]);
    LastDigit(Digit(s[5]), Digit(s[6]));
    LastDigit(Digit(s[8]), Digit(s[9]));
    assert s[4] == '-' && s[7] == '-';
  }

  /** parseIsoDate undoes writing: it accepts exactly what is written of some date, and returns that date's midnight. */
  lemma ParseUndoesWriting(s: string)
    ensures ParseIsoDate(s).Success? <==> exists c :: Writable(c) && s == Written(c)
    ensures forall c :: Writable(c) && s == Written(c) ==> ParseIsoDate(s) == Success(DayNumber(c) * MS_PER_DAY)
  {
    hide ParseIsoDate, DayNumber, Real, Written, MatchesPattern, Fields;
    ParseAcceptsRealDates(s);
    forall c | Writable(c) && s == Written(c) ensures |s| == 10 && Accepted(s) && Fields(s) == c {
      WrittenIsRead(c);
      PatternLength(s);
    }
    if Accepted(s) {
      PatternLength(s);
      FieldRanges(s);
      ReadIsWritten(s);
      assert Writable(Fields(s));
    }
  }

  lemma PatternLength(s: string)
    requires MatchesPattern(s)
    ensures |s| == 10
  {
  }

  /** Time values count from the first day of 1970. */
  lemma Epoch()
    ensures DayNumber(Civil(1970, 1, 1)) == 0
  {
    hide IsLeap, MakeDay, DayNumber;
    DayNumberOfReal(Civil(1970, 1, 1));
    FirstYear();
  }

  lemma FirstYear()
    ensures DayFromYear(1970) == 0
  {
  }

  /** For accepted dates the count is one plus the number of next-calendar-day steps from start to end. */
  lemma CountIsCalendarSteps(start: string, end: string, n: int)
    requires Accepted(start) && Accepted(end)
    ensures CountDaysInclusive(start, end) == Success(n) <==>
            n >= 1 && Fields(end) == Later(Fields(start), n - 1)
  {
    hide CountDaysInclusive, DayNumber, Fields, IsDigit, Real, Earlier;
    var a, b := Fields(start), Fields(end);
    CountIsDifference(start, end);
    if n >= 1 {
      LaterIsLater(a, n - 1);
      DayNumbersInOrder(b, Later(a, n - 1));
    }
  }

  lemma CountIsDifference(start: string, end: string)
    ensures CountDaysInclusive(start, end).Success? <==>
            Accepted(start) && Accepted(end) && DayNumber(Fields(start)) <= DayNumber(Fields(end))
    ensures CountDaysInclusive(start, end).Success? ==>
              CountDaysInclusive(start, end).value == DayNumber(Fields(end)) - DayNumber(Fields(start)) + 1
  {
    hide DayNumber, Fields, IsDigit, Real, ParseIsoDate;
    ParseAcceptsRealDates(start);
    ParseAcceptsRealDates(end);
    if Accepted(start) && Accepted(end) {
      var a, b := DayNumber(Fields(start)), DayNumber(Fields(end));
      assert b * MS_PER_DAY - a * MS_PER_DAY == (b - a) * MS_PER_DAY;
      WholeDays(b - a);
    }
  }

  /** What is thrown: an unreadable date comes before an inverted range. */
  lemma CountErrors(start: string, end: string)
    ensures CountDaysInclusive(start, end) == Failure(InvalidDate) <==> !Accepted(start) || !Accepted(end)
    ensures CountDaysInclusive(start, end) == Failure(EndBeforeStart) <==>
            Accepted(start) && Accepted(end) && Earlier(Fields(end), Fields(start))
  {
    hide DayNumber, Fields, IsDigit, Real, Earlier;
    ParseAcceptsRealDates(start);
    ParseAcceptsRealDates(end);
    if Accepted(start) && Accepted(end) {
      DayNumbersInOrder(Fields(end), Fields(start));
    }
  }

  lemma CountAtLeastOne(start: string, end: string)
    ensures CountDaysInclusive(start, end).Success? ==> CountDaysInclusive(start, end).value >= 1
  {
    CountIsDifference(start, end);
  }

  /** Splitting a range after any of its days loses and repeats no day. */
  lemma CountSplits(start: string, last: string, next: string, end: string)
    requires CountDaysInclusive(start, last).Success? && CountDaysInclusive(next, end).Success?
    requires Fields(next) == NextDay(Fields(last))
    ensures CountDaysInclusive(start, end) ==
            Success(CountDaysInclusive(start, last).value + CountDaysInclusive(next, end).value)
  {
    hide CountDaysInclusive, DayNumber, Fields, IsDigit, Real, NextDay;
    CountIsDifference(start, last);
    CountIsDifference(next, end);
    CountIsDifference(start, end);
    NextDayIsNext(Fields(last));
  }

  // ----- String order -----

  /** s and t first differ at k. */
  predicate DiffersAt(s: string, t: string, k: nat) {
    k < |s| && k < |t| && s[..k] == t[..k] && s[k] < t[k]
  }

  lemma {:induction false} FirstDifference(s: string, t: string) returns (k: nat)
    requires |s| == |t| && Less(s, t)
    ensures DiffersAt(s, t, k)
  {
    if s[0] < t[0] {
      k := 0;
    } else {
      k := FirstDifference(s[1..], t[1..]);
      assert s[..k + 1] == [s[0]] + s[1..][..k] && t[..k + 1] == [t[0]] + t[1..][..k];
      k := k + 1;
    }
  }

  lemma LessIsEarlier(s: string, t: string)
    requires Accepted(s) && Accepted(t) && Less(s, t)
    ensures Earlier(Fields(s), Fields(t))
  {
    var k := FirstDifference(s, t);
    forall i | 0 <= i < k ensures s[i] == t[i] {
      assert s[i] == s[..k][i] && t[i] == t[..k][i];
    }
    assert forall i :: 0 <= i < 10 && i != 4 && i != 7 ==> 0 <= Digit(s[i]) <= 9 && 0 <= Digit(t[i]) <= 9;
    assert Digit(s[k]) < Digit(t[k]);
  }

  /** Accepted strings sort as their dates do, and distinct accepted strings are distinct days. */
  lemma StringOrderIsDateOrder(s: string, t: string)
    requires Accepted(s) && Accepted(t)
    ensures ParseIsoDate(s).Success? && ParseIsoDate(t).Success?
    ensures Less(s, t) <==> ParseIsoDate(s).value < ParseIsoDate(t).value
    ensures s == t <==> ParseIsoDate(s).value == ParseIsoDate(t).value
  {
    hide ParseIsoDate, DayNumber, Fields, IsDigit, Real, Earlier, Less;
    ParseAcceptsRealDates(s);
    ParseAcceptsRealDates(t);
    DayNumbersInOrder(Fields(s), Fields(t));
    DayNumbersInOrder(Fields(t), Fields(s));
    LessIsTotal(s, t);
    if Less(s, t) { LessIsEarlier(s, t); }
    if Less(t, s) { LessIsEarlier(t, s); }
  }
}
