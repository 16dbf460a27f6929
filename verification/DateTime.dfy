/** The calendar of lib/datetime/datetime.c, in the fixed-width arithmetic of the original. */
module Calendar {

  type Timestamp = t: int | 0 <= t < 0x1_0000_0000   // uint32_t
  type Year = y: int | 0 <= y < 0x1_0000             // uint16_t
  type Small = n: int | 0 <= n < 0x100               // uint8_t

  const EPOCH := 1970
  const SECONDS_PER_DAY := 86400

  datatype DateTime = DateTime(year: Year, month: Small, day: Small, hour: Small, minute: Small, second: Small, weekday: Small)

  // ----- the calendar ------------------------------------------------------------

  predicate IsLeap(y: int) { (y % 4 == 0 && y % 100 != 0) || y % 400 == 0 }

  function DaysPerYear(y: int): int { if IsLeap(y) then 366 else 365 }

  function DaysPerMonth(leap: bool, month: int): (n: int)
    requires 1 <= month <= 12
    ensures 28 <= n <= 31
  {
    if month == 2 then (if leap then 29 else 28)
    else if month == 4 || month == 6 || month == 9 || month == 11 then 30
    else 31
  }

  /** Days from the epoch to 1 January of `y`. */
  function DaysBefore(y: int): (n: int)
    ensures n >= 0
    decreases y
  {
    if y <= EPOCH then 0 else DaysBefore(y - 1) + DaysPerYear(y - 1)
  }

  /** Days from 1 January to the first of the month. */
  function DaysBeforeMonth(leap: bool, month: int): (n: int)
    requires 0 <= month <= 13
    ensures n >= 0
  {
    if month <= 1 then 0 else DaysBeforeMonth(leap, month - 1) + DaysPerMonth(leap, month - 1)
  }

  lemma MonthsFillYear(leap: bool)
    ensures DaysBeforeMonth(leap, 13) == if leap then 366 else 365
  {
    assert DaysBeforeMonth(leap, 2) == 31;
    assert DaysBeforeMonth(leap, 3) == if leap then 60 else 59;
    assert DaysBeforeMonth(leap, 5) == if leap then 121 else 120;
    assert DaysBeforeMonth(leap, 7) == if leap then 182 else 181;
    assert DaysBeforeMonth(leap, 9) == if leap then 244 else 243;
    assert DaysBeforeMonth(leap, 11) == if leap then 305 else 304;
  }

  /** The lengths of the months by their closed form. */
  lemma DaysBeforeMonthClosed(leap: bool, m: int)
    requires 1 <= m <= 13
    ensures DaysBeforeMonth(leap, m) == (367 * m - 362) / 12 - if m <= 2 then 0 else if leap then 1 else 2
  {
    if m > 1 {
      DaysBeforeMonthClosed(leap, m - 1);
    }
  }

  /** A date and time that exist, with any weekday. */
  predicate Real(d: DateTime) {
    && EPOCH <= d.year && 1 <= d.month <= 12 && 1 <= d.day <= DaysPerMonth(IsLeap(d.year), d.month)
    && d.hour < 24 && d.minute < 60 && d.second < 60
  }

  function DayNumber(d: DateTime): int
    requires 1 <= d.month <= 12
  {
    DaysBefore(d.year) + DaysBeforeMonth(IsLeap(d.year), d.month) + d.day - 1
  }

  /** Seconds from the epoch, without any width. */
  function Seconds(d: DateTime): int
    requires 1 <= d.month <= 12
  {
    DayNumber(d) * SECONDS_PER_DAY + d.hour * 3600 + d.minute * 60 + d.second
  }

  /** Monday is 1; the epoch was a Thursday. */
  function Weekday(days: int): (w: int)
    requires days >= 0
    ensures 1 <= w <= 7
  {
    (days + 3) % 7 + 1
  }

  // ----- to a timestamp ------------------------------------------------------------

  function LeapYears(y: int): (n: nat)
    decreases y
  {
    if y <= EPOCH then 0 else LeapYears(y - 1) + if IsLeap(y - 1) then 1 else 0
  }

  function CommonYears(y: int): (n: nat)
    decreases y
  {
    if y <= EPOCH then 0 else CommonYears(y - 1) + if IsLeap(y - 1) then 0 else 1
  }

  function Wrap32(n: int): Timestamp { n % 0x1_0000_0000 }
  function Wrap8(n: int): Small { n % 0x100 }

  /** The seconds to the first of the month, by the 8-bit counts of common and leap years. */
  function MonthStart(d: DateTime): int
    requires d.month <= 13
  {
    (Wrap8(CommonYears(d.year)) * 365 + Wrap8(LeapYears(d.year)) * 366) * SECONDS_PER_DAY
      + DaysBeforeMonth(IsLeap(d.year), d.month) * SECONDS_PER_DAY
  }

  /** What datetime_datetime_to_timestamp computes, its 8-bit year counters and 32-bit sums included. */
  function ToTimestamp(d: DateTime): Timestamp
    requires d.month <= 13
  {
    Wrap32(MonthStart(d) + (d.day - 1) * SECONDS_PER_DAY + d.hour * 3600 + d.minute * 60 + d.second)
  }

  lemma WrapAdd(a: int, b: int)
    ensures Wrap32(Wrap32(a) + b) == Wrap32(a + b)
  {}

  lemma WrapSum(a: int, b: int, c: int, d: int, e: int)
    ensures Wrap32(Wrap32(Wrap32(Wrap32(Wrap32(a) + b) + c) + d) + e) == Wrap32(a + b + c + d + e)
  {
    WrapAdd(a, b);
    WrapAdd(a + b, c);
    WrapAdd(a + b + c, d);
    WrapAdd(a + b + c + d, e);
  }

  lemma WrapNext(n: int)
    ensures Wrap8(Wrap8(n) + 1) == Wrap8(n + 1)
  {}

  /** datetime_datetime_to_timestamp. A fourteenth month would read past the table. */
  method ConvertToTimestamp(d: DateTime) returns (timestamp: Timestamp)
    requires d.month <= 13
    ensures timestamp == ToTimestamp(d)
  {
    var years, leapYears := CountYears(d.year);
    timestamp := Wrap32((years * 365 + leapYears * 366) * SECONDS_PER_DAY);
    timestamp := AddMonths(timestamp, IsLeap(d.year), d.month, (years * 365 + leapYears * 366) * SECONDS_PER_DAY);
    WrapSum(MonthStart(d), (d.day - 1) * SECONDS_PER_DAY, d.hour * 3600, d.minute * 60, d.second);
    timestamp := Wrap32(timestamp + (d.day - 1) * SECONDS_PER_DAY);
    timestamp := Wrap32(timestamp + d.hour * 3600);
    timestamp := Wrap32(timestamp + d.minute * 60);
    timestamp := Wrap32(timestamp + d.second);
  }

  /** Its year loop. */
  method CountYears(year: Year) returns (years: Small, leapYears: Small)
    ensures years == Wrap8(CommonYears(year)) && leapYears == Wrap8(LeapYears(year))
  {
    years, leapYears := 0, 0;
    var y: int := EPOCH;
    while y < year
      invariant y <= year || y == EPOCH
      invariant years == Wrap8(CommonYears(y)) && leapYears == Wrap8(LeapYears(y))
    {
      WrapNext(LeapYears(y));
      WrapNext(CommonYears(y));
      if IsLeap(y) {
        leapYears := Wrap8(leapYears + 1);
      } else {
        years := Wrap8(years + 1);
      }
      y := y + 1;
    }
    BeforeEpoch(year, y);
  }

  /** Its month loop; `sum` is the count so far without its width. */
  method AddMonths(start: Timestamp, leap: bool, month: Small, ghost sum: int) returns (timestamp: Timestamp)
    requires month <= 13 && start == Wrap32(sum)
    ensures timestamp == Wrap32(sum + DaysBeforeMonth(leap, month) * SECONDS_PER_DAY)
  {
    timestamp := start;
    var m := 1;
    while m < month
      invariant m <= month || (m == 1 && month == 0)
      invariant timestamp == Wrap32(sum + DaysBeforeMonth(leap, m) * SECONDS_PER_DAY)
    {
      WrapAdd(sum + DaysBeforeMonth(leap, m) * SECONDS_PER_DAY, DaysPerMonth(leap, m) * SECONDS_PER_DAY);
      timestamp := Wrap32(timestamp + DaysPerMonth(leap, m) * SECONDS_PER_DAY);
      m := m + 1;
    }
  }

  lemma BeforeEpoch(year: int, y: int)
    requires y == year || (y == EPOCH && year <= EPOCH)
    ensures CommonYears(y) == CommonYears(year) && LeapYears(y) == LeapYears(year)
  {}

  // ----- from a timestamp -----------------------------------------------------------

  /** The year loop: the year, and the days left in it. */
  function FindYear(days: nat, y: int): (r: (int, nat))
    ensures r.1 < DaysPerYear(r.0) && y <= r.0 && r.1 <= days
    ensures 365 * (r.0 - y) + r.1 <= days
    decreases days
  {
    if days < DaysPerYear(y) then (y, days) else FindYear(days - DaysPerYear(y), y + 1)
  }

  /** The days are fewer than those from the month to the end of the year. */
  predicate MonthsFit(leap: bool, m: int, days: int)
    requires 1 <= m <= 12
  {
    0 <= days < DaysBeforeMonth(leap, 13) - DaysBeforeMonth(leap, m)
  }

  /** The month loop; it never runs past December. */
  function FindMonth(days: nat, leap: bool, m: int): (r: (int, nat))
    requires 1 <= m <= 12 && MonthsFit(leap, m, days)
    ensures m <= r.0 <= 12 && r.1 < DaysPerMonth(leap, r.0)
    ensures DaysBeforeMonth(leap, r.0) + r.1 == DaysBeforeMonth(leap, m) + days
    decreases days
  {
    if days < DaysPerMonth(leap, m) then (m, days)
    else FindMonth(days - DaysPerMonth(leap, m), leap, m + 1)
  }

  function FromTimestamp(t: Timestamp): DateTime {
    var days, seconds := t / SECONDS_PER_DAY, t % SECONDS_PER_DAY;
    var (year, inYear) := FindYear(days, EPOCH);
    MonthsFillYear(IsLeap(year));
    var (month, inMonth) := FindMonth(inYear, IsLeap(year), 1);
    DateTime(year, month, inMonth + 1, seconds / 3600, seconds % 3600 / 60, seconds % 60, Weekday(days))
  }

  /** datetime_timestamp_to_datetime: both loops end, with the month at most 12. */
  method ConvertFromTimestamp(timestamp: Timestamp) returns (d: DateTime)
    ensures d == FromTimestamp(timestamp)
  {
    var secondsInDay := timestamp % SECONDS_PER_DAY;
    var weekday := (timestamp / SECONDS_PER_DAY + 3) % 7 + 1;
    var year, inYear := TakeYears(timestamp / SECONDS_PER_DAY);
    MonthsFillYear(IsLeap(year));
    var month, inMonth := TakeMonths(inYear, IsLeap(year));
    d := DateTime(year, month, inMonth + 1, secondsInDay / 3600, secondsInDay % 3600 / 60, secondsInDay % 60, weekday);
  }

  /** Its year loop. */
  method TakeYears(count: nat) returns (year: int, days: nat)
    ensures (year, days) == FindYear(count, EPOCH)
  {
    days, year := count, EPOCH;
    while days >= DaysPerYear(year)
      invariant FindYear(days, year) == FindYear(count, EPOCH)
      decreases days
    {
      days := days - DaysPerYear(year);
      year := year + 1;
    }
  }

  /** Its month loop. */
  method TakeMonths(count: nat, leap: bool) returns (month: int, days: nat)
    requires MonthsFit(leap, 1, count)
    ensures (month, days) == FindMonth(count, leap, 1)
  {
    days, month := count, 1;
    while days >= DaysPerMonth(leap, month)
      invariant 1 <= month <= 12 && MonthsFit(leap, month, days)
      invariant FindMonth(days, leap, month) == FindMonth(count, leap, 1)
      decreases days
    {
      days := days - DaysPerMonth(leap, month);
      month := month + 1;
    }
  }

  // ----- round trips ------------------------------------------------------------------

  lemma {:induction false} FindYearSums(days: nat, y: int)
    requires y >= EPOCH
    ensures DaysBefore(FindYear(days, y).0) + FindYear(days, y).1 == DaysBefore(y) + days
    decreases days
  {
    if days >= DaysPerYear(y) {
      FindYearSums(days - DaysPerYear(y), y + 1);
    }
  }

  lemma SplitDay(s: int)
    requires 0 <= s < SECONDS_PER_DAY
    ensures s == s / 3600 * 3600 + s % 3600 / 60 * 60 + s % 60
    ensures s / 3600 < 24 && s % 3600 / 60 < 60
  {}

  /** Every timestamp becomes a real date that lies exactly that many seconds after the epoch. */
  lemma FromTimestampExact(t: Timestamp)
    ensures var d := FromTimestamp(t);
            Real(d) && Seconds(d) == t && d.weekday == Weekday(DayNumber(d)) && d.year <= 2106
  {
    var days, s := t / SECONDS_PER_DAY, t % SECONDS_PER_DAY;
    var (year, inYear) := FindYear(days, EPOCH);
    FindYearSums(days, EPOCH);
    MonthsFillYear(IsLeap(year));
    SplitDay(s);
  }

  lemma {:induction false} YearCounts(y: int)
    requires y >= EPOCH
    ensures CommonYears(y) * 365 + LeapYears(y) * 366 == DaysBefore(y) && CommonYears(y) + LeapYears(y) == y - EPOCH
    decreases y
  {
    if y > EPOCH { YearCounts(y - 1); }
  }

  /** The result is the exact count modulo 2^32 up to the year 2306, when the 8-bit counters of common and leap years
      are last large enough, and in no later year. */
  lemma ToTimestampWraps(d: DateTime)
    requires Real(d)
    ensures ToTimestamp(d) == Wrap32(Seconds(d)) <==> d.year <= 2306
  {
    CountersFit(d.year);
    CountersLose(d);
    if d.year > 2306 { LostShows(Seconds(d), Lost(d.year)); }
  }

  /** The days the counters lose, in units of 256. */
  function Lost(y: int): (n: nat) { CommonYears(y) / 256 * 365 + LeapYears(y) / 256 * 366 }

  lemma CountersLose(d: DateTime)
    requires Real(d)
    ensures ToTimestamp(d) == Wrap32(Seconds(d) - Lost(d.year) * 256 * SECONDS_PER_DAY)
  {
    YearCounts(d.year);
    assert MonthStart(d) == (DaysBefore(d.year) - Lost(d.year) * 256 + DaysBeforeMonth(IsLeap(d.year), d.month)) * SECONDS_PER_DAY by {
      BothLose(CommonYears(d.year), LeapYears(d.year));
    }
  }

  lemma BothLose(c: nat, l: nat)
    ensures Wrap8(c) * 365 + Wrap8(l) * 366 == c * 365 + l * 366 - (c / 256 * 365 + l / 256 * 366) * 256
  {}

  /** What the counters lose is never a multiple of 2^32 seconds. */
  lemma LostShows(seconds: int, lost: int)
    requires 0 < lost < 0x2_0000
    ensures Wrap32(seconds - lost * 256 * SECONDS_PER_DAY) != Wrap32(seconds)
  {
    OddFactor(lost, seconds / 0x1_0000_0000 - (seconds - lost * 256 * SECONDS_PER_DAY) / 0x1_0000_0000);
  }

  /** The odd part of the seconds of 256 days, 675, has an inverse modulo 2^17. */
  lemma OddFactor(lost: int, whole: int)
    ensures 675 * lost == 0x2_0000 * whole ==> lost % 0x2_0000 == 0
  {
    if 675 * lost == 0x2_0000 * whole {
      assert lost == 0x2_0000 * (114955 * whole - 592 * lost);
    }
  }

  lemma CountersFit(y: Year)
    requires EPOCH <= y
    ensures y <= 2306 ==> Lost(y) == 0
    ensures y > 2306 ==> 0 < Lost(y) < 0x2_0000
  {
    var last, first := 2306, 2307;
    LastYears(last, first);
    YearCounts(y);
    if y <= 2306 { CountsGrow(y, last); } else { CountsGrow(first, y); }
  }

  lemma LastYears(last: int, first: int)
    requires last == 2306 && first == 2307
    ensures CommonYears(last) == 255 && LeapYears(last) == 81 && CommonYears(first) == 256
  {
    CountsClosed(last);
    CountsClosed(first);
  }

  lemma CountsClosed(y: int)
    requires y >= EPOCH
    ensures LeapYears(y) == LeapsThrough(y - 1) - 477 && CommonYears(y) == y - EPOCH - LeapYears(y)
  {
    DaysBeforeClosed(y);
    YearCounts(y);
    LeapsAtEpoch();
  }

  lemma LeapsAtEpoch()
    ensures LeapsThrough(EPOCH - 1) == 477
  {}

  lemma {:induction false} CountsGrow(a: int, b: int)
    requires EPOCH <= a <= b
    ensures CommonYears(a) <= CommonYears(b) && LeapYears(a) <= LeapYears(b)
    decreases b - a
  {
    if a < b { CountsGrow(a, b - 1); }
  }

  /** Timestamp to date and back is the identity. */
  lemma TimestampRoundTrip(t: Timestamp)
    ensures 1 <= FromTimestamp(t).month <= 12 && ToTimestamp(FromTimestamp(t)) == t
  {
    FromTimestampExact(t);
    ToTimestampWraps(FromTimestamp(t));
  }

  /** A day number belongs to one year only. */
  lemma OneYear(a: int, r: nat, b: int, q: nat)
    requires EPOCH <= a && EPOCH <= b && r < DaysPerYear(a) && q < DaysPerYear(b)
    requires DaysBefore(a) + r == DaysBefore(b) + q
    ensures a == b && r == q
  {
    if a < b { YearsPass(a, b); }
    if b < a { YearsPass(b, a); }
  }

  /** A day of the year belongs to one month only. */
  lemma OneMonth(leap: bool, a: int, r: nat, b: int, q: nat)
    requires 1 <= a <= 12 && 1 <= b <= 12 && r < DaysPerMonth(leap, a) && q < DaysPerMonth(leap, b)
    requires DaysBeforeMonth(leap, a) + r == DaysBeforeMonth(leap, b) + q
    ensures a == b && r == q
  {
    if a < b { MonthsPass(leap, a, b); }
    if b < a { MonthsPass(leap, b, a); }
  }

  lemma {:induction false} MonthEnd(leap: bool, month: int)
    requires 1 <= month <= 12
    ensures DaysBeforeMonth(leap, month) + DaysPerMonth(leap, month) == DaysBeforeMonth(leap, month + 1) <= DaysBeforeMonth(leap, 13)
    decreases 12 - month
  {
    if month < 12 { MonthEnd(leap, month + 1); }
  }

  lemma DateOfSeconds(d: DateTime)
    requires Real(d) && 0 <= Seconds(d) < 0x1_0000_0000
    ensures FromTimestamp(Seconds(d)) == d.(weekday := Weekday(DayNumber(d)))
  {
    ClockParts(d);
    DayParts(d);
  }

  lemma ClockParts(d: DateTime)
    requires Real(d)
    ensures Seconds(d) / SECONDS_PER_DAY == DayNumber(d)
    ensures var s := Seconds(d) % SECONDS_PER_DAY;
            s / 3600 == d.hour && s % 3600 / 60 == d.minute && s % 60 == d.second
  {
    var s := d.hour * 3600 + d.minute * 60 + d.second;
    assert Seconds(d) / SECONDS_PER_DAY == DayNumber(d) && Seconds(d) % SECONDS_PER_DAY == s;
  }

  lemma DayParts(d: DateTime)
    requires Real(d)
    ensures DayNumber(d) >= 0
    ensures var inYear := DaysBeforeMonth(IsLeap(d.year), d.month) + d.day - 1;
            && FindYear(DayNumber(d), EPOCH) == (d.year, inYear)
            && MonthsFit(IsLeap(d.year), 1, inYear) && FindMonth(inYear, IsLeap(d.year), 1) == (d.month, d.day - 1)
  {
    var inYear := DaysBeforeMonth(IsLeap(d.year), d.month) + d.day - 1;
    MonthPart(IsLeap(d.year), d.month, d.day - 1);
    FindYearSums(DayNumber(d), EPOCH);
    var found := FindYear(DayNumber(d), EPOCH);
    OneYear(found.0, found.1, d.year, inYear);
  }

  lemma MonthPart(leap: bool, month: int, r: nat)
    requires 1 <= month <= 12 && r < DaysPerMonth(leap, month)
    ensures var days := DaysBeforeMonth(leap, month) + r;
            days < (if leap then 366 else 365) && MonthsFit(leap, 1, days) && FindMonth(days, leap, 1) == (month, r)
  {
    var days := DaysBeforeMonth(leap, month) + r;
    MonthEnd(leap, month);
    MonthsFillYear(leap);
    var found := FindMonth(days, leap, 1);
    OneMonth(leap, found.0, found.1, month, r);
  }

  /** A real date survives the trip to a timestamp and back exactly when a 32-bit count can hold it and its
      weekday is the right one. */
  lemma DateRoundTripExact(d: DateTime)
    requires Real(d)
    ensures FromTimestamp(ToTimestamp(d)) == d <==> Seconds(d) < 0x1_0000_0000 && d.weekday == Weekday(DayNumber(d))
  {
    OnlyWithinRange(d, ToTimestamp(d));
    if Seconds(d) < 0x1_0000_0000 {
      WithinRange(d);
      DateOfSeconds(d);
    }
  }

  /** 7 February 2106, 6:28:16, a Sunday, is 2^32 seconds after the epoch. */
  lemma FirstTooLate() returns (d: DateTime)
    ensures Real(d) && Seconds(d) == 0x1_0000_0000 && d.weekday == Weekday(DayNumber(d)) && d.year <= 2306
  {
    d := DateTime(2106, 2, 7, 6, 28, 16, 7);
    LostDay(d);
  }

  lemma LostDay(d: DateTime)
    requires d.year == 2106 && d.month == 2 && d.day == 7
    ensures DayNumber(d) == 49710
  {
    DaysBeforeClosed(d.year);
    assert DaysBeforeMonth(IsLeap(d.year), d.month) == 31;
  }

  /** It is a date that does not come back: its timestamp is that of the first second of 1970. */
  lemma DateLost() returns (d: DateTime)
    ensures Real(d) && Seconds(d) == 0x1_0000_0000 && d.weekday == Weekday(DayNumber(d))
    ensures ToTimestamp(d) == 0 && FromTimestamp(ToTimestamp(d)) != d
  {
    d := FirstTooLate();
    OnlyWithinRange(d, ToTimestamp(d));
    ToTimestampWraps(d);
  }

  lemma OnlyWithinRange(d: DateTime, t: Timestamp)
    ensures FromTimestamp(t) == d ==> 1 <= d.month <= 12 && Seconds(d) < 0x1_0000_0000 && d.weekday == Weekday(DayNumber(d))
  {
    FromTimestampExact(t);
  }

  lemma WithinRange(d: DateTime)
    requires Real(d) && Seconds(d) < 0x1_0000_0000
    ensures Seconds(d) >= 0 && ToTimestamp(d) == Seconds(d)
  {
    YearsPass(EPOCH, d.year);
    ToTimestampWraps(d);
  }

  lemma {:induction false} YearsPass(a: int, b: int)
    requires EPOCH <= a <= b
    ensures DaysBefore(b) >= DaysBefore(a) + 365 * (b - a)
    ensures a < b ==> DaysBefore(b) >= DaysBefore(a) + DaysPerYear(a)
    decreases b - a
  {
    if a < b { YearsPass(a, b - 1); }
  }

  /** The Gregorian count of leap years up to and including `y`. */
  function LeapsThrough(y: int): int { y / 4 - y / 100 + y / 400 }

  lemma {:induction false} DaysBeforeClosed(y: int)
    requires y >= EPOCH
    ensures DaysBefore(y) == 365 * (y - EPOCH) + LeapsThrough(y - 1) - LeapsThrough(EPOCH - 1)
    decreases y
  {
    if y > EPOCH {
      DaysBeforeClosed(y - 1);
      LeapStep(y - 1);
    }
  }

  lemma LeapStep(y: int)
    ensures LeapsThrough(y) == LeapsThrough(y - 1) + if IsLeap(y) then 1 else 0
  {
    FoursStep(y);
    HundredsStep(y);
    FourHundredsStep(y);
  }

  lemma FoursStep(y: int)
    ensures y / 4 == (y - 1) / 4 + if y % 4 == 0 then 1 else 0
  {}

  lemma HundredsStep(y: int)
    ensures y / 100 == (y - 1) / 100 + if y % 100 == 0 then 1 else 0
    ensures y % 100 == 0 ==> y % 4 == 0
  {}

  lemma FourHundredsStep(y: int)
    ensures y / 400 == (y - 1) / 400 + if y % 400 == 0 then 1 else 0
    ensures y % 400 == 0 ==> y % 100 == 0
  {}

  /** So every date and time from 1970 through 2105 makes the round trip. */
  lemma DateRoundTrip(d: DateTime)
    requires Real(d) && d.year <= 2105 && d.weekday == Weekday(DayNumber(d))
    ensures FromTimestamp(ToTimestamp(d)) == d
  {
    YearsPass(d.year, 2105);
    DaysBeforeClosed(2106);
    YearsPass(d.year, 2106);
    MonthEnd(IsLeap(d.year), d.month);
    MonthsFillYear(IsLeap(d.year));
    DateRoundTripExact(d);
  }

  // ----- order ------------------------------------------------------------------------------

  /** Calendar order. */
  predicate Earlier(a: DateTime, b: DateTime) {
    a.year < b.year || (a.year == b.year &&
      (a.month < b.month || (a.month == b.month &&
        (a.day < b.day || (a.day == b.day &&
          (a.hour < b.hour || (a.hour == b.hour &&
            (a.minute < b.minute || (a.minute == b.minute && a.second < b.second)))))))))
  }

  lemma EarlierDay(a: DateTime, b: DateTime)
    requires Real(a) && Real(b) && Earlier(a, b) && (a.year, a.month, a.day) != (b.year, b.month, b.day)
    ensures DayNumber(a) < DayNumber(b)
  {
    MonthEnd(IsLeap(a.year), a.month);
    if a.year < b.year {
      MonthsFillYear(IsLeap(a.year));
      YearsPass(a.year, b.year);
    } else if a.month < b.month {
      MonthsPass(IsLeap(a.year), a.month, b.month);
    }
  }

  lemma {:induction false} MonthsPass(leap: bool, a: int, b: int)
    requires 1 <= a < b <= 13
    ensures DaysBeforeMonth(leap, b) >= DaysBeforeMonth(leap, a) + DaysPerMonth(leap, a)
    decreases b - a
  {
    if a + 1 < b { MonthsPass(leap, a, b - 1); }
  }

  lemma EarlierIsLess(a: DateTime, b: DateTime)
    requires Real(a) && Real(b) && Earlier(a, b)
    ensures Seconds(a) < Seconds(b)
  {
    if (a.year, a.month, a.day) != (b.year, b.month, b.day) { EarlierDay(a, b); }
  }

  /** Later timestamps are later dates, and conversely. */
  lemma Monotone(t: Timestamp, u: Timestamp)
    ensures t < u <==> Earlier(FromTimestamp(t), FromTimestamp(u))
  {
    FromTimestampExact(t);
    FromTimestampExact(u);
    var a, b := FromTimestamp(t), FromTimestamp(u);
    Ordered(a, b);
  }

  lemma Ordered(a: DateTime, b: DateTime)
    requires Real(a) && Real(b)
    ensures Earlier(a, b) <==> Seconds(a) < Seconds(b)
  {
    if Earlier(a, b) {
      EarlierIsLess(a, b);
    } else if Earlier(b, a) {
      EarlierIsLess(b, a);
    }
  }

  /** The weekday moves on by one each day, Sunday being followed by Monday. */
  lemma WeekdayAdvances(t: Timestamp)
    requires t + SECONDS_PER_DAY < 0x1_0000_0000
    ensures FromTimestamp(t + SECONDS_PER_DAY).weekday == if FromTimestamp(t).weekday == 7 then 1 else FromTimestamp(t).weekday + 1
  {
    assert (t + SECONDS_PER_DAY) / SECONDS_PER_DAY == t / SECONDS_PER_DAY + 1;
    NextWeekday(t / SECONDS_PER_DAY);
    WeekdayOf(t);
    WeekdayOf(t + SECONDS_PER_DAY);
  }

  lemma WeekdayOf(t: Timestamp)
    ensures FromTimestamp(t).weekday == Weekday(t / SECONDS_PER_DAY)
  {}

  lemma NextWeekday(days: nat)
    ensures Weekday(days + 1) == if Weekday(days) == 7 then 1 else Weekday(days) + 1
  {}

  lemma Epoch()
    ensures FromTimestamp(0) == DateTime(1970, 1, 1, 0, 0, 0, 4)
  {
    assert FindYear(0, EPOCH) == (EPOCH, 0);
  }
}
