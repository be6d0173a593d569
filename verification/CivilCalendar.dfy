/** Unix seconds to a civil UTC date, as the documentation generator stamps its output.

The algorithm works on days counted from 1 March of a 400-year era.  Its partner here is the
plain January-based count of RFC 3339, Appendix C (leap years) and section 5.7 (field ranges):
`DayNumber` sums year and month lengths, and `NextDay` walks the calendar.
*/
module CivilCalendar {

  // Machine integers: every operation on them is checked against the type's range.
  newtype i64 = x: int | -0x8000_0000_0000_0000 <= x < 0x8000_0000_0000_0000
  newtype u64 = x: int | 0 <= x < 0x1_0000_0000_0000_0000

  datatype Date = Date(year: int, month: int, day: int)
  datatype Stamp = Stamp(date: Date, hour: int, minute: int, second: int)

  const SECONDS_PER_DAY := 86_400
  const DAYS_PER_ERA := 146_097
  // Days from 0000-03-01 to 1970-01-01.
  const EPOCH_SHIFT := 719_468

  // ----- The program -----------------------------------------------------------------------

  /** Division of the source language on signed integers: towards zero. */
  function TruncatedDiv(a: i64, b: i64): (q: i64)
    requires b > 0
    ensures a >= 0 ==> q as int == a as int / b as int
    ensures a < 0 ==> q as int == -(-(a as int) / b as int)
  {
    if a >= 0 then a / b else (-(-(a as int) / b as int)) as i64
  }

  function EraAndDay64(z: i64): (r: (i64, u64))
    requires -200_000_000_800_000 <= z <= 200_000_000_800_000
    ensures r.0 as int == z as int / DAYS_PER_ERA && -2_000_000_000 <= r.0 <= 2_000_000_000
    ensures r.1 as int == z as int % DAYS_PER_ERA && r.1 < 146_097
  {
    var era := TruncatedDiv(if z >= 0 then z else z - 146_096, DAYS_PER_ERA as i64);
    (era, (z - era * 146_097) as u64)
  }

  function YearOfEra64(doe: u64): (yoe: u64)
    requires doe < 146_097
    ensures yoe as int == YearOfEra(doe as int) <= 399
    ensures 0 <= doe as int - MarchYearStart(yoe as int) <= 365
  {
    YearOfEraIsRight(doe as int);
    (doe - doe / 1460 + doe / 36524 - doe / 146_096) / 365
  }

  function DayOfYear64(doe: u64, yoe: u64): (doy: u64)
    requires yoe <= 399 && 0 <= doe as int - MarchYearStart(yoe as int) <= 365
    ensures doy as int == doe as int - MarchYearStart(yoe as int)
  {
    doe - (365 * yoe + yoe / 4 - yoe / 100)
  }

  function MonthAndDay64(doy: u64): (md: (u64, u64))
    requires doy <= 365
    ensures md.0 as int == DateInMarchYear(0, doy as int).month && md.1 as int == DateInMarchYear(0, doy as int).day
    ensures 1 <= md.0 <= 12
  {
    var mp := (5 * doy + 2) / 153;
    var d := doy - (153 * mp + 2) / 5 + 1;
    (if mp < 10 then mp + 3 else mp - 9, d)
  }

  /** `civil_from_days`, on the program's own integer types: that this verifies says no
      subtraction underflows and no cast loses a value. */
  function CivilFromDays(days: i64): (r: Date)
    requires -200_000_000_000_000 <= days <= 200_000_000_000_000
  {
    var z := days + EPOCH_SHIFT as i64;
    var (era, doe) := EraAndDay64(z);
    var yoe := YearOfEra64(doe);
    var y := yoe as i64 + era * 400;
    var (m, d) := MonthAndDay64(DayOfYear64(doe, yoe));
    var year := if m <= 2 then y + 1 else y;
    Date(year as int, m as int, d as int)
  }

  /** The numeric fields of `format_iso_utc`. */
  function IsoUtc(secs: i64): Stamp {
    var days := secs as int / SECONDS_PER_DAY;
    var timeOfDay := secs as int % SECONDS_PER_DAY;
    Stamp(CivilFromDays(days as i64), timeOfDay / 3600, timeOfDay % 3600 / 60, timeOfDay % 60)
  }

  // ----- The calendar ----------------------------------------------------------------------

  predicate IsLeap(year: int) {
    year % 4 == 0 && (year % 100 != 0 || year % 400 == 0)
  }

  function DaysInMonth(year: int, month: int): int {
    if month == 2 then (if IsLeap(year) then 29 else 28)
    else if month == 4 || month == 6 || month == 9 || month == 11 then 30
    else 31
  }

  predicate ValidDate(date: Date) {
    1 <= date.month <= 12 && 1 <= date.day <= DaysInMonth(date.year, date.month)
  }

  function NextDay(date: Date): Date {
    if date.day < DaysInMonth(date.year, date.month) then date.(day := date.day + 1)
    else if date.month < 12 then Date(date.year, date.month + 1, 1)
    else Date(date.year + 1, 1, 1)
  }

  function DaysBeforeYear(year: int): int {
    365 * (year - 1) + (year - 1) / 4 - (year - 1) / 100 + (year - 1) / 400
  }

  function DaysBeforeMonth(year: int, month: nat): int {
    if month <= 1 then 0 else DaysBeforeMonth(year, month - 1) + DaysInMonth(year, month - 1)
  }

  /** Days since 1970-01-01, counted from 1 January. */
  function DayNumber(date: Date): int
    requires ValidDate(date)
  {
    DaysBeforeYear(date.year) - DaysBeforeYear(1970) + DaysBeforeMonth(date.year, date.month) + date.day - 1
  }

  // ----- Arithmetic behind the algorithm ---------------------------------------------------

  function MarchYearStart(yoe: int): int {
    365 * yoe + yoe / 4 - yoe / 100
  }

  function YearOfEra(doe: int): int {
    (doe - doe / 1460 + doe / 36524 - doe / 146_096) / 365
  }

  /** The three quotients of the formula, for a day at offset `t` of year `100 * c + 4 * q + p`. */
  lemma Quotients(c: int, q: int, p: int, t: int, doe: int, e: int)
    requires 0 <= c <= 3 && 0 <= q <= 24 && 0 <= p <= 3 && 0 <= t <= 365
    requires t == 365 ==> p == 3 && (q == 24 ==> c == 3)
    requires doe == 36524 * c + 1461 * q + 365 * p + t
    requires e == if 24 * c + q + 365 * p + t >= 1460 then 1 else 0
    ensures doe / 1460 == 25 * c + q + e
    ensures doe / 36524 - doe / 146_096 == c
    ensures e == 1 ==> p == 3 && t > 0
  {
    assert doe == 1460 * (25 * c + q) + (24 * c + q + 365 * p + t);
  }

  /** A day of the era sits at offset `t` of year `100 * c + 4 * q + p`. */
  lemma {:induction false} YearOfEraAt(c: int, q: int, p: int, t: int)
    requires 0 <= c <= 3 && 0 <= q <= 24 && 0 <= p <= 3 && 0 <= t <= 365
    requires t == 365 ==> p == 3 && (q == 24 ==> c == 3)
    ensures MarchYearStart(100 * c + 4 * q + p) == 36524 * c + 1461 * q + 365 * p
    ensures YearOfEra(36524 * c + 1461 * q + 365 * p + t) == 100 * c + 4 * q + p
  {
    var year := 100 * c + 4 * q + p;
    assert year / 4 == 25 * c + q && year / 100 == c;
    var doe := 36524 * c + 1461 * q + 365 * p + t;
    var e := if 24 * c + q + 365 * p + t >= 1460 then 1 else 0;
    Quotients(c, q, p, t, doe, e);
    assert doe - doe / 1460 + doe / 36524 - doe / 146_096 == 365 * year + (t - e);
  }

  lemma LastYearOfCycleIsLeap(c: int, q: int)
    requires 0 <= c <= 3 && 0 <= q <= 24 && (q == 24 ==> c == 3)
    ensures IsLeap(100 * c + 4 * q + 4)
  {
    assert 100 * c + 4 * q + 4 == 4 * (25 * c + q + 1);
    assert q < 24 ==> (100 * c + 4 * q + 4) % 100 == 4 * q + 4;
  }

  lemma SplitDayOfEra(doe: int) returns (c: int, q: int, p: int, t: int)
    requires 0 <= doe < DAYS_PER_ERA
    ensures 0 <= c <= 3 && 0 <= q <= 24 && 0 <= p <= 3 && 0 <= t <= 365
    ensures t == 365 ==> p == 3 && (q == 24 ==> c == 3)
    ensures doe == 36524 * c + 1461 * q + 365 * p + t
  {
    c := if doe < 146_096 then doe / 36524 else 3;
    var inCentury := doe - 36524 * c;
    q := inCentury / 1461;
    var inCycle := inCentury - 1461 * q;
    p := if inCycle < 1460 then inCycle / 365 else 3;
    t := inCycle - 365 * p;
  }

  /** The closed formula finds the March-based year that contains day `doe` of the era. */
  lemma {:induction false} YearOfEraIsRight(doe: int)
    requires 0 <= doe < DAYS_PER_ERA
    ensures 0 <= YearOfEra(doe) <= 399
    ensures 0 <= doe - MarchYearStart(YearOfEra(doe)) <= 365
    ensures doe - MarchYearStart(YearOfEra(doe)) == 365 ==> IsLeap(YearOfEra(doe) + 1)
  {
    var c, q, p, t := SplitDayOfEra(doe);
    YearOfEraAt(c, q, p, t);
    if t == 365 { LastYearOfCycleIsLeap(c, q); }
  }

  // ----- Main results ----------------------------------------------------------------------

  /** Day `doy` of the March-based year that starts on 1 March of year `y`. */
  function DateInMarchYear(y: int, doy: int): Date {
    var mp := (5 * doy + 2) / 153;
    var m := if mp < 10 then mp + 3 else mp - 9;
    Date(if m <= 2 then y + 1 else y, m, doy - (153 * mp + 2) / 5 + 1)
  }

  /** `civil_from_days` on unbounded integers. */
  function CivilOf(days: int): Date {
    var z := days + EPOCH_SHIFT;
    var doe := z % DAYS_PER_ERA;
    var yoe := YearOfEra(doe);
    DateInMarchYear(yoe + z / DAYS_PER_ERA * 400, doe - MarchYearStart(yoe))
  }

  lemma MachineIntegersLoseNothing(days: i64)
    requires -200_000_000_000_000 <= days <= 200_000_000_000_000
    ensures CivilFromDays(days) == CivilOf(days as int)
  {
    var z := days + EPOCH_SHIFT as i64;
    var (era, doe) := EraAndDay64(z);
    var yoe := YearOfEra64(doe);
    assert z as int == days as int + EPOCH_SHIFT;
    assert DateInMarchYear(yoe as int + era as int * 400, DayOfYear64(doe, yoe) as int) == CivilOf(days as int);
  }

  /** Years, months and days of the two counts line up: March-based (`yoe`, `doy`) against 1 January. */
  lemma DaysBeforeMonthClosed(year: int, month: int)
    requires 1 <= month <= 12
    ensures DaysBeforeMonth(year, month) ==
            if month <= 2 then 31 * (month - 1)
            else (153 * (month - 3) + 2) / 5 + (if IsLeap(year) then 60 else 59)
  {
    var leap := if IsLeap(year) then 1 else 0;
    assert DaysBeforeMonth(year, 2) == 31;
    assert DaysBeforeMonth(year, 3) == 59 + leap;
    assert DaysBeforeMonth(year, 4) == 90 + leap;
    assert DaysBeforeMonth(year, 5) == 120 + leap;
    assert DaysBeforeMonth(year, 6) == 151 + leap;
    assert DaysBeforeMonth(year, 7) == 181 + leap;
    assert DaysBeforeMonth(year, 8) == 212 + leap;
    assert DaysBeforeMonth(year, 9) == 243 + leap;
    assert DaysBeforeMonth(year, 10) == 273 + leap;
    assert DaysBeforeMonth(year, 11) == 304 + leap;
    assert DaysBeforeMonth(year, 12) == 334 + leap;
  }

  lemma Over100(q: int, r: int)
    requires 0 <= r < 100
    ensures (100 * q + r) / 100 == q && (100 * q + r) % 4 == r % 4
  {
    assert 100 * q + r == 4 * (25 * q) + r;
  }

  lemma {:induction false} Every100(x: int)
    ensures x / 100 - (x - 1) / 100 == if x % 100 == 0 then 1 else 0
    ensures x % 100 == 0 ==> x % 4 == 0
  {
    var q, r := x / 100, x % 100;
    if r == 0 { Over100(q - 1, 99); } else { Over100(q, r - 1); }
    Over100(q, r);
  }

  lemma Over400(q: int, r: int)
    requires 0 <= r < 400
    ensures (400 * q + r) / 400 == q && (400 * q + r) % 100 == r % 100
  {
    assert 400 * q + r == 100 * (4 * q) + r;
  }

  lemma {:induction false} Every400(x: int)
    ensures x / 400 - (x - 1) / 400 == if x % 400 == 0 then 1 else 0
    ensures x % 400 == 0 ==> x % 100 == 0
  {
    var q, r := x / 400, x % 400;
    if r == 0 { Over400(q - 1, 399); } else { Over400(q, r - 1); }
    Over400(q, r);
  }

  lemma {:induction false} YearLength(year: int)
    ensures DaysBeforeYear(year + 1) - DaysBeforeYear(year) == if IsLeap(year) then 366 else 365
  {
    Every100(year);
    Every400(year);
  }

  /** Years of one era and years of the calendar. */
  lemma {:induction false} EraShift(yoe: int, era: int)
    requires 0 <= yoe <= 399
    ensures DaysBeforeYear(yoe + 400 * era + 1) == MarchYearStart(yoe) + DAYS_PER_ERA * era
    ensures IsLeap(yoe + 400 * era + 1) == IsLeap(yoe + 1)
  {
    ShiftBy400(yoe, era);
    LeapShift(yoe + 1, era);
  }

  lemma ShiftBy400(yoe: int, era: int)
    requires 0 <= yoe <= 399
    ensures (yoe + 400 * era) / 4 == yoe / 4 + 100 * era
    ensures (yoe + 400 * era) / 100 == yoe / 100 + 4 * era
    ensures (yoe + 400 * era) / 400 == era
  {
  }

  lemma {:induction false} LeapShift(year: int, era: int)
    ensures IsLeap(year + 400 * era) == IsLeap(year)
  {
    Mod4(year, era);
    Mod100(year, era);
  }

  lemma {:induction false} Mod4(x: int, k: int)
    ensures (x + 400 * k) % 4 == x % 4
  {
    assert x + 400 * k == 4 * (x / 4 + 100 * k) + x % 4;
  }

  lemma {:induction false} Mod100(x: int, k: int)
    ensures (x + 400 * k) % 100 == x % 100
  {
    assert x + 400 * k == 100 * (x / 100 + 4 * k) + x % 100;
  }

  /** 1 March of year `y` is 306 days before the next 1 January. */
  lemma MarchYearPosition(y: int, doy: int)
    requires 0 <= doy <= 365 && (doy == 365 ==> IsLeap(y + 1))
    ensures ValidDate(DateInMarchYear(y, doy))
    ensures DayNumber(DateInMarchYear(y, doy)) == DaysBeforeYear(y + 1) - DaysBeforeYear(1970) - 306 + doy
  {
    var mp := (5 * doy + 2) / 153;
    var date := DateInMarchYear(y, doy);
    DaysBeforeMonthClosed(date.year, date.month);
    if mp < 10 {
      YearLength(y);
    }
  }

  lemma {:induction false} MarchYearOf(days: int) returns (y: int, doy: int)
    ensures CivilOf(days) == DateInMarchYear(y, doy)
    ensures 0 <= doy <= 365 && (doy == 365 ==> IsLeap(y + 1))
    ensures DaysBeforeYear(y + 1) - DaysBeforeYear(1970) - 306 + doy == days
  {
    var z := days + EPOCH_SHIFT;
    var era, doe := z / DAYS_PER_ERA, z % DAYS_PER_ERA;
    YearOfEraIsRight(doe);
    var yoe := YearOfEra(doe);
    y, doy := yoe + 400 * era, doe - MarchYearStart(yoe);
    assert DaysBeforeYear(y + 1) - (DaysBeforeYear(1970) + 306) + doy == days && IsLeap(y + 1) == IsLeap(yoe + 1) by {
      EraShift(yoe, era);
      assert DaysBeforeYear(1970) + 306 == EPOCH_SHIFT;
    }
  }

  /** The algorithm inverts the January-based day count, on every day. */
  lemma {:induction false} CivilInvertsDayNumber(days: int)
    ensures ValidDate(CivilOf(days))
    ensures DayNumber(CivilOf(days)) == days
  {
    var y, doy := MarchYearOf(days);
    MarchYearPosition(y, doy);
  }

  lemma {:induction false} DaysBeforeYearMonotonic(a: int, b: int)
    requires a < b
    ensures DaysBeforeYear(a) + 365 <= DaysBeforeYear(b)
    decreases b - a
  {
    YearLength(b - 1);
    if a < b - 1 {
      DaysBeforeYearMonotonic(a, b - 1);
    }
  }

  lemma DaysBeforeMonthMonotonic(year: int, a: int, b: int)
    requires 1 <= a < b <= 13
    ensures DaysBeforeMonth(year, a) + DaysInMonth(year, a) <= DaysBeforeMonth(year, b)
    decreases b - a
  {
    if a < b - 1 {
      DaysBeforeMonthMonotonic(year, a, b - 1);
    }
  }

  /** A day within its year: the count from 1 January stays below the year's length. */
  lemma DayWithinYear(date: Date)
    requires ValidDate(date)
    ensures DaysBeforeYear(date.year) <= DayNumber(date) + DaysBeforeYear(1970) < DaysBeforeYear(date.year + 1)
  {
    YearLength(date.year);
    DaysBeforeMonthClosed(date.year, date.month);
  }

  /** Distinct dates have distinct day numbers, in calendar order. */
  lemma DayNumberInjective(a: Date, b: Date)
    requires ValidDate(a) && ValidDate(b)
    requires DayNumber(a) == DayNumber(b)
    ensures a == b
  {
    DayWithinYear(a);
    DayWithinYear(b);
    if a.year < b.year {
      if a.year + 1 < b.year { DaysBeforeYearMonotonic(a.year + 1, b.year); }
    } else if b.year < a.year {
      if b.year + 1 < a.year { DaysBeforeYearMonotonic(b.year + 1, a.year); }
    } else if a.month < b.month {
      DaysBeforeMonthMonotonic(a.year, a.month, b.month);
    } else if b.month < a.month {
      DaysBeforeMonthMonotonic(a.year, b.month, a.month);
    }
  }

  /** The algorithm and the day count are inverse bijections between days and valid dates. */
  lemma {:induction false} DayNumberInvertsCivil(date: Date)
    requires ValidDate(date)
    ensures CivilOf(DayNumber(date)) == date
  {
    CivilInvertsDayNumber(DayNumber(date));
    DayNumberInjective(CivilOf(DayNumber(date)), date);
  }

  lemma NextDayIsNextNumber(date: Date)
    requires ValidDate(date)
    ensures ValidDate(NextDay(date))
    ensures DayNumber(NextDay(date)) == DayNumber(date) + 1
  {
    YearLength(date.year);
    DaysBeforeMonthClosed(date.year, 12);
    assert date.month < 12 ==>
      DaysBeforeMonth(date.year, date.month + 1) ==
        DaysBeforeMonth(date.year, date.month) + DaysInMonth(date.year, date.month);
  }

  /** One day later is the calendar successor, and day 0 is 1 January 1970: the two facts that
      determine the date of every day. */
  lemma {:induction false} StepFrom(days: int, date: Date)
    requires ValidDate(date) && DayNumber(date) == days
    ensures CivilOf(days + 1) == NextDay(date)
  {
    NextDayIsNextNumber(date);
    DayNumberInvertsCivil(NextDay(date));
  }

  lemma EpochIsDayZero()
    ensures CivilOf(0) == Date(1970, 1, 1)
  {
    var epoch := Date(1970, 1, 1);
    assert DayNumber(epoch) == 0;
    DayNumberInvertsCivil(epoch);
  }

  lemma {:induction false} CivilStepsToNextDay(days: int)
    ensures CivilOf(0) == Date(1970, 1, 1)
    ensures CivilOf(days + 1) == NextDay(CivilOf(days))
  {
    CivilInvertsDayNumber(days);
    StepFrom(days, CivilOf(days));
    EpochIsDayZero();
  }

  lemma TimeOfDayParts(timeOfDay: int)
    requires 0 <= timeOfDay < SECONDS_PER_DAY
    ensures 0 <= timeOfDay / 3600 <= 23
    ensures 0 <= timeOfDay % 3600 / 60 <= 59
    ensures timeOfDay / 3600 * 3600 + timeOfDay % 3600 / 60 * 60 + timeOfDay % 60 == timeOfDay
  {
    assert timeOfDay % 3600 % 60 == timeOfDay % 60;
  }

  /** For every 64-bit timestamp: a valid date and time of day that together are the timestamp,
      and the date is the one the unbounded algorithm gives. */
  lemma {:induction false} IsoUtcIsTheInstant(secs: i64)
    ensures var r := IsoUtc(secs);
      && ValidDate(r.date) && r.date == CivilOf(secs as int / SECONDS_PER_DAY)
      && 0 <= r.hour <= 23 && 0 <= r.minute <= 59 && 0 <= r.second <= 59
      && DayNumber(r.date) * SECONDS_PER_DAY + r.hour * 3600 + r.minute * 60 + r.second == secs as int
  {
    var days := secs as int / SECONDS_PER_DAY;
    TimeOfDayParts(secs as int % SECONDS_PER_DAY);
    MachineIntegersLoseNothing(days as i64);
    CivilInvertsDayNumber(days);
    var date := CivilOf(days);
    assert IsoUtc(secs).date == date;
    assert DayNumber(date) == days;
  }
}
