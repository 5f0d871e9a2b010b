/** The timestamp arithmetic of `fmt_now` (`logging.rs`) against the proleptic Gregorian calendar. */
module Calendar {

  datatype Date = Date(year: int, month: int, day: int)

  datatype Clock = Clock(hour: int, minute: int, second: int)

  /** Rust's `/` on `i64` truncates toward zero. */
  function TruncatingDiv(a: int, b: int): int
    requires b > 0
  {
    if a >= 0 then a / b else -(-a / b)
  }

  /** Rust's `as i32`: keep the low 32 bits. */
  function ToI32(x: int): int {
    (x + 0x8000_0000) % 0x1_0000_0000 - 0x8000_0000
  }

  predicate FitsI32(x: int) {
    -0x8000_0000 <= x < 0x8000_0000
  }

  // ---- What fmt_now computes ----

  const DAYS_PER_ERA: int := 146097

  /** The era (400 years from 1 March) of a day counted from 0000-03-01. */
  function Era(z: int): int {
    TruncatingDiv(if z >= 0 then z else z - 146096, DAYS_PER_ERA)
  }

  function YearOfEra(doe: int): int {
    (doe - doe / 1460 + doe / 36524 - doe / 146096) / 365
  }

  /** The days before year `yoe` of an era. */
  function DaysBeforeYearOfEra(yoe: int): int {
    365 * yoe + yoe / 4 - yoe / 100
  }

  /** The year, counted from March, of a day counted from 0000-03-01. */
  function MarchYear(z: int): int {
    YearOfEra(z - Era(z) * DAYS_PER_ERA) + Era(z) * 400
  }

  /** The day of that year, from zero. */
  function DayOfYear(z: int): int {
    var doe := z - Era(z) * DAYS_PER_ERA;
    doe - DaysBeforeYearOfEra(YearOfEra(doe))
  }

  /** The date, before the year is narrowed to `i32`. */
  function WideDate(days: int): Date {
    var z := days + 719468;
    DayOfMarchYear(MarchYear(z), DayOfYear(z))
  }

  /** Day `doy` of the year `y` that starts on 1 March. */
  function DayOfMarchYear(y: int, doy: int): Date {
    var mp := (5 * doy + 2) / 153;
    var d := doy - (153 * mp + 2) / 5 + 1;
    var mo := if mp < 10 then mp + 3 else mp - 9;
    Date(if mo <= 2 then y + 1 else y, mo, d)
  }

  function Narrow(d: Date): Date {
    d.(year := ToI32(d.year))
  }

  function CivilFromDays(days: int): Date {
    Narrow(WideDate(days))
  }

  function TimeOfDay(secs: int): Clock {
    Clock(TruncatingDiv(secs, 3600) % 24, TruncatingDiv(secs, 60) % 60, secs % 60)
  }

  // ---- The calendar, independently ----

  predicate IsLeap(year: int) {
    year % 4 == 0 && (year % 100 != 0 || year % 400 == 0)
  }

  function DaysInMonth(year: int, month: int): int {
    if month == 2 then (if IsLeap(year) then 29 else 28)
    else if month == 4 || month == 6 || month == 9 || month == 11 then 30
    else 31
  }

  predicate IsDate(d: Date) {
    1 <= d.month <= 12 && 1 <= d.day <= DaysInMonth(d.year, d.month)
  }

  function NextDay(d: Date): Date {
    if d.day < DaysInMonth(d.year, d.month) then d.(day := d.day + 1)
    else if d.month < 12 then Date(d.year, d.month + 1, 1)
    else Date(d.year + 1, 1, 1)
  }

  /** The days of `year` before the first of `month`. */
  function DaysBeforeMonth(year: int, month: int): int
    requires 1 <= month <= 12
  {
    if month == 1 then 0 else DaysBeforeMonth(year, month - 1) + DaysInMonth(year, month - 1)
  }

  /** Days from 1 January 1970 to a date: years by the leap rule, then months, then days. */
  function DaysFromCivil(d: Date): int
    requires 1 <= d.month <= 12
  {
    var y := d.year - 1;
    365 * y + y / 4 - y / 100 + y / 400 + DaysBeforeMonth(d.year, d.month) + d.day - 1 - 719162
  }

  // ---- Proofs ----

  /** A quotient is known once it is bracketed. */
  lemma QuotientIs(x: int, d: int, q: int)
    requires d > 0 && d * q <= x < d * q + d
    ensures x / d == q && x % d == x - d * q
  {
    var k := x / d - q;
    assert d * (x / d) == d * q + d * k;
    assert -d < d * k < d;
  }

  lemma EraIsFloor(z: int)
    ensures Era(z) == z / DAYS_PER_ERA
    ensures 0 <= z - Era(z) * DAYS_PER_ERA < DAYS_PER_ERA
  {
  }

  /**
    A day of an era other than its last: century `c`, four-year group `q`, year `t` of the group and day
    `s` of the group. The last day of a group belongs to its fourth year.
   */
  ghost predicate InGroup(c: int, q: int, t: int, s: int) {
    && 0 <= c <= 3 && 0 <= q <= 24 && 0 <= t <= 3 && 0 <= s <= 1460
    && 1461 * q + s < 36524
    && 365 * t <= s && (t < 3 ==> s < 365 * t + 365)
  }

  lemma YearInGroup(c: int, q: int, t: int, s: int)
    requires InGroup(c, q, t, s)
    ensures YearOfEra(36524 * c + 1461 * q + s) == 100 * c + 4 * q + t
  {
    var doe := 36524 * c + 1461 * q + s;
    var e := if 24 * c + q + s >= 1460 then 1 else 0;
    assert doe / 1460 == 25 * c + q + e by { QuotientIs(doe, 1460, 25 * c + q + e); }
    assert doe / 36524 == c by { QuotientIs(doe, 36524, c); }
    assert doe / 146096 == 0 by { QuotientIs(doe, 146096, 0); }
    assert doe - (25 * c + q + e) + c == 365 * (100 * c + 4 * q) + s - e;
    QuotientIs(365 * (100 * c + 4 * q) + s - e, 365, 100 * c + 4 * q + t);
  }

  lemma DaysBeforeGroupYear(c: int, q: int, t: int, s: int)
    requires InGroup(c, q, t, s)
    ensures DaysBeforeYearOfEra(100 * c + 4 * q + t) == 36524 * c + 1461 * q + 365 * t
    ensures s == 1460 ==> IsLeap(100 * c + 4 * q + t + 1)
  {
    var y := 100 * c + 4 * q + t;
    QuotientIs(y, 4, 25 * c + q);
    QuotientIs(y, 100, c);
    if s == 1460 {
      QuotientIs(y + 1, 4, 25 * c + q + 1);
      QuotientIs(y + 1, 100, c);
    }
  }

  lemma GroupOf(doe: int) returns (c: int, q: int, t: int, s: int)
    requires 0 <= doe < DAYS_PER_ERA - 1
    ensures InGroup(c, q, t, s) && doe == 36524 * c + 1461 * q + s
  {
    c := doe / 36524;
    var r := doe % 36524;
    q, s := r / 1461, r % 1461;
    t := if s == 1460 then 3 else s / 365;
  }

  /** `YearOfEra` finds the year whose days contain `doe`; a 366th day exists only before a leap February. */
  lemma YearOfEraBrackets(doe: int)
    requires 0 <= doe < DAYS_PER_ERA
    ensures 0 <= YearOfEra(doe) <= 399
    ensures 0 <= doe - DaysBeforeYearOfEra(YearOfEra(doe)) <= 365
    ensures doe - DaysBeforeYearOfEra(YearOfEra(doe)) == 365 ==> IsLeap(YearOfEra(doe) + 1)
  {
    if doe < DAYS_PER_ERA - 1 {
      var c, q, t, s := GroupOf(doe);
      YearInGroup(c, q, t, s);
      DaysBeforeGroupYear(c, q, t, s);
      hide YearOfEra, DaysBeforeYearOfEra, IsLeap;
      assert 0 <= s - 365 * t <= 365 && (s - 365 * t == 365 ==> s == 1460);
    } else {
      assert YearOfEra(146096) == 399;
    }
  }

  /** The day count of 1 March of year `y` (a year that starts in March). */
  function MarchDays(y: int): int {
    365 * y + y / 4 - y / 100 + y / 400
  }

  lemma MarchDaysOfEra(era: int, yoe: int)
    requires 0 <= yoe <= 399
    ensures MarchDays(yoe + era * 400) == era * DAYS_PER_ERA + DaysBeforeYearOfEra(yoe)
    ensures IsLeap(yoe + era * 400 + 1) == IsLeap(yoe + 1)
  {
    var y := yoe + era * 400;
    QuotientIs(y, 4, 100 * era + yoe / 4);
    QuotientIs(y, 100, 4 * era + yoe / 100);
    QuotientIs(y, 400, era);
    QuotientIs(y + 1, 4, 100 * era + (yoe + 1) / 4);
    QuotientIs(y + 1, 100, 4 * era + (yoe + 1) / 100);
    QuotientIs(y + 1, 400, era + (yoe + 1) / 400);
  }

  /** The days before a month and the length of a month, in terms of months counted from March. */
  lemma MonthTable(year: int, month: int)
    requires 1 <= month <= 12
    ensures DaysBeforeMonth(year, month) ==
            if month <= 2 then MarchMonthStart(month + 9) - 306
            else MarchMonthStart(month - 3) + (if IsLeap(year) then 60 else 59)
    ensures month > 2 ==> DaysInMonth(year, month) == MarchMonthStart(month - 2) - MarchMonthStart(month - 3)
    ensures month == 1 ==> DaysInMonth(year, month) == 31
  {
    if month > 1 {
      MonthTable(year, month - 1);
    }
  }

  /** The leap day of year `y` is what separates its January count from its March count. */
  lemma LeapDayShift(y: int)
    ensures MarchDays(y) == MarchDays(y - 1) + (if IsLeap(y) then 366 else 365)
  {
    QuotientStep(y, 4);
    QuotientStep(y, 100);
    QuotientStep(y, 400);
    if y % 100 == 0 {
      QuotientIs(y, 4, y / 100 * 25);
    }
    if y % 400 == 0 {
      QuotientIs(y, 100, y / 400 * 4);
    }
  }

  /** A quotient grows by one exactly on reaching a multiple. */
  lemma QuotientStep(y: int, d: int)
    requires d > 1
    ensures y / d == (y - 1) / d + (if y % d == 0 then 1 else 0)
  {
    if y % d == 0 {
      QuotientIs(y - 1, d, y / d - 1);
    } else {
      QuotientIs(y - 1, d, y / d);
    }
  }

  /** Day `d` of month `mp` of the March-based year `y`, as a calendar date. */
  lemma FromMarch(y: int, mp: int, d: int)
    requires 0 <= mp <= 11 && d >= 1
    requires mp < 11 ==> MarchMonthStart(mp) + d <= MarchMonthStart(mp + 1)
    requires mp == 11 ==> d <= DaysInMonth(y + 1, 2)
    ensures var date := Date(if mp < 10 then y else y + 1, if mp < 10 then mp + 3 else mp - 9, d);
            IsDate(date) && DaysFromCivil(date) == MarchDays(y) + MarchMonthStart(mp) + d - 1 - 719468
  {
    if mp < 10 {
      MonthTable(y, mp + 3);
      LeapDayShift(y);
    } else {
      MonthTable(y + 1, mp - 9);
    }
  }

  lemma DayOfMarchYearIsCorrect(y: int, doy: int)
    requires 0 <= doy <= 365 && (doy == 365 ==> IsLeap(y + 1))
    ensures IsDate(DayOfMarchYear(y, doy))
    ensures DaysFromCivil(DayOfMarchYear(y, doy)) == MarchDays(y) + doy - 719468
  {
    MonthOfDay(doy);
    var mp := (5 * doy + 2) / 153;
    FromMarch(y, mp, doy - (153 * mp + 2) / 5 + 1);
  }

  lemma MarchYearIsCorrect(z: int)
    ensures MarchDays(MarchYear(z)) + DayOfYear(z) == z
    ensures 0 <= DayOfYear(z) <= 365 && (DayOfYear(z) == 365 ==> IsLeap(MarchYear(z) + 1))
  {
    EraIsFloor(z);
    var doe := z - Era(z) * DAYS_PER_ERA;
    YearOfEraBrackets(doe);
    MarchDaysOfEra(Era(z), YearOfEra(doe));
  }

  /** `fmt_now` yields a real date, and that date is exactly `days` days after 1970-01-01. */
  lemma DateIsCorrect(days: int)
    ensures IsDate(WideDate(days)) && DaysFromCivil(WideDate(days)) == days
  {
    var z := days + 719468;
    MarchYearIsCorrect(z);
    DayOfMarchYearIsCorrect(MarchYear(z), DayOfYear(z));
  }

  /** The month formula finds the month, counted from March, that holds day `doy`. */
  lemma MonthOfDay(doy: int)
    requires 0 <= doy <= 365
    ensures var mp := (5 * doy + 2) / 153; var d := doy - (153 * mp + 2) / 5 + 1;
            && 0 <= mp <= 11 && d >= 1
            && doy == MarchMonthStart(mp) + d - 1
            && (mp < 11 ==> doy < MarchMonthStart(mp + 1))
  {
  }

  function MarchMonthStart(mp: int): int {
    if mp <= 0 then 0 else if mp == 1 then 31 else if mp == 2 then 61 else if mp == 3 then 92
    else if mp == 4 then 122 else if mp == 5 then 153 else if mp == 6 then 184 else if mp == 7 then 214
    else if mp == 8 then 245 else if mp == 9 then 275 else if mp == 10 then 306 else 337 // February
  }

  /** One calendar day later is one day count later. */
  lemma NextDayCounts(d: Date)
    requires IsDate(d)
    ensures IsDate(NextDay(d)) && DaysFromCivil(NextDay(d)) == DaysFromCivil(d) + 1
  {
    if d.day == DaysInMonth(d.year, d.month) && d.month == 12 {
      MonthTable(d.year, 12);
      LeapDayShift(d.year);
    }
  }

  /** A month ends before any later month of the same year begins. */
  lemma {:induction false} MonthsOrdered(year: int, a: int, b: int)
    requires 1 <= a < b <= 12
    ensures DaysBeforeMonth(year, a) + DaysInMonth(year, a) <= DaysBeforeMonth(year, b)
  {
    if a + 1 < b {
      MonthsOrdered(year, a, b - 1);
    }
  }

  /** A date lies between the day counts of its own year and the next. */
  lemma WithinYear(d: Date)
    requires IsDate(d)
    ensures MarchDays(d.year - 1) <= DaysFromCivil(d) + 719162 < MarchDays(d.year)
  {
    MonthTable(d.year, 12);
    MonthTable(d.year, d.month);
    if d.month < 12 {
      MonthsOrdered(d.year, d.month, 12);
    }
    LeapDayShift(d.year);
  }

  lemma {:induction false} MarchDaysMonotone(a: int, b: int)
    requires a <= b
    ensures MarchDays(a) <= MarchDays(b)
    decreases b - a
  {
    if a < b {
      LeapDayShift(b);
      MarchDaysMonotone(a, b - 1);
    }
  }

  /** Different dates have different day counts. */
  lemma DayCountInjective(a: Date, b: Date)
    requires IsDate(a) && IsDate(b) && DaysFromCivil(a) == DaysFromCivil(b)
    ensures a == b
  {
    SameYear(a, b);
    if a.month < b.month {
      MonthsOrdered(a.year, a.month, b.month);
    } else if b.month < a.month {
      MonthsOrdered(a.year, b.month, a.month);
    }
  }

  lemma SameYear(a: Date, b: Date)
    requires IsDate(a) && IsDate(b) && DaysFromCivil(a) == DaysFromCivil(b)
    ensures a.year == b.year
  {
    WithinYear(a);
    WithinYear(b);
    if a.year < b.year {
      MarchDaysMonotone(a.year, b.year - 1);
    } else if b.year < a.year {
      MarchDaysMonotone(b.year, a.year - 1);
    }
  }

  /** The other direction: every calendar date comes back from its day count. */
  lemma Inverse(d: Date, days: int)
    requires IsDate(d) && DaysFromCivil(d) == days
    ensures WideDate(days) == d
  {
    DateIsCorrect(days);
    DayCountInjective(WideDate(days), d);
  }

  lemma Epoch()
    ensures WideDate(0) == Date(1970, 1, 1)
  {
    var d := Date(1970, 1, 1);
    assert DaysFromCivil(d) == 0;
    Inverse(d, 0);
  }

  /** Day zero is 1 January 1970 and each further day number is the next calendar day, in both directions of time. */
  lemma FollowsTheCalendar(days: int)
    ensures WideDate(0) == Date(1970, 1, 1)
    ensures WideDate(days + 1) == NextDay(WideDate(days))
  {
    Epoch();
    DateIsCorrect(days);
    Successor(WideDate(days), days);
  }

  lemma Successor(d: Date, days: int)
    requires IsDate(d) && DaysFromCivil(d) == days
    ensures WideDate(days + 1) == NextDay(d)
  {
    NextDayCounts(d);
    Inverse(NextDay(d), days + 1);
  }

  lemma NarrowExact(d: Date)
    ensures Narrow(d) == d <==> FitsI32(d.year)
  {
  }

  /** What is printed is the date `days` days after 1970-01-01 exactly when its year fits the 32-bit year. */
  lemma PrintedDateExact(days: int)
    ensures var printed := CivilFromDays(days);
            IsDate(printed) && DaysFromCivil(printed) == days <==> FitsI32(WideDate(days).year)
  {
    var wide := WideDate(days);
    DateIsCorrect(days);
    NarrowExact(wide);
    if IsDate(Narrow(wide)) && DaysFromCivil(Narrow(wide)) == days {
      DayCountInjective(Narrow(wide), wide);
    }
  }

  /**
    The arithmetic of the clock fields, which is exact from 1970 on. (For a negative count, which `fmt_now`
    never has, truncation would make it exact on whole hours only.)
  */
  lemma ClockExact(secs: int)
    ensures var t := TimeOfDay(secs);
            && 0 <= t.hour < 24 && 0 <= t.minute < 60 && 0 <= t.second < 60
            && (secs == secs / 86400 * 86400 + 3600 * t.hour + 60 * t.minute + t.second
                <==> secs >= 0 || secs % 3600 == 0)
  {
    var hours, minutes := secs / 3600, secs / 60;
    QuotientIs(minutes, 60, hours);
    QuotientIs(hours, 24, secs / 86400);
    if secs < 0 {
      TruncatedIsCeiling(secs, 3600);
      TruncatedIsCeiling(secs, 60);
      QuotientStep(hours + 1, 24);
      QuotientStep(minutes + 1, 60);
    }
  }

  /** Below zero, truncation rounds up. */
  lemma TruncatedIsCeiling(a: int, b: int)
    requires a < 0 < b
    ensures TruncatingDiv(a, b) == a / b + (if a % b == 0 then 0 else 1)
  {
    if a % b == 0 {
      QuotientIs(-a, b, -(a / b));
    } else {
      QuotientIs(-a, b, -(a / b) - 1);
    }
  }
}
