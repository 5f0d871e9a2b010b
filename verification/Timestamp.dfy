/** The text of a timestamp (`fmt_now`): what it takes to read the instant back from a log line. */
module Timestamp {
  import opened Basics
  import opened Wire
  import opened Calendar

  const DASH: Byte := 45
  const SPACE: Byte := 32
  const COLON: Byte := 58
  const COMMA: Byte := 44

  const STAMP_LENGTH: nat := 23

  /** `{:0width}` of a signed number: the sign counts toward the width. */
  function PaddedSigned(n: int, width: nat): Bytes
    requires width > 0
  {
    if n >= 0 then PaddedDecimal(n, width) else [DASH] + PaddedDecimal(-n, width - 1)
  }

  function DateText(d: Date): Bytes
    requires d.month >= 0 && d.day >= 0
  {
    PaddedSigned(d.year, 4) + [DASH] + PaddedDecimal(d.month, 2) + [DASH] + PaddedDecimal(d.day, 2)
  }

  function ClockText(t: Clock, ms: nat): Bytes
    requires t.hour >= 0 && t.minute >= 0 && t.second >= 0
  {
    PaddedDecimal(t.hour, 2) + [COLON] + PaddedDecimal(t.minute, 2) + [COLON] + PaddedDecimal(t.second, 2)
      + [COMMA] + PaddedDecimal(ms, 3)
  }

  /** What is printed for a clock of `secs` seconds since 1970 and `ms` milliseconds. */
  function Stamp(secs: int, ms: nat): Bytes {
    DateIsCorrect(secs / 86400);
    ClockExact(secs);
    DateText(CivilFromDays(secs / 86400)) + [SPACE] + ClockText(TimeOfDay(secs), ms)
  }

  datatype Instant = Instant(secs: int, ms: nat)

  /** The number in the columns `from..to` of a line, or zero. */
  function Column(line: Bytes, from: nat, to: nat): nat
    requires from <= to <= |line|
  {
    var n := ParseUnsigned(line[from..to], U64_MAX);
    if n.Some? then n.value else 0
  }

  /** The reader of a log: a calendar date and a clock, by column. */
  function ReadStamp(line: Bytes): Option<Instant> {
    if |line| != STAMP_LENGTH then None else
      var date := Date(Column(line, 0, 4), Column(line, 5, 7), Column(line, 8, 10));
      if !IsDate(date) then None else
        var clock := 3600 * Column(line, 11, 13) + 60 * Column(line, 14, 16) + Column(line, 17, 19);
        Some(Instant(DaysFromCivil(date) * 86400 + clock, Column(line, 20, 23)))
  }

  /** A number that fits its columns fills them, and is read back from them. */
  lemma FillsColumns(n: nat, width: nat)
    requires width > 0 && n <= U64_MAX
    ensures |PaddedDecimal(n, width)| == width <==> n < Pow10(width)
    ensures ParseUnsigned(PaddedDecimal(n, width), U64_MAX) == Some(n)
  {
    DecimalLength(n, width);
    PaddedParses(n, width, U64_MAX);
  }

  lemma SmallPowers()
    ensures Pow10(2) == 100 && Pow10(3) == 1000 && Pow10(4) == 10000
  {
    assert Pow10(1) == 10;
  }

  lemma DateColumns(d: Date)
    requires 0 <= d.year <= 9999 && IsDate(d)
    ensures var text := DateText(d);
            && |text| == 10
            && Column(text, 0, 4) == d.year && Column(text, 5, 7) == d.month && Column(text, 8, 10) == d.day
  {
    hide ParseUnsigned, PaddedDecimal;
    SmallPowers();
    FillsColumns(d.year, 4);
    FillsColumns(d.month, 2);
    FillsColumns(d.day, 2);
    var text := DateText(d);
    assert text[0..4] == PaddedDecimal(d.year, 4);
    assert text[5..7] == PaddedDecimal(d.month, 2);
    assert text[8..10] == PaddedDecimal(d.day, 2);
  }

  lemma ClockColumns(t: Clock, ms: nat)
    requires 0 <= t.hour < 24 && 0 <= t.minute < 60 && 0 <= t.second < 60 && ms < 1000
    ensures var text := ClockText(t, ms);
            && |text| == 12
            && Column(text, 0, 2) == t.hour && Column(text, 3, 5) == t.minute && Column(text, 6, 8) == t.second
            && Column(text, 9, 12) == ms
  {
    hide ParseUnsigned, PaddedDecimal;
    SmallPowers();
    FillsColumns(t.hour, 2);
    FillsColumns(t.minute, 2);
    FillsColumns(t.second, 2);
    FillsColumns(ms, 3);
    var text := ClockText(t, ms);
    assert text[0..2] == PaddedDecimal(t.hour, 2);
    assert text[3..5] == PaddedDecimal(t.minute, 2);
    assert text[6..8] == PaddedDecimal(t.second, 2);
    assert text[9..12] == PaddedDecimal(ms, 3);
  }

  lemma ColumnsOfParts(a: Bytes, b: Bytes, from: nat, to: nat)
    requires from <= to
    ensures to <= |a| ==> Column(a + b, from, to) == Column(a, from, to)
    ensures to <= |b| ==> Column(a + b, |a| + from, |a| + to) == Column(b, from, to)
  {
    hide ParseUnsigned;
    if to <= |a| {
      assert (a + b)[from..to] == a[from..to];
    }
    if to <= |b| {
      assert (a + b)[|a| + from..|a| + to] == b[from..to];
    }
  }

  /**
    A log line gives back the instant exactly while its year has four digits: then the stamp has 23
    characters, and the date and the clock read from it by column are that very instant.
  */
  lemma StampReadsBack(secs: nat, ms: nat)
    requires ms < 1000
    ensures ReadStamp(Stamp(secs, ms)) == Some(Instant(secs, ms)) <==> WideDate(secs / 86400).year <= 9999
  {
    if WideDate(secs / 86400).year <= 9999 {
      FourDigitYearReadsBack(secs, ms);
    } else {
      LaterYearIsLost(secs, ms);
    }
    hide Stamp, ReadStamp, WideDate;
  }

  lemma FourDigitYearReadsBack(secs: nat, ms: nat)
    requires ms < 1000 && WideDate(secs / 86400).year <= 9999
    ensures ReadStamp(Stamp(secs, ms)) == Some(Instant(secs, ms))
  {
    hide DateText, ClockText, TimeOfDay, Column, DaysFromCivil, WideDate;
    var days := secs / 86400;
    var d, t := CivilFromDays(days), TimeOfDay(secs);
    YearIsPrinted(days);
    ClockExact(secs);
    DateColumns(d);
    ClockColumns(t, ms);
    var date, clock := DateText(d) + [SPACE], ClockText(t, ms);
    assert Stamp(secs, ms) == date + clock;
    ColumnsAgree(DateText(d), clock);
  }

  lemma ColumnIsSmall(line: Bytes, from: nat, width: nat)
    requires from + width <= |line|
    ensures Column(line, from, from + width) < Pow10(width)
  {
    var s := line[from..from + width];
    var digits := if |s| > 1 && s[0] == 43 then s[1..] else s;
    PowGrows(width);
    if AllDigits(digits) {
      DigitsValueBelow(digits);
      PowIncreasing(|digits|, width);
    }
  }

  /** Whatever 23 characters are read, they never name an instant after the year 9999. */
  lemma ReadIsEarly(line: Bytes)
    requires ReadStamp(line).Some?
    ensures ReadStamp(line).value.secs < 86400 * MarchDays(9999)
  {
    hide Column, DaysFromCivil, MarchDays;
    SmallPowers();
    ColumnIsSmall(line, 0, 4);
    ColumnIsSmall(line, 11, 2);
    ColumnIsSmall(line, 14, 2);
    ColumnIsSmall(line, 17, 2);
    var date := Date(Column(line, 0, 4), Column(line, 5, 7), Column(line, 8, 10));
    WithinYear(date);
    MarchDaysMonotone(date.year, 9999);
  }

  /** A year of five digits makes the stamp longer; a year beyond 32 bits is later than anything that can be read. */
  lemma LaterYearIsLost(secs: nat, ms: nat)
    requires ms < 1000 && WideDate(secs / 86400).year > 9999
    ensures ReadStamp(Stamp(secs, ms)) != Some(Instant(secs, ms))
  {
    hide WideDate, DaysFromCivil, TimeOfDay, ReadStamp, MarchDays, Stamp;
    var days := secs / 86400;
    DateIsCorrect(days);
    if FitsI32(WideDate(days).year) {
      LongYearIsLonger(secs, ms);
      ReadsOnlyStamps(Stamp(secs, ms));
    } else {
      WithinYear(WideDate(days));
      MarchDaysMonotone(0x7FFF_FFFF, WideDate(days).year - 1);
      FarFuture();
      if ReadStamp(Stamp(secs, ms)).Some? {
        ReadIsEarly(Stamp(secs, ms));
      }
    }
  }

  lemma ReadsOnlyStamps(line: Bytes)
    ensures ReadStamp(line).Some? ==> |line| == STAMP_LENGTH
  {
  }

  lemma FarFuture()
    ensures MarchDays(0x7FFF_FFFF) - 719162 > MarchDays(9999)
  {
  }

  lemma LongYearIsLonger(secs: nat, ms: nat)
    requires ms < 1000 && 9999 < WideDate(secs / 86400).year && FitsI32(WideDate(secs / 86400).year)
    ensures |Stamp(secs, ms)| > STAMP_LENGTH
  {
    hide WideDate, PaddedDecimal, TimeOfDay, DaysFromCivil;
    DateIsCorrect(secs / 86400);
    NarrowExact(WideDate(secs / 86400));
    var d, t := CivilFromDays(secs / 86400), TimeOfDay(secs);
    SmallPowers();
    FillsColumns(d.year, 4);
    ClockExact(secs);
    ClockColumns(t, ms);
  }

  lemma ColumnsAgree(date: Bytes, clock: Bytes)
    requires |date| == 10 && |clock| == 12
    ensures var line := date + [SPACE] + clock;
            && Column(line, 0, 4) == Column(date, 0, 4) && Column(line, 5, 7) == Column(date, 5, 7)
            && Column(line, 8, 10) == Column(date, 8, 10) && Column(line, 11, 13) == Column(clock, 0, 2)
            && Column(line, 14, 16) == Column(clock, 3, 5) && Column(line, 17, 19) == Column(clock, 6, 8)
            && Column(line, 20, 23) == Column(clock, 9, 12)
  {
    hide Column;
    var line, front := date + [SPACE] + clock, date + [SPACE];
    assert line == date + ([SPACE] + clock);
    ColumnsOfParts(date, [SPACE] + clock, 0, 4);
    ColumnsOfParts(date, [SPACE] + clock, 5, 7);
    ColumnsOfParts(date, [SPACE] + clock, 8, 10);
    ColumnsOfParts(front, clock, 0, 2);
    ColumnsOfParts(front, clock, 3, 5);
    ColumnsOfParts(front, clock, 6, 8);
    ColumnsOfParts(front, clock, 9, 12);
  }

  /** From 1970 on, a year up to 9999 is printed as it is. */
  lemma YearIsPrinted(days: nat)
    requires WideDate(days).year <= 9999
    ensures CivilFromDays(days) == WideDate(days) && IsDate(WideDate(days)) && DaysFromCivil(WideDate(days)) == days
    ensures 0 <= WideDate(days).year
  {
    hide WideDate;
    DateIsCorrect(days);
    NotBeforeEpoch(WideDate(days));
    NarrowExact(WideDate(days));
  }

  lemma NotBeforeEpoch(d: Date)
    requires IsDate(d) && DaysFromCivil(d) >= 0
    ensures d.year >= 0
  {
    WithinYear(d);
    if d.year < 0 {
      MarchDaysMonotone(d.year, 0);
    }
  }

  lemma DateSeparators(d: Date)
    requires 0 <= d.year <= 9999 && IsDate(d)
    ensures var text := DateText(d); |text| == 10 && text[4] == 45 && text[7] == 45
  {
    hide PaddedDecimal;
    SmallPowers();
    FillsColumns(d.year, 4);
    FillsColumns(d.month, 2);
    FillsColumns(d.day, 2);
  }

  lemma ClockSeparators(t: Clock, ms: nat)
    requires 0 <= t.hour < 24 && 0 <= t.minute < 60 && 0 <= t.second < 60 && ms < 1000
    ensures var text := ClockText(t, ms); |text| == 12 && text[2] == 58 && text[5] == 58 && text[8] == 44
  {
    hide PaddedDecimal;
    SmallPowers();
    FillsColumns(t.hour, 2);
    FillsColumns(t.minute, 2);
    FillsColumns(t.second, 2);
    FillsColumns(ms, 3);
  }

  /** The layout of a stamp with a year of four digits: `YYYY-MM-DD hh:mm:ss,mmm`. */
  lemma Separators(secs: nat, ms: nat)
    requires ms < 1000 && WideDate(secs / 86400).year <= 9999
    ensures var line := Stamp(secs, ms);
            && |line| == 23 && line[4] == 45 && line[7] == 45 && line[10] == 32
            && line[13] == 58 && line[16] == 58 && line[19] == 44
  {
    hide WideDate, DateText, ClockText, TimeOfDay, DaysFromCivil;
    YearIsPrinted(secs / 86400);
    ClockExact(secs);
    DateSeparators(CivilFromDays(secs / 86400));
    ClockSeparators(TimeOfDay(secs), ms);
  }

  // ---- The system clock ----

  /** The time since 1970 as `fmt_now` takes it: a clock set before 1970 counts as 1970 itself. */
  function SinceEpoch(clock: Instant): (since: Instant)
    ensures since.secs >= 0
  {
    if clock.secs < 0 then Instant(0, 0) else clock
  }

  /** `fmt_now` at a system clock `clock.secs` seconds after (or before) 1970 and `clock.ms` milliseconds later. */
  function FmtNow(clock: Instant): Bytes {
    Stamp(SinceEpoch(clock).secs, SinceEpoch(clock).ms)
  }

  /**
    A log line gives back the time of the system clock exactly while that is not before 1970 and its year has
    four digits.
  */
  lemma FmtNowReadsBack(clock: Instant)
    requires clock.ms < 1000
    ensures ReadStamp(FmtNow(clock)) == Some(clock) <==>
            clock.secs >= 0 && WideDate(SinceEpoch(clock).secs / 86400).year <= 9999
  {
    hide Stamp, ReadStamp;
    var since := SinceEpoch(clock);
    StampReadsBack(since.secs, since.ms);
    if clock.secs < 0 {
      assert WideDate(0).year <= 9999 by { Epoch(); }
    }
    hide WideDate;
  }
}
