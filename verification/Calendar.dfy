/**
  Turning a day count since 1970-01-01 into a calendar date, and the date presets built on it.
  The reference is the calendar itself: the date after each day, by month lengths and leap years
  (the proleptic Gregorian calendar of section 3.2.1 of ISO 8601:2004).
 */
module Calendar {
  import opened Text
  import opened Decimal
  import opened Dates

  datatype Civil = Civil(year: int, month: nat, day: nat)

  predicate Valid(c: Civil) {
    1 <= c.month <= 12 && 1 <= c.day <= DaysInMonth(c.month, c.year)
  }

  const EPOCH: Civil := Civil(1970, 1, 1)

  function NextDay(c: Civil): Civil {
    if c.day < DaysInMonth(c.month, c.year) then c.(day := c.day + 1)
    else if c.month < 12 then Civil(c.year, c.month + 1, 1)
    else Civil(c.year + 1, 1, 1)
  }

  /** The date `n` days after the epoch, one day at a time. */
  ghost function DateAfter(n: nat): Civil {
    if n == 0 then EPOCH else NextDay(DateAfter(n - 1))
  }

  // ---- The program's arithmetic ----

  function YearOfEra(doe: nat): int {
    (doe - doe / 1460 + doe / 36524 - doe / 146096) / 365
  }

  /** Days before year `yoe` of an era that starts on 1 March. */
  function YearStart(yoe: nat): nat {
    365 * yoe + yoe / 4 - yoe / 100
  }

  function FromDays(days: nat): Civil
  {
    var z := days + 719468;
    var era := z / 146097;
    var doe := z - era * 146097;
    var yoe := YearOfEra(doe);
    var y := yoe + era * 400;
    var doy := doe - (365 * yoe + yoe / 4 - yoe / 100);
    var mp := (5 * doy + 2) / 153;
    var d := doy - (153 * mp + 2) / 5 + 1;
    var m := if mp < 10 then mp + 3 else mp - 9;
    Civil(if m <= 2 then y + 1 else y, if m < 0 then 0 else m, if d < 0 then 0 else d)
  }

  // ---- Eras, years and days ----

  /** Whether the year that starts on 1 March in year `yoe` of an era ends with a 29 February. */
  predicate LongYear(yoe: nat) {
    (yoe + 1) % 4 == 0 && ((yoe + 1) % 100 != 0 || yoe + 1 == 400)
  }

  function YearLength(yoe: nat): nat { if LongYear(yoe) then 366 else 365 }

  predicate InEra(yoe: nat, doy: nat) {
    yoe < 400 && doy < YearLength(yoe)
  }

  lemma NextYearStart(yoe: nat)
    requires yoe < 399
    ensures YearStart(yoe + 1) == YearStart(yoe) + YearLength(yoe)
  {
    assert (yoe + 1) / 4 == yoe / 4 + (if (yoe + 1) % 4 == 0 then 1 else 0);
    assert (yoe + 1) / 100 == yoe / 100 + (if (yoe + 1) % 100 == 0 then 1 else 0);
  }

  /** The year formula is right on every day of every year of an era. */
  lemma YearFormula(yoe: nat, doy: nat)
    requires InEra(yoe, doy)
    ensures YearStart(yoe) + doy < 146097
    ensures YearOfEra(YearStart(yoe) + doy) == yoe
  {
    var c, s, r := yoe / 100, yoe % 100 / 4, yoe % 4;
    CenturyParts(yoe, doy, c, s, r);
    CenturyOf(c, 1461 * s + 365 * r + doy);
    var u := 24 * c + s + 365 * r + doy;
    FourYears(YearStart(yoe) + doy, 25 * c + s, u);
    YearOffset(c, s, r, doy, u);
  }

  lemma FourYears(doe: nat, k: nat, u: nat)
    requires doe == 1460 * k + u
    ensures doe / 1460 == k + u / 1460
  {
  }

  /** Year and day in centuries, four-year groups and single years. */
  lemma CenturyParts(yoe: nat, doy: nat, c: nat, s: nat, r: nat)
    requires InEra(yoe, doy) && c == yoe / 100 && s == yoe % 100 / 4 && r == yoe % 4
    ensures c <= 3 && s <= 24 && r <= 3 && yoe == 100 * c + 4 * s + r
    ensures YearStart(yoe) + doy == 36524 * c + 1461 * s + 365 * r + doy
    ensures doy == 365 ==> r == 3
    ensures 1461 * s + 365 * r + doy <= 36524
    ensures 1461 * s + 365 * r + doy == 36524 ==> c == 3
  {
    assert yoe / 4 == 25 * c + s;
  }

  lemma CenturyOf(c: nat, t: nat)
    requires c <= 3 && t <= 36524 && (t == 36524 ==> c == 3)
    ensures 36524 * c + t < 146097
    ensures (36524 * c + t) / 36524 - (36524 * c + t) / 146096 == c
  {
  }

  lemma YearOffset(c: nat, s: nat, r: nat, doy: nat, u: nat)
    requires c <= 3 && s <= 24 && r <= 3 && doy <= 365 && (doy == 365 ==> r == 3) && u == 24 * c + s + 365 * r + doy
    ensures 0 <= doy - u / 1460 <= 364
  {
  }

  /** Every day of an era lies in one of its years. */
  lemma {:induction false} LocateYear(doe: nat, from: nat) returns (yoe: nat, doy: nat)
    requires doe < 146097 && from < 400 && YearStart(from) <= doe
    ensures InEra(yoe, doy) && doe == YearStart(yoe) + doy
    decreases 400 - from
  {
    if doe < YearStart(from) + YearLength(from) {
      yoe, doy := from, doe - YearStart(from);
    } else {
      assert from < 399 by { assert YearStart(399) + YearLength(399) == 146097; }
      NextYearStart(from);
      yoe, doy := LocateYear(doe, from + 1);
    }
  }

  /** First day, within a year that starts on 1 March, of each month from March on. */
  function MonthStart(mp: nat): nat { (153 * mp + 2) / 5 }

  /** The date of day `doy` in year `yoe` of an era. */
  function CivilOf(era: nat, yoe: nat, doy: nat): Civil {
    var mp := MonthIndex(doy);
    var m := if mp < 10 then mp + 3 else mp - 9;
    var y := yoe + era * 400;
    Civil(if m <= 2 then y + 1 else y, m, doy - MonthStart(mp) + 1)
  }

  /** The month formula is right on every day of a year. */
  lemma MonthOfDay(doy: nat)
    requires doy <= 365
    ensures var mp := (5 * doy + 2) / 153; mp <= 11 && MonthStart(mp) <= doy && (mp < 11 ==> doy < MonthStart(mp + 1))
  {
  }

  /** Every day count has an era, a year and a day, and the program's arithmetic finds them. */
  lemma Decompose(days: nat) returns (era: nat, yoe: nat, doy: nat)
    ensures InEra(yoe, doy) && days + 719468 == DayNumber(era, yoe, doy)
    ensures FromDays(days) == CivilOf(era, yoe, doy)
  {
    var z := days + 719468;
    era := z / 146097;
    var doe := z - era * 146097;
    yoe, doy := LocateYear(doe, 0);
    YearFormula(yoe, doy);
    assert YearOfEra(doe) == yoe;
    assert doe - (365 * yoe + yoe / 4 - yoe / 100) == doy;
    MonthOfDay(doy);
    ConvertParts(days, era, doe, yoe, doy);
  }

  lemma ConvertParts(days: nat, era: nat, doe: nat, yoe: nat, doy: nat)
    requires era == (days + 719468) / 146097 && doe == days + 719468 - era * 146097
    requires YearOfEra(doe) == yoe && doe == YearStart(yoe) + doy && doy <= 365
    ensures FromDays(days) == CivilOf(era, yoe, doy)
  {
    MonthOfDay(doy);
  }

  lemma Mod4(x: nat, k: nat) ensures (x + 4 * k) % 4 == x % 4 {}
  lemma Mod100(x: nat, k: nat) ensures (x + 100 * k) % 100 == x % 100 {}
  lemma Mod400(x: nat, k: nat) ensures (x + 400 * k) % 400 == x % 400 {}

  lemma LeapInEra(era: nat, yoe: nat)
    requires yoe < 400
    ensures IsLeap(yoe + era * 400 + 1) <==> LongYear(yoe)
  {
    var y := yoe + era * 400 + 1;
    Mod4(yoe + 1, 100 * era);
    Mod100(yoe + 1, 4 * era);
    Mod400(yoe + 1, era);
    assert y == yoe + 1 + 4 * (100 * era) && y == yoe + 1 + 100 * (4 * era) && y == yoe + 1 + 400 * era;
  }

  /** Where the months begin, as plain numbers. */
  lemma MonthTable()
    ensures MonthStart(0) == 0 && MonthStart(1) == 31 && MonthStart(2) == 61 && MonthStart(3) == 92
    ensures MonthStart(4) == 122 && MonthStart(5) == 153 && MonthStart(6) == 184 && MonthStart(7) == 214
    ensures MonthStart(8) == 245 && MonthStart(9) == 275 && MonthStart(10) == 306 && MonthStart(11) == 337
  {
  }

  function MonthIndex(doy: nat): nat { (5 * doy + 2) / 153 }

  /** Length of the month with index `mp` in a year of `length` days that starts on 1 March. */
  function MonthLength(mp: nat, length: nat): nat {
    if mp == 11 then (if length == 366 then 29 else 28)
    else if mp == 1 || mp == 3 || mp == 6 || mp == 8 then 30
    else 31
  }

  lemma MonthSpan(doy: nat, length: nat)
    requires doy < length && (length == 365 || length == 366)
    ensures var mp := MonthIndex(doy); mp <= 11 && MonthStart(mp) <= doy < MonthStart(mp) + MonthLength(mp, length)
    ensures MonthStart(MonthIndex(doy)) + MonthLength(MonthIndex(doy), length) ==
      if MonthIndex(doy) == 11 then length else MonthStart(MonthIndex(doy) + 1)
  {
    MonthOfDay(doy);
    MonthTable();
  }

  /** A day and its month index determine each other. */
  lemma MonthIndexIs(doy: nat, mp: nat)
    requires doy <= 365 && mp <= 11 && MonthStart(mp) <= doy && (mp < 11 ==> doy < MonthStart(mp + 1))
    ensures MonthIndex(doy) == mp
  {
    MonthOfDay(doy);
    MonthTable();
  }

  lemma CivilMonth(era: nat, yoe: nat, doy: nat)
    requires InEra(yoe, doy)
    ensures var c := CivilOf(era, yoe, doy);
      DaysInMonth(c.month, c.year) == MonthLength(MonthIndex(doy), YearLength(yoe))
  {
    LeapInEra(era, yoe);
    MonthOfDay(doy);
  }

  /** Months of a year that starts on 1 March have their calendar lengths. */
  lemma CivilIsValid(era: nat, yoe: nat, doy: nat)
    requires InEra(yoe, doy)
    ensures Valid(CivilOf(era, yoe, doy))
  {
    CivilMonth(era, yoe, doy);
    MonthSpan(doy, YearLength(yoe));
  }

  lemma CivilNext(era: nat, yoe: nat, doy: nat)
    requires InEra(yoe, doy) && doy + 1 < YearLength(yoe)
    ensures CivilOf(era, yoe, doy + 1) == NextDay(CivilOf(era, yoe, doy))
  {
    CivilMonth(era, yoe, doy);
    MonthSpan(doy, YearLength(yoe));
    var mp := MonthIndex(doy);
    if doy + 1 < MonthStart(mp) + MonthLength(mp, YearLength(yoe)) {
      MonthIndexIs(doy + 1, mp);
    } else {
      MonthTable();
      MonthIndexIs(doy + 1, mp + 1);
    }
  }

  lemma CivilYearEnd(era: nat, yoe: nat, doy: nat)
    requires InEra(yoe, doy) && doy + 1 == YearLength(yoe)
    ensures NextDay(CivilOf(era, yoe, doy)) == Civil(yoe + era * 400 + 1, 3, 1)
  {
    CivilMonth(era, yoe, doy);
    MonthTable();
    MonthIndexIs(doy, 11);
  }

  /** The first day of the next year of the era, or of the next era. */
  lemma NewYear(era: nat, yoe: nat)
    ensures CivilOf(era, yoe, 0) == Civil(yoe + era * 400, 3, 1)
  {
  }

  /** Days since the start of the first era. */
  function DayNumber(era: nat, yoe: nat, doy: nat): nat {
    era * 146097 + YearStart(yoe) + doy
  }

  /** Within a year, into the next year, and into the next era: the decomposition one day later. */
  lemma StepWithinYear(era: nat, yoe: nat, doy: nat, e: nat, y: nat, d: nat)
    requires InEra(yoe, doy) && InEra(y, d) && DayNumber(e, y, d) == DayNumber(era, yoe, doy) + 1
    requires doy + 1 < YearLength(yoe)
    ensures e == era && y == yoe && d == doy + 1
  {
    SameDay(era, yoe, doy + 1, e, y, d);
  }

  lemma StepIntoYear(era: nat, yoe: nat, doy: nat, e: nat, y: nat, d: nat)
    requires InEra(yoe, doy) && InEra(y, d) && DayNumber(e, y, d) == DayNumber(era, yoe, doy) + 1
    requires doy + 1 == YearLength(yoe) && yoe < 399
    ensures e == era && y == yoe + 1 && d == 0
  {
    NextYearStart(yoe);
    SameDay(era, yoe + 1, 0, e, y, d);
  }

  lemma StepIntoEra(era: nat, yoe: nat, doy: nat, e: nat, y: nat, d: nat)
    requires InEra(yoe, doy) && InEra(y, d) && DayNumber(e, y, d) == DayNumber(era, yoe, doy) + 1
    requires doy + 1 == YearLength(yoe) && yoe == 399
    ensures e == era + 1 && y == 0 && d == 0
  {
    assert YearStart(399) == 145731 && YearStart(0) == 0 && YearLength(399) == 366;
    SameDay(era + 1, 0, 0, e, y, d);
  }

  /**
    A map from decompositions to dates that follows the calendar within years and at year ends
    follows it everywhere.
   */
  lemma StepOverYears(civil: (nat, nat, nat) -> Civil, next: Civil -> Civil, era: nat, yoe: nat, doy: nat, e: nat,
      y: nat, d: nat)
    requires InEra(yoe, doy) && InEra(y, d) && DayNumber(e, y, d) == DayNumber(era, yoe, doy) + 1
    requires doy + 1 < YearLength(yoe) ==> civil(era, yoe, doy + 1) == next(civil(era, yoe, doy))
    requires doy + 1 == YearLength(yoe) ==> next(civil(era, yoe, doy)) == Civil(yoe + era * 400 + 1, 3, 1)
    requires civil(e, y, 0) == Civil(y + e * 400, 3, 1)
    ensures civil(e, y, d) == next(civil(era, yoe, doy))
  {
    if doy + 1 < YearLength(yoe) {
      StepWithinYear(era, yoe, doy, e, y, d);
    } else if yoe < 399 {
      StepIntoYear(era, yoe, doy, e, y, d);
    } else {
      StepIntoEra(era, yoe, doy, e, y, d);
    }
  }

  /** The date one day later is the next date. */
  lemma CivilStep(era: nat, yoe: nat, doy: nat, e: nat, y: nat, d: nat)
    requires InEra(yoe, doy) && InEra(y, d) && DayNumber(e, y, d) == DayNumber(era, yoe, doy) + 1
    ensures CivilOf(e, y, d) == NextDay(CivilOf(era, yoe, doy))
  {
    if doy + 1 < YearLength(yoe) { CivilNext(era, yoe, doy); } else { CivilYearEnd(era, yoe, doy); }
    NewYear(e, y);
    StepOverYears(CivilOf, NextDay, era, yoe, doy, e, y, d);
  }

  /** One more day is the next date. */
  lemma FromDaysStep(days: nat)
    ensures FromDays(days + 1) == NextDay(FromDays(days)) && Valid(FromDays(days))
  {
    var era, yoe, doy := Decompose(days);
    var e, y, d := Decompose(days + 1);
    CivilIsValid(era, yoe, doy);
    CivilStep(era, yoe, doy, e, y, d);
  }

  /** A day count has only one decomposition. */
  lemma SameDay(era1: nat, yoe1: nat, doy1: nat, era2: nat, yoe2: nat, doy2: nat)
    requires InEra(yoe1, doy1) && InEra(yoe2, doy2)
    requires DayNumber(era1, yoe1, doy1) == DayNumber(era2, yoe2, doy2)
    ensures era1 == era2 && yoe1 == yoe2 && doy1 == doy2
  {
    YearFormula(yoe1, doy1);
    YearFormula(yoe2, doy2);
    assert era1 == era2;
  }

  lemma EpochDay()
    ensures FromDays(0) == EPOCH
  {
    var era, yoe, doy := Decompose(0);
    EpochParts();
    SameDay(era, yoe, doy, 4, 369, 306);
  }

  lemma EpochParts()
    ensures InEra(369, 306) && DayNumber(4, 369, 306) == 719468
    ensures CivilOf(4, 369, 306) == EPOCH
  {
  }

  lemma {:induction false} YearsFromEpoch(days: nat)
    ensures DateAfter(days).year >= 1970
  {
    if days > 0 { YearsFromEpoch(days - 1); }
  }

  lemma FromDaysValid(days: nat)
    ensures Valid(FromDays(days))
  {
    FromDaysStep(days);
  }

  lemma {:induction false} StepByStep(f: nat -> Civil, days: nat)
    requires f(0) == EPOCH && forall k: nat :: f(k + 1) == NextDay(f(k))
    ensures f(days) == DateAfter(days)
  {
    if days > 0 {
      StepByStep(f, days - 1);
      assert f(days - 1 + 1) == NextDay(f(days - 1));
    }
  }

  /**
    The conversion is the calendar: for every day count it gives the date reached one day at a time,
    and that date is valid.
   */
  lemma FromDaysIsTheCalendar(days: nat)
    ensures FromDays(days) == DateAfter(days)
    ensures Valid(FromDays(days)) && FromDays(days).year >= 1970
  {
    FromDaysValid(days);
    YearsFromEpoch(days);
    EpochDay();
    forall k: nat ensures FromDays(k + 1) == NextDay(FromDays(k)) {
      FromDaysStep(k);
    }
    StepByStep(FromDays, days);
  }

  // ---- Back to a day count ----

  /** The day count of a date, by the same eras. */
  function ToDays(c: Civil): int
    requires Valid(c)
  {
    var y := if c.month <= 2 then c.year - 1 else c.year;
    var era, yoe := y / 400, y % 400;
    var mp := if c.month > 2 then c.month - 3 else c.month + 9;
    var doy := MonthStart(mp) + c.day - 1;
    era * 146097 + YearStart(yoe) + doy - 719468
  }

  lemma CivilBack(era: nat, yoe: nat, doy: nat)
    requires InEra(yoe, doy)
    ensures Valid(CivilOf(era, yoe, doy))
    ensures ToDays(CivilOf(era, yoe, doy)) == DayNumber(era, yoe, doy) - 719468
  {
    CivilIsValid(era, yoe, doy);
    MonthOfDay(doy);
    var y := yoe + era * 400;
    assert y / 400 == era && y % 400 == yoe;
  }

  /** Converting there and back gives the same day count, so no two days share a date. */
  lemma RoundTrip(days: nat)
    ensures Valid(FromDays(days)) && ToDays(FromDays(days)) == days
  {
    var era, yoe, doy := Decompose(days);
    CivilBack(era, yoe, doy);
  }

  /** The parts of a valid date from March 1600 on: eras before the epoch's are not needed. */
  lemma PartsOf(c: Civil) returns (era: nat, yoe: nat, doy: nat)
    requires Valid(c) && c.year >= 1601
    ensures InEra(yoe, doy) && CivilOf(era, yoe, doy) == c
  {
    var y := if c.month <= 2 then c.year - 1 else c.year;
    era, yoe := y / 400, y % 400;
    var mp := if c.month > 2 then c.month - 3 else c.month + 9;
    doy := MonthStart(mp) + c.day - 1;
    MonthTable();
    LeapInEra(era, yoe);
    assert y == yoe + era * 400;
    DayInMonth(mp, c.day, YearLength(yoe));
  }

  lemma DayInMonth(mp: nat, day: nat, length: nat)
    requires mp <= 11 && (length == 365 || length == 366) && 1 <= day <= MonthLength(mp, length)
    ensures MonthStart(mp) + day - 1 < length && MonthIndex(MonthStart(mp) + day - 1) == mp
  {
    MonthTable();
    MonthIndexIs(MonthStart(mp) + day - 1, mp);
  }

  lemma NotBeforeEpoch(c: Civil)
    requires Valid(c) && c.year >= 1970
    ensures ToDays(c) >= 0
  {
    var y := if c.month <= 2 then c.year - 1 else c.year;
    var era, yoe := y / 400, y % 400;
    MonthTable();
    assert y == 400 * era + yoe;
    if era == 4 && yoe > 369 { assert YearStart(yoe) >= YearStart(370); }
  }

  /** Every valid date from the epoch on is the conversion of its day count: no date is skipped. */
  lemma EveryDateIsReached(c: Civil)
    requires Valid(c) && c.year >= 1970
    ensures ToDays(c) >= 0 && FromDays(ToDays(c)) == c
  {
    NotBeforeEpoch(c);
    var era, yoe, doy := PartsOf(c);
    CivilBack(era, yoe, doy);
    var e, y, d := Decompose(ToDays(c));
    SameDay(era, yoe, doy, e, y, d);
  }

  // ---- The presets ----

  datatype Range = Range(first: Civil, last: Civil)

  /** A year as the program casts it to 32 bits before it asks for a month's length. */
  function AsI32(y: int): int {
    var r := y % 0x1_0000_0000;
    if r <= I32_MAX then r else r - 0x1_0000_0000
  }

  function ThisMonth(days: nat): Range {
    var c := FromDays(days);
    Range(c.(day := 1), c.(day := DaysInMonth(c.month, AsI32(c.year))))
  }

  /** The month and year before. */
  function MonthBefore(c: Civil): Civil
    requires Valid(c) && c.year >= 1970
  {
    if c.month == 1 then Civil(c.year - 1, 12, 1) else Civil(c.year, c.month - 1, 1)
  }

  function LastMonth(days: nat): Range {
    FromDaysIsTheCalendar(days);
    var p := MonthBefore(FromDays(days));
    Range(p, p.(day := DaysInMonth(p.month, AsI32(p.year))))
  }

  function DmyOf(c: Civil): Dmy { Dmy(c.day, c.month, c.year) }

  predicate Within(r: Range, c: Civil) {
    !Before(DmyOf(c), DmyOf(r.first)) && !Before(DmyOf(r.last), DmyOf(c))
  }

  /** What the two month presets are for. */
  ghost predicate WholeMonths(now: Range, before: Range, today: Civil) {
    && Valid(now.first) && Valid(now.last) && Valid(before.first) && Valid(before.last)
    && Within(now, today)
    && NextDay(before.last) == now.first
    && before.first.day == 1 && NextDay(now.last).day == 1
    && forall c :: Valid(c) ==> !(Within(now, c) && Within(before, c))
  }

  /** The cast leaves the length of a date's month as it is. */
  predicate CastIsHarmless(c: Civil) {
    DaysInMonth(c.month, AsI32(c.year)) == DaysInMonth(c.month, c.year)
  }

  /**
    "This month" is a whole month that contains today and "last month" a whole month that ends
    the day before it starts, if and only if the 32-bit cast changes the length of neither.
   */
  lemma PresetsMeetIff(days: nat)
    ensures Valid(FromDays(days)) && FromDays(days).year >= 1970
    ensures WholeMonths(ThisMonth(days), LastMonth(days), FromDays(days)) <==>
      CastIsHarmless(FromDays(days)) && CastIsHarmless(MonthBefore(FromDays(days)))
  {
    FromDaysIsTheCalendar(days);
    var c := FromDays(days);
    var p := MonthBefore(c);
    var now, before := ThisMonth(days), LastMonth(days);
    if CastIsHarmless(c) && CastIsHarmless(p) {
      MonthsMeet(c);
    }
    if WholeMonths(now, before, c) {
      assert now.last.day == DaysInMonth(c.month, c.year);
      assert before.last.day == DaysInMonth(p.month, p.year);
    }
  }

  lemma MonthsMeet(c: Civil)
    requires Valid(c) && c.year >= 1970
    ensures var p := MonthBefore(c);
      WholeMonths(Range(c.(day := 1), c.(day := DaysInMonth(c.month, c.year))),
                  Range(p, p.(day := DaysInMonth(p.month, p.year))), c)
  {
  }

  /** In every year that fits 32 bits the presets do what they are for. */
  lemma PresetsMeet(days: nat)
    requires FromDays(days).year <= I32_MAX
    ensures WholeMonths(ThisMonth(days), LastMonth(days), FromDays(days))
  {
    PresetsMeetIff(days);
    SmallYearsSurvive(FromDays(days));
    SmallYearsSurvive(MonthBefore(FromDays(days)));
  }

  lemma SmallYearsSurvive(c: Civil)
    requires 0 <= c.year <= I32_MAX
    ensures CastIsHarmless(c)
  {
    assert AsI32(c.year) == c.year;
  }

  /**
    Beyond them they can fail: in February 2147483700 the cast year is a leap year, and "this month"
    ends on a 29th that does not exist.
   */
  lemma CastMakesALeapYear(days: nat)
    requires FromDays(days).year == 2147483700 && FromDays(days).month == 2
    ensures ThisMonth(days).last == Civil(2147483700, 2, 29) && !Valid(ThisMonth(days).last)
  {
    assert AsI32(2147483700) == -2147483596;
  }

  /** Such a day is within the seconds a 64-bit clock can count. */
  lemma ThatFebruaryExists() returns (days: nat)
    ensures FromDays(days) == Civil(2147483700, 2, 1) && days * 86400 < 0x1_0000_0000_0000_0000
  {
    var c := Civil(2147483700, 2, 1);
    EveryDateIsReached(c);
    days := ToDays(c);
  }

  /** How a preset prints a date: the year without padding. */
  function PresetText(c: Civil): string
    requires c.year >= 0
  {
    JoinTwo(Pad(c.day, 2), JoinTwo(Pad(c.month, 2), Digits(c.year), '/'), '/')
  }

  lemma FourDigits(y: nat)
    requires y >= 1000
    ensures |Digits(y)| >= 4 && Pad(y, 4) == Digits(y)
  {
    assert Pow10(3) == 1000 by {
      assert Pow10(3) == 10 * Pow10(2) && Pow10(2) == 10 * Pow10(1) && Pow10(1) == 10 * Pow10(0);
    }
    LongNumeral(y, 4);
  }

  /** Every preset text reads back, in the row filter, as the date it was printed from. */
  lemma PresetTextReads(days: nat)
    requires FromDays(days).year <= I32_MAX
    ensures var c := FromDays(days); c.year >= 0 && ParseDmy(PresetText(c)) == Some(DmyOf(c))
  {
    FromDaysIsTheCalendar(days);
    var c := FromDays(days);
    FourDigits(c.year);
    DayTextReads(DmyOf(c));
    assert PresetText(c) == DayText(DmyOf(c));
  }
}
