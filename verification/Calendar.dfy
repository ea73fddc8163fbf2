/** The date arithmetic of the schema snapshot: a day number since 1970-01-01 as
    a civil date.

    The arithmetic is the code's own; the proleptic Gregorian calendar it is
    proved against (ISO 8601) is stated separately, by leap years, month lengths
    and the successor of a date.
 */
module Calendar {

  datatype Date = Date(year: int, month: int, day: int)

  // ---- The calendar ------------------------------------------------------

  predicate IsLeap(year: int) {
    year % 4 == 0 && (year % 100 != 0 || year % 400 == 0)
  }

  function MonthLength(year: int, month: int): int
    requires 1 <= month <= 12
  {
    if month == 2 then (if IsLeap(year) then 29 else 28)
    else if month == 4 || month == 6 || month == 9 || month == 11 then 30
    else 31
  }

  predicate IsDate(date: Date) {
    1 <= date.month <= 12 && 1 <= date.day <= MonthLength(date.year, date.month)
  }

  function NextDate(date: Date): Date
    requires IsDate(date)
  {
    if date.day < MonthLength(date.year, date.month) then date.(day := date.day + 1)
    else if date.month < 12 then Date(date.year, date.month + 1, 1)
    else Date(date.year + 1, 1, 1)
  }

  predicate Before(a: Date, b: Date) {
    a.year < b.year
    || (a.year == b.year && (a.month < b.month || (a.month == b.month && a.day < b.day)))
  }

  // ---- The code's arithmetic ---------------------------------------------

  const DAYS_PER_ERA := 146_097
  const EPOCH_SHIFT := 719_468
  const SECS_PER_DAY := 86_400

  /** The year of a 400-year era holding day `doe` of that era. */
  function YearOfEra(doe: int): int {
    (doe - doe / 1460 + doe / 36_524 - doe / 146_096) / 365
  }

  /** Day `doy` of a year that starts on March 1st. */
  function MonthIndex(doy: int): int {
    (5 * doy + 2) / 153
  }

  /** The date `doy` days after March 1st of `year`. */
  function FromMarch(year: int, doy: int): Date {
    var mp := MonthIndex(doy);
    var month := if mp < 10 then mp + 3 else mp - 9;
    Date(if month <= 2 then year + 1 else year, month, doy - (153 * mp + 2) / 5 + 1)
  }

  function CivilFromDays(days: int): Date {
    var z := days + EPOCH_SHIFT;
    var era := z / DAYS_PER_ERA;
    var doe := z % DAYS_PER_ERA;
    var yoe := YearOfEra(doe);
    FromMarch(yoe + era * 400, doe - (365 * yoe + yoe / 4 - yoe / 100))
  }

  /** The date at `secs` seconds after the Unix epoch, UTC. */
  function Today(secs: nat): Date {
    CivilFromDays(secs / SECS_PER_DAY)
  }

  // ---- Years that start on March 1st -------------------------------------

  /** Days from 0000-03-01 to March 1st of `year`. */
  function MarchFirst(year: int): int {
    365 * year + year / 4 - year / 100 + year / 400
  }

  // A day of an era as century, four-year block, year of the block and day.
  lemma EraParts(doe: int) returns (c: int, q: int, y: int, d: int)
    requires 0 <= doe < DAYS_PER_ERA
    ensures 0 <= c < 4 && 0 <= q < 25 && 0 <= y < 4 && 0 <= d <= 365
    ensures doe == 36_524 * c + 1461 * q + 365 * y + d
    ensures d == 365 ==> y == 3 && (q == 24 ==> c == 3)
  {
    c := if doe == 146_096 then 3 else doe / 36_524;
    var r := doe - 36_524 * c;
    q := r / 1461;
    var s := r - 1461 * q;
    y := if s == 1460 then 3 else s / 365;
    d := s - 365 * y;
  }

  lemma YearOfParts(doe: int, c: int, q: int, y: int, d: int)
    requires 0 <= c < 4 && 0 <= q < 25 && 0 <= y < 4 && 0 <= d <= 365
    requires doe == 36_524 * c + 1461 * q + 365 * y + d
    requires d == 365 ==> y == 3 && (q == 24 ==> c == 3)
    ensures YearOfEra(doe) == 100 * c + 4 * q + y
  {
    var extra := if 24 * c + q + 365 * y + d >= 1460 then 1 else 0;
    assert doe / 1460 == 25 * c + q + extra;
    var last := if doe == 146_096 then 1 else 0;
    assert doe / 36_524 == c + last;
    assert doe / 146_096 == last;
    assert 0 <= d - extra < 365;
  }

  lemma YearOfEraIsTheYear(doe: int)
    requires 0 <= doe < DAYS_PER_ERA
    ensures 0 <= YearOfEra(doe) < 400
    ensures MarchFirst(YearOfEra(doe)) <= doe < MarchFirst(YearOfEra(doe) + 1)
  {
    var c, q, y, d := EraParts(doe);
    YearOfParts(doe, c, q, y, d);
    var yoe := 100 * c + 4 * q + y;
    assert yoe / 4 == 25 * c + q && yoe / 100 == c && yoe / 400 == 0;
    assert (yoe + 1) / 4 == 25 * c + q + (if y == 3 then 1 else 0);
    assert (yoe + 1) / 100 == c + (if y == 3 && q == 24 then 1 else 0);
    assert (yoe + 1) / 400 == if y == 3 && q == 24 && c == 3 then 1 else 0;
  }

  lemma MarchFirstShifts(year: int, era: int)
    ensures MarchFirst(year + era * 400) == MarchFirst(year) + era * DAYS_PER_ERA
  {
    assert (year + era * 400) / 4 == year / 4 + era * 100;
    assert (year + era * 400) / 100 == year / 100 + era * 4;
    assert (year + era * 400) / 400 == year / 400 + era;
  }

  /** The code splits a day number into a March year and a day of it. */
  lemma SplitsIntoMarchYear(days: int) returns (year: int, doy: int)
    ensures days + EPOCH_SHIFT == MarchFirst(year) + doy
    ensures 0 <= doy && days + EPOCH_SHIFT < MarchFirst(year + 1)
    ensures CivilFromDays(days) == FromMarch(year, doy)
  {
    var z := days + EPOCH_SHIFT;
    hide FromMarch, YearOfEra;
    var era, doe := z / DAYS_PER_ERA, z % DAYS_PER_ERA;
    YearOfEraIsTheYear(doe);
    var yoe := YearOfEra(doe);
    year := yoe + era * 400;
    doy := doe - MarchFirst(yoe);
    MarchFirstShifts(yoe, era);
    MarchFirstShifts(yoe + 1, era);
    assert yoe / 400 == 0;
  }

  lemma MarchYearLength(year: int)
    ensures MarchFirst(year + 1) - MarchFirst(year) == if IsLeap(year + 1) then 366 else 365
  {
    var y := year + 1;
    assert y / 4 - year / 4 == if y % 4 == 0 then 1 else 0;
    assert y / 100 - year / 100 == if y % 100 == 0 then 1 else 0;
    assert y / 400 - year / 400 == if y % 400 == 0 then 1 else 0;
    assert y % 400 == 0 ==> y % 100 == 0;
    assert y % 100 == 0 ==> y % 4 == 0;
  }

  lemma MarchFirstIncreases(a: int, b: int)
    requires a < b
    ensures MarchFirst(a) < MarchFirst(b)
    decreases b - a
  {
    MarchYearLength(b - 1);
    if a < b - 1 { MarchFirstIncreases(a, b - 1); }
  }

  lemma MarchYearUnique(a: int, b: int, z: int)
    requires MarchFirst(a) <= z < MarchFirst(a + 1)
    requires MarchFirst(b) <= z < MarchFirst(b + 1)
    ensures a == b
  {
    if a + 1 < b { MarchFirstIncreases(a + 1, b); }
    if b + 1 < a { MarchFirstIncreases(b + 1, a); }
  }

  // ---- Main results ------------------------------------------------------

  /** Every day number has a date: month 1..12, day within its month. */
  lemma CivilIsADate(days: int)
    ensures IsDate(CivilFromDays(days))
  {
    var year, doy := SplitsIntoMarchYear(days);
    MarchYearLength(year);
    MarchDayIsADate(year, doy);
  }

  lemma MarchDayIsADate(year: int, doy: int)
    requires 0 <= doy < if IsLeap(year + 1) then 366 else 365
    ensures IsDate(FromMarch(year, doy))
  {
    var mp := MonthIndex(doy);
    assert 0 <= mp <= 11;
    assert mp == 0 || mp == 1 || mp == 2 || mp == 3 || mp == 4 || mp == 5
        || mp == 6 || mp == 7 || mp == 8 || mp == 9 || mp == 10 || mp == 11;
  }

  lemma MarchDaysAreSuccessive(year: int, doy: int)
    requires 0 <= doy
    requires doy + 1 < if IsLeap(year + 1) then 366 else 365
    ensures IsDate(FromMarch(year, doy))
    ensures FromMarch(year, doy + 1) == NextDate(FromMarch(year, doy))
  {
    MarchDayIsADate(year, doy);
    var mp := MonthIndex(doy);
    assert mp == 0 || mp == 1 || mp == 2 || mp == 3 || mp == 4 || mp == 5
        || mp == 6 || mp == 7 || mp == 8 || mp == 9 || mp == 10 || mp == 11;
    assert MonthIndex(doy + 1) == mp || MonthIndex(doy + 1) == mp + 1;
  }

  lemma LastOfMarchYear(year: int, doy: int)
    requires doy == if IsLeap(year + 1) then 365 else 364
    ensures IsDate(FromMarch(year, doy))
    ensures FromMarch(year + 1, 0) == NextDate(FromMarch(year, doy))
  {
  }

  /** Day 0 is the Unix epoch, and each next day number is the next date: with
      CivilIsADate this fixes the code's arithmetic on every integer. */
  lemma CivilFollowsTheCalendar(days: int)
    ensures CivilFromDays(0) == Date(1970, 1, 1)
    ensures IsDate(CivilFromDays(days))
    ensures CivilFromDays(days + 1) == NextDate(CivilFromDays(days))
  {
    hide CivilFromDays;
    EpochDay();
    CivilIsADate(days);
    NextCivil(days);
  }

  lemma EpochDay()
    ensures CivilFromDays(0) == Date(1970, 1, 1)
  {
  }

  lemma NextCivil(days: int)
    requires IsDate(CivilFromDays(days))
    ensures CivilFromDays(days + 1) == NextDate(CivilFromDays(days))
  {
    hide CivilFromDays;
    var year, doy := SplitsIntoMarchYear(days);
    var next, nextDoy := SplitsIntoMarchYear(days + 1);
    MarchYearLength(year);
    MarchYearLength(year + 1);
    if days + 1 + EPOCH_SHIFT < MarchFirst(year + 1) {
      MarchYearUnique(year, next, days + 1 + EPOCH_SHIFT);
      MarchDaysAreSuccessive(year, doy);
    } else {
      MarchYearUnique(year + 1, next, days + 1 + EPOCH_SHIFT);
      LastOfMarchYear(year, doy);
    }
  }

  /** Later days have later dates, so no two days share one. */
  lemma CivilIncreases(a: int, b: int)
    requires a < b
    ensures Before(CivilFromDays(a), CivilFromDays(b))
    decreases b - a
  {
    hide CivilFromDays;
    CivilFollowsTheCalendar(b - 1);
    if a < b - 1 { CivilIncreases(a, b - 1); }
  }

  /** Every date of the calendar is the date of exactly one day number. */
  lemma EveryDateHasADay(date: Date) returns (days: int)
    requires IsDate(date)
    ensures CivilFromDays(days) == date
    ensures forall other :: CivilFromDays(other) == date ==> other == days
  {
    days := DayNumber(date);
    forall other | CivilFromDays(other) == date ensures other == days {
      if other < days { CivilIncreases(other, days); }
      if days < other { CivilIncreases(days, other); }
    }
  }

  lemma MarchDay(date: Date) returns (year: int, doy: int)
    requires IsDate(date)
    ensures 0 <= doy < if IsLeap(year + 1) then 366 else 365
    ensures FromMarch(year, doy) == date
  {
    year := if date.month <= 2 then date.year - 1 else date.year;
    var mp := if date.month <= 2 then date.month + 9 else date.month - 3;
    doy := (153 * mp + 2) / 5 + date.day - 1;
    assert mp == 0 || mp == 1 || mp == 2 || mp == 3 || mp == 4 || mp == 5
        || mp == 6 || mp == 7 || mp == 8 || mp == 9 || mp == 10 || mp == 11;
    assert MonthIndex(doy) == mp;
  }

  lemma DayNumber(date: Date) returns (days: int)
    requires IsDate(date)
    ensures CivilFromDays(days) == date
  {
    hide CivilFromDays, FromMarch, MonthLength;
    var year, doy := MarchDay(date);
    MarchYearLength(year);
    days := MarchFirst(year) + doy - EPOCH_SHIFT;
    var y, d := SplitsIntoMarchYear(days);
    MarchYearUnique(year, y, days + EPOCH_SHIFT);
  }

  /** Two instants are given the same date exactly when no UTC midnight parts them,
      and an earlier date otherwise goes to the earlier instant. */
  lemma TodayTellsDaysApart(a: nat, b: nat)
    requires a <= b
    ensures Today(a) == Today(b) <==> a / SECS_PER_DAY == b / SECS_PER_DAY
    ensures Today(a) != Today(b) ==> Before(Today(a), Today(b))
  {
    var m, n := a / SECS_PER_DAY, b / SECS_PER_DAY;
    if m < n { CivilIncreases(m, n); }
  }

  /** The first day of the Unix epoch is 1970-01-01, and a day later is the next date. */
  lemma TodayFollowsTheCalendar(secs: nat)
    ensures secs < SECS_PER_DAY ==> Today(secs) == Date(1970, 1, 1)
    ensures IsDate(Today(secs)) && Today(secs + SECS_PER_DAY) == NextDate(Today(secs))
  {
    hide CivilFromDays;
    CivilFollowsTheCalendar(secs / SECS_PER_DAY);
    assert (secs + SECS_PER_DAY) / SECS_PER_DAY == secs / SECS_PER_DAY + 1;
  }
}
