/** The proleptic Gregorian calendar of `src/time.rs`.

The code computes a date from a signed day count with Howard Hinnant's
era arithmetic. The reference calendar here knows nothing about eras: it has
the leap rule of Appendix C of RFC 3339, the lengths of the months and the
rule for the day after a given day. */
module Calendar {

  const I32_MIN: int := -0x8000_0000
  const I32_MAX: int := 0x7fff_ffff

  datatype Date = Date(year: int, month: int, day: int)

  // ---------- the code ----------

  /** Rust's `/` on signed integers rounds toward zero. */
  function DivTrunc(a: int, b: int): int
    requires b > 0
  {
    if a >= 0 then a / b else -((-a) / b)
  }

  /** Rust's `as i32` keeps the low 32 bits, in two's complement. */
  function AsI32(n: int): int {
    var low := n % 0x1_0000_0000;
    if low > I32_MAX then low - 0x1_0000_0000 else low
  }

  /** Rust's `as u8` keeps the low 8 bits. */
  function AsU8(n: int): int {
    n % 256
  }

  /** The 400-year era of a day counted from 1 March of year 0. */
  function EraOf(z: int): int {
    DivTrunc(if z >= 0 then z else z - 146_096, 146_097)
  }

  /** The year of its era that day `doe` of the era belongs to. */
  function YearOfEra(doe: int): int {
    DivTrunc(doe - DivTrunc(doe, 1460) + DivTrunc(doe, 36_524) - DivTrunc(doe, 146_096), 365)
  }

  /** The date of day `doy` of the year that starts on 1 March of `year`. */
  function FromMarch(year: int, doy: int): Date {
    var mp := DivTrunc(5 * doy + 2, 153);
    var day := AsU8(doy - DivTrunc(153 * mp + 2, 5) + 1);
    var month := AsU8(if mp < 10 then mp + 3 else mp - 9);
    Date(if month <= 2 then year + 1 else year, month, day)
  }

  /** The year, counted from 1 March, that a day belongs to, and the day of that year. */
  function MarchDay(days: int): (int, int) {
    var z := days + 719_468;
    var era := EraOf(z);
    var doe := z - era * 146_097;
    var yoe := YearOfEra(doe);
    (yoe + era * 400, doe - (365 * yoe + DivTrunc(yoe, 4) - DivTrunc(yoe, 100)))
  }

  /** The era arithmetic, before the year is narrowed to 32 bits. */
  function WideCivil(days: int): Date {
    var (year, doy) := MarchDay(days);
    FromMarch(year, doy)
  }

  /** `civil_from_days`. */
  function CivilFromDays(days: int): Date {
    var wide := WideCivil(days);
    wide.(year := AsI32(wide.year))
  }

  // ---------- the reference calendar ----------

  predicate IsLeap(year: int) {
    year % 4 == 0 && (year % 100 != 0 || year % 400 == 0)
  }

  function DaysInMonth(year: int, month: int): int {
    if month == 2 then (if IsLeap(year) then 29 else 28)
    else if month in {4, 6, 9, 11} then 30
    else 31
  }

  predicate IsDate(d: Date) {
    && 1 <= d.month <= 12
    && 1 <= d.day <= DaysInMonth(d.year, d.month)
  }

  /** The Gregorian day after `d`. */
  function NextDay(d: Date): Date {
    if d.day < DaysInMonth(d.year, d.month) then Date(d.year, d.month, d.day + 1)
    else if d.month < 12 then Date(d.year, d.month + 1, 1)
    else Date(d.year + 1, 1, 1)
  }

  predicate Earlier(a: Date, b: Date) {
    || a.year < b.year
    || (a.year == b.year && a.month < b.month)
    || (a.year == b.year && a.month == b.month && a.day < b.day)
  }

  /** Days of the months of `year` before `month`. */
  function DaysBeforeMonth(year: int, month: int): int
    decreases month
  {
    if month <= 1 then 0 else DaysBeforeMonth(year, month - 1) + DaysInMonth(year, month - 1)
  }

  /** Days from 1 January of year 0 to 1 January of `year`; negative before year 0.
  The floors count the leap years of the rule (see `YearLength`). */
  function DaysBeforeYear(year: int): int {
    365 * year + (year - 1) / 4 - (year - 1) / 100 + (year - 1) / 400 + 1
  }

  /** Day count of a date, 1970-01-01 being day 0. */
  function DaysFromCivil(d: Date): int {
    DaysBeforeYear(d.year) - DaysBeforeYear(1970) + DaysBeforeMonth(d.year, d.month) + d.day - 1
  }

  lemma FloorStep(n: int, k: int)
    requires k in {4, 100, 400}
    ensures n / k - (n - 1) / k == if n % k == 0 then 1 else 0
  {
  }

  lemma Divides(n: int)
    ensures n % 400 == 0 ==> n % 100 == 0
    ensures n % 100 == 0 ==> n % 4 == 0
  {
    var q := n / 100;
    assert n == 100 * q + n % 100;
    assert n % 400 == 0 ==> n == 100 * (4 * (n / 400));
    assert n % 100 == 0 ==> n == 4 * (25 * q);
  }

  lemma YearLength(year: int)
    ensures DaysBeforeYear(year + 1) - DaysBeforeYear(year) == if IsLeap(year) then 366 else 365
  {
    FloorStep(year, 4);
    FloorStep(year, 100);
    FloorStep(year, 400);
    Divides(year);
  }

  lemma MonthTable(year: int)
    ensures var leap := if IsLeap(year) then 1 else 0;
            && DaysBeforeMonth(year, 1) == 0
            && DaysBeforeMonth(year, 2) == 31
            && DaysBeforeMonth(year, 3) == 59 + leap
            && DaysBeforeMonth(year, 4) == 90 + leap
            && DaysBeforeMonth(year, 5) == 120 + leap
            && DaysBeforeMonth(year, 6) == 151 + leap
            && DaysBeforeMonth(year, 7) == 181 + leap
            && DaysBeforeMonth(year, 8) == 212 + leap
            && DaysBeforeMonth(year, 9) == 243 + leap
            && DaysBeforeMonth(year, 10) == 273 + leap
            && DaysBeforeMonth(year, 11) == 304 + leap
            && DaysBeforeMonth(year, 12) == 334 + leap
  {
    assert DaysBeforeMonth(year, 3) == DaysBeforeMonth(year, 2) + DaysInMonth(year, 2);
    assert DaysBeforeMonth(year, 5) == DaysBeforeMonth(year, 4) + 30;
    assert DaysBeforeMonth(year, 7) == DaysBeforeMonth(year, 6) + 30;
    assert DaysBeforeMonth(year, 9) == DaysBeforeMonth(year, 8) + 31;
    assert DaysBeforeMonth(year, 11) == DaysBeforeMonth(year, 10) + 31;
  }

  /** The reference count steps by one from each date to its successor. */
  lemma NextDayCounts(d: Date)
    requires IsDate(d)
    ensures IsDate(NextDay(d))
    ensures DaysFromCivil(NextDay(d)) == DaysFromCivil(d) + 1
  {
    MonthTable(d.year);
    MonthTable(d.year + 1);
    YearLength(d.year);
  }

  // ---------- the era arithmetic meets the reference ----------

  /** The position of a day in its era: century, four-year cycle, year and day of that year,
  all counted from 1 March. */
  lemma EraPosition(doe: int) returns (c: int, q: int, y: int, doy: int)
    requires 0 <= doe < 146_097
    ensures 0 <= c < 4 && 0 <= q < 25 && 0 <= y < 4 && 0 <= doy <= 365
    ensures doe == 36_524 * c + 1461 * q + 365 * y + doy
    ensures doy == 365 ==> y == 3 && (q < 24 || c == 3)
    ensures doe / 36_524 - doe / 146_096 == c
  {
    c := if doe == 146_096 then 3 else doe / 36_524;
    var inCentury := doe - 36_524 * c;
    q := inCentury / 1461;
    var inCycle := inCentury - 1461 * q;
    y := if inCycle == 1460 then 3 else inCycle / 365;
    doy := inCycle - 365 * y;
  }

  lemma YearOfEraIs(doe: int, c: int, q: int, y: int, doy: int)
    requires 0 <= doe < 146_097
    requires 0 <= c < 4 && 0 <= q < 25 && 0 <= y < 4 && 0 <= doy <= 365
    requires doe == 36_524 * c + 1461 * q + 365 * y + doy
    requires doy == 365 ==> y == 3
    requires doe / 36_524 - doe / 146_096 == c
    ensures YearOfEra(doe) == 100 * c + 4 * q + y
  {
    var t := 24 * c + q + 365 * y + doy;
    assert doe == 1460 * (25 * c + q) + t;
    assert doe / 1460 == 25 * c + q + t / 1460;
    assert t / 1460 == if t < 1460 then 0 else 1;
    assert doe - doe / 1460 + doe / 36_524 - doe / 146_096 == 365 * (100 * c + 4 * q + y) + doy - t / 1460;
  }

  lemma EraOfIs(z: int)
    ensures EraOf(z) == z / 146_097
  {
  }

  /** Days from 1 January of year 0 to 1 March of `year`. */
  function MarchStart(year: int): int {
    365 * year + year / 4 - year / 100 + year / 400 + 60
  }

  lemma MarchStartCounts(year: int)
    ensures DaysBeforeYear(year) + DaysBeforeMonth(year, 3) == MarchStart(year)
    ensures DaysBeforeYear(year + 1) == MarchStart(year) + 306
  {
    FloorStep(year, 4);
    FloorStep(year, 100);
    FloorStep(year, 400);
    Divides(year);
    MonthTable(year);
  }

  lemma MarchStartInEra(era: int, c: int, q: int, y: int)
    requires 0 <= c < 4 && 0 <= q < 25 && 0 <= y < 4
    ensures MarchStart(400 * era + 100 * c + 4 * q + y) == 146_097 * era + 36_524 * c + 1461 * q + 365 * y + 60
  {
    var year := 400 * era + 100 * c + 4 * q + y;
    assert year / 4 == 100 * era + 25 * c + q;
    assert year / 100 == 4 * era + c;
    assert year / 400 == era;
  }

  lemma RemainderOf100(k: int, r: int)
    requires 0 <= r < 100
    ensures (100 * k + r) % 100 == r
  {
  }

  /** A March year has 366 days when the February at its end has 29. */
  lemma LongMarchYear(era: int, c: int, q: int)
    requires 0 <= c < 4 && 0 <= q < 25
    requires q < 24 || c == 3
    ensures IsLeap(400 * era + 100 * c + 4 * q + 4)
  {
    var year := 400 * era + 100 * c + 4 * q + 4;
    assert year == 4 * (100 * era + 25 * c + q + 1);
    if q < 24 {
      RemainderOf100(4 * era + c, 4 * q + 4);
    } else {
      assert year == 400 * (era + 1);
    }
  }

  /** Days before the `mp`-th month of a year that starts in March. */
  const MARCH_TABLE: seq<int> := [0, 31, 61, 92, 122, 153, 184, 214, 245, 275, 306, 337]

  lemma MarchTableIs(mp: int)
    requires 0 <= mp < 12
    ensures (153 * mp + 2) / 5 == MARCH_TABLE[mp]
  {
  }

  lemma MonthOfMarchDay(doy: int)
    requires 0 <= doy <= 365
    ensures var mp := (5 * doy + 2) / 153;
            0 <= mp < 12 && MARCH_TABLE[mp] <= doy < if mp < 11 then MARCH_TABLE[mp + 1] else 366
  {
    var mp := (5 * doy + 2) / 153;
    assert 153 * mp <= 5 * doy + 2 < 153 * (mp + 1);
    MarchTableIs(mp);
    if mp < 11 {
      MarchTableIs(mp + 1);
    }
  }

  /** The month table of a year that starts in March. */
  lemma FromMarchTable(year: int, doy: int)
    requires 0 <= doy <= 365
    requires doy == 365 ==> IsLeap(year + 1)
    ensures var mp := (5 * doy + 2) / 153;
            && 0 <= mp < 12
            && FromMarch(year, doy) == Date(if mp < 10 then year else year + 1, if mp < 10 then mp + 3 else mp - 9,
                                            doy - MARCH_TABLE[mp] + 1)
            && IsDate(FromMarch(year, doy))
  {
    MonthOfMarchDay(doy);
    MarchTableIs((5 * doy + 2) / 153);
  }

  lemma SpringCounts(year: int, mp: int)
    requires 0 <= mp < 10
    ensures DaysBeforeYear(year) + DaysBeforeMonth(year, mp + 3) == MarchStart(year) + MARCH_TABLE[mp]
  {
    MarchStartCounts(year);
    MonthTable(year);
  }

  lemma WinterCounts(year: int, mp: int)
    requires 10 <= mp < 12
    ensures DaysBeforeYear(year + 1) + DaysBeforeMonth(year + 1, mp - 9) == MarchStart(year) + MARCH_TABLE[mp]
  {
    MarchStartCounts(year);
    MonthTable(year + 1);
  }

  /** Where day `doy` of the March year `year` falls in the reference calendar. */
  lemma FromMarchCounts(year: int, doy: int)
    requires 0 <= doy <= 365
    requires doy == 365 ==> IsLeap(year + 1)
    ensures IsDate(FromMarch(year, doy))
    ensures DaysFromCivil(FromMarch(year, doy)) == MarchStart(year) + doy - 719_528
  {
    FromMarchTable(year, doy);
    var mp := (5 * doy + 2) / 153;
    if mp < 10 {
      SpringCounts(year, mp);
    } else {
      WinterCounts(year, mp);
    }
  }

  lemma CycleQuotients(c: int, q: int, y: int)
    requires 0 <= c < 4 && 0 <= q < 25 && 0 <= y < 4
    ensures DivTrunc(100 * c + 4 * q + y, 4) == 25 * c + q
    ensures DivTrunc(100 * c + 4 * q + y, 100) == c
  {
  }

  /** The code finds the year of that position. */
  lemma EraYear(doe: int) returns (c: int, q: int, y: int, doy: int)
    requires 0 <= doe < 146_097
    ensures 0 <= c < 4 && 0 <= q < 25 && 0 <= y < 4 && 0 <= doy <= 365
    ensures doe == 36_524 * c + 1461 * q + 365 * y + doy
    ensures doy == 365 ==> y == 3 && (q < 24 || c == 3)
    ensures YearOfEra(doe) == 100 * c + 4 * q + y
  {
    c, q, y, doy := EraPosition(doe);
    YearOfEraIs(doe, c, q, y, doy);
  }

  /** The March year and the day of it that the code computes. */
  lemma MarchDayIs(days: int) returns (era: int, c: int, q: int, y: int, doy: int)
    ensures 0 <= c < 4 && 0 <= q < 25 && 0 <= y < 4 && 0 <= doy <= 365
    ensures days + 719_468 == 146_097 * era + 36_524 * c + 1461 * q + 365 * y + doy
    ensures doy == 365 ==> y == 3 && (q < 24 || c == 3)
    ensures MarchDay(days) == (400 * era + 100 * c + 4 * q + y, doy)
  {
    var z := days + 719_468;
    EraOfIs(z);
    era := EraOf(z);
    c, q, y, doy := EraYear(z - 146_097 * era);
    CycleQuotients(c, q, y);
    MarchDayInEra(days, era, c, q, y, doy);
  }

  lemma MarchDayInEra(days: int, era: int, c: int, q: int, y: int, doy: int)
    requires EraOf(days + 719_468) == era
    requires var doe := days + 719_468 - 146_097 * era;
             doe == 36_524 * c + 1461 * q + 365 * y + doy && YearOfEra(doe) == 100 * c + 4 * q + y
    requires DivTrunc(100 * c + 4 * q + y, 4) == 25 * c + q
    requires DivTrunc(100 * c + 4 * q + y, 100) == c
    ensures MarchDay(days) == (400 * era + 100 * c + 4 * q + y, doy)
  {
  }

  /** The era arithmetic yields a real date whose reference day count is the input, for every
  signed day count. */
  lemma WideCivilCounts(days: int)
    ensures IsDate(WideCivil(days))
    ensures DaysFromCivil(WideCivil(days)) == days
  {
    var era, c, q, y, doy := MarchDayIs(days);
    MarchStartInEra(era, c, q, y);
    var year := 400 * era + 100 * c + 4 * q + y;
    if doy == 365 {
      LongMarchYear(era, c, q);
    }
    FromMarchCounts(year, doy);
    assert WideCivil(days) == FromMarch(year, doy);
  }

  // ---------- main results on dates ----------

  lemma {:induction false} YearsApart(a: int, b: int)
    requires a < b
    ensures DaysBeforeYear(a) + (if IsLeap(a) then 366 else 365) <= DaysBeforeYear(b)
    decreases b - a
  {
    YearLength(a);
    if a + 1 < b {
      YearsApart(a + 1, b);
    }
  }

  lemma YearEnds(d: Date)
    requires IsDate(d)
    ensures var jan1 := DaysBeforeYear(d.year) - DaysBeforeYear(1970);
            jan1 <= DaysFromCivil(d) < jan1 + if IsLeap(d.year) then 366 else 365
  {
    MonthTable(d.year);
  }

  lemma EarlierInYear(a: Date, b: Date)
    requires IsDate(a) && IsDate(b) && a.year == b.year && Earlier(a, b)
    ensures DaysBeforeMonth(a.year, a.month) + a.day < DaysBeforeMonth(b.year, b.month) + b.day
  {
    if a.month < b.month {
      MonthsApart(a.year, a.month, b.month);
    }
  }

  lemma {:induction false} MonthsApart(year: int, m: int, n: int)
    requires 1 <= m < n
    ensures DaysBeforeMonth(year, m) + DaysInMonth(year, m) <= DaysBeforeMonth(year, n)
    decreases n
  {
    if m < n - 1 {
      MonthsApart(year, m, n - 1);
    }
  }

  /** The reference count is strictly monotone in the calendar order. */
  lemma EarlierCountsLess(a: Date, b: Date)
    requires IsDate(a) && IsDate(b) && Earlier(a, b)
    ensures DaysFromCivil(a) < DaysFromCivil(b)
  {
    if a.year < b.year {
      YearEnds(a);
      YearEnds(b);
      YearsApart(a.year, b.year);
    } else {
      EarlierInYear(a, b);
    }
  }

  lemma SameCountSameDate(a: Date, b: Date)
    requires IsDate(a) && IsDate(b) && DaysFromCivil(a) == DaysFromCivil(b)
    ensures a == b
  {
    if Earlier(a, b) {
      EarlierCountsLess(a, b);
    } else if Earlier(b, a) {
      EarlierCountsLess(b, a);
    }
  }

  /** The era arithmetic inverts the reference count. */
  lemma WideCivilInverts(d: Date)
    requires IsDate(d)
    ensures WideCivil(DaysFromCivil(d)) == d
  {
    WideCivilCounts(DaysFromCivil(d));
    SameCountSameDate(WideCivil(DaysFromCivil(d)), d);
  }

  /** First and last day whose year fits the 32 bits of the result. */
  const MIN_DAY: int := -784_353_015_833
  const MAX_DAY: int := 784_351_576_776

  lemma YearAtLeast(d: Date, year: int)
    requires IsDate(d)
    ensures DaysBeforeYear(year) - DaysBeforeYear(1970) <= DaysFromCivil(d) <==> year <= d.year
  {
    YearEnds(d);
    if year < d.year {
      YearsApart(year, d.year);
    } else if d.year < year {
      YearsApart(d.year, year);
    }
  }

  lemma FirstAndLastDay()
    ensures DaysBeforeYear(I32_MIN) - DaysBeforeYear(1970) == MIN_DAY
    ensures DaysBeforeYear(I32_MAX + 1) - DaysBeforeYear(1970) == MAX_DAY + 1
  {
  }

  lemma YearRange(d: Date)
    requires IsDate(d)
    ensures MIN_DAY <= DaysFromCivil(d) <==> I32_MIN <= d.year
    ensures DaysFromCivil(d) <= MAX_DAY <==> d.year <= I32_MAX
  {
    FirstAndLastDay();
    YearAtLeast(d, I32_MIN);
    YearAtLeast(d, I32_MAX + 1);
  }

  lemma Narrowing(n: int)
    ensures AsI32(n) == n <==> I32_MIN <= n <= I32_MAX
  {
  }

  /** Of any real date the code finds the month and the day, and the year up to a multiple of 2^32. */
  lemma CivilNarrows(d: Date)
    requires IsDate(d)
    ensures CivilFromDays(DaysFromCivil(d)) == d.(year := AsI32(d.year))
  {
    WideCivilInverts(d);
  }

  /** The narrowing keeps the date exactly on the days from `MIN_DAY` to `MAX_DAY`. */
  lemma YearFits(days: int)
    ensures MIN_DAY <= days <= MAX_DAY <==> I32_MIN <= WideCivil(days).year <= I32_MAX
    ensures MIN_DAY <= days <= MAX_DAY <==> CivilFromDays(days) == WideCivil(days)
  {
    WideCivilCounts(days);
    YearRange(WideCivil(days));
    Narrowing(WideCivil(days).year);
  }

  lemma WideSuccessor(days: int)
    ensures WideCivil(days + 1) == NextDay(WideCivil(days))
  {
    WideCivilCounts(days);
    NextDayCounts(WideCivil(days));
    WideCivilInverts(NextDay(WideCivil(days)));
  }

  lemma Epoch()
    ensures CivilFromDays(0) == Date(1970, 1, 1)
  {
    assert EraOf(719_468) == 4;
    assert YearOfEra(135_080) == 369;
    assert MarchDay(0) == (1969, 306);
  }

  /** `civil_from_days` starts at 1970-01-01 and follows the Gregorian day-after rule. */
  lemma CivilFollowsCalendar(days: int)
    requires MIN_DAY <= days <= MAX_DAY
    ensures CivilFromDays(0) == Date(1970, 1, 1)
    ensures IsDate(CivilFromDays(days))
    ensures days < MAX_DAY ==> CivilFromDays(days + 1) == NextDay(CivilFromDays(days))
  {
    Epoch();
    YearFits(days);
    WideCivilCounts(days);
    if days < MAX_DAY {
      YearFits(days + 1);
      WideSuccessor(days);
    }
  }

  /** `civil_from_days` and the reference count are inverse bijections between the days from
  `MIN_DAY` to `MAX_DAY` and the dates with a 32-bit year, and both keep the order. */
  lemma CivilBijection(days: int, d: Date)
    requires MIN_DAY <= days <= MAX_DAY
    requires IsDate(d) && I32_MIN <= d.year <= I32_MAX
    ensures DaysFromCivil(CivilFromDays(days)) == days
    ensures MIN_DAY <= DaysFromCivil(d) <= MAX_DAY
    ensures CivilFromDays(DaysFromCivil(d)) == d
    ensures days < DaysFromCivil(d) <==> Earlier(CivilFromDays(days), d)
  {
    YearFits(days);
    WideCivilCounts(days);
    var c := CivilFromDays(days);
    YearRange(d);
    YearFits(DaysFromCivil(d));
    WideCivilInverts(d);
    if Earlier(c, d) {
      EarlierCountsLess(c, d);
    } else if Earlier(d, c) {
      EarlierCountsLess(d, c);
    }
  }
}
