/** The rotation schedule of `src/sink.rs`: which interval slot an instant falls in. */
module Slots {
  import opened Basics
  import opened Calendar
  import T = Timestamps

  const NANOS_PER_SECOND: int := 1_000_000_000
  const HOUR_SECS: nat := 3600
  const DAY_SECS: nat := 86_400
  const WEEK_SECS: nat := 604_800

  /** A clock reading: nanoseconds relative to the Unix epoch, negative before it. */
  type SystemTime = int

  /** `Every` carries the whole seconds of its duration. */
  datatype RotationInterval = Never | Hourly | Daily | Weekly | Every(secs: nat)

  // ---------- the code ----------

  /** Times before the epoch clamp to 0. */
  function UnixSecs(now: SystemTime): nat {
    if now < 0 then 0 else now / NANOS_PER_SECOND
  }

  function PeriodSecs(interval: RotationInterval): Option<nat> {
    match interval
    case Never => None
    case Hourly => Some(HOUR_SECS)
    case Daily => Some(DAY_SECS)
    case Weekly => Some(WEEK_SECS)
    case Every(secs) => if secs == 0 then None else Some(secs)
  }

  function IsoWeekStartSecs(secs: nat): nat {
    var offset := 3 * 86_400;
    var start := (secs + offset) / 604_800 * 604_800 - offset;
    if start < 0 then 0 else start
  }

  function SlotStart(interval: RotationInterval, now: SystemTime): Option<nat> {
    var secs := UnixSecs(now);
    match interval
    case Never => None
    case Weekly => Some(IsoWeekStartSecs(secs))
    case _ =>
      match PeriodSecs(interval)
      case None => None
      case Some(period) => Some(secs / period * period)
  }

  /** The slot of a file found at open: that of its modification time when known, else that of the
  current instant. */
  function IntervalStartFor(mtime: Option<SystemTime>, interval: RotationInterval, now: SystemTime): Option<nat> {
    match SlotStart(interval, now)
    case None => None
    case Some(nowSlot) =>
      var fromFile := if mtime.Some? then SlotStart(interval, mtime.value) else None;
      if fromFile.Some? then fromFile else Some(nowSlot)
  }

  // ---------- slots partition time ----------

  lemma DivBounds(n: nat, k: nat)
    requires k > 0
    ensures n / k * k <= n < n / k * k + k
    ensures 0 <= n / k * k
  {
    assert n == n / k * k + n % k;
  }

  lemma {:induction false} DivMonotone(m: nat, n: nat, k: nat)
    requires k > 0 && m <= n
    ensures m / k <= n / k
    ensures m / k * k <= n / k * k
  {
    DivBounds(m, k);
    DivBounds(n, k);
    var a, b := m / k, n / k;
    assert b < a ==> (b + 1) * k <= a * k;
    assert a <= b ==> a * k <= b * k;
  }

  lemma MultipleIsFixed(q: nat, k: nat)
    requires k > 0
    ensures q * k / k * k == q * k
  {
    DivBounds(q * k, k);
    var p := q * k / k;
    assert p < q ==> (p + 1) * k <= q * k;
    assert q < p ==> (q + 1) * k <= p * k;
  }

  /** A slot contains its instants: it has started and its period is not over. */
  lemma SlotContains(interval: RotationInterval, now: SystemTime)
    ensures SlotStart(interval, now).Some? <==> PeriodSecs(interval).Some?
    ensures SlotStart(interval, now).Some? ==>
              var slot := SlotStart(interval, now).value;
              slot <= UnixSecs(now) < slot + PeriodSecs(interval).value
  {
    if PeriodSecs(interval).Some? && !interval.Weekly? {
      DivBounds(UnixSecs(now), PeriodSecs(interval).value);
    }
  }

  /** Later instants never fall in earlier slots. */
  lemma SlotMonotone(interval: RotationInterval, now: SystemTime, later: SystemTime)
    requires now <= later && PeriodSecs(interval).Some?
    ensures SlotStart(interval, now).value <= SlotStart(interval, later).value
  {
    assert UnixSecs(now) <= UnixSecs(later);
    if interval.Weekly? {
      DivMonotone(UnixSecs(now) + 259_200, UnixSecs(later) + 259_200, 604_800);
    } else {
      DivMonotone(UnixSecs(now), UnixSecs(later), PeriodSecs(interval).value);
    }
  }

  /** The start of a slot lies in that slot. */
  lemma SlotIdempotent(interval: RotationInterval, now: SystemTime)
    requires PeriodSecs(interval).Some?
    ensures var slot := SlotStart(interval, now).value;
            SlotStart(interval, slot * NANOS_PER_SECOND) == Some(slot)
  {
    var slot := SlotStart(interval, now).value;
    assert UnixSecs(slot * NANOS_PER_SECOND) == slot;
    if !interval.Weekly? {
      var period := PeriodSecs(interval).value;
      MultipleIsFixed(UnixSecs(now) / period, period);
    }
  }

  // ---------- slots and the calendar ----------

  /** The UTC date of an instant, as timestamps print it. */
  function DateOf(now: SystemTime): Date {
    CivilFromDays(UnixSecs(now) / DAY_SECS)
  }

  /** Two instants share a daily slot exactly when they have the same UTC date. */
  lemma DailySlotIsDate(a: SystemTime, b: SystemTime)
    requires UnixSecs(a) / DAY_SECS <= MAX_DAY && UnixSecs(b) / DAY_SECS <= MAX_DAY
    ensures SlotStart(Daily, a) == SlotStart(Daily, b) <==> DateOf(a) == DateOf(b)
  {
    var x, y := UnixSecs(a) / DAY_SECS, UnixSecs(b) / DAY_SECS;
    DayNumberIsDate(x, y);
  }

  lemma DayNumberIsDate(x: nat, y: nat)
    requires x <= MAX_DAY && y <= MAX_DAY
    ensures x == y <==> CivilFromDays(x) == CivilFromDays(y)
  {
    YearFits(x);
    YearFits(y);
    WideCivilCounts(x);
    WideCivilCounts(y);
  }

  lemma MidnightOf(days: nat, now: SystemTime)
    requires now == days * DAY_SECS * NANOS_PER_SECOND
    ensures UnixSecs(now) / DAY_SECS == days && SlotStart(Daily, now) == Some(days * DAY_SECS)
  {
  }

  lemma WrappedYear(year: int)
    requires I32_MAX < year <= I32_MAX + 0x1_0000_0000
    ensures AsI32(year) == year - 0x1_0000_0000
  {
  }

  /** Past the 32-bit years the dates repeat although the slots do not: at its midnight each date of the next
  2^32 years is taken for the same day 2^32 years earlier, in a slot after `MAX_DAY`. */
  lemma DatesRepeatPastMaxDay(d: Date, days: nat, now: SystemTime)
    requires IsDate(d) && I32_MAX < d.year <= I32_MAX + 0x1_0000_0000
    requires days == DaysFromCivil(d) && now == days * DAY_SECS * NANOS_PER_SECOND
    ensures DateOf(now) == d.(year := d.year - 0x1_0000_0000)
    ensures days > MAX_DAY && SlotStart(Daily, now) == Some(days * DAY_SECS)
  {
    YearRange(d);
    MidnightOf(days, now);
    CivilNarrows(d);
    WrappedYear(d.year);
  }

  /** The UTC time of a count of seconds, as timestamps print it. */
  function TimeOf(secs: nat): T.Timestamp {
    T.FromUnixMicros(secs * T.MICROS_PER_SECOND, 0)
  }

  lemma {:induction false} LessMultiple(p: int, q: int, k: nat)
    requires p < q
    ensures k * p + k <= k * q
    decreases q - p
  {
    assert k * q == k * (q - 1) + k;
    if p + 1 < q {
      LessMultiple(p, q - 1, k);
    }
  }

  lemma Quotient(n: int, k: nat, q: int, r: int)
    requires k > 0 && n == k * q + r && 0 <= r < k
    ensures n / k == q && n % k == r
  {
    var p := n / k;
    assert n == k * p + n % k;
    if p < q {
      LessMultiple(p, q, k);
    } else if q < p {
      LessMultiple(q, p, k);
    }
  }

  predicate IsClock(hour: nat, minute: nat, second: nat) {
    hour < 24 && minute < 60 && second < 60
  }

  lemma AtClock(date: Date, hour: nat, minute: nat, second: nat, micros: nat)
    requires IsClock(hour, minute, second) && micros < 1_000_000 && date.month >= 0 && date.day >= 0
    ensures T.AtDate(date, (hour * 3600 + minute * 60 + second) * 1_000_000 + micros, 0)
         == T.Timestamp(date.year, date.month, date.day, hour, minute, second, micros, 0)
  {
    var rem, inHour, inMinute := (hour * 3600 + minute * 60 + second) * 1_000_000 + micros,
                                 (minute * 60 + second) * 1_000_000 + micros, second * 1_000_000 + micros;
    Quotient(rem, 3_600_000_000, hour, inHour);
    Quotient(inHour, 60_000_000, minute, inMinute);
    Quotient(rem, 60_000_000, hour * 60 + minute, inMinute);
    Quotient(inMinute, 1_000_000, second, micros);
    Quotient(rem, 1_000_000, hour * 3600 + minute * 60 + second, micros);
  }

  /** The clock that decides on slots is the one that records are stamped with: from the epoch on, its reading in
  UTC is the time stamped, but for the microseconds. */
  lemma ClockIsStamped(now: SystemTime)
    requires now >= 0
    ensures T.Now(now, 0).(microsecond := 0) == TimeOf(UnixSecs(now))
  {
    var day, hour, minute, second := ClockOf(UnixSecs(now));
    var micros, secs := now % 1_000_000_000 / 1000, hour * 3600 + minute * 60 + second;
    TimeOfClock(day, hour, minute, second);
    Quotient(T.UnixMicros(now), 86_400_000_000, day, secs * 1_000_000 + micros);
    AtClock(CivilFromDays(day), hour, minute, second, micros);
  }

  function SecondsAt(day: nat, hour: nat, minute: nat, second: nat): nat {
    day * 86_400 + hour * 3600 + minute * 60 + second
  }

  /** The date of day `day`, at this time. */
  function TimeAt(day: nat, hour: nat, minute: nat, second: nat): T.Timestamp {
    var d := CivilFromDays(day);
    T.Timestamp(d.year, d.month, d.day, hour, minute, second, 0, 0)
  }

  lemma TimeOfClock(day: nat, hour: nat, minute: nat, second: nat)
    requires IsClock(hour, minute, second)
    ensures TimeOf(SecondsAt(day, hour, minute, second)) == TimeAt(day, hour, minute, second)
  {
    var rem := (hour * 3600 + minute * 60 + second) * 1_000_000;
    Quotient(SecondsAt(day, hour, minute, second) * 1_000_000, 86_400_000_000, day, rem);
    AtClock(CivilFromDays(day), hour, minute, second, 0);
  }

  lemma ClockOf(secs: nat) returns (day: nat, hour: nat, minute: nat, second: nat)
    ensures IsClock(hour, minute, second) && secs == SecondsAt(day, hour, minute, second)
  {
    day := secs / 86_400;
    var inDay := secs % 86_400;
    hour := inDay / 3600;
    var inHour := inDay % 3600;
    minute, second := inHour / 60, inHour % 60;
  }

  lemma HourStart(day: nat, hour: nat, minute: nat, second: nat)
    requires IsClock(hour, minute, second)
    ensures SecondsAt(day, hour, minute, second) / 3600 * 3600 == SecondsAt(day, hour, 0, 0)
    ensures SecondsAt(day, hour, minute, second) / 86_400 * 86_400 == SecondsAt(day, 0, 0, 0)
  {
    Quotient(SecondsAt(day, hour, minute, second), 3600, day * 24 + hour, minute * 60 + second);
    Quotient(SecondsAt(day, hour, minute, second), 86_400, day, hour * 3600 + minute * 60 + second);
  }

  /** An hourly slot starts at minute 0 and second 0 of the hour that its instants print; a daily one at the
  midnight before them. */
  lemma SlotStartsOnTheHour(now: SystemTime)
    ensures TimeOf(SlotStart(Hourly, now).value) == TimeOf(UnixSecs(now)).(minute := 0, second := 0)
    ensures TimeOf(SlotStart(Daily, now).value) == TimeOf(UnixSecs(now)).(hour := 0, minute := 0, second := 0)
  {
    var day, hour, minute, second := ClockOf(UnixSecs(now));
    TimeOfClock(day, hour, minute, second);
    HourStart(day, hour, minute, second);
    TimeOfClock(day, hour, 0, 0);
    TimeOfClock(day, 0, 0, 0);
  }

  /** The slots of a period of `n` seconds start at the multiples of `n` since the epoch, each at its own. */
  lemma EverySlotIsMultiple(n: nat, now: SystemTime, k: nat)
    requires n > 0
    ensures var slot := SlotStart(Every(n), now).value;
            slot % n == 0 && slot <= UnixSecs(now) < slot + n
    ensures SlotStart(Every(n), k * n * NANOS_PER_SECOND) == Some(k * n)
  {
    DivBounds(UnixSecs(now), n);
    MultipleIsFixed(UnixSecs(now) / n, n);
    DivBounds(SlotStart(Every(n), now).value, n);
    assert k * n >= 0;
    assert UnixSecs(k * n * NANOS_PER_SECOND) == k * n;
    MultipleIsFixed(k, n);
  }

  datatype Weekday = Monday | Tuesday | Wednesday | Thursday | Friday | Saturday | Sunday

  function DayAfter(d: Weekday): Weekday {
    match d
    case Monday => Tuesday
    case Tuesday => Wednesday
    case Wednesday => Thursday
    case Thursday => Friday
    case Friday => Saturday
    case Saturday => Sunday
    case Sunday => Monday
  }

  /** The epoch was a Thursday. */
  function WeekdayOf(day: nat): Weekday {
    if day == 0 then Thursday else DayAfter(WeekdayOf(day - 1))
  }

  lemma {:induction false} WeekdayCycle(day: nat)
    ensures WeekdayOf(day) == [Thursday, Friday, Saturday, Sunday, Monday, Tuesday, Wednesday][day % 7]
  {
    if day > 0 {
      WeekdayCycle(day - 1);
      assert day % 7 == if (day - 1) % 7 == 6 then 0 else (day - 1) % 7 + 1;
    }
  }

  /** A weekly slot starts at the midnight of the latest Monday, or at 0 in the days before the first
  Monday after the epoch. */
  lemma WeeklySlotIsLatestMonday(now: SystemTime)
    ensures var slot := SlotStart(Weekly, now).value;
            && slot % DAY_SECS == 0
            && (slot == 0 || WeekdayOf(slot / DAY_SECS) == Monday)
            && forall day :: slot / DAY_SECS < day <= UnixSecs(now) / DAY_SECS ==> WeekdayOf(day) != Monday
  {
    var secs := UnixSecs(now);
    var slot := SlotStart(Weekly, now).value;
    var week := (secs + 259_200) / 604_800;
    var first := slot / DAY_SECS;
    assert slot == (if week == 0 then 0 else 86_400 * (7 * week - 3));
    assert first == if week == 0 then 0 else 7 * week - 3;
    assert secs / DAY_SECS < 7 * week + 4;
    WeekdayCycle(first);
    forall day | first < day <= secs / DAY_SECS
      ensures WeekdayOf(day) != Monday
    {
      WeekdayCycle(day);
    }
  }
}
