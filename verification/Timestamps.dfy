/** Broken-down timestamps of `src/time.rs` and the text they print as (section 5.6 of RFC 3339). */
module Timestamps {
  import opened Calendar
  import opened Text

  const MICROS_PER_SECOND: int := 1_000_000
  const MICROS_PER_MINUTE: int := 60_000_000
  const MICROS_PER_HOUR: int := 3_600_000_000
  const MICROS_PER_DAY: int := 86_400_000_000

  datatype Timestamp = Timestamp(
    year: int, month: nat, day: nat, hour: nat, minute: nat, second: nat, microsecond: nat, offset: int)

  // ---------- the code ----------

  /** A date and the microseconds since its midnight. */
  function AtDate(date: Date, rem: int, offset: int): Timestamp
    requires 0 <= date.month && 0 <= date.day
  {
    Timestamp(date.year, date.month, date.day,
              AsU8(rem / MICROS_PER_HOUR),
              AsU8(rem % MICROS_PER_HOUR / MICROS_PER_MINUTE),
              AsU8(rem % MICROS_PER_MINUTE / MICROS_PER_SECOND),
              rem % MICROS_PER_SECOND,
              offset)
  }

  /** `from_unix_micros`; `micros` already includes the offset. */
  function FromUnixMicros(micros: int, offset: int): Timestamp {
    var days := micros / MICROS_PER_DAY;
    var rem := micros % MICROS_PER_DAY;
    var date := CivilFromDays(days);
    AtDate(date, rem, offset)
  }

  /** `unix_micros` of a clock reading in nanoseconds relative to the epoch: whole seconds and whole
  microseconds of the distance, on either side. */
  function UnixMicros(clock: int): int {
    var distance := if clock < 0 then -clock else clock;
    var micros := distance / 1_000_000_000 * MICROS_PER_SECOND + distance % 1_000_000_000 / 1000;
    if clock < 0 then -micros else micros
  }

  /** `Timestamp::now`. */
  function Now(clock: int, offset: int): Timestamp {
    FromUnixMicros(UnixMicros(clock) + offset * MICROS_PER_SECOND, offset)
  }

  /** One zero-padded number, its separator, and what follows. */
  function Field(n: nat, w: nat, sep: string, rest: string): string {
    (ZeroPad(n, w) + sep) + rest
  }

  /** `Z`, or the sign, the hours and the minutes. */
  function OffsetText(offset: int): string {
    if offset == 0 then "Z"
    else
      var abs := if offset < 0 then -offset else offset;
      [if offset < 0 then '-' else '+'] + Field(abs / 3600, 2, ":", ZeroPad(abs % 3600 / 60, 2))
  }

  function AfterYear(ts: Timestamp): string {
    Field(ts.month, 2, "-", Field(ts.day, 2, "T",
      Field(ts.hour, 2, ":", Field(ts.minute, 2, ":",
        Field(ts.second, 2, ".", Field(ts.microsecond, 6, "", OffsetText(ts.offset)))))))
  }

  /** The `Display` of a timestamp. */
  function Display(ts: Timestamp): string {
    (SignedZeroPad(ts.year, 4) + "-") + AfterYear(ts)
  }

  // ---------- the round trip ----------

  predicate InRange(ts: Timestamp) {
    && IsDate(Date(ts.year, ts.month, ts.day))
    && I32_MIN <= ts.year <= I32_MAX
    && ts.hour < 24 && ts.minute < 60 && ts.second < 60 && ts.microsecond < 1_000_000
  }

  /** The microsecond count that a reader works out from the fields. */
  function ToUnixMicros(ts: Timestamp): int {
    DaysFromCivil(Date(ts.year, ts.month, ts.day)) * MICROS_PER_DAY
    + ts.hour * MICROS_PER_HOUR + ts.minute * MICROS_PER_MINUTE
    + ts.second * MICROS_PER_SECOND + ts.microsecond
  }

  /** The counts whose year fits 32 bits. */
  predicate Representable(micros: int) {
    MIN_DAY * MICROS_PER_DAY <= micros < (MAX_DAY + 1) * MICROS_PER_DAY
  }

  lemma DayOfMicros(micros: int)
    ensures Representable(micros) <==> MIN_DAY <= micros / MICROS_PER_DAY <= MAX_DAY
  {
  }

  lemma TimeOfDay(rem: int)
    requires 0 <= rem < MICROS_PER_DAY
    ensures var h, m := rem / MICROS_PER_HOUR, rem % MICROS_PER_HOUR / MICROS_PER_MINUTE;
            var s, u := rem % MICROS_PER_MINUTE / MICROS_PER_SECOND, rem % MICROS_PER_SECOND;
            && 0 <= h < 24 && 0 <= m < 60 && 0 <= s < 60 && 0 <= u < 1_000_000
            && rem == h * MICROS_PER_HOUR + m * MICROS_PER_MINUTE + s * MICROS_PER_SECOND + u
  {
    var h := rem / MICROS_PER_HOUR;
    var inHour := rem % MICROS_PER_HOUR;
    var m := inHour / MICROS_PER_MINUTE;
    var inMinute := inHour % MICROS_PER_MINUTE;
    assert rem == MICROS_PER_MINUTE * (60 * h + m) + inMinute;
    assert rem % MICROS_PER_MINUTE == inMinute;
    var s := inMinute / MICROS_PER_SECOND;
    var u := inMinute % MICROS_PER_SECOND;
    assert rem == MICROS_PER_SECOND * (3600 * h + 60 * m + s) + u;
    assert rem % MICROS_PER_SECOND == u;
  }

  lemma AtDateTime(date: Date, rem: int, offset: int)
    requires 0 <= date.month && 0 <= date.day && 0 <= rem < MICROS_PER_DAY
    ensures var ts := AtDate(date, rem, offset);
            && ts.hour < 24 && ts.minute < 60 && ts.second < 60 && ts.microsecond < 1_000_000
            && rem == ts.hour * MICROS_PER_HOUR + ts.minute * MICROS_PER_MINUTE + ts.second * MICROS_PER_SECOND
                      + ts.microsecond
  {
    TimeOfDay(rem);
  }

  lemma AtDateCounts(date: Date, rem: int, offset: int)
    requires IsDate(date) && I32_MIN <= date.year <= I32_MAX
    requires 0 <= rem < MICROS_PER_DAY
    ensures InRange(AtDate(date, rem, offset))
    ensures ToUnixMicros(AtDate(date, rem, offset)) == DaysFromCivil(date) * MICROS_PER_DAY + rem
  {
    AtDateTime(date, rem, offset);
    var ts := AtDate(date, rem, offset);
    assert Date(ts.year, ts.month, ts.day) == date;
  }

  lemma CivilOfDay(days: int)
    requires MIN_DAY <= days <= MAX_DAY
    ensures IsDate(CivilFromDays(days)) && I32_MIN <= CivilFromDays(days).year <= I32_MAX
    ensures DaysFromCivil(CivilFromDays(days)) == days
  {
    YearFits(days);
    WideCivilCounts(days);
  }

  /** Decomposition loses nothing: every field is in range and the count can be rebuilt, for every
  signed count whose year fits 32 bits. */
  lemma RoundTrip(micros: int, offset: int)
    requires Representable(micros)
    ensures InRange(FromUnixMicros(micros, offset))
    ensures ToUnixMicros(FromUnixMicros(micros, offset)) == micros
    ensures FromUnixMicros(micros, offset).offset == offset
  {
    var days, rem := micros / MICROS_PER_DAY, micros % MICROS_PER_DAY;
    DayOfMicros(micros);
    CivilOfDay(days);
    AtDateCounts(CivilFromDays(days), rem, offset);
  }

  /** Fields of two timestamps, most significant first. */
  predicate FieldsBefore(a: Timestamp, b: Timestamp) {
    || Earlier(Date(a.year, a.month, a.day), Date(b.year, b.month, b.day))
    || (SameDate(a, b) &&
        (|| a.hour < b.hour
         || (a.hour == b.hour &&
             (|| a.minute < b.minute
              || (a.minute == b.minute &&
                  (|| a.second < b.second
                   || (a.second == b.second && a.microsecond < b.microsecond)))))))
  }

  predicate SameDate(a: Timestamp, b: Timestamp) {
    a.year == b.year && a.month == b.month && a.day == b.day
  }

  function MicrosOfDay(ts: Timestamp): int {
    ts.hour * MICROS_PER_HOUR + ts.minute * MICROS_PER_MINUTE + ts.second * MICROS_PER_SECOND + ts.microsecond
  }

  lemma FieldsOrderCounts(a: Timestamp, b: Timestamp)
    requires InRange(a) && InRange(b)
    requires FieldsBefore(a, b)
    ensures ToUnixMicros(a) < ToUnixMicros(b)
  {
    var x, y := Date(a.year, a.month, a.day), Date(b.year, b.month, b.day);
    assert 0 <= MicrosOfDay(a) < MICROS_PER_DAY && 0 <= MicrosOfDay(b) < MICROS_PER_DAY;
    if Earlier(x, y) {
      EarlierCountsLess(x, y);
    }
  }

  /** The fields of two decomposed counts compare as the counts do. */
  lemma FieldsOrder(m: int, n: int, offset: int)
    requires Representable(m) && Representable(n)
    ensures FieldsBefore(FromUnixMicros(m, offset), FromUnixMicros(n, offset)) <==> m < n
  {
    var a, b := FromUnixMicros(m, offset), FromUnixMicros(n, offset);
    RoundTrip(m, offset);
    RoundTrip(n, offset);
    FieldsTotal(a, b, m, n);
  }

  lemma FieldsTotal(a: Timestamp, b: Timestamp, m: int, n: int)
    requires InRange(a) && InRange(b) && a.offset == b.offset
    requires ToUnixMicros(a) == m && ToUnixMicros(b) == n
    ensures FieldsBefore(a, b) <==> m < n
  {
    if FieldsBefore(a, b) {
      FieldsOrderCounts(a, b);
    } else if FieldsBefore(b, a) {
      FieldsOrderCounts(b, a);
    } else {
      assert a == b;
    }
  }

  // ---------- the printed order ----------

  /** One more field decides first, and what follows decides ties. */
  lemma FieldOrder(m: nat, n: nat, w: nat, sep: string, c: string, d: string)
    requires w > 0 && m < Pow10(w) && n < Pow10(w)
    ensures StrLess(Field(m, w, sep, c), Field(n, w, sep, d)) <==> m < n || (m == n && StrLess(c, d))
  {
    ZeroPadFixed(m, w);
    ZeroPadFixed(n, w);
    FixedOrder(m, n, w);
    var a, b := ZeroPad(m, w), ZeroPad(n, w);
    StrLessBlocks(a + sep, b + sep, c, d);
    StrLessBlocks(a, b, sep, sep);
    StrLessIrreflexive(sep);
    assert (a + sep)[..w] == a && (b + sep)[..w] == b;
  }

  lemma Powers()
    ensures Pow10(2) == 100 && Pow10(4) == 10_000 && Pow10(6) == 1_000_000
  {
    assert Pow10(3) == 10 * Pow10(2) && Pow10(5) == 10 * Pow10(4);
  }

  /** What follows the date. */
  function TimeText(ts: Timestamp): string {
    Field(ts.hour, 2, ":", Field(ts.minute, 2, ":", Field(ts.second, 2, ".",
      Field(ts.microsecond, 6, "", OffsetText(ts.offset)))))
  }

  predicate TimeBefore(a: Timestamp, b: Timestamp) {
    || a.hour < b.hour
    || (a.hour == b.hour &&
        (|| a.minute < b.minute
         || (a.minute == b.minute &&
             (|| a.second < b.second
              || (a.second == b.second && a.microsecond < b.microsecond)))))
  }

  lemma TimeTextOrder(a: Timestamp, b: Timestamp)
    requires InRange(a) && InRange(b) && a.offset == b.offset
    ensures StrLess(TimeText(a), TimeText(b)) <==> TimeBefore(a, b)
  {
    Powers();
    StrLessIrreflexive(OffsetText(a.offset));
    var x := Field(a.microsecond, 6, "", OffsetText(a.offset));
    var y := Field(b.microsecond, 6, "", OffsetText(b.offset));
    FieldOrder(a.microsecond, b.microsecond, 6, "", OffsetText(a.offset), OffsetText(b.offset));
    FieldOrder(a.second, b.second, 2, ".", x, y);
    FieldOrder(a.minute, b.minute, 2, ":", Field(a.second, 2, ".", x), Field(b.second, 2, ".", y));
    FieldOrder(a.hour, b.hour, 2, ":",
               Field(a.minute, 2, ":", Field(a.second, 2, ".", x)), Field(b.minute, 2, ":", Field(b.second, 2, ".", y)));
  }

  lemma AfterYearOrder(a: Timestamp, b: Timestamp)
    requires InRange(a) && InRange(b) && a.offset == b.offset
    ensures StrLess(AfterYear(a), AfterYear(b)) <==>
              a.month < b.month || (a.month == b.month && (a.day < b.day || (a.day == b.day && TimeBefore(a, b))))
  {
    Powers();
    TimeTextOrder(a, b);
    FieldOrder(a.day, b.day, 2, "T", TimeText(a), TimeText(b));
    FieldOrder(a.month, b.month, 2, "-", Field(a.day, 2, "T", TimeText(a)), Field(b.day, 2, "T", TimeText(b)));
  }

  lemma DisplayFieldOrder(a: Timestamp, b: Timestamp)
    requires InRange(a) && InRange(b) && a.offset == b.offset
    requires 0 <= a.year <= 9999 && 0 <= b.year <= 9999
    ensures StrLess(Display(a), Display(b)) <==> FieldsBefore(a, b)
  {
    Powers();
    AfterYearOrder(a, b);
    FieldOrder(a.year, b.year, 4, "-", AfterYear(a), AfterYear(b));
  }

  /** Printed timestamps of the years 0 to 9999 at one offset sort as strings exactly as the instants
  do (section 5.1 of RFC 3339); so distinct instants print differently. */
  lemma DisplayOrder(m: int, n: int, offset: int)
    requires Representable(m) && Representable(n)
    requires 0 <= FromUnixMicros(m, offset).year <= 9999 && 0 <= FromUnixMicros(n, offset).year <= 9999
    ensures StrLess(Display(FromUnixMicros(m, offset)), Display(FromUnixMicros(n, offset))) <==> m < n
    ensures Display(FromUnixMicros(m, offset)) == Display(FromUnixMicros(n, offset)) <==> m == n
  {
    var a, b := FromUnixMicros(m, offset), FromUnixMicros(n, offset);
    RoundTrip(m, offset);
    RoundTrip(n, offset);
    FieldsOrder(m, n, offset);
    FieldsOrder(n, m, offset);
    DisplayFieldOrder(a, b);
    DisplayFieldOrder(b, a);
    StrLessIrreflexive(Display(a));
  }
}
