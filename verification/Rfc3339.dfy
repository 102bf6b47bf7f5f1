/** A reader for timestamps, written from the grammar of section 5.6 of RFC 3339, and what it makes of the
timestamps that `src/time.rs` prints. */
module Rfc3339 {
  import opened Basics
  import opened Text
  import opened Timestamps

  // ---------- the grammar ----------

  /** `w` digits, and what follows them. */
  function ReadDigits(s: string, w: nat): Option<(nat, string)> {
    if |s| < w || !AllDigits(s[..w]) then None else Some((DigitsValue(s[..w]), s[w..]))
  }

  /** One of two spellings of a character. */
  function ReadChar(s: string, upper: char, lower: char): Option<string> {
    if s != "" && (s[0] == upper || s[0] == lower) then Some(s[1..]) else None
  }

  /** All the digits at the front. */
  function DigitRun(s: string): (digits: string)
    ensures |digits| <= |s| && AllDigits(digits)
  {
    if s != "" && IsDigit(s[0]) then [s[0]] + DigitRun(s[1..]) else ""
  }

  /** `time-secfrac`, in microseconds; further digits are dropped. */
  function ReadFraction(s: string): Option<(nat, string)> {
    if s == "" || s[0] != '.' then Some((0, s))
    else
      var digits := DigitRun(s[1..]);
      if digits == "" then None else Some((DigitsValue((digits + "000000")[..6]), s[1 + |digits|..]))
  }

  /** Hours and minutes at the end of the text, in seconds; the minutes are below 60. */
  function ReadHourMinute(s: string): Option<int> {
    var hours :- ReadDigits(s, 2);
    var colon :- ReadChar(hours.1, ':', ':');
    var minutes :- ReadDigits(colon, 2);
    if minutes.1 != "" || minutes.0 >= 60 then None else Some(hours.0 * 3600 + minutes.0 * 60)
  }

  /** `time-offset`, in seconds. */
  function ReadOffset(s: string): Option<int> {
    if s == "Z" || s == "z" then Some(0)
    else if s == "" || (s[0] != '+' && s[0] != '-') then None
    else
      var seconds :- ReadHourMinute(s[1..]);
      Some(if s[0] == '-' then -seconds else seconds)
  }

  /** The seconds, the microseconds and the offset. */
  function ReadSeconds(s: string): Option<(nat, nat, int)> {
    var second :- ReadDigits(s, 2);
    var fraction :- ReadFraction(second.1);
    var offset :- ReadOffset(fraction.1);
    Some((second.0, fraction.0, offset))
  }

  /** `full-time`, added to the date. */
  function ReadTime(year: nat, month: nat, day: nat, s: string): Option<Timestamp> {
    var hour :- ReadDigits(s, 2);
    var colon :- ReadChar(hour.1, ':', ':');
    var minute :- ReadDigits(colon, 2);
    var colon2 :- ReadChar(minute.1, ':', ':');
    var seconds :- ReadSeconds(colon2);
    Some(Timestamp(year, month, day, hour.0, minute.0, seconds.0, seconds.1, seconds.2))
  }

  /** `date-time`. */
  function ReadTimestamp(s: string): Option<Timestamp> {
    var year :- ReadDigits(s, 4);
    var dash :- ReadChar(year.1, '-', '-');
    var month :- ReadDigits(dash, 2);
    var dash2 :- ReadChar(month.1, '-', '-');
    var day :- ReadDigits(dash2, 2);
    var time :- ReadChar(day.1, 'T', 't');
    ReadTime(year.0, month.0, day.0, time)
  }

  // ---------- printed numbers read back ----------

  lemma NumberReads(n: nat, w: nat, rest: string)
    requires w > 0 && n < Pow10(w)
    ensures |ZeroPad(n, w)| == w && ReadDigits(ZeroPad(n, w) + rest, w) == Some((n, rest))
  {
    ZeroPadFixed(n, w);
    FixedValue(n, w);
    assert (ZeroPad(n, w) + rest)[..w] == ZeroPad(n, w);
  }

  /** A number and the character behind it. */
  lemma FieldReads(n: nat, w: nat, sep: char, rest: string)
    requires w > 0 && n < Pow10(w)
    ensures ReadDigits(Field(n, w, [sep], rest), w) == Some((n, [sep] + rest))
    ensures ([sep] + rest)[0] == sep && ([sep] + rest)[1..] == rest
  {
    NumberReads(n, w, [sep] + rest);
    assert (ZeroPad(n, w) + [sep]) + rest == ZeroPad(n, w) + ([sep] + rest);
  }

  lemma {:induction false} RunOfDigits(digits: string, rest: string)
    requires AllDigits(digits) && (rest == "" || !IsDigit(rest[0]))
    ensures DigitRun(digits + rest) == digits
  {
    if digits == "" {
      assert digits + rest == rest;
    } else {
      assert (digits + rest)[1..] == digits[1..] + rest;
      RunOfDigits(digits[1..], rest);
      assert [digits[0]] + digits[1..] == digits;
    }
  }

  lemma DotSlices(digits: string, rest: string)
    requires |digits| == 6
    ensures var s := "." + (digits + rest);
            s[0] == '.' && s[1..] == digits + rest && s[7..] == rest && (digits + "000000")[..6] == digits
  {
  }

  lemma FractionReads(micros: nat, rest: string)
    requires micros < 1_000_000 && rest != "" && !IsDigit(rest[0])
    ensures ReadFraction("." + Field(micros, 6, "", rest)) == Some((micros, rest))
  {
    var digits := Fixed(micros, 6);
    Powers();
    ZeroPadFixed(micros, 6);
    FixedValue(micros, 6);
    assert digits + "" == digits;
    RunOfDigits(digits, rest);
    DotSlices(digits, rest);
  }

  /** An offset that the text can express: whole minutes, below 100 hours. */
  predicate Expressible(offset: int) {
    offset % 60 == 0 && -360_000 < offset < 360_000
  }

  lemma OffsetStart(offset: int)
    ensures OffsetText(offset) != "" && !IsDigit(OffsetText(offset)[0])
  {
  }

  lemma HoursAndMinutes(abs: nat)
    requires abs % 60 == 0 && abs < 360_000
    ensures abs / 3600 < 100 && abs % 3600 / 60 < 60 && abs == abs / 3600 * 3600 + abs % 3600 / 60 * 60
  {
  }

  lemma HourMinuteReads(hours: nat, minutes: nat)
    requires hours < 100 && minutes < 60
    ensures ReadHourMinute(Field(hours, 2, ":", ZeroPad(minutes, 2))) == Some(hours * 3600 + minutes * 60)
  {
    var rest := ZeroPad(minutes, 2);
    Powers();
    FieldReads(hours, 2, ':', rest);
    NumberReads(minutes, 2, "");
    assert rest + "" == rest;
  }

  lemma SignedReads(sign: char, text: string, seconds: int)
    requires (sign == '+' || sign == '-') && ReadHourMinute(text) == Some(seconds)
    ensures ReadOffset([sign] + text) == Some(if sign == '-' then -seconds else seconds)
  {
    assert ([sign] + text)[1..] == text;
  }

  lemma OffsetReads(offset: int)
    requires Expressible(offset)
    ensures ReadOffset(OffsetText(offset)) == Some(offset)
  {
    if offset != 0 {
      var abs := if offset < 0 then -offset else offset;
      var hours, minutes := abs / 3600, abs % 3600 / 60;
      HoursAndMinutes(abs);
      HourMinuteReads(hours, minutes);
      SignedReads(if offset < 0 then '-' else '+', Field(hours, 2, ":", ZeroPad(minutes, 2)), abs);
    }
  }

  lemma SecondsRead(second: nat, micros: nat, offset: int)
    requires second < 60 && micros < 1_000_000 && Expressible(offset)
    ensures ReadSeconds(Field(second, 2, ".", Field(micros, 6, "", OffsetText(offset)))) == Some((second, micros, offset))
  {
    Powers();
    OffsetStart(offset);
    OffsetReads(offset);
    FractionReads(micros, OffsetText(offset));
    FieldReads(second, 2, '.', Field(micros, 6, "", OffsetText(offset)));
  }

  lemma TimeReads(year: nat, month: nat, day: nat, ts: Timestamp)
    requires ts.hour < 24 && ts.minute < 60 && ts.second < 60 && ts.microsecond < 1_000_000 && Expressible(ts.offset)
    ensures ReadTime(year, month, day, TimeText(ts)) == Some(ts.(year := year, month := month, day := day))
  {
    var seconds := Field(ts.second, 2, ".", Field(ts.microsecond, 6, "", OffsetText(ts.offset)));
    Powers();
    SecondsRead(ts.second, ts.microsecond, ts.offset);
    FieldReads(ts.minute, 2, ':', seconds);
    FieldReads(ts.hour, 2, ':', Field(ts.minute, 2, ":", seconds));
  }

  lemma DateReads(ts: Timestamp)
    requires 0 <= ts.year <= 9999 && ts.month < 100 && ts.day < 100
    ensures ReadTimestamp(Display(ts)) == ReadTime(ts.year, ts.month, ts.day, TimeText(ts))
  {
    Powers();
    DateFields(ts.year, ts.month, ts.day, TimeText(ts));
  }

  lemma DateFields(year: nat, month: nat, day: nat, time: string)
    requires year < Pow10(4) && month < Pow10(2) && day < Pow10(2)
    ensures ReadTimestamp(Field(year, 4, "-", Field(month, 2, "-", Field(day, 2, "T", time))))
         == ReadTime(year, month, day, time)
  {
    FieldReads(day, 2, 'T', time);
    FieldReads(month, 2, '-', Field(day, 2, "T", time));
    FieldReads(year, 4, '-', Field(month, 2, "-", Field(day, 2, "T", time)));
  }

  // ---------- what is read ----------

  lemma ReadBelow(s: string, w: nat)
    ensures ReadDigits(s, w).Some? ==> ReadDigits(s, w).value.0 < Pow10(w)
  {
    if ReadDigits(s, w).Some? {
      DigitsBelow(s[..w]);
    }
  }

  lemma HourMinuteBelow(s: string)
    ensures ReadHourMinute(s).Some? ==> 0 <= ReadHourMinute(s).value < 360_000 && ReadHourMinute(s).value % 60 == 0
  {
    Powers();
    ReadBelow(s, 2);
  }

  lemma OffsetExpressible(s: string)
    ensures ReadOffset(s).Some? ==> Expressible(ReadOffset(s).value)
  {
    if s != "" {
      HourMinuteBelow(s[1..]);
    }
  }

  /** Whatever is read has a year of four digits and an offset in hours and minutes. */
  lemma ReadingExpressible(s: string)
    ensures ReadTimestamp(s).Some? ==>
              0 <= ReadTimestamp(s).value.year <= 9999 && Expressible(ReadTimestamp(s).value.offset)
  {
    Powers();
    ReadBelow(s, 4);
    forall t: string
      ensures ReadOffset(t).Some? ==> Expressible(ReadOffset(t).value)
    {
      OffsetExpressible(t);
    }
  }

  /** A printed timestamp reads back with every field and its offset, if and only if its year has at most four
  digits and its offset is in whole minutes below 100 hours. */
  lemma DisplayReadsBack(ts: Timestamp)
    requires InRange(ts)
    ensures ReadTimestamp(Display(ts)) == Some(ts) <==> 0 <= ts.year <= 9999 && Expressible(ts.offset)
  {
    if 0 <= ts.year <= 9999 && Expressible(ts.offset) {
      DateReads(ts);
      TimeReads(ts.year, ts.month, ts.day, ts);
    } else {
      ReadingExpressible(Display(ts));
    }
  }

  /** The instant that a timestamp stands for, in microseconds since the epoch: local time less the offset. */
  function Instant(ts: Timestamp): int {
    ToUnixMicros(ts) - ts.offset * MICROS_PER_SECOND
  }

  lemma NowFields(clock: int, offset: int)
    requires Representable(UnixMicros(clock) + offset * MICROS_PER_SECOND)
    ensures InRange(Now(clock, offset)) && Now(clock, offset).offset == offset
    ensures Instant(Now(clock, offset)) == UnixMicros(clock)
  {
    RoundTrip(UnixMicros(clock) + offset * MICROS_PER_SECOND, offset);
  }

  /** A reader of what `Timestamp::now` prints recovers the clock reading, whatever the offset: the local time
  is the reading plus the offset, and the text says by how much. */
  lemma NowReadsBack(clock: int, offset: int)
    requires Representable(UnixMicros(clock) + offset * MICROS_PER_SECOND)
    requires 0 <= Now(clock, offset).year <= 9999 && Expressible(offset)
    ensures var read := ReadTimestamp(Display(Now(clock, offset)));
            read.Some? && read.value.offset == offset && Instant(read.value) == UnixMicros(clock)
  {
    NowFields(clock, offset);
    DisplayReadsBack(Now(clock, offset));
  }

  /** A clock reading loses less than a microsecond, towards the epoch. */
  lemma MicrosOfClock(clock: int)
    ensures clock >= 0 ==> 0 <= clock - UnixMicros(clock) * 1000 < 1000
    ensures clock <= 0 ==> 0 <= UnixMicros(clock) * 1000 - clock < 1000
  {
  }
}
