/** Datagrams for syslog daemons (RFC 3164): `src/syslog.rs`. */
module Syslog {
  import opened Basics
  import opened Levels
  import opened Text
  import opened Timestamps
  import opened Utf8

  const MAX_SYSLOG_PACKET: nat := 1024

  datatype Facility =
    | Kernel | User | Mail | Daemon | Auth | Syslog | Lpr | News | Uucp | Cron | AuthPriv | Ftp
    | Local0 | Local1 | Local2 | Local3 | Local4 | Local5 | Local6 | Local7

  function Code(facility: Facility): nat {
    match facility
    case Kernel => 0 case User => 1 case Mail => 2 case Daemon => 3
    case Auth => 4 case Syslog => 5 case Lpr => 6 case News => 7
    case Uucp => 8 case Cron => 9 case AuthPriv => 10 case Ftp => 11
    case Local0 => 16 case Local1 => 17 case Local2 => 18 case Local3 => 19
    case Local4 => 20 case Local5 => 21 case Local6 => 22 case Local7 => 23
  }

  function Severity(level: Level): (severity: nat)
    ensures severity < 8
  {
    match level
    case Trace => 7
    case Debug => 7
    case Info => 6
    case Warn => 4
    case Error => 3
    case Off => 7
  }

  function Priority(facility: nat, severity: nat): (pri: nat)
    ensures severity < 8 ==> pri / 8 == facility && pri % 8 == severity
  {
    facility * 8 + severity
  }

  const MONTHS: seq<string> :=
    ["Jan", "Feb", "Mar", "Apr", "May", "Jun", "Jul", "Aug", "Sep", "Oct", "Nov", "Dec"]

  function MonthName(month: nat): (name: string)
    ensures |name| == 3
  {
    var index := if month == 0 then 0 else month - 1;
    if index < 12 then MONTHS[index] else "Jan"
  }

  /** `{:2}` of an unsigned number. */
  function SpacePad(n: nat, w: int): string {
    Repeat(' ', w - |Decimal(n)|) + Decimal(n)
  }

  function Rfc3164Timestamp(ts: Timestamp): string {
    MonthName(ts.month) + " " + SpacePad(ts.day, 2) + " "
    + ZeroPad(ts.hour, 2) + ":" + ZeroPad(ts.minute, 2) + ":" + ZeroPad(ts.second, 2)
  }

  function PacketHeader(
    facility: Facility, level: Level, timestamp: Timestamp, hostname: string, ident: string, pid: nat): string
  {
    ("<" + Decimal(Priority(Code(facility), Severity(level))) + ">")
    + ((Rfc3164Timestamp(timestamp) + " ") + (hostname + " " + ident + "[" + Decimal(pid) + "]: "))
  }

  predicate SafeInTag(c: char) {
    'a' <= c <= 'z' || 'A' <= c <= 'Z' || IsDigit(c) || c == '_' || c == '-' || c == '.'
  }

  function SanitizeChars(s: string): (t: string)
    ensures |t| == |s|
    ensures forall i :: 0 <= i < |t| ==> SafeInTag(t[i])
    ensures forall i :: 0 <= i < |t| ==> t[i] == if SafeInTag(s[i]) then s[i] else '_'
  {
    if s == "" then "" else [if SafeInTag(s[0]) then s[0] else '_'] + SanitizeChars(s[1..])
  }

  /** Names made of safe characters are kept; every other character becomes `_`. */
  function SanitizeIdent(ident: string): (tag: string)
    ensures tag != "" && forall i :: 0 <= i < |tag| ==> SafeInTag(tag[i])
    ensures ident == "" ==> tag == "xoslog"
    ensures ident != "" ==> |tag| == |ident| && forall i :: 0 <= i < |ident| ==>
              tag[i] == if SafeInTag(ident[i]) then ident[i] else '_'
    ensures ident != "" && (forall i :: 0 <= i < |ident| ==> SafeInTag(ident[i])) ==> tag == ident
  {
    if ident == "" then "xoslog" else SanitizeChars(ident)
  }

  // ---------- the packet ----------

  function Stripped(formatted: Bytes): Bytes {
    if formatted != [] && formatted[|formatted| - 1] == 10 then formatted[..|formatted| - 1] else formatted
  }

  /** Bytes left for the message. */
  function Budget(header: string): nat {
    if ByteLen(header) < MAX_SYSLOG_PACKET then MAX_SYSLOG_PACKET - ByteLen(header) else 0
  }

  function Min(a: nat, b: nat): nat {
    if a < b then a else b
  }

  /** The bytes of the record that go into the packet. */
  function Kept(header: string, formatted: Bytes): Bytes {
    var msg := Stripped(formatted);
    msg[..Min(|msg|, Budget(header))]
  }

  function Packet(header: string, formatted: Bytes): Bytes {
    Encode(header + LossyDecode(Kept(header, formatted)))
  }

  method BuildPacket(facility: Facility, level: Level, timestamp: Timestamp, hostname: string, ident: string,
                     pid: nat, formatted: Bytes)
    returns (packet: Bytes)
    ensures packet == Packet(PacketHeader(facility, level, timestamp, hostname, ident, pid), formatted)
  {
    var header := PacketHeader(facility, level, timestamp, hostname, ident, pid);
    var msg := formatted;
    if msg != [] && msg[|msg| - 1] == 10 {
      msg := msg[..|msg| - 1];
    }
    var budget := if ByteLen(header) < MAX_SYSLOG_PACKET then MAX_SYSLOG_PACKET - ByteLen(header) else 0;
    msg := msg[..if |msg| < budget then |msg| else budget];
    packet := Encode(header);
    EncodeConcat(header, LossyDecode(msg));
    packet := packet + Encode(LossyDecode(msg));
  }

  // ---------- how long the packet is, for any bytes ----------

  function Limit(header: string): nat {
    if ByteLen(header) < MAX_SYSLOG_PACKET then MAX_SYSLOG_PACKET else ByteLen(header)
  }

  /** What U+FFFD adds to the bytes kept: two bytes for each malformed run of one byte, one for each of two. */
  function Growth(b: Bytes): nat {
    2 * BadRuns(b, 1) + BadRuns(b, 2)
  }

  /** The length of the datagram for any bytes, to the byte. */
  lemma BytesLength(header: string, formatted: Bytes)
    ensures |Packet(header, formatted)| == ByteLen(header) + |Kept(header, formatted)| + Growth(Kept(header, formatted))
  {
    DecodedLength(Kept(header, formatted));
    ByteLenConcat(header, LossyDecode(Kept(header, formatted)));
  }

  /** For any bytes the datagram has at most three bytes for each byte kept, and it outgrows the larger of
  1024 and its header exactly if its malformed runs add more than the room the record has left free. */
  lemma BytesBound(header: string, formatted: Bytes)
    ensures |Packet(header, formatted)| <= ByteLen(header) + 3 * Min(|Stripped(formatted)|, Budget(header))
    ensures |Packet(header, formatted)| > Limit(header) <==>
              Growth(Kept(header, formatted)) > Budget(header) - |Kept(header, formatted)|
  {
    BytesLength(header, formatted);
    DecodedLength(Kept(header, formatted));
  }

  /** No smaller bound holds: behind any header, `n` bytes 0xFF each take three. */
  lemma BytesBoundIsAttained(header: string, n: nat) returns (formatted: Bytes)
    ensures |Stripped(formatted)| == n
    ensures |Packet(header, formatted)| == ByteLen(header) + 3 * Min(n, Budget(header))
  {
    formatted := seq(n, _ => 0xFF);
    BytesLength(header, formatted);
    AllBad(Kept(header, formatted));
  }

  // ---------- what the packet holds ----------

  function WithoutNewline(record: string): string {
    if record != "" && record[|record| - 1] == '\n' then record[..|record| - 1] else record
  }

  lemma LastByte(c: char)
    ensures var bytes := EncodeChar(c);
            bytes[|bytes| - 1] == 10 <==> c == '\n'
    ensures c == '\n' ==> EncodeChar(c) == [10]
  {
  }

  lemma StrippedText(record: string)
    ensures Stripped(Encode(record)) == Encode(WithoutNewline(record))
  {
    if record != "" {
      var init, last := record[..|record| - 1], record[|record| - 1];
      assert record == init + [last];
      EncodeConcat(init, [last]);
      assert [last][1..] == "" && Encode("") == [];
      assert Encode([last]) == EncodeChar(last);
      LastByte(last);
    }
  }

  /** How much of the record fits, in bytes; and how many of these belong to a character that was cut. */
  function Room(header: string, record: string): nat {
    Min(ByteLen(WithoutNewline(record)), Budget(header))
  }

  function CutBytes(header: string, record: string): int {
    PartialBytes(WithoutNewline(record), Room(header, record))
  }

  /** The datagram is the header, the longest prefix of whole characters of the record that fits, and at
  most one U+FFFD, there exactly if the cut falls inside a character. */
  lemma PacketHoldsLongestPrefix(header: string, record: string)
    ensures Packet(header, Encode(record))
         == Encode(header + (WithoutNewline(record)[..Fitting(WithoutNewline(record), Room(header, record))]
                             + if CutBytes(header, record) > 0 then [REPLACEMENT] else []))
  {
    StrippedText(record);
    TruncatedDecode(WithoutNewline(record), Room(header, record));
  }

  lemma {:induction false} WholeTextFits(t: string)
    ensures Fitting(t, ByteLen(t)) == |t|
  {
    if t != "" {
      WholeTextFits(t[1..]);
    }
  }

  lemma WholeTextUncut(t: string)
    ensures PartialBytes(t, ByteLen(t)) == 0
  {
    WholeTextFits(t);
    assert t[..|t|] == t;
  }

  lemma FitsWhole(header: string, record: string, text: string)
    requires WithoutNewline(record) == text && ByteLen(header) + ByteLen(text) <= 1024
    ensures Packet(header, Encode(record)) == Encode(header + text)
  {
    WholeTextFits(text);
    WholeTextUncut(text);
    PacketHoldsLongestPrefix(header, record);
    assert text[..|text|] == text && text + "" == text;
  }

  /** A line that fits is sent whole, without the newline at its end; so is a text without one. */
  lemma LineThatFits(header: string, text: string)
    requires ByteLen(header) + ByteLen(text) <= 1024
    ensures Packet(header, Encode(text + "\n")) == Encode(header + text)
    ensures text == "" || text[|text| - 1] != '\n' ==> Packet(header, Encode(text)) == Encode(header + text)
  {
    WithNewline(text);
    FitsWhole(header, text + "\n", text);
    if text == "" || text[|text| - 1] != '\n' {
      FitsWhole(header, text, text);
    }
  }

  lemma WithNewline(text: string)
    ensures WithoutNewline(text + "\n") == text
  {
    assert (text + "\n")[..|text|] == text;
  }

  /** The length of the datagram of a record that is valid UTF-8. */
  lemma PacketLength(header: string, record: string)
    ensures 0 <= CutBytes(header, record) <= 3
    ensures |Packet(header, Encode(record))|
         == ByteLen(header) + Room(header, record)
            + if CutBytes(header, record) > 0 then 3 - CutBytes(header, record) else 0
  {
    var body, n := WithoutNewline(record), Room(header, record);
    PacketHoldsLongestPrefix(header, record);
    CutEncoding(body, n);
    var kept := body[..Fitting(body, n)];
    var marker := if CutBytes(header, record) > 0 then [REPLACEMENT] else [];
    ByteLenConcat(header, kept + marker);
    ByteLenConcat(kept, marker);
    assert [REPLACEMENT][1..] == "";
  }

  /** For a record that is valid UTF-8 the datagram outgrows the larger of 1024 and its header exactly if
  the cut leaves one or two bytes of a character, because U+FFFD takes three; it never does by more than two bytes. */
  lemma PacketBound(header: string, record: string)
    ensures var limit, length := Limit(header), |Packet(header, Encode(record))|;
            && length <= limit + 2
            && (length > limit <==> 0 < CutBytes(header, record) < 3)
  {
    PacketLength(header, record);
    WholeTextUncut(WithoutNewline(record));
  }

  predicate Ascii(s: string) {
    forall i :: 0 <= i < |s| ==> s[i] < '\U{0080}'
  }

  lemma {:induction false} AsciiFitting(t: string, n: nat)
    requires Ascii(t) && n <= ByteLen(t)
    ensures PartialBytes(t, n) == 0
  {
    if t == "" {
    } else if n > 0 {
      AsciiFitting(t[1..], n - 1);
      assert t[..Fitting(t, n)][1..] == t[1..][..Fitting(t[1..], n - 1)];
    } else {
      assert t[..0] == "";
    }
  }

  /** An ASCII record is never cut inside a character, so its datagram keeps to the limit. */
  lemma AsciiKeepsToLimit(header: string, record: string)
    requires Ascii(record)
    ensures CutBytes(header, record) == 0
    ensures ByteLen(header) <= MAX_SYSLOG_PACKET ==> |Packet(header, Encode(record))| <= MAX_SYSLOG_PACKET
  {
    AsciiFitting(WithoutNewline(record), Room(header, record));
    PacketLength(header, record);
  }

  lemma {:induction false} RepeatedBytes(n: nat, rest: string)
    ensures ByteLen(Repeat('x', n) + rest) == n + ByteLen(rest)
    ensures Fitting(Repeat('x', n) + rest, n + 1) == n + Fitting(rest, 1)
  {
    if n == 0 {
      assert Repeat('x', n) + rest == rest;
    } else {
      var all := Repeat('x', n) + rest;
      assert all[1..] == Repeat('x', n - 1) + rest;
      RepeatedBytes(n - 1, rest);
    }
  }

  /** Behind any header that leaves room, some record makes a datagram of 1026 bytes. */
  lemma BoundIsAttained(header: string) returns (record: string)
    requires ByteLen(header) < MAX_SYSLOG_PACKET
    ensures |Packet(header, Encode(record))| == 1026
  {
    var n := 1023 - ByteLen(header);
    record := Repeat('x', n) + "\U{00E9}";
    assert "\U{00E9}"[1..] == "";
    RepeatedBytes(n, "\U{00E9}");
    RepeatedBytes(n, "");
    assert Repeat('x', n) + "" == Repeat('x', n) == record[..n];
    assert WithoutNewline(record) == record;
    PacketLength(header, record);
  }

  // ---------- reading a packet (section 4.1 of RFC 3164) ----------

  /** The severities of section 4.1.1, in the order of their codes. */
  datatype Condition =
    | Emergency | Alert | Critical | ErrorCondition | WarningCondition | Notice | Informational | DebugLevel

  const CONDITIONS: seq<Condition> :=
    [Emergency, Alert, Critical, ErrorCondition, WarningCondition, Notice, Informational, DebugLevel]

  /** The facilities of section 4.1.1, in the order of their codes; the logger has no name for four of them. */
  const FACILITIES: seq<Option<Facility>> :=
    [Some(Kernel), Some(User), Some(Mail), Some(Daemon), Some(Auth), Some(Facility.Syslog), Some(Lpr), Some(News),
     Some(Uucp), Some(Cron), Some(AuthPriv), Some(Ftp), None, None, None, None,
     Some(Local0), Some(Local1), Some(Local2), Some(Local3), Some(Local4), Some(Local5), Some(Local6), Some(Local7)]

  /** What a level means to a syslog daemon; records at `Off` do not exist. */
  function Meaning(level: Level): Condition {
    match level
    case Error => ErrorCondition
    case Warn => WarningCondition
    case Info => Informational
    case _ => DebugLevel
  }

  datatype Reading = Reading(
    facility: Facility, severity: Condition, month: nat, day: nat, hour: nat, minute: nat, second: nat,
    hostname: string, ident: string, pid: nat, message: string)

  /** The text before and after the first occurrence of a character. */
  function Until(s: string, c: char): Option<(string, string)> {
    if s == "" then None
    else if s[0] == c then Some(("", s[1..]))
    else
      var more :- Until(s[1..], c);
      Some(([s[0]] + more.0, more.1))
  }

  function Number(s: string): Option<nat> {
    if s != "" && AllDigits(s) then Some(DigitsValue(s)) else None
  }

  function MonthNumber(name: string): Option<nat>
    requires |name| == 3
  {
    match (name[0], name[1], name[2])
    case ('J', 'a', 'n') => Some(1)
    case ('F', 'e', 'b') => Some(2)
    case ('M', 'a', 'r') => Some(3)
    case ('A', 'p', 'r') => Some(4)
    case ('M', 'a', 'y') => Some(5)
    case ('J', 'u', 'n') => Some(6)
    case ('J', 'u', 'l') => Some(7)
    case ('A', 'u', 'g') => Some(8)
    case ('S', 'e', 'p') => Some(9)
    case ('O', 'c', 't') => Some(10)
    case ('N', 'o', 'v') => Some(11)
    case ('D', 'e', 'c') => Some(12)
    case _ => None
  }

  function ReadTag(s: string): Option<(string, string, nat, string)> {
    var host :- Until(s, ' ');
    var tag :- Until(host.1, '[');
    var process :- Until(tag.1, ']');
    var pid :- Number(process.0);
    if |process.1| < 2 || process.1[..2] != ": " then None
    else Some((host.0, tag.0, pid, process.1[2..]))
  }

  /** Everything behind the priority. */
  function ReadRest(pri: nat, rest: string): Option<Reading> {
    if |rest| < 16 || rest[15] != ' ' || pri / 8 >= |FACILITIES| then None
    else
      var facility :- FACILITIES[pri / 8];
      var month :- MonthNumber(rest[..3]);
      var day :- Number(if rest[4] == ' ' then rest[5..6] else rest[4..6]);
      var hour :- Number(rest[7..9]);
      var minute :- Number(rest[10..12]);
      var second :- Number(rest[13..15]);
      var tag :- ReadTag(rest[16..]);
      Some(Reading(facility, CONDITIONS[pri % 8], month, day, hour, minute, second, tag.0, tag.1, tag.2, tag.3))
  }

  function ReadPacket(s: string): Option<Reading> {
    if s == "" || s[0] != '<' then None
    else
      var priority :- Until(s[1..], '>');
      var pri :- Number(priority.0);
      ReadRest(pri, priority.1)
  }

  lemma {:induction false} UntilFound(a: string, c: char, b: string)
    requires c !in a
    ensures Until(a + [c] + b, c) == Some((a, b))
  {
    var s := a + [c] + b;
    if a == "" {
      assert s[1..] == b;
    } else {
      assert s[1..] == a[1..] + [c] + b;
      UntilFound(a[1..], c, b);
      assert [a[0]] + a[1..] == a;
    }
  }

  lemma NumberOfDecimal(n: nat)
    ensures Number(Decimal(n)) == Some(n)
  {
    DecimalValue(n);
  }

  lemma PairOfDigits(n: nat)
    requires n < 100
    ensures Fixed(n, 2) == [DigitChar(n / 10), DigitChar(n % 10)]
  {
    assert n / 10 % 10 == n / 10;
    assert Fixed(n / 10, 1) == Fixed(n / 10 / 10, 0) + [DigitChar(n / 10 % 10)];
    assert Fixed(n, 2) == Fixed(n / 10, 1) + [DigitChar(n % 10)];
  }

  lemma PairValue(m: nat, n: nat)
    requires m < 10 && n < 10
    ensures Number([DigitChar(m), DigitChar(n)]) == Some(10 * m + n)
  {
    var s := [DigitChar(m), DigitChar(n)];
    assert s[..1] == [DigitChar(m)] && s[..1][..0] == "";
    assert DigitsValue(s[..1]) == m;
  }

  lemma ZeroPaddedPair(n: nat)
    requires n < 100
    ensures |ZeroPad(n, 2)| == 2 && Number(ZeroPad(n, 2)) == Some(n)
  {
    assert Pow10(2) == 100 by {
      assert Pow10(1) == 10 * Pow10(0);
    }
    ZeroPadFixed(n, 2);
    PairOfDigits(n);
    PairValue(n / 10, n % 10);
  }

  lemma SpacePaddedPair(n: nat)
    requires n < 100
    ensures |SpacePad(n, 2)| == 2
    ensures Number(if SpacePad(n, 2)[0] == ' ' then SpacePad(n, 2)[1..2] else SpacePad(n, 2)) == Some(n)
  {
    NumberOfDecimal(n);
    if n < 10 {
      assert Decimal(n) == [DigitChar(n)];
      assert SpacePad(n, 2)[1..2] == Decimal(n);
    } else {
      assert Decimal(n / 10) == [DigitChar(n / 10)];
      assert SpacePad(n, 2) == Decimal(n);
      assert IsDigit(Decimal(n)[0]);
    }
  }

  lemma MonthReadsBack(month: nat)
    requires 1 <= month <= 12
    ensures MonthNumber(MonthName(month)) == Some(month)
  {
  }

  lemma TagReadsBack(hostname: string, ident: string, pid: nat, message: string)
    requires ' ' !in hostname && '[' !in ident
    ensures ReadTag(hostname + " " + ident + "[" + Decimal(pid) + "]: " + message)
         == Some((hostname, ident, pid, message))
  {
    var afterPid := ": " + message;
    var afterIdent := Decimal(pid) + "]" + afterPid;
    var afterHost := ident + "[" + afterIdent;
    assert hostname + " " + ident + "[" + Decimal(pid) + "]: " + message == hostname + " " + afterHost;
    UntilFound(hostname, ' ', afterHost);
    UntilFound(ident, '[', afterIdent);
    UntilFound(Decimal(pid), ']', afterPid);
    NumberOfDecimal(pid);
    assert afterPid[..2] == ": " && afterPid[2..] == message;
  }

  /** The month has a name, and the other numbers fit the two places the header has for them. */
  predicate Fits(month: nat, day: nat, hour: nat, minute: nat, second: nat) {
    1 <= month <= 12 && day < 100 && hour < 100 && minute < 100 && second < 100
  }

  predicate StampFits(ts: Timestamp) {
    Fits(ts.month, ts.day, ts.hour, ts.minute, ts.second)
  }

  lemma StampSlices(month: string, day: string, hour: string, minute: string, second: string, rest: string)
    requires |month| == 3 && |day| == |hour| == |minute| == |second| == 2
    ensures var s := month + " " + day + " " + hour + ":" + minute + ":" + second + " " + rest;
            && |s| >= 16 && s[15] == ' '
            && s[..3] == month && s[4] == day[0] && s[4..6] == day && s[5..6] == day[1..2]
            && s[7..9] == hour && s[10..12] == minute && s[13..15] == second && s[16..] == rest
  {
  }

  lemma PriorityMeans(facility: Facility, level: Level)
    ensures var pri := Priority(Code(facility), Severity(level));
            pri / 8 < |FACILITIES| && FACILITIES[pri / 8] == Some(facility) && CONDITIONS[pri % 8] == Meaning(level)
  {
  }

  lemma RestReadsBack(facility: Facility, level: Level, ts: Timestamp, tail: string)
    requires StampFits(ts) && ReadTag(tail).Some?
    ensures ReadRest(Priority(Code(facility), Severity(level)), Rfc3164Timestamp(ts) + " " + tail)
         == Some(Reading(facility, Meaning(level), ts.month, ts.day, ts.hour, ts.minute, ts.second,
                         ReadTag(tail).value.0, ReadTag(tail).value.1, ReadTag(tail).value.2, ReadTag(tail).value.3))
  {
    var month, day := MonthName(ts.month), SpacePad(ts.day, 2);
    var hour, minute, second := ZeroPad(ts.hour, 2), ZeroPad(ts.minute, 2), ZeroPad(ts.second, 2);
    MonthReadsBack(ts.month);
    SpacePaddedPair(ts.day);
    ZeroPaddedPair(ts.hour);
    ZeroPaddedPair(ts.minute);
    ZeroPaddedPair(ts.second);
    StampSlices(month, day, hour, minute, second, tail);
    PriorityMeans(facility, level);
  }

  /** A receiver recovers the facility, the severity, the time, the host, the program, the process and the
  message from a datagram, if and only if the host name has no space, the month is one of the twelve and
  no other number of the time takes more than two digits. */
  lemma HeaderReadsBack(facility: Facility, level: Level, ts: Timestamp, hostname: string, ident: string, pid: nat,
                        message: string)
    ensures var packet := PacketHeader(facility, level, ts, hostname, SanitizeIdent(ident), pid) + message;
            var sent := Reading(facility, Meaning(level), ts.month, ts.day, ts.hour, ts.minute, ts.second,
                                hostname, SanitizeIdent(ident), pid, message);
            ReadPacket(packet) == Some(sent) <==> ' ' !in hostname && StampFits(ts)
  {
    var tag, stamp := SanitizeIdent(ident), Rfc3164Timestamp(ts);
    assert '[' !in tag;
    var tail := hostname + " " + tag + "[" + Decimal(pid) + "]: " + message;
    var pri := Priority(Code(facility), Severity(level));
    PriorityReadsBack(pri, stamp + " " + tail);
    Associate("<" + Decimal(pri) + ">", stamp + " ", hostname + " " + tag + "[" + Decimal(pid) + "]: ", message);
    if ' ' !in hostname && StampFits(ts) {
      TagReadsBack(hostname, tag, pid, message);
      RestReadsBack(facility, level, ts, tail);
    } else {
      RestHasNoSpace(pri, stamp + " " + tail);
      RestFits(pri, stamp + " " + tail);
    }
  }

  /** Whatever is read as the host name has no space. */
  lemma RestHasNoSpace(pri: nat, rest: string)
    ensures ReadRest(pri, rest).Some? ==> ' ' !in ReadRest(pri, rest).value.hostname
  {
    if |rest| >= 16 {
      TagHasNoSpace(rest[16..]);
    }
  }

  /** Whatever is read as a time fits its places. */
  lemma RestFits(pri: nat, rest: string)
    ensures var r := ReadRest(pri, rest);
            r.Some? ==> Fits(r.value.month, r.value.day, r.value.hour, r.value.minute, r.value.second)
  {
    if |rest| >= 16 {
      ShortNumber(if rest[4] == ' ' then rest[5..6] else rest[4..6]);
      ShortNumber(rest[7..9]);
      ShortNumber(rest[10..12]);
      ShortNumber(rest[13..15]);
    }
  }

  lemma ShortNumber(s: string)
    requires |s| <= 2
    ensures Number(s).Some? ==> Number(s).value < 100
  {
    if Number(s).Some? {
      DigitsBelow(s);
      assert Pow10(1) == 10 && Pow10(2) == 100;
    }
  }

  lemma TagHasNoSpace(s: string)
    ensures ReadTag(s).Some? ==> ' ' !in ReadTag(s).value.0
  {
    UntilStops(s, ' ');
  }

  lemma {:induction false} UntilStops(s: string, c: char)
    ensures Until(s, c).Some? ==> c !in Until(s, c).value.0
  {
    if s != "" && s[0] != c {
      UntilStops(s[1..], c);
    }
  }

  lemma Associate(a: string, b: string, c: string, d: string)
    ensures (a + (b + c)) + d == a + (b + (c + d))
  {
  }

  lemma PriorityReadsBack(pri: nat, rest: string)
    ensures ReadPacket("<" + Decimal(pri) + ">" + rest) == ReadRest(pri, rest)
  {
    var s := "<" + Decimal(pri) + ">" + rest;
    assert s[1..] == Decimal(pri) + ">" + rest;
    UntilFound(Decimal(pri), '>', rest);
    NumberOfDecimal(pri);
  }
}
