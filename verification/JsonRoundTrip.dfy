/** Every JSON line parses back to the record it was written from, and lines can be told apart. */
module JsonRoundTrip {
  import opened Basics
  import opened Entries
  import opened Json
  import opened JsonGrammar
  import opened Levels
  import opened Strings
  import opened Text
  import Timestamps
  import opened Utf8

  // ---------- strings ----------

  lemma HexValue(n: int)
    requires 0 <= n < 16
    ensures HexDigit(HEX[n]) == n
  {
  }

  lemma HexReadsBack(u: nat, tail: string)
    requires u < 256
    ensures CodeUnit(['0', '0', HEX[u / 16], HEX[u % 16]] + tail) == Parsed(u, tail)
  {
    var s := ['0', '0', HEX[u / 16], HEX[u % 16]] + tail;
    assert s[4..] == tail;
    HexValue(u / 16);
    HexValue(u % 16);
  }

  lemma LongEscapeReadsBack(c: char, tail: string)
    requires IsControl(c)
    ensures StringChar(['\\', 'u', '0', '0', HEX[c as int / 16], HEX[c as int % 16]] + tail) == Parsed(c, tail)
  {
    var digits := ['0', '0', HEX[c as int / 16], HEX[c as int % 16]] + tail;
    var s := ['\\', 'u', '0', '0', HEX[c as int / 16], HEX[c as int % 16]] + tail;
    assert s[2..] == digits;
    HexReadsBack(c as int, tail);
  }

  lemma ShortEscapeReadsBack(c: char, letter: char, tail: string)
    requires (c, letter) in [('"', '"'), ('\\', '\\'), ('\n', 'n'), ('\r', 'r'), ('\t', 't'), ('\U{0008}', 'b'),
                             ('\U{000C}', 'f')]
    ensures StringChar(['\\', letter] + tail) == Parsed(c, tail)
  {
    assert (['\\', letter] + tail)[2..] == tail;
  }

  lemma EscapeReadsBack(c: char, tail: string)
    ensures StringChar(EscapeChar(c) + tail) == Parsed(c, tail)
    ensures EscapeChar(c)[0] != '"'
  {
    if c == '"' {
      ShortEscapeReadsBack(c, '"', tail);
    } else if c == '\\' {
      ShortEscapeReadsBack(c, '\\', tail);
    } else if c == '\n' {
      ShortEscapeReadsBack(c, 'n', tail);
    } else if c == '\r' {
      ShortEscapeReadsBack(c, 'r', tail);
    } else if c == '\t' {
      ShortEscapeReadsBack(c, 't', tail);
    } else if c == '\U{0008}' {
      ShortEscapeReadsBack(c, 'b', tail);
    } else if c == '\U{000C}' {
      ShortEscapeReadsBack(c, 'f', tail);
    } else if IsControl(c) {
      LongEscapeReadsBack(c, tail);
    } else {
      assert ([c] + tail)[1..] == tail;
    }
  }

  lemma {:induction false} StringReadsBack(s: string, rest: string)
    ensures StringBody(Escaped(s) + "\"" + rest) == Parsed(s, rest)
  {
    var line := Escaped(s) + "\"" + rest;
    if s == "" {
      assert line == "\"" + rest;
      assert line[1..] == rest;
    } else {
      var tail := Escaped(s[1..]) + "\"" + rest;
      ConcatAssociates(EscapeChar(s[0]), Escaped(s[1..]), "\"");
      ConcatAssociates(EscapeChar(s[0]), Escaped(s[1..]) + "\"", rest);
      assert line == EscapeChar(s[0]) + tail;
      EscapeReadsBack(s[0], tail);
      StringReadsBack(s[1..], rest);
      assert [s[0]] + s[1..] == s;
    }
  }

  lemma QuotedSplits(s: string, rest: string)
    ensures var line := Quoted(s) + rest;
            line[0] == '"' && StringBody(line[1..]) == Parsed(s, rest)
  {
    var line := Quoted(s) + rest;
    assert line[1..] == Escaped(s) + "\"" + rest;
    StringReadsBack(s, rest);
  }

  // ---------- numbers ----------

  predicate NoDigitNext(rest: string) {
    rest == "" || !IsDigit(rest[0])
  }

  lemma {:induction false} DigitsStop(digits: string, rest: string)
    requires AllDigits(digits) && NoDigitNext(rest)
    ensures DigitCount(digits + rest) == |digits|
    ensures (digits + rest)[..|digits|] == digits && (digits + rest)[|digits|..] == rest
  {
    if digits == "" {
      assert digits + rest == rest;
    } else {
      assert (digits + rest)[1..] == digits[1..] + rest;
      DigitsStop(digits[1..], rest);
    }
  }

  lemma IntPartReadsBack(n: nat, rest: string)
    requires NoDigitNext(rest)
    ensures IntPart(Decimal(n) + rest) == Parsed(n, rest)
  {
    DigitsStop(Decimal(n), rest);
    DecimalValue(n);
    var s := Decimal(n) + rest;
    if s[0] == '0' {
      assert Decimal(n) == "0";
    }
  }

  predicate EndsValue(rest: string) {
    rest != "" && (rest[0] == ',' || rest[0] == '}')
  }

  lemma FractionReadsBack(fraction: string, rest: string)
    requires AllDigits(fraction) && EndsValue(rest)
    ensures FractionPart((if fraction == "" then "" else "." + fraction) + rest) == Parsed(fraction, rest)
  {
    if fraction == "" {
      assert "" + rest == rest;
    } else {
      var s := "." + fraction + rest;
      assert s[1..] == fraction + rest;
      DigitsStop(fraction, rest);
    }
  }

  lemma UnsignedReadsBack(whole: nat, fraction: string, rest: string)
    requires AllDigits(fraction) && EndsValue(rest)
    ensures var tail := (if fraction == "" then "" else "." + fraction) + rest;
            && IntPart(Decimal(whole) + tail) == Parsed(whole, tail)
            && FractionPart(tail) == Parsed(fraction, rest)
            && ExponentPart(rest) == Parsed(0, rest)
  {
    var dot := if fraction == "" then "" else "." + fraction;
    assert fraction != "" ==> dot[0] == '.';
    assert "" + rest == rest;
    IntPartReadsBack(whole, dot + rest);
    FractionReadsBack(fraction, rest);
  }

  /** One step of the parser, on a sign and what is known to follow. */
  lemma SignedNumber(negative: bool, digits: string, whole: nat, tail: string, fraction: string, rest: string)
    requires digits != "" && IsDigit(digits[0]) && IntPart(digits) == Parsed(whole, tail)
    requires FractionPart(tail) == Parsed(fraction, rest) && ExponentPart(rest) == Parsed(0, rest)
    ensures ParseNumber((if negative then "-" else "") + digits) == Parsed(JNumber(negative, whole, fraction, 0), rest)
  {
    if negative {
      assert ("-" + digits)[1..] == digits;
    } else {
      assert "" + digits == digits;
    }
  }

  lemma NumberReadsBack(negative: bool, whole: nat, fraction: string, rest: string)
    requires AllDigits(fraction) && EndsValue(rest)
    ensures ParseNumber((if negative then "-" else "")
                        + (Decimal(whole) + ((if fraction == "" then "" else "." + fraction) + rest)))
         == Parsed(JNumber(negative, whole, fraction, 0), rest)
  {
    var tail := (if fraction == "" then "" else "." + fraction) + rest;
    UnsignedReadsBack(whole, fraction, rest);
    assert IsDigit(Decimal(whole)[0]);
    SignedNumber(negative, Decimal(whole) + tail, whole, tail, fraction, rest);
  }

  lemma NumberIsValue(text: string, rest: string)
    requires text != "" && StartsNumber(text[0])
    ensures ParseValue(text + rest) == ParseNumber(text + rest)
    ensures !IsSpace(text[0])
  {
    assert (text + rest)[0] == text[0];
  }

  lemma FloatReadsBack(f: Float, rest: string)
    requires f.Finite? && EndsValue(rest)
    ensures ParseValue(FloatText(f) + rest) == Parsed(JNumber(f.negative, f.whole, f.fraction, 0), rest)
    ensures !IsSpace(FloatText(f)[0])
  {
    var sign, dot := if f.negative then "-" else "", if f.fraction == "" then "" else "." + f.fraction;
    NumberReadsBack(f.negative, f.whole, f.fraction, rest);
    ConcatAssociates(sign, Decimal(f.whole), dot);
    ConcatAssociates(sign, Decimal(f.whole) + dot, rest);
    ConcatAssociates(Decimal(f.whole), dot, rest);
    NumberIsValue(FloatText(f), rest);
  }

  /** An integer prints as this floating-point value without a fraction does. */
  function AsFloat(i: int): Float {
    Finite(i < 0, if i < 0 then -i else i, "")
  }

  lemma IntIsFloat(i: int)
    ensures SignedDecimal(i) == FloatText(AsFloat(i))
  {
  }

  // ---------- values and members ----------

  /** The JSON value of a field. */
  function JsonOf(v: FieldValue): JsonGrammar.Json {
    match v
    case Str(s) => JString(s)
    case Int(i) => JNumber(i < 0, if i < 0 then -i else i, "", 0)
    case Number(f) => if f.Finite? then JNumber(f.negative, f.whole, f.fraction, 0) else JNull
    case Bool(b) => JBool(b)
    case Null => JNull
  }

  lemma LiteralReadsBack(v: FieldValue, rest: string)
    requires v.Null? || v.Bool? || (v.Number? && v.f.NonFinite?)
    ensures ParseValue(ValueText(v) + rest) == Parsed(JsonOf(v), rest)
    ensures !IsSpace(ValueText(v)[0])
  {
    var text := ValueText(v);
    var s := text + rest;
    assert s[..|text|] == text && s[|text|..] == rest;
    assert s[0] == text[0];
  }

  lemma StrReadsBack(s: string, rest: string)
    ensures ParseValue(Quoted(s) + rest) == Parsed(JString(s), rest)
    ensures !IsSpace(Quoted(s)[0])
  {
    QuotedSplits(s, rest);
  }

  lemma StrValueReadsBack(v: FieldValue, rest: string)
    requires v.Str?
    ensures ParseValue(ValueText(v) + rest) == Parsed(JsonOf(v), rest)
    ensures !IsSpace(ValueText(v)[0])
  {
    StrReadsBack(v.s, rest);
  }

  lemma FloatValueReadsBack(v: FieldValue, rest: string)
    requires v.Number? && v.f.Finite? && EndsValue(rest)
    ensures ParseValue(ValueText(v) + rest) == Parsed(JsonOf(v), rest)
    ensures !IsSpace(ValueText(v)[0])
  {
    FloatReadsBack(v.f, rest);
  }

  lemma IntValueReadsBack(v: FieldValue, rest: string)
    requires v.Int? && EndsValue(rest)
    ensures ParseValue(ValueText(v) + rest) == Parsed(JsonOf(v), rest)
    ensures !IsSpace(ValueText(v)[0])
  {
    var same := Number(AsFloat(v.i));
    IntIsFloat(v.i);
    assert ValueText(v) == ValueText(same) && JsonOf(v) == JsonOf(same);
    FloatValueReadsBack(same, rest);
  }

  lemma ValueReadsBack(v: FieldValue, rest: string)
    requires EndsValue(rest)
    ensures ParseValue(ValueText(v) + rest) == Parsed(JsonOf(v), rest)
    ensures !IsSpace(ValueText(v)[0])
  {
    if v.Str? {
      StrValueReadsBack(v, rest);
    } else if v.Int? {
      IntValueReadsBack(v, rest);
    } else if v.Number? && v.f.Finite? {
      FloatValueReadsBack(v, rest);
    } else {
      LiteralReadsBack(v, rest);
    }
  }

  function MemberOf(f: Field): Member {
    Member(f.key, JsonOf(f.value))
  }

  function MembersOf(fields: seq<Field>): (members: seq<Member>)
    ensures |members| == |fields|
    ensures forall i :: 0 <= i < |fields| ==> members[i] == MemberOf(fields[i])
  {
    if fields == [] then [] else [MemberOf(fields[0])] + MembersOf(fields[1..])
  }

  /** One step of the parser, on a name and what is known to follow. */
  lemma NamedValue(s: string, name: string, text: string, value: JsonGrammar.Json, rest: string)
    requires s != "" && s[0] == '"' && StringBody(s[1..]) == Parsed(name, ":" + text)
    requires text != "" && !IsSpace(text[0]) && ParseValue(text) == Parsed(value, rest)
    ensures ParseMember(s) == Parsed(Member(name, value), rest)
  {
    assert (":" + text)[1..] == text;
  }

  lemma MemberReadsBack(f: Field, rest: string)
    requires EndsValue(rest)
    ensures ParseMember(MemberText(f) + rest) == Parsed(MemberOf(f), rest)
    ensures !IsSpace((MemberText(f) + rest)[0])
  {
    var value := ValueText(f.value);
    QuotedSplits(f.key, ":" + (value + rest));
    ValueReadsBack(f.value, rest);
    ConcatAssociates(Quoted(f.key), ":", value);
    ConcatAssociates(Quoted(f.key), ":" + value, rest);
    ConcatAssociates(":", value, rest);
    NamedValue(MemberText(f) + rest, f.key, value + rest, JsonOf(f.value), rest);
  }

  /** One step of the parser, on a member and what is known to follow. */
  lemma LastMember(s: string, member: Member, rest: string)
    requires ParseMember(s) == Parsed(member, "}" + rest)
    ensures ParseMembers(s) == Parsed([member], rest)
  {
    assert ("}" + rest)[1..] == rest;
  }

  lemma NextMember(s: string, member: Member, next: string, more: seq<Member>, rest: string)
    requires ParseMember(s) == Parsed(member, "," + next)
    requires next != "" && !IsSpace(next[0]) && ParseMembers(next) == Parsed(more, rest)
    ensures ParseMembers(s) == Parsed([member] + more, rest)
  {
    assert ("," + next)[1..] == next;
  }

  /** The members after the opening brace. */
  function MembersText(fields: seq<Field>): string
    requires fields != []
  {
    MemberText(fields[0]) + FieldsText(fields[1..])
  }

  lemma {:induction false} MembersReadBack(fields: seq<Field>, rest: string)
    requires fields != []
    ensures ParseMembers(MembersText(fields) + ("}" + rest)) == Parsed(MembersOf(fields), rest)
    ensures !IsSpace((MembersText(fields) + ("}" + rest))[0])
    decreases |fields|
  {
    var first, more := fields[0], fields[1..];
    var end := "}" + rest;
    var tail := FieldsText(more) + end;
    ConcatAssociates(MemberText(first), FieldsText(more), end);
    if more == [] {
      assert "" + end == end;
      MemberReadsBack(first, end);
      LastMember(MemberText(first) + end, MemberOf(first), rest);
      assert [MemberOf(first)] + [] == [MemberOf(first)];
    } else {
      AfterComma(more, end);
      MemberReadsBack(first, tail);
      MembersReadBack(more, rest);
      NextMember(MemberText(first) + tail, MemberOf(first), MembersText(more) + end, MembersOf(more), rest);
    }
  }

  lemma AfterComma(fields: seq<Field>, end: string)
    requires fields != []
    ensures FieldsText(fields) + end == "," + (MembersText(fields) + end)
  {
    ConcatAssociates(",", MemberText(fields[0]), FieldsText(fields[1..]));
    ConcatAssociates(",", MembersText(fields), end);
  }

  // ---------- records ----------

  /** The members of a record's line, as fields, in order. */
  function RecordMembers(entry: LogEntry, includeLocation: bool): (fields: seq<Field>)
    ensures fields != []
  {
    HeadMembers(entry)
    + (if includeLocation then LocationMembers(entry) else [])
    + entry.fields
  }

  function LocationMembers(entry: LogEntry): seq<Field> {
    [Field("file", Str(entry.file)), Field("line", Int(entry.line)), Field("target", Str(entry.target))]
  }

  /** Printed as itself between quotation marks. */
  predicate Plain(s: string) {
    forall i :: 0 <= i < |s| ==> ' ' <= s[i] < '\U{007F}' && s[i] != '"' && s[i] != '\\'
  }

  lemma {:induction false} PlainIsUnescaped(s: string)
    requires Plain(s)
    ensures Escaped(s) == s
  {
    if s != "" {
      PlainIsUnescaped(s[1..]);
      assert [s[0]] + s[1..] == s;
    }
  }

  lemma DigitsArePlain(n: nat, w: int)
    ensures Plain(ZeroPad(n, w))
  {
  }

  lemma FieldIsPlain(n: nat, w: nat, sep: string, rest: string)
    requires Plain(sep) && Plain(rest)
    ensures Plain(Timestamps.Field(n, w, sep, rest))
  {
    DigitsArePlain(n, w);
  }

  lemma OffsetIsPlain(offset: int)
    ensures Plain(Timestamps.OffsetText(offset))
  {
    var abs := if offset < 0 then -offset else offset;
    DigitsArePlain(abs % 3600 / 60, 2);
    FieldIsPlain(abs / 3600, 2, ":", ZeroPad(abs % 3600 / 60, 2));
  }

  lemma AfterYearIsPlain(ts: Timestamps.Timestamp)
    ensures Plain(Timestamps.AfterYear(ts))
  {
    OffsetIsPlain(ts.offset);
    var micros := Timestamps.Field(ts.microsecond, 6, "", Timestamps.OffsetText(ts.offset));
    FieldIsPlain(ts.microsecond, 6, "", Timestamps.OffsetText(ts.offset));
    var seconds := Timestamps.Field(ts.second, 2, ".", micros);
    FieldIsPlain(ts.second, 2, ".", micros);
    var minutes := Timestamps.Field(ts.minute, 2, ":", seconds);
    FieldIsPlain(ts.minute, 2, ":", seconds);
    var hours := Timestamps.Field(ts.hour, 2, ":", minutes);
    FieldIsPlain(ts.hour, 2, ":", minutes);
    FieldIsPlain(ts.day, 2, "T", hours);
    FieldIsPlain(ts.month, 2, "-", Timestamps.Field(ts.day, 2, "T", hours));
  }

  lemma PlainConcat(a: string, b: string)
    requires Plain(a) && Plain(b)
    ensures Plain(a + b)
  {
  }

  lemma TimestampIsPlain(ts: Timestamps.Timestamp)
    ensures Plain(Timestamps.Display(ts))
  {
    AfterYearIsPlain(ts);
    DigitsArePlain(if ts.year < 0 then -ts.year else ts.year, if ts.year < 0 then 3 else 4);
    PlainConcat(SignedZeroPad(ts.year, 4) + "-", Timestamps.AfterYear(ts));
  }

  lemma NameIsPlain(level: Level)
    ensures Plain(Name(level))
  {
  }

  lemma PlainMemberText(name: string, text: string)
    ensures ("\"" + name + "\"") + ":" + ("\"" + text + "\"") == "\"" + name + "\":\"" + text + "\""
  {
  }

  /** A member whose name and text need no escapes. */
  lemma PlainMember(name: string, text: string)
    requires Plain(name) && Plain(text)
    ensures MemberText(Field(name, Str(text))) == "\"" + name + "\":\"" + text + "\""
  {
    PlainIsUnescaped(name);
    PlainIsUnescaped(text);
    PlainMemberText(name, text);
  }

  lemma PlainName(name: string, value: FieldValue)
    requires Plain(name)
    ensures MemberText(Field(name, value)) == "\"" + name + "\":" + ValueText(value)
  {
    PlainIsUnescaped(name);
    assert ("\"" + name + "\"") + ":" == "\"" + name + "\":";
  }

  lemma {:induction false} FieldsTextConcat(a: seq<Field>, b: seq<Field>)
    ensures FieldsText(a + b) == FieldsText(a) + FieldsText(b)
  {
    if a == [] {
      assert a + b == b;
      assert "" + FieldsText(b) == FieldsText(b);
    } else {
      assert (a + b)[1..] == a[1..] + b;
      FieldsTextConcat(a[1..], b);
      ConcatAssociates("," + MemberText(a[0]), FieldsText(a[1..]), FieldsText(b));
    }
  }

  lemma ThreeFields(a: Field, b: Field, c: Field)
    ensures FieldsText([b, c]) == ("," + MemberText(b)) + ("," + MemberText(c))
    ensures FieldsText([a, b, c]) == ("," + MemberText(a)) + (("," + MemberText(b)) + ("," + MemberText(c)))
  {
    var last := "," + MemberText(c);
    assert [c][1..] == [] && FieldsText([c]) == last + "" == last;
    assert [b, c][1..] == [c];
    assert [a, b, c][1..] == [b, c];
  }

  function HeadMembers(entry: LogEntry): (fields: seq<Field>)
    ensures |fields| == 3
  {
    [Field("ts", Str(Timestamps.Display(entry.timestamp))),
     Field("level", Str(Name(entry.level))),
     Field("msg", Str(entry.message))]
  }

  lemma TsText(d: string)
    ensures "{" + ("\"" + "ts" + "\":\"" + d + "\"") == "{\"ts\":\"" + d + "\""
  {
  }

  lemma LevelText(n: string)
    ensures "," + ("\"" + "level" + "\":\"" + n + "\"") == ",\"level\":\"" + n + "\""
  {
  }

  lemma MsgText(m: string)
    ensures "," + ("\"" + "msg" + "\":" + m) == ",\"msg\":" + m
  {
  }

  lemma TsMember(d: string)
    requires Plain(d)
    ensures "{" + MemberText(Field("ts", Str(d))) == "{\"ts\":\"" + d + "\""
  {
    PlainMember("ts", d);
    TsText(d);
  }

  lemma LevelMember(n: string)
    requires Plain(n)
    ensures "," + MemberText(Field("level", Str(n))) == ",\"level\":\"" + n + "\""
  {
    PlainMember("level", n);
    LevelText(n);
  }

  lemma MsgMember(message: string)
    ensures "," + MemberText(Field("msg", Str(message))) == ",\"msg\":" + Quoted(message)
  {
    PlainName("msg", Str(message));
    MsgText(Quoted(message));
  }

  lemma HeadLayout(d: string, n: string, m: string)
    ensures "{\"ts\":\"" + d + "\",\"level\":\"" + n + "\",\"msg\":" + m
         == ("{\"ts\":\"" + d + "\"") + ((",\"level\":\"" + n + "\"") + (",\"msg\":" + m))
  {
  }

  lemma HeadFields(d: string, n: string, message: string)
    requires Plain(d) && Plain(n)
    ensures "{\"ts\":\"" + d + "\",\"level\":\"" + n + "\",\"msg\":" + Quoted(message)
         == "{" + MembersText([Field("ts", Str(d)), Field("level", Str(n)), Field("msg", Str(message))])
  {
    var ts, level, msg := Field("ts", Str(d)), Field("level", Str(n)), Field("msg", Str(message));
    TsMember(d);
    LevelMember(n);
    MsgMember(message);
    HeadLayout(d, n, Quoted(message));
    assert [ts, level, msg][1..] == [level, msg];
    ThreeFields(ts, level, msg);
    ConcatAssociates("{", MemberText(ts), FieldsText([level, msg]));
  }

  lemma HeadIsMembers(entry: LogEntry)
    ensures HeadText(entry) == "{" + MembersText(HeadMembers(entry))
  {
    TimestampIsPlain(entry.timestamp);
    NameIsPlain(entry.level);
    HeadFields(Timestamps.Display(entry.timestamp), Name(entry.level), entry.message);
  }

  lemma FileText(q: string)
    ensures "," + ("\"" + "file" + "\":" + q) == ",\"file\":" + q
  {
  }

  lemma LineText(q: string)
    ensures "," + ("\"" + "line" + "\":" + q) == ",\"line\":" + q
  {
  }

  lemma TargetText(q: string)
    ensures "," + ("\"" + "target" + "\":" + q) == ",\"target\":" + q
  {
  }

  lemma FileMember(f: string)
    ensures "," + MemberText(Field("file", Str(f))) == ",\"file\":" + Quoted(f)
  {
    PlainName("file", Str(f));
    FileText(Quoted(f));
  }

  lemma LineMember(l: nat)
    ensures "," + MemberText(Field("line", Int(l))) == ",\"line\":" + Decimal(l)
  {
    PlainName("line", Int(l));
    LineText(Decimal(l));
  }

  lemma TargetMember(t: string)
    ensures "," + MemberText(Field("target", Str(t))) == ",\"target\":" + Quoted(t)
  {
    PlainName("target", Str(t));
    TargetText(Quoted(t));
  }

  lemma LocationFields(f: string, l: nat, t: string)
    ensures ",\"file\":" + Quoted(f) + ",\"line\":" + Decimal(l) + ",\"target\":" + Quoted(t)
         == FieldsText([Field("file", Str(f)), Field("line", Int(l)), Field("target", Str(t))])
  {
    FileMember(f);
    LineMember(l);
    TargetMember(t);
    ThreeFields(Field("file", Str(f)), Field("line", Int(l)), Field("target", Str(t)));
    ThreePairs(",\"file\":", Quoted(f), ",\"line\":", Decimal(l), ",\"target\":", Quoted(t));
  }

  lemma ThreePairs(a: string, b: string, c: string, d: string, e: string, f: string)
    ensures a + b + c + d + e + f == (a + b) + ((c + d) + (e + f))
  {
  }

  lemma LocationIsMembers(entry: LogEntry)
    ensures LocationText(entry) == FieldsText(LocationMembers(entry))
  {
    LocationFields(entry.file, entry.line, entry.target);
  }

  lemma MembersTextConcat(a: seq<Field>, b: seq<Field>)
    requires a != []
    ensures MembersText(a + b) == MembersText(a) + FieldsText(b)
  {
    assert (a + b)[1..] == a[1..] + b;
    FieldsTextConcat(a[1..], b);
    ConcatAssociates(MemberText(a[0]), FieldsText(a[1..]), FieldsText(b));
  }

  /** The line is an object of the record's members, and a newline. */
  lemma RecordIsObject(entry: LogEntry, includeLocation: bool)
    ensures RecordText(entry, includeLocation)
         == "{" + (MembersText(RecordMembers(entry, includeLocation)) + ("}" + "\n"))
  {
    var head := HeadMembers(entry);
    var location := if includeLocation then LocationMembers(entry) else [];
    HeadIsMembers(entry);
    LocationIsMembers(entry);
    MembersTextConcat(head, location);
    MembersTextConcat(head + location, entry.fields);
    ObjectLayout(MembersText(head), FieldsText(location), FieldsText(entry.fields));
  }

  lemma ObjectLayout(head: string, location: string, fields: string)
    ensures ((("{" + head) + location) + fields) + "}" + "\n" == "{" + (((head + location) + fields) + ("}" + "\n"))
  {
  }

  lemma ObjectReadsBack(fields: seq<Field>, rest: string)
    requires fields != []
    ensures ParseValue("{" + (MembersText(fields) + ("}" + rest))) == Parsed(JObject(MembersOf(fields)), rest)
  {
    var body := MembersText(fields) + ("}" + rest);
    var s := "{" + body;
    assert s[1..] == body;
    MembersReadBack(fields, rest);
    ConcatAssociates(MemberText(fields[0]), FieldsText(fields[1..]), "}" + rest);
    MemberStartsWithQuote(fields[0], FieldsText(fields[1..]) + ("}" + rest));
  }

  lemma MemberStartsWithQuote(f: Field, rest: string)
    ensures (MemberText(f) + rest)[0] == '"'
  {
    assert Quoted(f.key)[0] == '"';
  }

  /** The object of some fields, and a newline or nothing. */
  function ObjectText(fields: seq<Field>, end: string): string
    requires fields != []
  {
    "{" + (MembersText(fields) + ("}" + end))
  }

  lemma ObjectTextReadsBack(fields: seq<Field>, end: string)
    requires fields != [] && (end == "" || end == "\n")
    ensures ParseText(ObjectText(fields, end)) == Parsed(JObject(MembersOf(fields)), "")
  {
    ObjectReadsBack(fields, end);
    assert ObjectText(fields, end)[0] == '{';
    assert end != "" ==> end[1..] == "";
  }

  /** A record's line parses to an object of exactly its members, in order: the time, the level, the
  message, the location if asked for, and then the fields with their typed values. */
  lemma RecordReadsBack(entry: LogEntry, includeLocation: bool)
    ensures ParseText(RecordText(entry, includeLocation))
         == Parsed(JObject(MembersOf(RecordMembers(entry, includeLocation))), "")
  {
    RecordIsObject(entry, includeLocation);
    ObjectTextReadsBack(RecordMembers(entry, includeLocation), "\n");
  }

  // ---------- telling records apart ----------

  predicate NoControl(s: string) {
    forall i :: 0 <= i < |s| ==> !IsControl(s[i])
  }

  lemma EscapeHasNoControl(c: char)
    ensures NoControl(EscapeChar(c))
  {
    if IsControl(c) {
      HexHasNoControl(c as int / 16);
      HexHasNoControl(c as int % 16);
    }
  }

  lemma HexHasNoControl(n: int)
    requires 0 <= n < 16
    ensures !IsControl(HEX[n])
  {
  }

  lemma NoControlConcat(a: string, b: string)
    requires NoControl(a) && NoControl(b)
    ensures NoControl(a + b)
  {
  }

  lemma {:induction false} EscapedHasNoControl(s: string)
    ensures NoControl(Escaped(s))
  {
    if s != "" {
      EscapedHasNoControl(s[1..]);
      EscapeHasNoControl(s[0]);
      NoControlConcat(EscapeChar(s[0]), Escaped(s[1..]));
    }
  }

  lemma QuotedHasNoControl(s: string)
    ensures NoControl(Quoted(s))
  {
    EscapedHasNoControl(s);
  }

  lemma DigitsHaveNoControl(s: string)
    requires AllDigits(s)
    ensures NoControl(s)
  {
  }

  lemma ValueHasNoControl(v: FieldValue)
    ensures NoControl(ValueText(v))
  {
    match v {
      case Str(s) => QuotedHasNoControl(s);
      case Int(i) => DigitsHaveNoControl(Decimal(if i < 0 then -i else i));
      case Number(f) =>
        if f.Finite? {
          DigitsHaveNoControl(Decimal(f.whole));
          DigitsHaveNoControl(f.fraction);
        }
      case Bool(b) =>
      case Null =>
    }
  }

  lemma MemberHasNoControl(f: Field)
    ensures NoControl(MemberText(f))
  {
    QuotedHasNoControl(f.key);
    ValueHasNoControl(f.value);
  }

  lemma {:induction false} FieldsHaveNoControl(fields: seq<Field>)
    ensures NoControl(FieldsText(fields))
  {
    if fields != [] {
      MemberHasNoControl(fields[0]);
      FieldsHaveNoControl(fields[1..]);
    }
  }

  lemma ObjectHasNoControl(fields: seq<Field>)
    requires fields != []
    ensures NoControl(ObjectText(fields, ""))
    ensures ObjectText(fields, "\n") == ObjectText(fields, "") + "\n"
  {
    MemberHasNoControl(fields[0]);
    FieldsHaveNoControl(fields[1..]);
    assert "}" + "" == "}";
    ConcatAssociates("{", MembersText(fields) + "}", "\n");
    ConcatAssociates(MembersText(fields), "}", "\n");
  }

  /** The line without its newline. */
  function Line(entry: LogEntry, includeLocation: bool): string {
    ObjectText(RecordMembers(entry, includeLocation), "")
  }

  /** The newline at the end is the only control character of a record, and without it the line still
  parses to the same members. */
  lemma OnlyControlIsNewline(entry: LogEntry, includeLocation: bool)
    ensures RecordText(entry, includeLocation) == Line(entry, includeLocation) + "\n"
    ensures NoControl(Line(entry, includeLocation))
    ensures ParseText(Line(entry, includeLocation))
         == Parsed(JObject(MembersOf(RecordMembers(entry, includeLocation))), "")
  {
    RecordIsObject(entry, includeLocation);
    ObjectHasNoControl(RecordMembers(entry, includeLocation));
    ObjectTextReadsBack(RecordMembers(entry, includeLocation), "");
  }

  function Lines(entries: seq<LogEntry>, includeLocation: bool): seq<string> {
    Mapped((entry: LogEntry) => Line(entry, includeLocation), entries)
  }

  /** What a sink that writes JSON holds after some records. */
  function Stream(entries: seq<LogEntry>, includeLocation: bool): string {
    if entries == [] then "" else RecordText(entries[0], includeLocation) + Stream(entries[1..], includeLocation)
  }

  lemma SplitFirst(line: string, rest: string, lines: seq<string>)
    requires NoControl(line) && Split(rest, '\n') == lines
    ensures Split(line + "\n" + rest, '\n') == [line] + lines
  {
    SplitConcat(line, rest, '\n');
  }

  /** Any stream of records splits at the newlines into exactly their lines, each of which parses to the
  members of its record (`OnlyControlIsNewline`); so the stream determines what every record carried. */
  lemma {:induction false} StreamSplits(entries: seq<LogEntry>, includeLocation: bool)
    ensures Split(Stream(entries, includeLocation), '\n') == Lines(entries, includeLocation) + [""]
  {
    if entries != [] {
      var line, more := Line(entries[0], includeLocation), entries[1..];
      StreamSplits(more, includeLocation);
      OnlyControlIsNewline(entries[0], includeLocation);
      SplitFirst(line, Stream(more, includeLocation), Lines(more, includeLocation) + [""]);
      ConcatAssociates([line], Lines(more, includeLocation), [""]);
    }
  }

  lemma SameLineSameMembers(a: LogEntry, b: LogEntry, includeLocation: bool)
    requires Line(a, includeLocation) == Line(b, includeLocation)
    ensures MembersOf(RecordMembers(a, includeLocation)) == MembersOf(RecordMembers(b, includeLocation))
  {
    OnlyControlIsNewline(a, includeLocation);
    OnlyControlIsNewline(b, includeLocation);
  }

  lemma SameTextSameLines(a: seq<LogEntry>, b: seq<LogEntry>, includeLocation: bool)
    requires Stream(a, includeLocation) == Stream(b, includeLocation)
    ensures Lines(a, includeLocation) == Lines(b, includeLocation)
  {
    StreamSplits(a, includeLocation);
    StreamSplits(b, includeLocation);
    DropLast(Lines(a, includeLocation), Lines(b, includeLocation), "");
  }

  lemma DropLast(a: seq<string>, b: seq<string>, last: string)
    requires a + [last] == b + [last]
    ensures a == b
  {
    assert |a + [last]| == |b + [last]|;
    assert (a + [last])[..|a|] == a && (b + [last])[..|b|] == b;
  }

  predicate SameMembers(a: LogEntry, b: LogEntry, includeLocation: bool) {
    MembersOf(RecordMembers(a, includeLocation)) == MembersOf(RecordMembers(b, includeLocation))
  }

  lemma SameEncodingSameText(a: string, b: string)
    requires Encode(a) == Encode(b)
    ensures a == b
  {
    DecodeInverts(a);
    DecodeInverts(b);
  }

  lemma SameBytesSameLines(a: seq<LogEntry>, b: seq<LogEntry>, includeLocation: bool)
    requires Encode(Stream(a, includeLocation)) == Encode(Stream(b, includeLocation))
    ensures Lines(a, includeLocation) == Lines(b, includeLocation)
  {
    SameEncodingSameText(Stream(a, includeLocation), Stream(b, includeLocation));
    SameTextSameLines(a, b, includeLocation);
  }

  /** Two logs with the same bytes are the same records: no field can imitate another record. */
  lemma SameBytesSameRecords(a: seq<LogEntry>, b: seq<LogEntry>, includeLocation: bool, i: nat)
    requires Encode(Stream(a, includeLocation)) == Encode(Stream(b, includeLocation))
    requires i < |a|
    ensures |a| == |b| && SameMembers(a[i], b[i], includeLocation)
  {
    SameBytesSameLines(a, b, includeLocation);
    var line := (entry: LogEntry) => Line(entry, includeLocation);
    MappedLength(line, a);
    MappedLength(line, b);
    MappedAt(line, a, i);
    MappedAt(line, b, i);
    SameLineSameMembers(a[i], b[i], includeLocation);
  }
}
