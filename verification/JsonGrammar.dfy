/** A parser for JSON texts, written from the grammar of RFC 8259. */
module JsonGrammar {
  import opened Text

  datatype Json =
    | JString(text: string)
    | JNumber(negative: bool, whole: nat, fraction: string, exponent: int)
    | JBool(b: bool)
    | JNull
    | JArray(elements: seq<Json>)
    | JObject(members: seq<Member>)

  /** Members stay in order, and names may repeat (section 4). */
  datatype Member = Member(name: string, value: Json)

  datatype Parsed<+T> = Parsed(value: T, rest: string) | Malformed {
    predicate IsFailure() {
      Malformed?
    }

    function PropagateFailure<U>(): Parsed<U>
      requires Malformed?
    {
      Malformed
    }

    function Extract(): (T, string)
      requires Parsed?
    {
      (value, rest)
    }

    /** What is left is shorter than `s`. */
    predicate Consumes(s: string) {
      Parsed? ==> |rest| < |s|
    }
  }

  // ---------- white space (section 2) ----------

  predicate IsSpace(c: char) {
    c == ' ' || c == '\t' || c == '\n' || c == '\r'
  }

  function SkipSpace(s: string): (t: string)
    ensures |t| <= |s|
  {
    if s != "" && IsSpace(s[0]) then SkipSpace(s[1..]) else s
  }

  // ---------- strings (section 7) ----------

  function HexDigit(c: char): (n: int)
    ensures -1 <= n < 16
  {
    if IsDigit(c) then c as int - '0' as int
    else if 'a' <= c <= 'f' then c as int - 'a' as int + 10
    else if 'A' <= c <= 'F' then c as int - 'A' as int + 10
    else -1
  }

  /** The UTF-16 code unit of four hexadecimal digits. */
  function CodeUnit(s: string): Parsed<nat> {
    if |s| < 4 || HexDigit(s[0]) < 0 || HexDigit(s[1]) < 0 || HexDigit(s[2]) < 0 || HexDigit(s[3]) < 0 then Malformed
    else Parsed(HexDigit(s[0]) * 4096 + HexDigit(s[1]) * 256 + HexDigit(s[2]) * 16 + HexDigit(s[3]), s[4..])
  }

  /** What follows `\u`: one code unit, or a surrogate pair. */
  function UnicodeEscape(s: string): (r: Parsed<char>)
    ensures r.Consumes(s)
  {
    var high :- CodeUnit(s);
    if high.0 < 0xD800 || 0xE000 <= high.0 < 0x1_0000 then Parsed(high.0 as char, high.1)
    else if high.0 < 0xDC00 && |high.1| >= 2 && high.1[0] == '\\' && high.1[1] == 'u' then
      var low :- CodeUnit(high.1[2..]);
      if 0xDC00 <= low.0 < 0xE000 then
        Parsed((0x1_0000 + (high.0 - 0xD800) * 0x400 + (low.0 - 0xDC00)) as char, low.1)
      else Malformed
    else Malformed
  }

  /** One character of a string, written out or escaped. */
  function StringChar(s: string): (r: Parsed<char>)
    ensures r.Consumes(s)
  {
    if s == "" || s[0] < ' ' || s[0] == '"' then Malformed
    else if s[0] != '\\' then Parsed(s[0], s[1..])
    else if |s| == 1 then Malformed
    else
      match s[1]
      case '"' => Parsed('"', s[2..])
      case '\\' => Parsed('\\', s[2..])
      case '/' => Parsed('/', s[2..])
      case 'b' => Parsed('\U{0008}', s[2..])
      case 'f' => Parsed('\U{000C}', s[2..])
      case 'n' => Parsed('\n', s[2..])
      case 'r' => Parsed('\r', s[2..])
      case 't' => Parsed('\t', s[2..])
      case 'u' => UnicodeEscape(s[2..])
      case _ => Malformed
  }

  /** A string, up to and with its closing quotation mark; the opening one has been read. */
  function StringBody(s: string): (r: Parsed<string>)
    ensures r.Consumes(s)
    decreases |s|
  {
    if s != "" && s[0] == '"' then Parsed("", s[1..])
    else
      var first :- StringChar(s);
      var more :- StringBody(first.1);
      Parsed([first.0] + more.0, more.1)
  }

  // ---------- numbers (section 6) ----------

  function DigitCount(s: string): (n: nat)
    ensures n <= |s| && AllDigits(s[..n])
  {
    if s != "" && IsDigit(s[0]) then
      var n := DigitCount(s[1..]);
      assert s[..1 + n] == [s[0]] + s[1..][..n];
      1 + n
    else 0
  }

  /** `int`: zero, or digits that do not start with zero. */
  function IntPart(s: string): (r: Parsed<nat>)
    ensures r.Consumes(s)
  {
    var n := if s != "" && s[0] == '0' then 1 else DigitCount(s);
    if n == 0 then Malformed else Parsed(DigitsValue(s[..n]), s[n..])
  }

  /** `frac`, if there is one. */
  function FractionPart(s: string): (r: Parsed<string>)
    ensures r.Parsed? ==> |r.rest| <= |s|
  {
    if s == "" || s[0] != '.' then Parsed("", s)
    else
      var n := DigitCount(s[1..]);
      if n == 0 then Malformed else Parsed(s[1..][..n], s[1..][n..])
  }

  /** `exp`, if there is one. */
  function ExponentPart(s: string): (r: Parsed<int>)
    ensures r.Parsed? ==> |r.rest| <= |s|
  {
    if s == "" || (s[0] != 'e' && s[0] != 'E') then Parsed(0, s)
    else
      var signed := s[1..];
      var digits := if signed != "" && (signed[0] == '+' || signed[0] == '-') then signed[1..] else signed;
      var n := DigitCount(digits);
      if n == 0 then Malformed
      else Parsed(DigitsValue(digits[..n]) * (if signed[0] == '-' then -1 else 1), digits[n..])
  }

  function ParseNumber(s: string): (r: Parsed<Json>)
    ensures r.Consumes(s)
  {
    var negative := s != "" && s[0] == '-';
    var whole :- IntPart(if negative then s[1..] else s);
    var fraction :- FractionPart(whole.1);
    var exponent :- ExponentPart(fraction.1);
    Parsed(JNumber(negative, whole.0, fraction.0, exponent.0), exponent.1)
  }

  // ---------- values, objects and arrays (sections 3 to 5) ----------

  function ParseLiteral(s: string, literal: string, value: Json): (r: Parsed<Json>)
    requires literal != ""
    ensures r.Consumes(s)
  {
    if |literal| <= |s| && s[..|literal|] == literal then Parsed(value, s[|literal|..]) else Malformed
  }

  predicate StartsNumber(c: char) {
    c == '-' || IsDigit(c)
  }

  function ParseValue(s: string): (r: Parsed<Json>)
    ensures r.Consumes(s)
    decreases |s|, 1
  {
    if s == "" then Malformed
    else if StartsNumber(s[0]) then ParseNumber(s)
    else
      match s[0]
      case '"' =>
        var text :- StringBody(s[1..]);
        Parsed(JString(text.0), text.1)
      case '{' =>
        var body := SkipSpace(s[1..]);
        if body != "" && body[0] == '}' then Parsed(JObject([]), body[1..])
        else
          var members :- ParseMembers(body);
          Parsed(JObject(members.0), members.1)
      case '[' =>
        var body := SkipSpace(s[1..]);
        if body != "" && body[0] == ']' then Parsed(JArray([]), body[1..])
        else
          var elements :- ParseElements(body);
          Parsed(JArray(elements.0), elements.1)
      case 't' => ParseLiteral(s, "true", JBool(true))
      case 'f' => ParseLiteral(s, "false", JBool(false))
      case 'n' => ParseLiteral(s, "null", JNull)
      case _ => Malformed
  }

  /** One member, without the white space around it. */
  function ParseMember(s: string): (r: Parsed<Member>)
    ensures r.Consumes(s)
    decreases |s|, 0
  {
    if s == "" || s[0] != '"' then Malformed
    else
      var name :- StringBody(s[1..]);
      var colon := SkipSpace(name.1);
      if colon == "" || colon[0] != ':' then Malformed
      else
        var value :- ParseValue(SkipSpace(colon[1..]));
        Parsed(Member(name.0, value.0), value.1)
  }

  /** The members of an object, up to and with its closing brace. */
  function ParseMembers(s: string): (r: Parsed<seq<Member>>)
    ensures r.Consumes(s)
    decreases |s|, 1
  {
    var first :- ParseMember(s);
    var next := SkipSpace(first.1);
    if next == "" then Malformed
    else if next[0] == '}' then Parsed([first.0], next[1..])
    else if next[0] == ',' then
      var more :- ParseMembers(SkipSpace(next[1..]));
      Parsed([first.0] + more.0, more.1)
    else Malformed
  }

  /** The elements of an array, up to and with its closing bracket. */
  function ParseElements(s: string): (r: Parsed<seq<Json>>)
    ensures r.Consumes(s)
    decreases |s|, 2
  {
    var first :- ParseValue(s);
    var next := SkipSpace(first.1);
    if next == "" then Malformed
    else if next[0] == ']' then Parsed([first.0], next[1..])
    else if next[0] == ',' then
      var more :- ParseElements(SkipSpace(next[1..]));
      Parsed([first.0] + more.0, more.1)
    else Malformed
  }

  /** A whole JSON text: one value, with white space around it and nothing else. */
  function ParseText(s: string): Parsed<Json> {
    var value :- ParseValue(SkipSpace(s));
    if SkipSpace(value.1) == "" then Parsed(value.0, "") else Malformed
  }
}
