/** Records as JSON lines: `src/json.rs`. */
module Json {
  import opened Basics
  import opened Entries
  import opened Levels
  import opened Text
  import Timestamps
  import opened Utf8

  // ---------- what a record prints as ----------

  /** `char::is_control`: the Unicode category Cc. */
  predicate IsControl(c: char) {
    c < ' ' || '\U{007F}' <= c <= '\U{009F}'
  }

  const HEX: string := "0123456789abcdef"

  function EscapeChar(c: char): string {
    if c == '"' then "\\\""
    else if c == '\\' then "\\\\"
    else if c == '\n' then "\\n"
    else if c == '\r' then "\\r"
    else if c == '\t' then "\\t"
    else if c == '\U{0008}' then "\\b"
    else if c == '\U{000C}' then "\\f"
    else if IsControl(c) then ['\\', 'u', '0', '0', HEX[c as int / 16], HEX[c as int % 16]]
    else [c]
  }

  function Escaped(s: string): string {
    if s == "" then "" else EscapeChar(s[0]) + Escaped(s[1..])
  }

  function Quoted(s: string): string {
    "\"" + Escaped(s) + "\""
  }

  /** `{}` of a finite floating-point value. */
  function FloatText(f: Float): string
    requires f.Finite?
  {
    (if f.negative then "-" else "") + Decimal(f.whole) + if f.fraction == "" then "" else "." + f.fraction
  }

  function ValueText(v: FieldValue): string {
    match v
    case Str(s) => Quoted(s)
    case Int(i) => SignedDecimal(i)
    case Number(f) => if f.Finite? then FloatText(f) else "null"
    case Bool(b) => if b then "true" else "false"
    case Null => "null"
  }

  function MemberText(f: Field): string {
    Quoted(f.key) + ":" + ValueText(f.value)
  }

  function FieldsText(fields: seq<Field>): string {
    if fields == [] then "" else ("," + MemberText(fields[0])) + FieldsText(fields[1..])
  }

  function LocationText(entry: LogEntry): string {
    ",\"file\":" + Quoted(entry.file) + ",\"line\":" + Decimal(entry.line) + ",\"target\":" + Quoted(entry.target)
  }

  function HeadText(entry: LogEntry): string {
    "{\"ts\":\"" + Timestamps.Display(entry.timestamp) + "\",\"level\":\"" + Name(entry.level) + "\",\"msg\":"
    + Quoted(entry.message)
  }

  /** The line that `write_record` appends. */
  function RecordText(entry: LogEntry, includeLocation: bool): string {
    HeadText(entry) + (if includeLocation then LocationText(entry) else "") + FieldsText(entry.fields) + "}" + "\n"
  }

  // ---------- the code, in place ----------

  /** A growing `String`. */
  class TextBuffer {
    var text: string

    constructor ()
      ensures text == ""
    {
      text := "";
    }

    method Push(s: string)
      modifies this
      ensures text == old(text) + s
    {
      text := text + s;
    }
  }

  /** A growing `Vec<u8>`. */
  class ByteBuffer {
    var bytes: Bytes

    constructor ()
      ensures bytes == []
    {
      bytes := [];
    }
  }

  lemma {:induction false} EscapedSnoc(s: string, c: char)
    ensures Escaped(s + [c]) == Escaped(s) + EscapeChar(c)
  {
    if s == "" {
      assert [c][1..] == "";
    } else {
      assert (s + [c])[1..] == s[1..] + [c];
      EscapedSnoc(s[1..], c);
    }
  }

  /** The body of the loop over the characters. */
  method PushEscaped(out: TextBuffer, ch: char)
    modifies out
    ensures out.text == old(out.text) + EscapeChar(ch)
  {
    match ch {
      case '"' => out.Push("\\\"");
      case '\\' => out.Push("\\\\");
      case '\n' => out.Push("\\n");
      case '\r' => out.Push("\\r");
      case '\t' => out.Push("\\t");
      case '\U{0008}' => out.Push("\\b");
      case '\U{000C}' => out.Push("\\f");
      case c =>
        if IsControl(c) {
          out.Push(['\\', 'u', '0', '0', HEX[c as int / 16], HEX[c as int % 16]]);
        } else {
          out.Push([c]);
        }
    }
  }

  method PushString(out: TextBuffer, value: string)
    modifies out
    ensures out.text == old(out.text) + Quoted(value)
  {
    out.Push("\"");
    ghost var start := out.text;
    var i := 0;
    while i < |value|
      invariant 0 <= i <= |value|
      invariant out.text == start + Escaped(value[..i])
    {
      assert value[..i + 1] == value[..i] + [value[i]];
      EscapedSnoc(value[..i], value[i]);
      ConcatAssociates(start, Escaped(value[..i]), EscapeChar(value[i]));
      PushEscaped(out, value[i]);
      i := i + 1;
    }
    assert value[..i] == value;
    out.Push("\"");
    ConcatAssociates(old(out.text), "\"", Escaped(value));
    ConcatAssociates(old(out.text), "\"" + Escaped(value), "\"");
  }

  method PushValue(out: TextBuffer, value: FieldValue)
    modifies out
    ensures out.text == old(out.text) + ValueText(value)
  {
    match value {
      case Str(s) => PushString(out, s);
      case Int(i) => out.Push(SignedDecimal(i));
      case Number(f) =>
        if f.Finite? {
          out.Push(FloatText(f));
        } else {
          out.Push("null");
        }
      case Bool(b) => out.Push(if b then "true" else "false");
      case Null => out.Push("null");
    }
  }

  lemma {:induction false} FieldsTextSnoc(fields: seq<Field>, f: Field)
    ensures FieldsText(fields + [f]) == FieldsText(fields) + ("," + MemberText(f))
  {
    if fields == [] {
      assert [f][1..] == [];
    } else {
      assert (fields + [f])[1..] == fields[1..] + [f];
      FieldsTextSnoc(fields[1..], f);
    }
  }

  lemma Associate3(t: string, a: string, b: string, c: string)
    ensures ((t + a) + b) + c == t + ((a + b) + c)
  {
  }

  lemma Associate6(t: string, a: string, b: string, c: string, d: string, e: string, f: string)
    ensures (((((t + a) + b) + c) + d) + e) + f == t + (((((a + b) + c) + d) + e) + f)
  {
    Associate3(t, a, b, c);
    Associate3(t, (a + b) + c, d, e);
    ConcatAssociates(t, (((a + b) + c) + d) + e, f);
  }

  /** The body of the loop over the fields. */
  method PushField(out: TextBuffer, field: Field)
    modifies out
    ensures out.text == old(out.text) + ("," + MemberText(field))
  {
    out.Push(",");
    PushString(out, field.key);
    out.Push(":");
    PushValue(out, field.value);
    Associate3(old(out.text) + ",", Quoted(field.key), ":", ValueText(field.value));
    ConcatAssociates(old(out.text), ",", MemberText(field));
  }

  lemma FieldsTextNext(fields: seq<Field>, i: nat, start: string)
    requires i < |fields|
    ensures start + FieldsText(fields[..i + 1]) == (start + FieldsText(fields[..i])) + ("," + MemberText(fields[i]))
  {
    assert fields[..i + 1] == fields[..i] + [fields[i]];
    FieldsTextSnoc(fields[..i], fields[i]);
    ConcatAssociates(start, FieldsText(fields[..i]), "," + MemberText(fields[i]));
  }

  method PushFields(out: TextBuffer, fields: seq<Field>)
    modifies out
    ensures out.text == old(out.text) + FieldsText(fields)
  {
    ghost var start := out.text;
    assert start + "" == start;
    var i := 0;
    while i < |fields|
      invariant 0 <= i <= |fields|
      invariant out.text == start + FieldsText(fields[..i])
    {
      FieldsTextNext(fields, i, start);
      PushField(out, fields[i]);
      i := i + 1;
    }
    assert fields[..i] == fields;
  }

  method PushLocation(out: TextBuffer, entry: LogEntry)
    modifies out
    ensures out.text == old(out.text) + LocationText(entry)
  {
    out.Push(",\"file\":");
    PushString(out, entry.file);
    out.Push(",\"line\":");
    out.Push(Decimal(entry.line));
    out.Push(",\"target\":");
    PushString(out, entry.target);
    Associate6(old(out.text), ",\"file\":", Quoted(entry.file), ",\"line\":", Decimal(entry.line), ",\"target\":",
               Quoted(entry.target));
  }

  method PushHead(out: TextBuffer, entry: LogEntry)
    modifies out
    ensures out.text == old(out.text) + HeadText(entry)
  {
    out.Push("{\"ts\":\"");
    out.Push(Timestamps.Display(entry.timestamp));
    out.Push("\",\"level\":\"");
    out.Push(Name(entry.level));
    out.Push("\",\"msg\":");
    PushString(out, entry.message);
    Associate6(old(out.text), "{\"ts\":\"", Timestamps.Display(entry.timestamp), "\",\"level\":\"", Name(entry.level),
               "\",\"msg\":", Quoted(entry.message));
  }

  method PushBody(out: TextBuffer, entry: LogEntry, includeLocation: bool)
    modifies out
    ensures out.text == old(out.text) + HeadText(entry) + (if includeLocation then LocationText(entry) else "")
                        + FieldsText(entry.fields)
  {
    PushHead(out, entry);
    ghost var start := out.text;
    if includeLocation {
      PushLocation(out, entry);
    } else {
      assert start + "" == start;
    }
    PushFields(out, entry.fields);
  }

  method PushEnd(out: TextBuffer)
    modifies out
    ensures out.text == (old(out.text) + "}") + "\n"
  {
    out.Push("}");
    out.Push("\n");
  }

  /** The line of a record, in a buffer of its own. */
  method RenderRecord(entry: LogEntry, includeLocation: bool) returns (line: TextBuffer)
    ensures fresh(line) && line.text == RecordText(entry, includeLocation)
  {
    line := new TextBuffer();
    PushBody(line, entry, includeLocation);
    assert "" + HeadText(entry) == HeadText(entry);
    PushEnd(line);
  }

  method WriteRecord(entry: LogEntry, includeLocation: bool, out: ByteBuffer)
    modifies out
    ensures out.bytes == old(out.bytes) + Encode(RecordText(entry, includeLocation))
  {
    var line := RenderRecord(entry, includeLocation);
    out.bytes := out.bytes + Encode(line.text);
  }
}
