/** The string operations of Rust's standard library that the filter parser relies on. */
module Strings {

  /** The Unicode `White_Space` property. */
  predicate IsWhitespace(c: char) {
    var n := c as int;
    || 9 <= n <= 13 || n == 0x20 || n == 0x85 || n == 0xA0 || n == 0x1680
    || 0x2000 <= n <= 0x200A || n == 0x2028 || n == 0x2029 || n == 0x202F || n == 0x205F || n == 0x3000
  }

  function TrimStart(s: string): string {
    if s != "" && IsWhitespace(s[0]) then TrimStart(s[1..]) else s
  }

  function TrimEnd(s: string): string {
    if s != "" && IsWhitespace(s[|s| - 1]) then TrimEnd(s[..|s| - 1]) else s
  }

  function Trim(s: string): string {
    TrimEnd(TrimStart(s))
  }

  function AsciiLowerChar(c: char): char {
    if 'A' <= c <= 'Z' then (c as int + 32) as char else c
  }

  function AsciiLower(s: string): (t: string)
    ensures |t| == |s|
  {
    if s == "" then "" else [AsciiLowerChar(s[0])] + AsciiLower(s[1..])
  }

  /** The pieces between the separators: always at least one, possibly empty. */
  function Split(s: string, sep: char): (pieces: seq<string>)
    ensures |pieces| > 0
    ensures sep !in s ==> pieces == [s]
  {
    if s == "" then [""]
    else
      var rest := Split(s[1..], sep);
      assert [s[0]] + s[1..] == s;
      if s[0] == sep then [""] + rest
      else [[s[0]] + rest[0]] + rest[1..]
  }

  function Join(pieces: seq<string>, sep: char): string {
    if pieces == [] then ""
    else if |pieces| == 1 then pieces[0]
    else pieces[0] + [sep] + Join(pieces[1..], sep)
  }

  lemma SplitNext(c: char, rest: string, sep: char)
    ensures Split([c] + rest, sep)
         == if c == sep then [""] + Split(rest, sep) else [[c] + Split(rest, sep)[0]] + Split(rest, sep)[1..]
  {
    assert ([c] + rest)[1..] == rest;
  }

  lemma FirstOfConcat(p: seq<string>, q: seq<string>, c: char)
    requires |p| > 0
    ensures [[c] + (p + q)[0]] + (p + q)[1..] == ([[c] + p[0]] + p[1..]) + q
    ensures [""] + (p + q) == ([""] + p) + q
  {
  }

  /** Splitting at a separator that stands between two strings splits both. */
  lemma {:induction false} SplitConcat(a: string, b: string, sep: char)
    ensures Split(a + [sep] + b, sep) == Split(a, sep) + Split(b, sep)
  {
    if a == "" {
      assert a + [sep] + b == [sep] + b;
      SplitNext(sep, b, sep);
    } else {
      var rest := a[1..] + [sep] + b;
      assert a + [sep] + b == [a[0]] + rest && [a[0]] + a[1..] == a;
      SplitConcat(a[1..], b, sep);
      SplitNext(a[0], rest, sep);
      SplitNext(a[0], a[1..], sep);
      FirstOfConcat(Split(a[1..], sep), Split(b, sep), a[0]);
    }
  }

  /** Text without separators survives joining and splitting. */
  lemma {:induction false} SplitJoin(pieces: seq<string>, sep: char)
    requires pieces != []
    requires forall i :: 0 <= i < |pieces| ==> sep !in pieces[i]
    ensures Split(Join(pieces, sep), sep) == pieces
  {
    if |pieces| > 1 {
      SplitJoin(pieces[1..], sep);
      SplitConcat(pieces[0], Join(pieces[1..], sep), sep);
    }
  }

  predicate StartsWith(s: string, prefix: string) {
    |prefix| <= |s| && s[..|prefix|] == prefix
  }

  /** Neither end is white space, so trimming changes nothing. */
  lemma TrimFixed(s: string)
    requires s == "" || (!IsWhitespace(s[0]) && !IsWhitespace(s[|s| - 1]))
    ensures Trim(s) == s
  {
  }

  predicate AllWhite(s: string) {
    forall i :: 0 <= i < |s| ==> IsWhitespace(s[i])
  }

  predicate Unpadded(s: string) {
    s == "" || (!IsWhitespace(s[0]) && !IsWhitespace(s[|s| - 1]))
  }

  lemma {:induction false} TrimStartPadding(white: string, s: string)
    requires AllWhite(white) && (s == "" || !IsWhitespace(s[0]))
    ensures TrimStart(white + s) == s
  {
    if white == "" {
      assert white + s == s;
    } else {
      assert (white + s)[1..] == white[1..] + s;
      TrimStartPadding(white[1..], s);
    }
  }

  lemma {:induction false} TrimEndPadding(s: string, white: string)
    requires AllWhite(white) && (s == "" || !IsWhitespace(s[|s| - 1]))
    ensures TrimEnd(s + white) == s
  {
    if white == "" {
      assert s + white == s;
    } else {
      var n := |white| - 1;
      assert (s + white)[..|s + white| - 1] == s + white[..n];
      TrimEndPadding(s, white[..n]);
    }
  }

  /** Trimming removes the white space around a text, and nothing else. */
  lemma TrimPadding(before: string, s: string, after: string)
    requires AllWhite(before) && AllWhite(after) && Unpadded(s)
    ensures Trim(before + s + after) == s
  {
    if s == "" {
      assert before + s + after == before + after + "";
      TrimStartPadding(before + after, "");
    } else {
      assert before + s + after == before + (s + after);
      TrimStartPadding(before, s + after);
      TrimEndPadding(s, after);
    }
  }
}
