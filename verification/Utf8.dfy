/** UTF-8 (RFC 3629) as Rust strings use it: encoding, and decoding that replaces what is malformed. */
module Utf8 {
  import opened Basics

  const REPLACEMENT: char := '\U{FFFD}'

  function EncodedLen(c: char): (n: nat)
    ensures 1 <= n <= 4
  {
    var u := c as int;
    if u < 0x80 then 1 else if u < 0x800 then 2 else if u < 0x1_0000 then 3 else 4
  }

  /** `str::len`: the number of bytes. */
  function ByteLen(s: string): nat {
    if s == "" then 0 else EncodedLen(s[0]) + ByteLen(s[1..])
  }

  lemma {:induction false} ByteLenConcat(a: string, b: string)
    ensures ByteLen(a + b) == ByteLen(a) + ByteLen(b)
  {
    if a == "" {
      assert a + b == b;
    } else {
      assert (a + b)[1..] == a[1..] + b;
      ByteLenConcat(a[1..], b);
    }
  }

  lemma {:induction false} ByteLenAtLeast(s: string)
    ensures |s| <= ByteLen(s)
  {
    if s != "" {
      ByteLenAtLeast(s[1..]);
    }
  }

  // ---------- encoding (section 3 of RFC 3629) ----------

  function Tail(u: int): byte {
    (0x80 + u % 64) as byte
  }

  function EncodeChar(c: char): (bytes: Bytes)
    ensures |bytes| == EncodedLen(c)
  {
    var u := c as int;
    if u < 0x80 then [u as byte]
    else if u < 0x800 then [(0xC0 + u / 64) as byte, Tail(u)]
    else if u < 0x1_0000 then [(0xE0 + u / 4096) as byte, Tail(u / 64), Tail(u)]
    else [(0xF0 + u / 262144) as byte, Tail(u / 4096), Tail(u / 64), Tail(u)]
  }

  function Encode(s: string): (bytes: Bytes)
    ensures |bytes| == ByteLen(s)
  {
    if s == "" then [] else EncodeChar(s[0]) + Encode(s[1..])
  }

  lemma {:induction false} EncodeConcat(a: string, b: string)
    ensures Encode(a + b) == Encode(a) + Encode(b)
  {
    if a == "" {
      assert a + b == b;
    } else {
      assert (a + b)[1..] == a[1..] + b;
      EncodeConcat(a[1..], b);
    }
  }

  // ---------- lossy decoding ----------

  /** What stands at the front of some bytes: a character, or a maximal run that can start none. */
  datatype Chunk = Char(c: char, len: nat) | Bad(len: nat)

  function At(b: Bytes, i: nat): byte {
    if i < |b| then b[i] else 0
  }

  predicate IsTail(b: byte) {
    0x80 <= b < 0xC0
  }

  /** The second bytes that may follow a first byte of a three-byte form. */
  predicate Second3(first: byte, second: byte) {
    || (first == 0xE0 && 0xA0 <= second < 0xC0)
    || (0xE1 <= first <= 0xEC && IsTail(second))
    || (first == 0xED && 0x80 <= second < 0xA0)
    || (0xEE <= first <= 0xEF && IsTail(second))
  }

  predicate Second4(first: byte, second: byte) {
    || (first == 0xF0 && 0x90 <= second < 0xC0)
    || (0xF1 <= first <= 0xF3 && IsTail(second))
    || (first == 0xF4 && 0x80 <= second < 0x90)
  }

  function TwoBytes(b: Bytes): Chunk
    requires b != [] && 0xC2 <= b[0] < 0xE0
  {
    if IsTail(At(b, 1)) then Char((b[0] as int % 32 * 64 + At(b, 1) as int % 64) as char, 2) else Bad(1)
  }

  /** Groups of six bits put together; the bounds are those of section 4 of RFC 3629. */
  function Join3(a: int, b: int, c: int): (u: int)
    requires 0 <= a < 16 && 0 <= b < 64 && 0 <= c < 64
    requires (a == 0 ==> 32 <= b) && (a == 13 ==> b < 32)
    ensures 0x800 <= u < 0xD800 || 0xE000 <= u < 0x1_0000
  {
    a * 4096 + b * 64 + c
  }

  function Join4(a: int, b: int, c: int, d: int): (u: int)
    requires 0 <= a <= 4 && 0 <= b < 64 && 0 <= c < 64 && 0 <= d < 64
    requires (a == 0 ==> 16 <= b) && (a == 4 ==> b < 16)
    ensures 0x1_0000 <= u < 0x11_0000
  {
    a * 262144 + b * 4096 + c * 64 + d
  }

  function ThreeBytes(b: Bytes): Chunk
    requires b != [] && 0xE0 <= b[0] < 0xF0
  {
    if !Second3(b[0], At(b, 1)) then Bad(1)
    else if !IsTail(At(b, 2)) then Bad(2)
    else Char(Join3(b[0] as int % 16, At(b, 1) as int % 64, At(b, 2) as int % 64) as char, 3)
  }

  function FourBytes(b: Bytes): Chunk
    requires b != [] && 0xF0 <= b[0] < 0xF5
  {
    if !Second4(b[0], At(b, 1)) then Bad(1)
    else if !IsTail(At(b, 2)) then Bad(2)
    else if !IsTail(At(b, 3)) then Bad(3)
    else
      Char(Join4(b[0] as int % 8, At(b, 1) as int % 64, At(b, 2) as int % 64, At(b, 3) as int % 64) as char, 4)
  }

  function FirstChunk(b: Bytes): (chunk: Chunk)
    requires b != []
    ensures 1 <= chunk.len <= |b|
  {
    if b[0] < 0x80 then Char(b[0] as char, 1)
    else if 0xC2 <= b[0] < 0xE0 then TwoBytes(b)
    else if 0xE0 <= b[0] < 0xF0 then ThreeBytes(b)
    else if 0xF0 <= b[0] < 0xF5 then FourBytes(b)
    else Bad(1)
  }

  /** `String::from_utf8_lossy`: each malformed run becomes one U+FFFD. */
  function LossyDecode(b: Bytes): string
    decreases |b|
  {
    if b == [] then ""
    else
      var chunk := FirstChunk(b);
      [if chunk.Char? then chunk.c else REPLACEMENT] + LossyDecode(b[chunk.len..])
  }

  /** The character of the three-byte and four-byte forms is put together from its groups of six bits. */
  lemma Groups(u: int)
    requires 0 <= u
    ensures u == u / 64 * 64 + u % 64
    ensures u == u / 4096 * 4096 + u / 64 % 64 * 64 + u % 64
    ensures u == u / 262144 * 262144 + u / 4096 % 64 * 4096 + u / 64 % 64 * 64 + u % 64
  {
    assert u / 64 / 64 == u / 4096;
    assert u / 4096 / 64 == u / 262144;
  }

  lemma DecodeThree(c: char, rest: Bytes)
    requires EncodedLen(c) == 3
    ensures FirstChunk(EncodeChar(c) + rest) == Char(c, 3)
  {
    var u := c as int;
    Groups(u);
    var b := EncodeChar(c) + rest;
    assert b[0] == (0xE0 + u / 4096) as byte && At(b, 1) == Tail(u / 64) && At(b, 2) == Tail(u);
    ThreeFromGroups(b, u / 4096, u / 64 % 64, u % 64);
  }

  lemma ThreeFromGroups(b: Bytes, i: int, j: int, k: int)
    requires 0 <= i < 16 && 0 <= j < 64 && 0 <= k < 64
    requires (i == 0 ==> 32 <= j) && (i == 13 ==> j < 32)
    requires b != [] && b[0] == (0xE0 + i) as byte && At(b, 1) == (0x80 + j) as byte && At(b, 2) == (0x80 + k) as byte
    ensures FirstChunk(b) == Char(Join3(i, j, k) as char, 3)
  {
  }

  lemma DecodeFour(c: char, rest: Bytes)
    requires EncodedLen(c) == 4
    ensures FirstChunk(EncodeChar(c) + rest) == Char(c, 4)
  {
    var u := c as int;
    Groups(u);
    var b := EncodeChar(c) + rest;
    assert b[0] == (0xF0 + u / 262144) as byte && At(b, 1) == Tail(u / 4096) && At(b, 2) == Tail(u / 64) && At(b, 3) == Tail(u);
    FourFromGroups(b, u / 262144, u / 4096 % 64, u / 64 % 64, u % 64);
  }

  lemma FourFromGroups(b: Bytes, i: int, j: int, k: int, l: int)
    requires 0 <= i <= 4 && 0 <= j < 64 && 0 <= k < 64 && 0 <= l < 64
    requires (i == 0 ==> 16 <= j) && (i == 4 ==> j < 16)
    requires b != [] && b[0] == (0xF0 + i) as byte && At(b, 1) == (0x80 + j) as byte
    requires At(b, 2) == (0x80 + k) as byte && At(b, 3) == (0x80 + l) as byte
    ensures FirstChunk(b) == Char(Join4(i, j, k, l) as char, 4)
  {
  }

  /** The bytes of a character never mix up with what follows them. */
  lemma DecodeFirst(c: char, rest: Bytes)
    ensures FirstChunk(EncodeChar(c) + rest) == Char(c, EncodedLen(c))
  {
    var u := c as int;
    var b := EncodeChar(c) + rest;
    if u < 0x80 {
      assert b[0] == u as byte;
    } else if u < 0x800 {
      assert b[0] as int % 32 == u / 64 && At(b, 1) == Tail(u);
    } else if u < 0x1_0000 {
      DecodeThree(c, rest);
    } else {
      DecodeFour(c, rest);
    }
  }

  /** A character cut short is one malformed run. */
  lemma CutIsBad(c: char, p: nat)
    requires 0 < p < EncodedLen(c)
    ensures FirstChunk(EncodeChar(c)[..p]) == Bad(p)
  {
    Groups(c as int);
  }

  lemma DecodeStep(c: char, rest: Bytes)
    ensures LossyDecode(EncodeChar(c) + rest) == [c] + LossyDecode(rest)
  {
    var bytes := EncodeChar(c) + rest;
    DecodeFirst(c, rest);
    assert bytes[EncodedLen(c)..] == rest;
  }

  lemma {:induction false} DecodeAfter(t: string, rest: Bytes)
    ensures LossyDecode(Encode(t) + rest) == t + LossyDecode(rest)
  {
    if t == "" {
      assert Encode(t) + rest == rest;
    } else {
      DecodeAfter(t[1..], rest);
      DecodeStep(t[0], Encode(t[1..]) + rest);
      ConcatAssociates(EncodeChar(t[0]), Encode(t[1..]), rest);
      ConcatAssociates([t[0]], t[1..], LossyDecode(rest));
      assert [t[0]] + t[1..] == t;
    }
  }

  /** Decoding inverts encoding, so no two texts share an encoding. */
  lemma DecodeInverts(t: string)
    ensures LossyDecode(Encode(t)) == t
  {
    DecodeAfter(t, []);
    assert Encode(t) + [] == Encode(t);
  }

  // ---------- how long the decoded text is ----------

  /** How many malformed runs have exactly `len` bytes. */
  function BadRuns(b: Bytes, len: nat): nat
    decreases |b|
  {
    if b == [] then 0
    else
      var chunk := FirstChunk(b);
      BadRuns(b[chunk.len..], len) + if chunk == Bad(len) then 1 else 0
  }

  lemma TwoLen(b: Bytes)
    requires b != [] && 0xC2 <= b[0] < 0xE0 && FirstChunk(b).Char?
    ensures FirstChunk(b).len == 2 && 0x80 <= FirstChunk(b).c as int < 0x800
  {
  }

  lemma ThreeLen(b: Bytes)
    requires b != [] && 0xE0 <= b[0] < 0xF0 && FirstChunk(b).Char?
    ensures FirstChunk(b).len == 3 && 0x800 <= FirstChunk(b).c as int < 0x1_0000
  {
  }

  lemma FourLen(b: Bytes)
    requires b != [] && 0xF0 <= b[0] < 0xF5 && FirstChunk(b).Char?
    ensures FirstChunk(b).len == 4 && 0x1_0000 <= FirstChunk(b).c as int
  {
  }

  /** A malformed run has at most three bytes, and a character takes the bytes it came from. */
  lemma ChunkLen(b: Bytes)
    requires b != []
    ensures var chunk := FirstChunk(b);
            if chunk.Char? then EncodedLen(chunk.c) == chunk.len else chunk.len <= 3
  {
    if FirstChunk(b).Char? && b[0] >= 0x80 {
      if b[0] < 0xE0 {
        TwoLen(b);
      } else if b[0] < 0xF0 {
        ThreeLen(b);
      } else {
        FourLen(b);
      }
    }
  }

  /** Decoding keeps the bytes of characters and turns each malformed run into the three bytes of U+FFFD. */
  lemma {:induction false} DecodedLength(b: Bytes)
    ensures ByteLen(LossyDecode(b)) == |b| + 2 * BadRuns(b, 1) + BadRuns(b, 2)
    ensures BadRuns(b, 1) + 2 * BadRuns(b, 2) <= |b|
    decreases |b|
  {
    if b != [] {
      var chunk := FirstChunk(b);
      var c := if chunk.Char? then chunk.c else REPLACEMENT;
      ChunkLen(b);
      DecodedLength(b[chunk.len..]);
      ByteLenSnoc(c, LossyDecode(b[chunk.len..]));
    }
  }

  lemma ByteLenSnoc(c: char, rest: string)
    ensures ByteLen([c] + rest) == EncodedLen(c) + ByteLen(rest)
  {
    assert ([c] + rest)[1..] == rest;
  }

  /** Bytes that can start nothing are runs of one byte each. */
  lemma {:induction false} AllBad(b: Bytes)
    requires forall i :: 0 <= i < |b| ==> b[i] == 0xFF
    ensures BadRuns(b, 1) == |b| && BadRuns(b, 2) == 0
    decreases |b|
  {
    if b != [] {
      assert FirstChunk(b) == Bad(1);
      AllBad(b[1..]);
    }
  }

  // ---------- truncation ----------

  /** How many whole characters fit in `n` bytes. */
  function Fitting(t: string, n: nat): (k: nat)
    ensures k <= |t|
  {
    if t == "" || EncodedLen(t[0]) > n then 0 else 1 + Fitting(t[1..], n - EncodedLen(t[0]))
  }

  lemma {:induction false} FittingIsLongest(t: string, n: nat)
    ensures var k := Fitting(t, n);
            ByteLen(t[..k]) <= n && (k < |t| ==> n < ByteLen(t[..k + 1]))
  {
    if t != "" && EncodedLen(t[0]) <= n {
      var n' := n - EncodedLen(t[0]);
      var k := Fitting(t[1..], n');
      FittingIsLongest(t[1..], n');
      assert t[..k + 1][1..] == t[1..][..k];
      if k < |t[1..]| {
        assert t[..k + 2][1..] == t[1..][..k + 1];
      }
    }
  }

  /** Bytes of the last, incomplete character when `t` is cut after `n` bytes. */
  function PartialBytes(t: string, n: nat): (p: int) {
    n - ByteLen(t[..Fitting(t, n)])
  }

  lemma CutStep(t: string, k: nat)
    requires t != "" && k < |t|
    ensures ByteLen(t[..k + 1]) == EncodedLen(t[0]) + ByteLen(t[1..][..k])
    ensures Encode(t[..k + 1]) == EncodeChar(t[0]) + Encode(t[1..][..k])
  {
    assert t[..k + 1][1..] == t[1..][..k];
  }

  lemma CutConcat(a: Bytes, b: Bytes, n: nat)
    requires |a| <= n <= |a| + |b|
    ensures (a + b)[..n] == a + b[..n - |a|]
  {
  }

  /** The bytes kept are `k` whole characters and `p` bytes of the next one. */
  predicate IsCut(t: string, bytes: Bytes, k: nat, p: int) {
    && 0 <= p <= 3 && k <= |t|
    && (p > 0 ==> k < |t| && p < EncodedLen(t[k]))
    && bytes == Encode(t[..k]) + if p > 0 then EncodeChar(t[k])[..p] else []
  }

  lemma CutGrows(t: string, bytes: Bytes, k: nat, p: int)
    requires t != "" && IsCut(t[1..], bytes, k, p)
    ensures IsCut(t, EncodeChar(t[0]) + bytes, k + 1, p)
  {
    CutStep(t, k);
    var first, kept := EncodeChar(t[0]), Encode(t[1..][..k]);
    var cut: Bytes := if p > 0 then EncodeChar(t[k + 1])[..p] else [];
    assert first + (kept + cut) == (first + kept) + cut;
  }

  lemma EncodeCut(t: string, n: nat)
    requires t != "" && EncodedLen(t[0]) <= n <= ByteLen(t)
    ensures Encode(t)[..n] == EncodeChar(t[0]) + Encode(t[1..])[..n - EncodedLen(t[0])]
  {
    CutConcat(EncodeChar(t[0]), Encode(t[1..]), n);
  }

  lemma CutPartial(t: string, n: nat)
    requires t != "" && EncodedLen(t[0]) <= n
    ensures var m := n - EncodedLen(t[0]);
            PartialBytes(t, n) == PartialBytes(t[1..], m) && Fitting(t, n) == Fitting(t[1..], m) + 1
  {
    CutStep(t, Fitting(t[1..], n - EncodedLen(t[0])));
  }

  lemma CutInFirst(t: string, n: nat)
    requires t != "" && n < EncodedLen(t[0])
    ensures IsCut(t, Encode(t)[..n], Fitting(t, n), PartialBytes(t, n))
  {
    assert t[..0] == "";
    assert (EncodeChar(t[0]) + Encode(t[1..]))[..n] == EncodeChar(t[0])[..n];
    assert [] + EncodeChar(t[0])[..n] == EncodeChar(t[0])[..n];
  }

  lemma {:induction false} CutEncoding(t: string, n: nat)
    requires n <= ByteLen(t)
    ensures IsCut(t, Encode(t)[..n], Fitting(t, n), PartialBytes(t, n))
  {
    if t != "" {
      if EncodedLen(t[0]) <= n {
        var m := n - EncodedLen(t[0]);
        CutEncoding(t[1..], m);
        CutGrows(t, Encode(t[1..])[..m], Fitting(t[1..], m), PartialBytes(t[1..], m));
        CutPartial(t, n);
        EncodeCut(t, n);
      } else {
        CutInFirst(t, n);
      }
    }
  }

  /** A text cut after `n` bytes decodes to the longest prefix of whole characters that fits, and one
  U+FFFD if the cut falls inside a character. */
  lemma TruncatedDecode(t: string, n: nat)
    requires n <= ByteLen(t)
    ensures LossyDecode(Encode(t)[..n])
         == t[..Fitting(t, n)] + if PartialBytes(t, n) > 0 then [REPLACEMENT] else []
  {
    CutEncoding(t, n);
    var k, p := Fitting(t, n), PartialBytes(t, n);
    if p > 0 {
      var cut := EncodeChar(t[k])[..p];
      CutIsBad(t[k], p);
      DecodeAfter(t[..k], cut);
      assert cut[p..] == [];
      assert LossyDecode(cut) == [REPLACEMENT];
    } else {
      DecodeAfter(t[..k], []);
    }
  }
}
