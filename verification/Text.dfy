/** Decimal numerals and the order of strings: what Rust's formatting macros print. */
module Text {

  const DIGITS: string := "0123456789"

  function DigitChar(n: int): char
    requires 0 <= n < 10
  {
    DIGITS[n]
  }

  predicate IsDigit(c: char) {
    '0' <= c <= '9'
  }

  predicate AllDigits(s: string) {
    forall i :: 0 <= i < |s| ==> IsDigit(s[i])
  }

  /** `{}` of an unsigned number. */
  function Decimal(n: nat): (s: string)
    ensures |s| > 0 && AllDigits(s)
    ensures s[0] == '0' ==> n == 0 && s == "0"
  {
    if n < 10 then [DigitChar(n)] else Decimal(n / 10) + [DigitChar(n % 10)]
  }

  /** `{}` of a signed number. */
  function SignedDecimal(n: int): string {
    if n < 0 then "-" + Decimal(-n) else Decimal(n)
  }

  function Repeat(c: char, n: int): (s: string)
    ensures |s| == if n < 0 then 0 else n
    ensures forall i :: 0 <= i < |s| ==> s[i] == c
  {
    if n <= 0 then "" else Repeat(c, n - 1) + [c]
  }

  /** `{:0w}` of an unsigned number. */
  function ZeroPad(n: nat, w: int): string {
    Repeat('0', w - |Decimal(n)|) + Decimal(n)
  }

  /** `{:0w}` of a signed number: the sign comes first and counts toward the width. */
  function SignedZeroPad(n: int, w: int): string {
    if n < 0 then "-" + ZeroPad(-n, w - 1) else ZeroPad(n, w)
  }

  /** Value of a digit string. */
  function DigitsValue(s: string): nat
    requires AllDigits(s)
  {
    if s == "" then 0 else 10 * DigitsValue(s[..|s| - 1]) + (s[|s| - 1] as int - '0' as int)
  }

  lemma {:induction false} DecimalValue(n: nat)
    ensures DigitsValue(Decimal(n)) == n
  {
    if n >= 10 {
      DecimalValue(n / 10);
      assert Decimal(n)[..|Decimal(n)| - 1] == Decimal(n / 10);
    } else {
      assert Decimal(n)[..0] == "";
    }
  }

  function Pow10(w: nat): nat {
    if w == 0 then 1 else 10 * Pow10(w - 1)
  }

  /** Exactly `w` digits. */
  function Fixed(n: nat, w: nat): (s: string)
    ensures |s| == w && AllDigits(s)
  {
    if w == 0 then "" else Fixed(n / 10, w - 1) + [DigitChar(n % 10)]
  }

  lemma {:induction false} DigitsBelow(s: string)
    requires AllDigits(s)
    ensures DigitsValue(s) < Pow10(|s|)
  {
    if s != "" {
      DigitsBelow(s[..|s| - 1]);
    }
  }

  lemma {:induction false} FixedValue(n: nat, w: nat)
    requires n < Pow10(w)
    ensures DigitsValue(Fixed(n, w)) == n
  {
    if w > 0 {
      FixedValue(n / 10, w - 1);
      assert Fixed(n, w)[..w - 1] == Fixed(n / 10, w - 1);
    }
  }

  lemma {:induction false} FixedZero(w: nat)
    ensures Fixed(0, w) == Repeat('0', w)
  {
    if w > 0 {
      FixedZero(w - 1);
    }
  }

  /** A number that has at most `w` digits prints as exactly `w` of them. */
  lemma {:induction false} ZeroPadFixed(n: nat, w: nat)
    requires w > 0 && n < Pow10(w)
    ensures ZeroPad(n, w) == Fixed(n, w)
  {
    if n < 10 {
      assert n / 10 == 0 && n % 10 == n;
      FixedZero(w - 1);
    } else {
      ZeroPadFixed(n / 10, w - 1);
      assert Decimal(n) == Decimal(n / 10) + [DigitChar(n % 10)];
      var pad := Repeat('0', w - |Decimal(n)|);
      assert (pad + Decimal(n / 10)) + [DigitChar(n % 10)] == pad + (Decimal(n / 10) + [DigitChar(n % 10)]);
    }
  }

  // ---------- lexicographic order ----------

  predicate StrLess(a: string, b: string) {
    |b| > 0 && (|a| == 0 || a[0] < b[0] || (a[0] == b[0] && StrLess(a[1..], b[1..])))
  }

  lemma {:induction false} StrLessIrreflexive(a: string)
    ensures !StrLess(a, a)
  {
    if |a| > 0 {
      StrLessIrreflexive(a[1..]);
    }
  }

  /** Blocks of equal length are compared one after the other. */
  lemma {:induction false} StrLessBlocks(a: string, b: string, c: string, d: string)
    requires |a| == |b|
    ensures StrLess(a + c, b + d) <==> StrLess(a, b) || (a == b && StrLess(c, d))
  {
    if |a| == 0 {
      assert a + c == c && b + d == d;
    } else {
      assert (a + c)[1..] == a[1..] + c && (b + d)[1..] == b[1..] + d;
      assert (a + c)[0] == a[0] && (b + d)[0] == b[0];
      StrLessBlocks(a[1..], b[1..], c, d);
      assert a == [a[0]] + a[1..] && b == [b[0]] + b[1..];
    }
  }

  lemma DigitOrder(m: int, n: int)
    requires 0 <= m < 10 && 0 <= n < 10
    ensures StrLess([DigitChar(m)], [DigitChar(n)]) <==> m < n
    ensures DigitChar(m) == DigitChar(n) <==> m == n
  {
    assert [DigitChar(m)][1..] == "" && [DigitChar(n)][1..] == "";
  }

  lemma SnocEqual(a: string, b: string, x: char, y: char)
    ensures a + [x] == b + [y] <==> a == b && x == y
  {
    if a + [x] == b + [y] {
      assert (a + [x])[..|a|] == a && (b + [y])[..|b|] == b;
      assert (a + [x])[|a|] == x && (b + [y])[|b|] == y;
    }
  }

  /** Numerals of one width sort as the numbers do. */
  lemma {:induction false} FixedOrder(m: nat, n: nat, w: nat)
    requires m < Pow10(w) && n < Pow10(w)
    ensures StrLess(Fixed(m, w), Fixed(n, w)) <==> m < n
    ensures Fixed(m, w) == Fixed(n, w) <==> m == n
  {
    if w > 0 {
      FixedOrder(m / 10, n / 10, w - 1);
      var a, b := Fixed(m / 10, w - 1), Fixed(n / 10, w - 1);
      DigitOrder(m % 10, n % 10);
      StrLessBlocks(a, b, [DigitChar(m % 10)], [DigitChar(n % 10)]);
      SnocEqual(a, b, DigitChar(m % 10), DigitChar(n % 10));
    }
  }
}
