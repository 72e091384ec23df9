/**
 * Decimal digit strings and the naturals they denote: the arithmetic behind
 * `BigInt(text)`, `n.toString()`, `padStart`, `padEnd` and the stripping of
 * trailing zeros.
 */
module Digits {

  function Pow10(n: nat): (r: nat)
    ensures r >= 1
  {
    if n == 0 then 1 else 10 * Pow10(n - 1)
  }

  lemma {:induction false} Pow10Add(a: nat, b: nat)
    ensures Pow10(a + b) == Pow10(a) * Pow10(b)
  {
    if a > 0 {
      Pow10Add(a - 1, b);
      assert Pow10(a + b) == 10 * Pow10(a - 1 + b);
      assert Pow10(a) * Pow10(b) == 10 * (Pow10(a - 1) * Pow10(b));
    }
  }

  predicate IsDigit(c: char) {
    '0' <= c <= '9'
  }

  predicate AllDigits(s: string) {
    forall i :: 0 <= i < |s| ==> IsDigit(s[i])
  }

  function DigitOf(c: char): (d: nat)
    requires IsDigit(c)
    ensures d <= 9
  {
    c as int - '0' as int
  }

  function DigitChar(d: nat): (c: char)
    requires d <= 9
    ensures IsDigit(c) && DigitOf(c) == d
  {
    ('0' as int + d) as char
  }

  /** The natural a digit string denotes; the empty string denotes 0, as `BigInt("")` does. */
  function Val(s: string): nat
    requires AllDigits(s)
  {
    if |s| == 0 then 0 else 10 * Val(s[..|s| - 1]) + DigitOf(s[|s| - 1])
  }

  lemma {:induction false} TenTimes(a: nat, p: nat)
    ensures a * (10 * p) == 10 * (a * p)
  {
  }

  lemma {:induction false} ValConcat(a: string, b: string)
    requires AllDigits(a) && AllDigits(b)
    ensures AllDigits(a + b)
    ensures Val(a + b) == Val(a) * Pow10(|b|) + Val(b)
    decreases |b|
  {
    if |b| == 0 {
      assert a + b == a;
    } else {
      var init, last := b[..|b| - 1], b[|b| - 1];
      ValConcat(a, init);
      assert b == init + [last] && a + b == (a + init) + [last];
      ValAppend(init, last);
      ValAppend(a + init, last);
      TenTimes(Val(a), Pow10(|init|));
    }
  }

  lemma {:induction false} ValAppend(s: string, c: char)
    requires AllDigits(s) && IsDigit(c)
    ensures AllDigits(s + [c]) && Val(s + [c]) == 10 * Val(s) + DigitOf(c)
  {
    assert (s + [c])[..|s|] == s;
  }

  lemma {:induction false} ValBound(s: string)
    requires AllDigits(s)
    ensures Val(s) < Pow10(|s|)
  {
    if |s| > 0 {
      ValBound(s[..|s| - 1]);
    }
  }

  function Zeros(n: nat): (s: string)
    ensures |s| == n && AllDigits(s)
    ensures forall i :: 0 <= i < n ==> s[i] == '0'
  {
    seq(n, _ => '0')
  }

  predicate AllZeros(s: string) {
    forall i :: 0 <= i < |s| ==> s[i] == '0'
  }

  lemma {:induction false} ValZeroIffAllZeros(s: string)
    requires AllDigits(s)
    ensures Val(s) == 0 <==> AllZeros(s)
  {
    if |s| > 0 {
      var init := s[..|s| - 1];
      ValZeroIffAllZeros(init);
      assert s == init + [s[|s| - 1]];
      if AllZeros(init) && s[|s| - 1] == '0' {
        assert AllZeros(s);
      }
    }
  }

  /** `text.padEnd(n, "0")`. */
  function PadEnd(s: string, n: nat): string {
    if |s| >= n then s else s + Zeros(n - |s|)
  }

  /** `text.padStart(n, "0")`. */
  function PadStart(s: string, n: nat): string {
    if |s| >= n then s else Zeros(n - |s|) + s
  }

  lemma {:induction false} PadStartVal(s: string, n: nat)
    requires AllDigits(s)
    ensures AllDigits(PadStart(s, n)) && Val(PadStart(s, n)) == Val(s)
  {
    if |s| < n {
      ValConcat(Zeros(n - |s|), s);
      ValZeroIffAllZeros(Zeros(n - |s|));
    }
  }

  lemma {:induction false} PadEndVal(s: string, n: nat)
    requires AllDigits(s) && |s| <= n
    ensures AllDigits(PadEnd(s, n)) && Val(PadEnd(s, n)) == Val(s) * Pow10(n - |s|)
  {
    if |s| < n {
      ValConcat(s, Zeros(n - |s|));
      ValZeroIffAllZeros(Zeros(n - |s|));
    }
  }

  /** `n.toString()` for a non-negative bigint. */
  function NatText(n: nat): (s: string)
    ensures |s| >= 1 && AllDigits(s)
  {
    if n < 10 then [DigitChar(n)] else NatText(n / 10) + [DigitChar(n % 10)]
  }

  lemma {:induction false} ValNatText(n: nat)
    ensures Val(NatText(n)) == n
  {
    if n >= 10 {
      ValNatText(n / 10);
      assert NatText(n)[..|NatText(n)| - 1] == NatText(n / 10);
    } else {
      assert NatText(n)[..0] == "";
    }
  }

  /** Printed naturals carry no leading zero, so a text as short as `k` holds every number below 10^k. */
  lemma {:induction false} NatTextLength(n: nat, k: nat)
    requires k >= 1 && n < Pow10(k)
    ensures |NatText(n)| <= k
  {
    if n >= 10 {
      NatTextLength(n / 10, k - 1);
    }
  }

  /** `text.replace(/0+$/, "")`. */
  function StripTrailingZeros(s: string): (r: string)
    ensures |r| <= |s| && r == s[..|r|]
    ensures AllZeros(s[|r|..])
    ensures |r| > 0 ==> r[|r| - 1] != '0'
  {
    if |s| > 0 && s[|s| - 1] == '0' then StripTrailingZeros(s[..|s| - 1]) else s
  }

  lemma {:induction false} StripVal(s: string)
    requires AllDigits(s)
    ensures var r := StripTrailingZeros(s);
            AllDigits(r) && Val(s) == Val(r) * Pow10(|s| - |r|)
  {
    hide StripTrailingZeros, Pow10, Val;
    var r := StripTrailingZeros(s);
    assert s == r + s[|r|..];
    ValConcat(r, s[|r|..]);
    ValZeroIffAllZeros(s[|r|..]);
  }

  /** `n.toString()` for any bigint. */
  function IntText(n: int): string {
    if n < 0 then "-" + NatText(-n) else NatText(n)
  }

  /** `BigInt(text)` on texts that `IntText` can produce. */
  function IntOf(s: string): int
    requires |s| > 0
    requires if s[0] == '-' then AllDigits(s[1..]) else AllDigits(s)
  {
    if s[0] == '-' then 0 - Val(s[1..]) else Val(s)
  }

  lemma {:induction false} IntTextRoundTrip(n: int)
    ensures |IntText(n)| > 0
    ensures if IntText(n)[0] == '-' then AllDigits(IntText(n)[1..]) else AllDigits(IntText(n))
    ensures IntOf(IntText(n)) == n
  {
    if n < 0 {
      ValNatText(-n);
      assert IntText(n)[1..] == NatText(-n);
    } else {
      ValNatText(n);
      assert IsDigit(NatText(n)[0]);
    }
  }

  // ----- division facts used when rescaling -----

  /** Products and quotients of naturals by name, so that a proof can hide the nonlinear arithmetic. */
  function Mul(a: nat, b: nat): nat {
    assert a * b >= 0 by { MulMonotone(0, a, b); }
    a * b
  }

  /** Integer division of naturals, rounding down. */
  function Quot(n: nat, d: nat): nat
    requires d > 0
  {
    n / d
  }

  /** A quotient is pinned down by its bracket. */
  lemma {:induction false} DivUnique(n: int, d: int, q: int)
    requires d > 0 && q * d <= n < (q + 1) * d
    ensures n / d == q
  {
    var k := n / d;
    assert n == k * d + n % d;
    if k < q {
      MulMonotone(k + 1, q, d);
    }
  }

  lemma {:induction false} MulMonotone(a: int, b: int, d: int)
    requires a <= b && d >= 0
    ensures a * d <= b * d
  {
    assert (b - a) * d >= 0;
    assert b * d == a * d + (b - a) * d;
  }

  /** Common factors cancel in a quotient. */
  lemma {:induction false} DivCancel(n: int, d: int, m: int)
    requires d > 0 && m > 0
    ensures d * m > 0 && (n * m) / (d * m) == n / d
  {
    var q := n / d;
    var r := n % d;
    assert n == q * d + r;
    assert d * m > 0;
    assert q * (d * m) == (q * d) * m;
    assert (q + 1) * (d * m) == (q * d) * m + d * m;
    assert n * m == (q * d) * m + r * m;
    MulMonotone(0, r, m);
    MulMonotone(r + 1, d, m);
    assert (r + 1) * m == r * m + m;
    DivUnique(n * m, d * m, q);
  }

  /** Dividing in two steps is dividing once. */
  lemma {:induction false} DivDiv(n: int, a: int, b: int)
    requires a > 0 && b > 0
    ensures a * b > 0 && (n / a) / b == n / (a * b)
  {
    var q := n / a;
    var p := q / b;
    assert n == q * a + n % a && q == p * b + q % b;
    assert a * b > 0;
    MulMonotone(p * b, q, a);
    MulMonotone(q + 1, (p + 1) * b, a);
    assert (p * b) * a == p * (a * b);
    assert (p + 1) * b * a == (p + 1) * (a * b);
    assert (q + 1) * a == q * a + a;
    DivUnique(n, a * b, p);
  }

  /** Scaling `q * b + r` over `a * b` down by `b` leaves `q`. */
  lemma {:induction false} ScaleDown(n: nat, q: nat, r: nat, a: nat, b: nat, c: nat)
    requires n == Mul(q, b) + r && r < b && a > 0 && c == a * b
    ensures c > 0 && Quot(Mul(n, a), c) == q
  {
    DivUnique(n, b, q);
    DivCancel(n, b, a);
  }

  /** Scaling up by a multiple of the denominator is exact. */
  lemma {:induction false} ScaleUp(n: nat, p: nat, m: nat, c: nat)
    requires p > 0 && c == p * m
    ensures Mul(n, c) == Mul(Mul(n, m), p)
    ensures Quot(Mul(n, c), p) == Mul(n, m)
  {
    assert n * (p * m) == (n * m) * p;
    DivUnique(n * c, p, n * m);
  }

  /** floor(n/b + 1/2), split on the remainder. */
  lemma {:induction false} HalfUpPlain(n: nat, q: nat, h: nat, b: nat)
    requires b > 0 && n == Mul(q, b) + h && h < b
    ensures (2 * n + b) / (2 * b) == if 2 * h >= b then q + 1 else q
  {
    var k := if 2 * h >= b then q + 1 else q;
    assert q * (2 * b) == 2 * (q * b);
    assert (q + 1) * (2 * b) == 2 * (q * b) + 2 * b;
    assert (q + 2) * (2 * b) == 2 * (q * b) + 4 * b;
    DivUnique(2 * n + b, 2 * b, k);
  }
}
