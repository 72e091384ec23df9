/** Rescaling of bigint amounts between decimal precisions, and printing. */
module AmountRounding {
  import opened Prelude
  import opened Digits
  import opened Assets
  import opened AmountParsing

  const MAX_SUPPORTED_DECIMALS := 18

  datatype AmountError = InvalidDecimals | NotParsed(error: ParseError)

  datatype RoundedAmount = RoundedAmount(amount: int, targetDecimals: nat, wasRounded: bool, originalAmount: int,
                                         sourceDecimals: nat)

  /** bigint `/`: rounds toward zero. */
  function TDiv(a: int, b: nat): int
    requires b > 0
  {
    if a >= 0 then a / b else -((-a) / b)
  }

  /** bigint `%`: takes the sign of the dividend. */
  function TRem(a: int, b: nat): int
    requires b > 0
  {
    if a >= 0 then a % b else -((-a) % b)
  }

  predicate ValidDecimals(d: int) {
    0 <= d <= MAX_SUPPORTED_DECIMALS
  }

  /** Division by a power of ten with the selected rounding. */
  function RoundQuotient(amount: int, divisor: nat, mode: RoundingMode): int
    requires divisor > 0
  {
    var quotient, remainder := TDiv(amount, divisor), TRem(amount, divisor);
    match mode
    case Truncate => quotient
    case HalfUp => quotient + if remainder >= divisor / 2 then 1 else 0
    case Ceil => quotient + if remainder > 0 then 1 else 0
    case Floor => quotient
  }

  function RoundAmount(amount: int, source: int, target: int, mode: RoundingMode): Result<RoundedAmount, AmountError> {
    if !ValidDecimals(source) || !ValidDecimals(target) then Err(InvalidDecimals)
    else if source == target then Ok(RoundedAmount(amount, target, false, amount, source))
    else if target > source then
      Ok(RoundedAmount(amount * Pow10(target - source), target, false, amount, source))
    else
      var divisor := Pow10(source - target);
      Ok(RoundedAmount(RoundQuotient(amount, divisor, mode), target, TRem(amount, divisor) != 0, amount, source))
  }

  function CanRepresentExactly(amount: int, source: int, target: int): Result<bool, AmountError> {
    if !ValidDecimals(source) || !ValidDecimals(target) then Err(InvalidDecimals)
    else if target >= source then Ok(true)
    else Ok(TRem(amount, Pow10(source - target)) == 0)
  }

  function RoundParsedAmount(text: string, source: AssetMetadata, target: AssetMetadata, rounding: Option<RoundingMode>)
    : Result<RoundedAmount, AmountError>
  {
    match ParseSpec(text, source, ParseOptions(None, rounding))
    case Err(e) => Err(NotParsed(e))
    case Ok(parsed) =>
      RoundAmount(parsed.amount, source.decimals, target.decimals, if rounding.Some? then rounding.value else HalfUp)
  }

  /** `formatRoundedAmount` at the precision the rounded amount carries. */
  function FormatRoundedAmount(amount: int, targetDecimals: nat, symbol: string): Result<string, AmountError> {
    if !ValidDecimals(targetDecimals) then Err(InvalidDecimals)
    else
      var scale := Pow10(targetDecimals);
      var whole, frac := TDiv(amount, scale), TRem(amount, scale);
      if frac == 0 then Ok(IntText(whole) + " " + symbol)
      else Ok(IntText(whole) + "." + StripTrailingZeros(PadStart(IntText(frac), targetDecimals)) + " " + symbol)
  }

  /** `formatDebugAmount` of the parsing module, written separately there. */
  function FormatDebugAmount(amount: int, decimals: nat, symbol: string): string {
    var scale := Pow10(decimals);
    var whole, frac := TDiv(amount, scale), TRem(amount, scale);
    var fracStr := StripTrailingZeros(PadStart(IntText(frac), decimals));
    if |fracStr| == 0 then IntText(whole) + " " + symbol
    else IntText(whole) + "." + fracStr + " " + symbol
  }

  // ----- what each mode computes, for amounts of either sign -----

  lemma {:induction false} TDivTRem(a: int, b: nat)
    requires b > 0
    ensures a == TDiv(a, b) * b + TRem(a, b)
    ensures TRem(a, b) == 0 <==> a % b == 0
    ensures a >= 0 ==> 0 <= TRem(a, b) < b
    ensures a < 0 ==> 0 <= -TRem(a, b) < b
  {
    if a < 0 {
      var m, k := -a, (-a) / b;
      assert m == k * b + m % b;
      assert (-k) * b == -(k * b);
      if m % b == 0 {
        FloorUnique(a, b, -k);
      } else {
        assert (-k - 1) * b == -(k * b) - b;
        FloorUnique(a, b, -k - 1);
        assert a % b == a - (a / b) * b;
      }
    }
  }

  lemma {:induction false} FloorUnique(a: int, b: nat, q: int)
    requires b > 0 && q * b <= a < q * b + b
    ensures a / b == q && a % b == a - q * b
  {
    assert (q + 1) * b == q * b + b;
    DivUnique(a, b, q);
    assert a == (a / b) * b + a % b;
  }

  /** CEIL is the mathematical ceiling, also below zero. */
  lemma {:induction false} CeilIsCeiling(a: int, b: nat)
    requires b > 0
    ensures RoundQuotient(a, b, Ceil) == -((-a) / b)
  {
    TDivTRem(a, b);
    if a >= 0 {
      var q, r := TDiv(a, b), TRem(a, b);
      var c := if r > 0 then q + 1 else q;
      assert (-c) * b == -(c * b) && (q + 1) * b == q * b + b;
      FloorUnique(-a, b, -c);
    }
  }

  /** FLOOR is the floor exactly on non-negative amounts and on multiples. */
  lemma {:induction false} FloorIsFloor(a: int, b: nat)
    requires b > 0
    ensures RoundQuotient(a, b, Floor) == a / b <==> a >= 0 || a % b == 0
  {
    TDivTRem(a, b);
    if a < 0 {
      var q, r := TDiv(a, b), TRem(a, b);
      if r == 0 {
        FloorUnique(a, b, q);
      } else {
        assert (q - 1) * b == q * b - b;
        FloorUnique(a, b, q - 1);
      }
    }
  }

  /** Half away from zero, as the documentation of HALF_UP describes it. */
  function HalfAway(a: int, b: nat): int
    requires b > 0
  {
    if a >= 0 then (2 * a + b) / (2 * b) else -((2 * (-a) + b) / (2 * b))
  }

  lemma {:induction false} HalfAwayNat(m: nat, b: nat)
    requires b > 0
    ensures HalfAway(m, b) == m / b + if 2 * (m % b) >= b then 1 else 0
  {
    assert m == (m / b) * b + m % b;
    HalfUpPlain(m, m / b, m % b, b);
  }

  /** HALF_UP rounds half away from zero exactly on non-negative amounts and on small negative remainders. */
  lemma {:induction false} HalfUpIsHalfAway(a: int, b: nat)
    requires b > 0 && b % 2 == 0
    ensures RoundQuotient(a, b, HalfUp) == HalfAway(a, b) <==> a >= 0 || 2 * ((-a) % b) < b
  {
    HalfAwayNat(if a >= 0 then a else -a, b);
    TDivTRem(a, b);
  }

  // ----- laws of `roundAmount` -----

  lemma {:induction false} PowerEven(d: nat)
    requires d >= 1
    ensures Pow10(d) % 2 == 0 && Pow10(d) >= 10
  {
    assert Pow10(d) == 2 * (5 * Pow10(d - 1));
  }

  /** Modes with no bias toward a half compose across an intermediate precision. */
  lemma {:induction false} QuotientsCompose(a: int, p: nat, q: nat, mode: RoundingMode)
    requires p > 0 && q > 0 && mode != HalfUp
    ensures p * q > 0
    ensures RoundQuotient(RoundQuotient(a, p, mode), q, mode) == RoundQuotient(a, p * q, mode)
  {
    assert p * q > 0;
    if mode == Ceil {
      CeilIsCeiling(a, p);
      CeilIsCeiling(-((-a) / p), q);
      CeilIsCeiling(a, p * q);
      DivDiv(-a, p, q);
    } else if a >= 0 {
      DivDiv(a, p, q);
      QuotientSign(a, p);
    } else {
      DivDiv(-a, p, q);
      QuotientSign(-a, p);
    }
  }

  lemma {:induction false} QuotientSign(a: int, p: nat)
    requires a >= 0 && p > 0
    ensures a / p >= 0
  {
  }

  lemma {:induction false} NatScales(a: nat, m: nat, d: nat)
    requires m > 0 && d > 0
    ensures m * d > 0 && (a * m) / (m * d) == a / d && (a * m) % (m * d) == (a % d) * m
  {
    DivCancel(a, d, m);
    var q, r := a / d, a % d;
    assert a == q * d + r && d * m == m * d;
    assert (q * d + r) * m == q * (m * d) + r * m;
    assert a * m == ((a * m) / (m * d)) * (m * d) + (a * m) % (m * d);
  }

  lemma {:induction false} QuotientScales(a: int, m: nat, d: nat)
    requires m > 0 && d > 0
    ensures m * d > 0 && TDiv(a * m, m * d) == TDiv(a, d) && TRem(a * m, m * d) == TRem(a, d) * m
  {
    SignScales(a, m);
    if a >= 0 {
      NatScales(a, m, d);
    } else {
      NatScales(-a, m, d);
      assert (-a) * m == -(a * m);
      assert ((-a) % d) * m == -((-((-a) % d)) * m);
    }
  }

  /** Scaling up by `m` and down by `m * d` is scaling down by `d`, in every mode. */
  lemma {:induction false} UpThenFurtherDown(a: int, m: nat, d: nat, mode: RoundingMode)
    requires m > 0 && d > 0 && d % 2 == 0
    ensures m * d > 0 && RoundQuotient(a * m, m * d, mode) == RoundQuotient(a, d, mode)
    ensures TRem(a * m, m * d) == 0 <==> TRem(a, d) == 0
  {
    QuotientScales(a, m, d);
    HalfScales(TRem(a, d), d, m);
    SignScales(TRem(a, d), m);
  }

  /** Scaling up and back down is the identity, in every mode. */
  lemma {:induction false} UpThenBackDown(a: int, m: nat, mode: RoundingMode)
    requires m > 1
    ensures RoundQuotient(a * m, m, mode) == a && TRem(a * m, m) == 0
  {
    QuotientScales(a, m, 1);
    assert m * 1 == m;
  }

  lemma {:induction false} SignScales(r: int, m: nat)
    requires m > 0
    ensures r * m > 0 <==> r > 0
    ensures r * m == 0 <==> r == 0
  {
    if r > 0 {
      MulMonotone(1, r, m);
    } else if r < 0 {
      MulMonotone(1, -r, m);
      assert (-r) * m == -(r * m);
    }
  }

  lemma {:induction false} HalfScales(r: int, d: nat, m: nat)
    requires d % 2 == 0 && m > 0
    ensures r * m >= (m * d) / 2 <==> r >= d / 2
  {
    var h := d / 2;
    assert m * d == 2 * (h * m);
    if r >= h {
      MulMonotone(h, r, m);
    } else {
      MulMonotone(r + 1, h, m);
      assert (r + 1) * m == r * m + m;
    }
  }

  lemma {:induction false} MulAssoc(x: int, p: nat, q: nat)
    ensures x * (p * q) == (x * p) * q
  {
  }

  lemma {:induction false} ViaHigher(x: int, a: int, b: int, c: int, mode: RoundingMode)
    requires ValidDecimals(a) && ValidDecimals(b) && ValidDecimals(c) && a < b && c < b
    ensures RoundAmount(RoundAmount(x, a, b, mode).value.amount, b, c, mode).value.amount
            == RoundAmount(x, a, c, mode).value.amount
  {
    if c < a {
      Pow10Add(b - a, a - c);
      PowerEven(a - c);
      UpThenFurtherDown(x, Pow10(b - a), Pow10(a - c), mode);
    } else {
      Pow10Add(c - a, b - c);
      PowerEven(b - c);
      UpThenBackDown(x * Pow10(c - a), Pow10(b - c), mode);
      MulAssoc(x, Pow10(c - a), Pow10(b - c));
    }
  }

  /** Rounding through a precision that keeps enough digits changes nothing. */
  lemma {:induction false} RoundViaIntermediate(x: int, a: int, b: int, c: int, mode: RoundingMode)
    requires ValidDecimals(a) && ValidDecimals(b) && ValidDecimals(c)
    requires b >= a || b >= c
    requires mode != HalfUp || b >= a || b == c
    ensures RoundAmount(RoundAmount(x, a, b, mode).value.amount, b, c, mode).value.amount
            == RoundAmount(x, a, c, mode).value.amount
  {
    if a < b && b < c {
      Pow10Add(b - a, c - b);
      MulAssoc(x, Pow10(b - a), Pow10(c - b));
    } else if a < b && c < b {
      ViaHigher(x, a, b, c, mode);
    } else if a > b && b > c {
      Pow10Add(a - b, b - c);
      QuotientsCompose(x, Pow10(a - b), Pow10(b - c), mode);
    }
  }

  /** Raising the precision and lowering it again returns the amount unrounded, whatever the modes. */
  lemma {:induction false} UpThenDownIsIdentity(x: int, s: int, t: int, up: RoundingMode, down: RoundingMode)
    requires ValidDecimals(s) && ValidDecimals(t) && t >= s
    ensures var r := RoundAmount(RoundAmount(x, s, t, up).value.amount, t, s, down).value;
            r.amount == x && !r.wasRounded
  {
    if t > s {
      PowerEven(t - s);
      UpThenBackDown(x, Pow10(t - s), down);
    }
  }

  /** Three ways to say that no digit is lost. */
  lemma {:induction false} ExactnessIsOneThing(x: int, s: int, t: int, mode: RoundingMode)
    requires ValidDecimals(s) && ValidDecimals(t)
    ensures var r := RoundAmount(x, s, t, mode).value;
            && (!r.wasRounded <==> CanRepresentExactly(x, s, t) == Ok(true))
            && (!r.wasRounded <==> RoundAmount(r.amount, t, s, mode).value.amount == x)
  {
    if s > t {
      var d := Pow10(s - t);
      TDivTRem(x, d);
      PowerEven(s - t);
      var r := RoundAmount(x, s, t, mode).value;
      assert RoundAmount(r.amount, t, s, mode).value.amount == r.amount * d;
      if TRem(x, d) != 0 {
        NotAMultiple(x, d, r.amount);
      }
    } else if t > s {
      UpThenDownIsIdentity(x, s, t, mode, mode);
    }
  }

  lemma {:induction false} NotAMultiple(x: int, d: nat, q: int)
    requires d > 0 && TRem(x, d) != 0
    ensures q * d != x
  {
    TDivTRem(x, d);
    if q * d == x {
      FloorUnique(x, d, q);
    }
  }

  /** The rounded amount of a non-negative input, bracketed by the mode. */
  lemma {:induction false} RoundedBracket(x: int, s: int, t: int, mode: RoundingMode)
    requires ValidDecimals(s) && ValidDecimals(t) && s > t && x >= 0
    ensures var d, r := Pow10(s - t), RoundAmount(x, s, t, mode).value.amount;
            match mode
            case HalfUp => 2 * (r * d - x) <= d && 2 * (x - r * d) < d
            case Ceil => 0 <= r * d - x < d
            case _ => 0 <= x - r * d < d
  {
    var d := Pow10(s - t);
    PowerEven(s - t);
    TDivTRem(x, d);
    assert (TDiv(x, d) + 1) * d == TDiv(x, d) * d + d;
  }

  /**
   * The whole result, for every amount and every two precisions: precisions outside 0 to 18 are refused, more digits
   * scale up exactly, fewer digits divide in the selected mode, and the flag says whether a digit was lost.
   */
  lemma {:induction false} RoundAmountExactly(x: int, s: int, t: int, mode: RoundingMode)
    ensures var r := RoundAmount(x, s, t, mode);
            && (r.Err? <==> !(0 <= s <= 18) || !(0 <= t <= 18))
            && (r.Err? ==> r.error == InvalidDecimals && CanRepresentExactly(x, s, t) == Err(InvalidDecimals))
            && (r.Ok? ==>
                  && r.value.targetDecimals == t && r.value.sourceDecimals == s && r.value.originalAmount == x
                  && (t >= s ==> r.value.amount == x * Pow10(t - s) && !r.value.wasRounded)
                  && (t < s ==>
                        var d, y := Pow10(s - t), r.value.amount;
                        && (r.value.wasRounded <==> x % d != 0)
                        && (mode in {Truncate, Floor} ==> y == if x >= 0 then x / d else -((-x) / d))
                        && (mode == Ceil ==> y == -((-x) / d))
                        && (mode == HalfUp && (x >= 0 || 2 * ((-x) % d) < d) ==> y == HalfAway(x, d))
                        && (mode == HalfUp && x < 0 && 2 * ((-x) % d) >= d ==> y == HalfAway(x, d) + 1)))
  {
    if RoundAmount(x, s, t, mode).Ok? && t < s {
      var d := Pow10(s - t);
      PowerEven(s - t);
      TDivTRem(x, d);
      CeilIsCeiling(x, d);
      HalfUpIsHalfAway(x, d);
      HalfAwayNat(if x >= 0 then x else -x, d);
    }
  }

  /** An absent mode is HALF_UP, when parsing and when rescaling what was parsed. */
  lemma {:induction false} DefaultIsHalfUp(text: string, source: AssetMetadata, target: AssetMetadata)
    ensures RoundParsedAmount(text, source, target, None) == RoundParsedAmount(text, source, target, Some(HalfUp))
    ensures ParseSpec(text, source, ParseOptions(None, None)) == ParseSpec(text, source, ParseOptions(None, Some(HalfUp)))
  {
    hide ParseCleaned, SanitizeInput, RoundAmount;
  }

  /** Rounding a text parses it at the source precision and rescales the result in the same mode. */
  lemma {:induction false} RoundParsedExactly(text: string, source: AssetMetadata, target: AssetMetadata,
                                              mode: RoundingMode)
    ensures var parsed, r := ParseSpec(text, source, ParseOptions(None, Some(mode))), RoundParsedAmount(text, source, target, Some(mode));
            if parsed.Err? then r == Err(NotParsed(parsed.error))
            else r == RoundAmount(parsed.value.amount, source.decimals, target.decimals, mode)
  {
    hide ParseCleaned, SanitizeInput, RoundAmount;
  }

  /** HALF_UP through two precisions agrees with HALF_UP in one step except just below the half. */
  lemma {:induction false} HalfUpTwice(x: int, p: nat, q: nat)
    requires x >= 0 && p > 0 && q > 0 && p % 2 == 0 && q % 2 == 0
    ensures p * q > 0
    ensures RoundQuotient(RoundQuotient(x, p, HalfUp), q, HalfUp) == RoundQuotient(x, p * q, HalfUp) <==>
            !((p * q) / 2 - p / 2 <= x % (p * q) < (p * q) / 2)
  {
    var p', q' := p / 2, q / 2;
    TwiceTheHalf(p, q);
    HalfUpTwiceByShift(x, p, q);
    HalfUpByShift(x, p * q);
    MulMonotone(1, q', p);
    ShiftedQuotient(x, p * q, q' * p, p');
  }

  lemma {:induction false} TwiceTheHalf(p: nat, q: nat)
    requires q % 2 == 0 && p > 0 && q > 0
    ensures p * q == 2 * ((q / 2) * p) > 0
  {
    var q' := q / 2;
    assert q == 2 * q' && q' >= 1;
    MulMonotone(1, q', p);
    assert p * (2 * q') == 2 * (q' * p);
  }

  lemma {:induction false} HalfUpTwiceByShift(x: int, p: nat, q: nat)
    requires x >= 0 && p > 0 && q > 0 && p % 2 == 0 && q % 2 == 0
    ensures p * q > 0
    ensures RoundQuotient(RoundQuotient(x, p, HalfUp), q, HalfUp) == (x + p / 2 + (q / 2) * p) / (p * q)
  {
    HalfUpByShift(x, p);
    HalfUpByShift((x + p / 2) / p, q);
    AddMultiple(x + p / 2, p, q / 2);
    DivDiv(x + p / 2 + (q / 2) * p, p, q);
  }

  lemma {:induction false} AddMultiple(n: int, p: nat, k: nat)
    requires p > 0
    ensures (n + k * p) / p == n / p + k
  {
    var y := n / p;
    assert n == y * p + n % p;
    assert (y + k) * p == y * p + k * p;
    FloorUnique(n + k * p, p, y + k);
  }

  lemma {:induction false} HalfUpByShift(x: int, b: nat)
    requires x >= 0 && b > 0 && b % 2 == 0
    ensures RoundQuotient(x, b, HalfUp) == (x + b / 2) / b >= 0
  {
    var q, r := x / b, x % b;
    assert x == q * b + r && (q + 1) * b == q * b + b;
    FloorUnique(x + b / 2, b, RoundQuotient(x, b, HalfUp));
  }

  lemma {:induction false} ShiftedQuotient(x: int, m: nat, h: nat, e: nat)
    requires x >= 0 && m == 2 * h && 0 < e <= h
    ensures (x + h + e) / m == (x + h) / m <==> !(h - e <= x % m < h)
  {
    var q, r := x / m, x % m;
    assert x == q * m + r && (q + 1) * m == q * m + m;
    FloorUnique(x + h, m, if r < h then q else q + 1);
    FloorUnique(x + h + e, m, if r + h + e < m then q else q + 1);
  }

  /** 0.445 rounded to two digits and then to one gives 0.5; rounded at once it gives 0.4. */
  lemma {:induction false} HalfUpDoubleRoundingExample()
    ensures RoundQuotient(RoundQuotient(445, 10, HalfUp), 10, HalfUp) == 5
    ensures RoundQuotient(445, 100, HalfUp) == 4
  {
  }
}
