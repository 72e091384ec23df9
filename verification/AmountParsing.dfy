/**
 * `parsePayrollAmount`: a digit-string parser with rounding and carry.
 *
 * `ParseSpec` says with integer arithmetic what the parser returns; the method
 * `ParsePayrollAmount` cuts, pads and carries digit strings as the source does.
 */
module AmountParsing {
  import opened Prelude
  import opened Digits
  import opened Text
  import opened Assets

  const MAX_SAFE_INTEGER: nat := 9007199254740991
  const CURRENCY: set<char> := {'$', '\U{20AC}', '\U{00A3}', '\U{00A5}', ','}

  datatype ParseError =
    | EmptyInput | InvalidFormat | NegativeValue | ZeroValue | BelowMinimum | ExceedsMaximum | Overflow

  datatype AmountBounds = AmountBounds(min: Option<int>, max: Option<int>)

  datatype ParseOptions = ParseOptions(bounds: Option<AmountBounds>, rounding: Option<RoundingMode>)

  datatype ParsedAmount = ParsedAmount(amount: nat, decimals: nat, wasRounded: bool)

  function SanitizeInput(input: string, symbol: string): string {
    Trim(RemoveChars(RemoveFirst(input, symbol), CURRENCY))
  }

  // ----- the accepted shape -----

  /** First alternative of the pattern: digits, an optional point, then at least one digit. */
  ghost predicate PointThenDigits(s: string) {
    exists i, k ::
      0 <= i <= k <= |s| && AllDigits(s[..i]) && (k == i || (k == i + 1 && s[i] == '.')) && k < |s| && AllDigits(s[k..])
  }

  /** Second alternative: at least one digit, an optional point, then digits. */
  ghost predicate DigitsThenPoint(s: string) {
    exists i, k ::
      0 < i <= k <= |s| && AllDigits(s[..i]) && (k == i || (k == i + 1 && s[i] == '.')) && AllDigits(s[k..])
  }

  predicate UnsignedNumeric(s: string) {
    var dot := IndexOf(s, '.');
    if dot == |s| then s != "" && AllDigits(s)
    else |s| > 1 && AllDigits(s[..dot]) && AllDigits(s[dot + 1..])
  }

  predicate Numeric(s: string) {
    UnsignedNumeric(if s != "" && s[0] == '-' then s[1..] else s)
  }

  /** The shape test accepts exactly the two alternatives of the regular expression. */
  lemma {:induction false} NumericIsThePattern(s: string)
    ensures UnsignedNumeric(s) <==> PointThenDigits(s) || DigitsThenPoint(s)
  {
    if UnsignedNumeric(s) {
      var dot := IndexOf(s, '.');
      var i, k := if dot == |s| then 0 else dot, if dot == |s| then 0 else dot + 1;
      assert s[0..] == s;
      assert AllDigits(s[..i]) && AllDigits(s[k..]);
    }
    if PointThenDigits(s) {
      var i, k :| 0 <= i <= k <= |s| && AllDigits(s[..i]) && (k == i || (k == i + 1 && s[i] == '.')) &&
                  k < |s| && AllDigits(s[k..]);
      PointSplit(s, i, k);
    }
    if DigitsThenPoint(s) {
      var i, k :| 0 < i <= k <= |s| && AllDigits(s[..i]) && (k == i || (k == i + 1 && s[i] == '.')) &&
                  AllDigits(s[k..]);
      PointSplit(s, i, k);
    }
  }

  lemma {:induction false} PointSplit(s: string, i: nat, k: nat)
    requires i <= k <= |s| && AllDigits(s[..i]) && AllDigits(s[k..]) && (k < |s| || 0 < i)
    requires k == i || (k == i + 1 && s[i] == '.')
    ensures UnsignedNumeric(s)
  {
    assert s == s[..i] + s[i..];
    if k == i {
      IndexOfAfterFree(s, "", '.');
      assert s + "" == s;
    } else {
      IndexOfAfterFree(s[..i], s[i..], '.');
    }
  }

  /** Whole and fractional digits of an accepted, unsigned text. */
  function WholePart(s: string): (w: string)
    requires UnsignedNumeric(s)
    ensures w != "" && AllDigits(w)
  {
    var dot := IndexOf(s, '.');
    if dot == |s| then s else if dot == 0 then "0" else s[..dot]
  }

  function FracPart(s: string): (f: string)
    requires UnsignedNumeric(s)
    ensures AllDigits(f)
  {
    var dot := IndexOf(s, '.');
    if dot == |s| then "" else s[dot + 1..]
  }

  // ----- the exact value and its roundings -----

  /** `W.F` denotes `Numerator(W, F) / 10^|F|`. */
  function Numerator(w: string, f: string): nat
    requires AllDigits(w) && AllDigits(f)
  {
    Val(w + f)
  }

  /** floor(W.F * 10^d). */
  function FloorScaled(w: string, f: string, d: nat): nat
    requires AllDigits(w) && AllDigits(f)
  {
    Quot(Mul(Numerator(w, f), Pow10(d)), Pow10(|f|))
  }

  /** floor(W.F * 10^d + 1/2). */
  function HalfUpScaled(w: string, f: string, d: nat): nat
    requires AllDigits(w) && AllDigits(f)
  {
    Quot(2 * Mul(Numerator(w, f), Pow10(d)) + Pow10(|f|), 2 * Pow10(|f|))
  }

  /** The least integer not below W.F * 10^d. */
  function CeilScaled(w: string, f: string, d: nat): nat
    requires AllDigits(w) && AllDigits(f)
  {
    Quot(Mul(Numerator(w, f), Pow10(d)) + Pow10(|f|) - 1, Pow10(|f|))
  }

  /** Whether the parser adds a unit, judged from the first digit beyond the precision. */
  predicate RoundsUp(f: string, d: nat, mode: RoundingMode) {
    |f| > d && ((mode == HalfUp && f[d] >= '5') || (mode == Ceil && f[d] > '0'))
  }

  /**
   * What the parser returns. At zero decimals the carry digit is counted twice:
   * once carried into the whole part, once kept as the fraction.
   */
  function AmountOf(w: string, f: string, d: nat, mode: RoundingMode): nat
    requires AllDigits(w) && AllDigits(f)
  {
    FloorScaled(w, f, d) + (if !RoundsUp(f, d, mode) then 0 else if d == 0 then 2 else 1)
  }

  /** The whole part after the carry. */
  function CarriedWhole(w: string, f: string, d: nat, mode: RoundingMode): nat
    requires AllDigits(w) && AllDigits(f)
  {
    Quot(FloorScaled(w, f, d) + (if RoundsUp(f, d, mode) then 1 else 0), Pow10(d))
  }

  function CheckBounds(amount: nat, bounds: Option<AmountBounds>): Option<ParseError> {
    if bounds.None? then None
    else if bounds.value.min.Some? && amount < bounds.value.min.value then Some(BelowMinimum)
    else if bounds.value.max.Some? && amount > bounds.value.max.value then Some(ExceedsMaximum)
    else None
  }

  function ParseParts(w: string, f: string, d: nat, mode: RoundingMode, bounds: Option<AmountBounds>)
    : Result<ParsedAmount, ParseError>
    requires AllDigits(w) && AllDigits(f)
  {
    if w == "0" && AllZeros(f) then Err(ZeroValue)
    else if CarriedWhole(w, f, d, mode) > MAX_SAFE_INTEGER then Err(Overflow)
    else
      var amount := AmountOf(w, f, d, mode);
      match CheckBounds(amount, bounds)
      case Some(e) => Err(e)
      case None => Ok(ParsedAmount(amount, d, |f| > d))
  }

  function ParseCleaned(s: string, d: nat, mode: RoundingMode, bounds: Option<AmountBounds>)
    : Result<ParsedAmount, ParseError>
  {
    if s == "" then Err(EmptyInput)
    else if !Numeric(s) then Err(InvalidFormat)
    else if s[0] == '-' then Err(NegativeValue)
    else ParseParts(WholePart(s), FracPart(s), d, mode, bounds)
  }

  function ModeOf(options: ParseOptions): RoundingMode {
    if options.rounding.Some? then options.rounding.value else HalfUp
  }

  function ParseSpec(input: string, asset: AssetMetadata, options: ParseOptions): Result<ParsedAmount, ParseError> {
    ParseCleaned(SanitizeInput(input, asset.symbol), asset.decimals, ModeOf(options), options.bounds)
  }

  // ----- the digit-string code -----

  /** `applyRounding`: the cut fraction as a number, plus one unit when the mode asks for it. */
  function ApplyRounding(excessDigit: nat, currentFrac: string, decimals: nat, mode: RoundingMode): nat
    requires AllDigits(PadEnd(currentFrac, decimals))
  {
    var fracBigInt := Val(PadEnd(currentFrac, decimals));
    match mode
    case Truncate => fracBigInt
    case HalfUp => if excessDigit >= 5 then fracBigInt + 1 else fracBigInt
    case Ceil => if excessDigit > 0 then fracBigInt + 1 else fracBigInt
    case Floor => fracBigInt
  }

  /** `text.slice(-n)`: `-0` is 0, so nothing is cut off when `n` is 0. */
  function SliceLast(s: string, n: nat): string {
    if n == 0 || |s| <= n then s else s[|s| - n..]
  }

  method ParsePayrollAmount(cache: ScaleCache, input: string, asset: AssetMetadata, options: ParseOptions)
    returns (r: Result<ParsedAmount, ParseError>)
    requires cache.Valid()
    modifies cache
    ensures cache.Valid()
    ensures r == ParseSpec(input, asset, options)
  {
    var cleaned := SanitizeInput(input, asset.symbol);
    r := ParseCleanedText(cache, cleaned, asset.decimals, ModeOf(options), options.bounds);
  }

  method ParseCleanedText(cache: ScaleCache, cleaned: string, decimals: nat, rounding: RoundingMode,
                          bounds: Option<AmountBounds>)
    returns (r: Result<ParsedAmount, ParseError>)
    requires cache.Valid()
    modifies cache
    ensures cache.Valid()
    ensures r == ParseCleaned(cleaned, decimals, rounding, bounds)
  {
    if |cleaned| == 0 {
      return Err(EmptyInput);
    }
    if !Numeric(cleaned) {
      return Err(InvalidFormat);
    }
    if cleaned[0] == '-' {
      return Err(NegativeValue);
    }

    var dotIndex := IndexOf(cleaned, '.');
    var wholePart, fracPart;
    if dotIndex == |cleaned| {
      wholePart, fracPart := cleaned, "";
    } else {
      wholePart := if dotIndex == 0 then "0" else cleaned[..dotIndex];
      fracPart := cleaned[dotIndex + 1..];
    }
    r := ScaleParts(cache, wholePart, fracPart, decimals, rounding, bounds);
  }

  /** Steps 5 to 8: zero check, rounding with carry, overflow check and bounds. */
  method ScaleParts(cache: ScaleCache, w: string, f: string, decimals: nat, rounding: RoundingMode,
                    bounds: Option<AmountBounds>)
    returns (r: Result<ParsedAmount, ParseError>)
    requires cache.Valid() && AllDigits(w) && AllDigits(f)
    modifies cache
    ensures cache.Valid()
    ensures r == ParseParts(w, f, decimals, rounding, bounds)
  {
    if w == "0" && AllZeros(f) {
      return Err(ZeroValue);
    }
    var wholePart, fracPart, wasRounded := FitFraction(cache, w, f, decimals, rounding);
    var scale := cache.GetScale(decimals);
    if Val(wholePart) > MAX_SAFE_INTEGER {
      return Err(Overflow);
    }
    var finalAmount := Mul(Val(wholePart), scale) + Val(fracPart);
    match CheckBounds(finalAmount, bounds) {
      case Some(e) => return Err(e);
      case None => return Ok(ParsedAmount(finalAmount, decimals, wasRounded));
    }
  }

  /** The rounding step: cut or pad the fraction to `decimals` digits, carrying into the whole part. */
  method FitFraction(cache: ScaleCache, w: string, f: string, decimals: nat, rounding: RoundingMode)
    returns (wholePart: string, fracPart: string, wasRounded: bool)
    requires cache.Valid() && AllDigits(w) && AllDigits(f)
    modifies cache
    ensures cache.Valid()
    ensures AllDigits(wholePart) && AllDigits(fracPart)
    ensures Mul(Val(wholePart), Pow10(decimals)) + Val(fracPart) == AmountOf(w, f, decimals, rounding)
    ensures Val(wholePart) == CarriedWhole(w, f, decimals, rounding)
    ensures wasRounded <==> |f| > decimals
  {
    wholePart, fracPart, wasRounded := w, f, false;
    if |fracPart| > decimals {
      wasRounded := true;
      var excessDigit := DigitOf(fracPart[decimals]);
      fracPart := fracPart[..decimals];
      var adjustedFrac := ApplyRounding(excessDigit, fracPart, decimals, rounding);
      assert adjustedFrac == Adjusted(f, decimals, rounding);
      var scale := cache.GetScale(decimals);
      if adjustedFrac >= scale {
        CarriedParts(w, f, decimals, rounding);
        wholePart := NatText(Val(wholePart) + 1);
        fracPart := SliceLast(PadStart(NatText(adjustedFrac), decimals), decimals);
      } else {
        UncarriedParts(w, f, decimals, rounding);
        fracPart := PadStart(NatText(adjustedFrac), decimals);
      }
    } else {
      PaddedParts(w, f, decimals, rounding);
      fracPart := PadEnd(fracPart, decimals);
    }
  }

  // ----- why the digit strings meet the arithmetic -----

  /** Cutting the fraction after `d` digits takes the floor. */
  lemma {:induction false} CutValue(w: string, f: string, d: nat)
    requires AllDigits(w) && AllDigits(f) && |f| > d
    ensures FloorScaled(w, f, d) == Mul(Val(w), Pow10(d)) + Val(f[..d])
    ensures Numerator(w, f) == Mul(FloorScaled(w, f, d), Pow10(|f| - d)) + Val(f[d..])
    ensures Val(f[d..]) < Pow10(|f| - d)
  {
    var g, h := f[..d], f[d..];
    assert f == g + h && w + f == (w + g) + h;
    ValConcat(w + g, h);
    ValConcat(w, g);
    ValBound(h);
    Pow10Add(d, |h|);
    ScaleDown(Numerator(w, f), Val(w + g), Val(h), Pow10(d), Pow10(|h|), Pow10(|f|));
  }

  /** Padding a short fraction is exact. */
  lemma {:induction false} PaddedValue(w: string, f: string, d: nat)
    requires AllDigits(w) && AllDigits(f) && |f| <= d
    ensures FloorScaled(w, f, d) == Mul(Val(w), Pow10(d)) + Mul(Val(f), Pow10(d - |f|))
    ensures Mul(FloorScaled(w, f, d), Pow10(|f|)) == Mul(Numerator(w, f), Pow10(d))
  {
    ValConcat(w, f);
    Pow10Add(|f|, d - |f|);
    var p, q := Pow10(|f|), Pow10(d - |f|);
    ScaleUp(Numerator(w, f), p, q, Pow10(d));
    Distribute(Val(w), p, Val(f), q);
  }

  lemma {:induction false} Distribute(a: nat, p: nat, b: nat, q: nat)
    ensures Mul(Mul(a, p) + b, q) == Mul(a, p * q) + Mul(b, q)
  {
  }

  lemma {:induction false} PowerText(d: nat)
    ensures NatText(Pow10(d)) == "1" + Zeros(d)
  {
    if d > 0 {
      PowerText(d - 1);
      assert NatText(Pow10(d)) == NatText(Pow10(d - 1)) + "0";
      assert Zeros(d) == Zeros(d - 1) + "0";
    }
  }

  /** The digits kept after a carry: all zeros, except that nothing is cut at zero decimals. */
  lemma {:induction false} CarryDigits(d: nat)
    ensures var kept := SliceLast(PadStart(NatText(Pow10(d)), d), d);
            AllDigits(kept) && Val(kept) == if d == 0 then 1 else 0
  {
    PowerText(d);
    if d == 0 {
      ValNatText(1);
      assert NatText(1) == "1";
    } else {
      assert ("1" + Zeros(d))[1..] == Zeros(d);
      ValZeroIffAllZeros(Zeros(d));
    }
  }

  /** Whole part and fraction read off an amount. */
  lemma {:induction false} SplitAmount(amount: nat, scale: nat, whole: nat, frac: nat)
    requires scale > 0 && amount == Mul(whole, scale) + frac && frac < scale
    ensures Quot(amount, scale) == whole
  {
    DivUnique(amount, scale, whole);
  }

  lemma {:induction false} MulSucc(a: nat, p: nat)
    ensures Mul(a + 1, p) == Mul(a, p) + p
  {
  }

  function Adjusted(f: string, d: nat, mode: RoundingMode): (r: nat)
    requires AllDigits(f) && |f| > d
    ensures r == Val(f[..d]) + if RoundsUp(f, d, mode) then 1 else 0
  {
    ApplyRounding(DigitOf(f[d]), f[..d], d, mode)
  }

  lemma {:induction false} UncarriedArithmetic(w: string, f: string, d: nat, mode: RoundingMode)
    requires AllDigits(w) && AllDigits(f) && |f| > d && Adjusted(f, d, mode) < Pow10(d)
    ensures AmountOf(w, f, d, mode) == Mul(Val(w), Pow10(d)) + Adjusted(f, d, mode)
    ensures CarriedWhole(w, f, d, mode) == Val(w)
  {
    assert Pow10(0) == 1;
    hide Mul, Quot, Pow10, Val, FloorScaled, Numerator, ApplyRounding;
    CutValue(w, f, d);
    SplitAmount(FloorScaled(w, f, d) + (if RoundsUp(f, d, mode) then 1 else 0), Pow10(d), Val(w), Adjusted(f, d, mode));
  }

  lemma {:induction false} UncarriedParts(w: string, f: string, d: nat, mode: RoundingMode)
    requires AllDigits(w) && AllDigits(f) && |f| > d && Adjusted(f, d, mode) < Pow10(d)
    ensures var frac := PadStart(NatText(Adjusted(f, d, mode)), d);
            && AllDigits(frac)
            && Mul(Val(w), Pow10(d)) + Val(frac) == AmountOf(w, f, d, mode)
            && CarriedWhole(w, f, d, mode) == Val(w)
  {
    hide Mul, Pow10, Val, AmountOf, CarriedWhole, Adjusted, PadStart, NatText;
    UncarriedArithmetic(w, f, d, mode);
    PadStartVal(NatText(Adjusted(f, d, mode)), d);
    ValNatText(Adjusted(f, d, mode));
  }

  lemma {:induction false} CarriedParts(w: string, f: string, d: nat, mode: RoundingMode)
    requires AllDigits(w) && AllDigits(f) && |f| > d && Adjusted(f, d, mode) >= Pow10(d)
    ensures var whole := NatText(Val(w) + 1);
            var frac := SliceLast(PadStart(NatText(Adjusted(f, d, mode)), d), d);
            && AllDigits(frac)
            && Mul(Val(whole), Pow10(d)) + Val(frac) == AmountOf(w, f, d, mode)
            && CarriedWhole(w, f, d, mode) == Val(whole)
  {
    hide Mul, Quot, Pow10, Val, FloorScaled, Numerator, ApplyRounding, PadStart, SliceLast;
    CarriedArithmetic(w, f, d, mode);
    CarryDigits(d);
    ValNatText(Val(w) + 1);
  }

  lemma {:induction false} CarriedArithmetic(w: string, f: string, d: nat, mode: RoundingMode)
    requires AllDigits(w) && AllDigits(f) && |f| > d && Adjusted(f, d, mode) >= Pow10(d)
    ensures RoundsUp(f, d, mode) && Adjusted(f, d, mode) == Pow10(d)
    ensures FloorScaled(w, f, d) + 1 == Mul(Val(w) + 1, Pow10(d))
    ensures CarriedWhole(w, f, d, mode) == Val(w) + 1
  {
    hide Mul, Quot, Pow10, Val, FloorScaled, Numerator, ApplyRounding;
    CutValue(w, f, d);
    ValBound(f[..d]);
    CarryPlain(FloorScaled(w, f, d), Val(w), Val(f[..d]), Pow10(d));
  }

  lemma {:induction false} CarryPlain(amount: nat, whole: nat, frac: nat, p: nat)
    requires p > 0 && amount == Mul(whole, p) + frac && frac + 1 == p
    ensures amount + 1 == Mul(whole + 1, p)
    ensures Quot(amount + 1, p) == whole + 1
  {
    MulSucc(whole, p);
    SplitAmount(amount + 1, p, whole + 1, 0);
  }

  lemma {:induction false} PaddedParts(w: string, f: string, d: nat, mode: RoundingMode)
    requires AllDigits(w) && AllDigits(f) && |f| <= d
    ensures var frac := PadEnd(f, d);
            && AllDigits(frac)
            && Mul(Val(w), Pow10(d)) + Val(frac) == AmountOf(w, f, d, mode)
            && CarriedWhole(w, f, d, mode) == Val(w)
  {
    assert |PadEnd(f, d)| == d && Mul(Val(f), Pow10(d - |f|)) == Val(f) * Pow10(d - |f|);
    hide Mul, Quot, Pow10, Val, FloorScaled, Numerator, PadEnd;
    PaddedValue(w, f, d);
    PadEndVal(f, d);
    ValBound(PadEnd(f, d));
    SplitAmount(FloorScaled(w, f, d), Pow10(d), Val(w), Val(PadEnd(f, d)));
  }
}
