/** The second parser (`parseAmount`), printing and parsing back, and the agreement of the separately written routes. */
module AmountRoutes {
  import opened Prelude
  import opened Digits
  import opened Text
  import opened Assets
  import opened AmountParsing
  import opened AmountLaws
  import opened AmountRounding

  // ----- `parseAmount` -----

  /**
   * The platform's `Number(text)` test and `BigInt(text)` conversion, of which only the decimal part is fixed, and the
   * removal of a symbol read as a regular expression, which throws when the symbol is not one.
   */
  datatype NumberSyntax =
    NumberSyntax(isNumber: string -> bool, toBigInt: string -> Option<int>, removePattern: (string, string) -> Option<string>)
  {
    ghost predicate Standard() {
      && (forall s :: UnsignedNumeric(s) ==> isNumber(s) && isNumber("-" + s))
      && (forall s :: AllDigits(s) ==> toBigInt(s) == Some(Val(s)))
      && (forall s :: AllDigits(s) && s != "" ==> toBigInt("-" + s) == Some(0 - Val(s)))
      && toBigInt("-") == None
      && (forall input, symbol :: PlainSymbol(symbol) ==> removePattern(input, symbol) == Some(RemoveFirst(input, symbol)))
    }

    /** The cleaned text of `parseAmount`. */
    function Clean(input: string, symbol: string): Option<string> {
      match removePattern(input, symbol)
      case None => None
      case Some(text) => Some(Trim(RemoveChars(text, CURRENCY)))
    }
  }

  datatype ParseAmountError = BadPattern | CannotParse | NotABigInt

  /** Characters that a regular expression does not take literally. */
  predicate PlainSymbol(symbol: string) {
    forall i :: 0 <= i < |symbol| ==>
      symbol[i] !in {'.', '*', '+', '?', '^', '$', '{', '}', '(', ')', '|', '[', ']', '\\'}
  }

  function FitDigits(frac: string, decimals: nat): string {
    if |frac| > decimals then frac[..decimals] else PadEnd(frac, decimals)
  }

  function Scaled(n: int, decimals: nat): int {
    n * Pow10(decimals)
  }

  /** `parseAmount` on the cleaned text. */
  function ParseAmountText(cleaned: string, decimals: nat, strict: bool, syntax: NumberSyntax)
    : Result<int, ParseAmountError>
  {
    if cleaned == "" || !syntax.isNumber(cleaned) then if strict then Ok(0) else Err(CannotParse)
    else
      var dot := IndexOf(cleaned, '.');
      if dot == |cleaned| then
        match syntax.toBigInt(cleaned)
        case Some(n) => Ok(Scaled(n, decimals))
        case None => Err(NotABigInt)
      else
        match (syntax.toBigInt(if dot == 0 then "0" else cleaned[..dot]),
               syntax.toBigInt(FitDigits(cleaned[dot + 1..], decimals)))
        case (Some(whole), Some(frac)) => Ok(Scaled(whole, decimals) + frac)
        case (_, _) => Err(NotABigInt)
  }

  function ParseAmountSpec(input: string, asset: AssetMetadata, strict: bool,
                           syntax: NumberSyntax): Result<int, ParseAmountError> {
    match syntax.Clean(input, asset.symbol)
    case None => Err(BadPattern)
    case Some(cleaned) => ParseAmountText(cleaned, asset.decimals, strict, syntax)
  }

  /** For a symbol without special characters both parsers clean alike. */
  lemma {:induction false} PlainSymbolsCleanAlike(input: string, symbol: string, syntax: NumberSyntax)
    requires syntax.Standard() && PlainSymbol(symbol)
    ensures syntax.Clean(input, symbol) == Some(SanitizeInput(input, symbol))
  {
  }

  /** What the second parser answers where there is no amount: a strict caller gets zero for a text that is no number. */
  lemma {:induction false} ParseAmountRefuses(input: string, asset: AssetMetadata, strict: bool, syntax: NumberSyntax)
    ensures var r, removed := ParseAmountSpec(input, asset, strict, syntax), syntax.removePattern(input, asset.symbol);
            && (r == Err(BadPattern) <==> removed.None?)
            && (removed.Some? ==>
                  var s := Trim(RemoveChars(removed.value, CURRENCY));
                  var blank := s == "" || !syntax.isNumber(s);
                  && (r == Err(CannotParse) <==> blank && !strict)
                  && (blank && strict ==> r == Ok(0))
                  && (r == Err(NotABigInt) <==>
                        && !blank
                        && if Free(s, '.') then syntax.toBigInt(s).None?
                           else syntax.toBigInt(if s[0] == '.' then "0" else s[..IndexOf(s, '.')]).None?
                                || syntax.toBigInt(FitDigits(s[IndexOf(s, '.') + 1..], asset.decimals)).None?))
  {
    hide Trim, RemoveChars, Scaled, FitDigits;
    if syntax.removePattern(input, asset.symbol).Some? {
      var s := Trim(RemoveChars(syntax.removePattern(input, asset.symbol).value, CURRENCY));
      assert s[..|s|] == s;
    }
  }

  lemma {:induction false} ScaledBy(n: int, scale: nat, d: nat)
    requires scale == Pow10(d)
    ensures n * scale == Scaled(n, d)
  {
    hide Pow10;
  }

  method ParseAmount(cache: ScaleCache, input: string, asset: AssetMetadata, strict: bool, syntax: NumberSyntax)
    returns (r: Result<int, ParseAmountError>)
    requires cache.Valid()
    modifies cache
    ensures cache.Valid()
    ensures r == ParseAmountSpec(input, asset, strict, syntax)
  {
    var removed := syntax.removePattern(input, asset.symbol);
    if removed.None? {
      return Err(BadPattern);
    }
    var cleaned := Trim(RemoveChars(removed.value, CURRENCY));
    if cleaned == "" || !syntax.isNumber(cleaned) {
      return if strict then Ok(0) else Err(CannotParse);
    }
    hide Pow10, IndexOf, Scaled, PadEnd, Trim, RemoveChars;
    var scale := cache.GetScale(asset.decimals);
    var dotIndex := IndexOf(cleaned, '.');
    if dotIndex == |cleaned| {
      match syntax.toBigInt(cleaned) {
        case Some(n) =>
          ScaledBy(n, scale, asset.decimals);
          return Ok(n * scale);
        case None => return Err(NotABigInt);
      }
    }
    var wholePart := if dotIndex == 0 then "0" else cleaned[..dotIndex];
    var fracPart := cleaned[dotIndex + 1..];
    if |fracPart| > asset.decimals {
      fracPart := fracPart[..asset.decimals];
    } else {
      fracPart := PadEnd(fracPart, asset.decimals);
    }
    match (syntax.toBigInt(wholePart), syntax.toBigInt(fracPart)) {
      case (Some(whole), Some(frac)) =>
        ScaledBy(whole, scale, asset.decimals);
        r := Ok(whole * scale + frac);
      case (_, _) => r := Err(NotABigInt);
    }
  }

  lemma {:induction false} FitDigitsValue(w: string, f: string, d: nat)
    requires AllDigits(w) && AllDigits(f)
    ensures AllDigits(FitDigits(f, d)) && FloorScaled(w, f, d) == Mul(Val(w), Pow10(d)) + Val(FitDigits(f, d))
  {
    if |f| > d {
      CutValue(w, f, d);
    } else {
      PaddedValue(w, f, d);
      PadEndVal(f, d);
    }
  }

  lemma {:induction false} TextWithPoint(t: string, dot: nat, whole: int, frac: int, d: nat, strict: bool,
                                         syntax: NumberSyntax)
    requires t != "" && syntax.isNumber(t) && IndexOf(t, '.') == dot < |t|
    requires syntax.toBigInt(if dot == 0 then "0" else t[..dot]) == Some(whole)
    requires syntax.toBigInt(FitDigits(t[dot + 1..], d)) == Some(frac)
    ensures ParseAmountText(t, d, strict, syntax) == Ok(Scaled(whole, d) + frac)
  {
    hide Scaled, FitDigits, IndexOf;
  }

  lemma {:induction false} ScaledIsMul(n: nat, d: nat)
    ensures Scaled(n, d) == Mul(n, Pow10(d))
  {
    hide Pow10;
  }

  /** On every unsigned decimal text the second parser takes the floor. */
  lemma {:induction false} ParseAmountTakesFloor(s: string, d: nat, strict: bool, syntax: NumberSyntax)
    requires syntax.Standard() && UnsignedNumeric(s)
    ensures ParseAmountText(s, d, strict, syntax) == Ok(FloorScaled(WholePart(s), FracPart(s), d))
  {
    hide Val, Pow10, Mul, FloorScaled, FitDigits, IndexOf, Scaled;
    var w, f, dot := WholePart(s), FracPart(s), IndexOf(s, '.');
    FitDigitsValue(w, f, d);
    ScaledIsMul(Val(w), d);
    assert syntax.toBigInt(w) == Some(Val(w)) && syntax.toBigInt(FitDigits(f, d)) == Some(Val(FitDigits(f, d)));
    if dot < |s| {
      TextWithPoint(s, dot, Val(w), Val(FitDigits(f, d)), d, strict, syntax);
    } else {
      assert w == s && f == "";
      NoFraction(d);
    }
  }

  lemma {:induction false} NoFraction(d: nat)
    ensures AllDigits(FitDigits("", d)) && Val(FitDigits("", d)) == 0
  {
    ValZeroIffAllZeros(FitDigits("", d));
  }

  lemma {:induction false} ShapeWhole(w: string)
    requires AllDigits(w) && w != ""
    ensures IndexOf(w, '.') == |w|
  {
    IndexOfAfterFree(w, "", '.');
    assert w + "" == w;
  }

  lemma {:induction false} ShapeFrac(w: string, f: string)
    requires AllDigits(w)
    ensures var s := w + "." + f;
            IndexOf(s, '.') == |w| && s[..|w|] == w && s[|w| + 1..] == f
  {
    assert w + "." + f == w + ("." + f);
    IndexOfAfterFree(w, "." + f, '.');
  }

  lemma {:induction false} SignedShape(w: string, f: string)
    requires AllDigits(w) && AllDigits(f) && w != ""
    ensures var s := w + "." + f;
            var t := "-" + s;
            && UnsignedNumeric(s) && IndexOf(t, '.') == 1 + |w| < |t|
            && t[..1 + |w|] == "-" + w && t[2 + |w|..] == f
  {
    ShapeFrac(w, f);
    var t := "-" + (w + "." + f);
    assert t[1..] == w + "." + f;
    assert t == ("-" + w) + ("." + f);
  }

  /** `parseAmount` on "-W.F": the sign reaches only the whole part. */
  lemma {:induction false} SignedText(w: string, f: string, d: nat, strict: bool, syntax: NumberSyntax)
    requires syntax.Standard() && AllDigits(w) && AllDigits(f) && w != ""
    ensures ParseAmountText("-" + (w + "." + f), d, strict, syntax)
            == Ok(Scaled(0 - Val(w), d) + Val(FitDigits(f, d)))
  {
    hide Scaled, Pow10, Val, FloorScaled, FitDigits, IndexOf, UnsignedNumeric, ParseAmountText, AllDigits;
    SignedShape(w, f);
    FitDigitsValue(w, f, d);
    assert syntax.toBigInt(FitDigits(f, d)) == Some(Val(FitDigits(f, d)));
    TextWithPoint("-" + (w + "." + f), 1 + |w|, 0 - Val(w), Val(FitDigits(f, d)), d, strict, syntax);
  }

  /**
   * A negative text is read as the negated amount exactly when it has a whole part, or no point, and none of its
   * fraction is kept: the sign reaches only the whole part, and "-" alone is not a number.
   */
  lemma {:induction false} NegativeAmounts(s: string, d: nat, strict: bool, syntax: NumberSyntax)
    requires syntax.Standard() && UnsignedNumeric(s)
    ensures ParseAmountText("-" + s, d, strict, syntax) == Ok(0 - FloorScaled(WholePart(s), FracPart(s), d)) <==>
            s[0] != '.' && AllZeros(FitDigits(FracPart(s), d))
  {
    hide Pow10, Val, FloorScaled, FitDigits, PadEnd, ParseAmountText, UnsignedNumeric, WholePart, FracPart;
    var dot := IndexOf(s, '.');
    UnsignedParts(s);
    if dot == |s| {
      NegativeWhole(s, d, strict, syntax);
    } else if dot == 0 {
      NegativeFraction(s, d, strict, syntax);
    } else {
      PointParts(s);
      NegativeMixed(WholePart(s), FracPart(s), d, strict, syntax);
    }
  }

  lemma {:induction false} UnsignedParts(s: string)
    requires UnsignedNumeric(s)
    ensures s != "" && (s[0] == '.' <==> IndexOf(s, '.') == 0)
    ensures IndexOf(s, '.') == |s| ==> AllDigits(s) && WholePart(s) == s && FracPart(s) == ""
  {
  }

  lemma {:induction false} PointParts(s: string)
    requires UnsignedNumeric(s) && 0 < IndexOf(s, '.') < |s|
    ensures WholePart(s) != "" && s == WholePart(s) + "." + FracPart(s)
  {
    hide AllDigits, IndexOf, Free;
    CutAt(s, IndexOf(s, '.'));
  }

  lemma {:induction false} CutAt(s: string, i: nat)
    requires i < |s| && s[i] == '.'
    ensures s == s[..i] + "." + s[i + 1..]
  {
  }

  lemma {:induction false} TextWithoutPoint(t: string, n: int, d: nat, strict: bool, syntax: NumberSyntax)
    requires t != "" && syntax.isNumber(t) && IndexOf(t, '.') == |t| && syntax.toBigInt(t) == Some(n)
    ensures ParseAmountText(t, d, strict, syntax) == Ok(Scaled(n, d))
  {
    hide Scaled, FitDigits, IndexOf;
  }

  lemma {:induction false} NegativeWhole(w: string, d: nat, strict: bool, syntax: NumberSyntax)
    requires syntax.Standard() && UnsignedNumeric(w) && AllDigits(w) && w != ""
    ensures ParseAmountText("-" + w, d, strict, syntax) == Ok(0 - FloorScaled(w, "", d))
    ensures AllZeros(FitDigits("", d))
  {
    hide Pow10, Val, FloorScaled, FitDigits, UnsignedNumeric, ParseAmountText, IndexOf, Mul;
    NoFraction(d);
    FitDigitsValue(w, "", d);
    IndexOfAfterFree("-" + w, "", '.');
    assert ("-" + w) + "" == "-" + w;
    TextWithoutPoint("-" + w, 0 - Val(w), d, strict, syntax);
    NegatedProduct(Val(w), Pow10(d));
    ValZeroIffAllZeros(FitDigits("", d));
  }

  lemma {:induction false} NegativeFraction(s: string, d: nat, strict: bool, syntax: NumberSyntax)
    requires syntax.Standard() && UnsignedNumeric(s) && s != "" && s[0] == '.'
    ensures ParseAmountText("-" + s, d, strict, syntax).Err?
  {
    hide FitDigits, UnsignedNumeric, IndexOf;
    var t := "-" + s;
    IndexOfAfterFree("-", s, '.');
    assert IndexOf(t, '.') == 1 < |t| && t[..1] == "-";
    assert syntax.isNumber(t) && syntax.toBigInt(t[..1]) == None;
  }

  lemma {:induction false} NegativeMixed(w: string, f: string, d: nat, strict: bool, syntax: NumberSyntax)
    requires syntax.Standard() && AllDigits(w) && AllDigits(f) && w != ""
    ensures ParseAmountText("-" + (w + "." + f), d, strict, syntax) == Ok(0 - FloorScaled(w, f, d)) <==>
            AllZeros(FitDigits(f, d))
  {
    hide Pow10, Val, FloorScaled, FitDigits, PadEnd, ParseAmountText;
    SignedText(w, f, d, strict, syntax);
    FitDigitsValue(w, f, d);
    ValZeroIffAllZeros(FitDigits(f, d));
    NegatedProduct(Val(w), Pow10(d));
  }

  lemma {:induction false} NegatedProduct(a: nat, b: nat)
    ensures (0 - a) * b == 0 - Mul(a, b)
  {
  }

  // ----- the routes agree -----

  lemma {:induction false} FitDigitsLength(f: string, d: nat)
    ensures |FitDigits(f, d)| == d
  {
  }

  lemma {:induction false} TruncatedWhole(w: string, f: string, d: nat)
    requires AllDigits(w) && AllDigits(f)
    ensures CarriedWhole(w, f, d, Truncate) == Val(w)
  {
    hide Val, Pow10, Mul, Quot, FloorScaled, FitDigits;
    FitDigitsLength(f, d);
    FitDigitsValue(w, f, d);
    ValBound(FitDigits(f, d));
    SplitAmount(FloorScaled(w, f, d), Pow10(d), Val(w), Val(FitDigits(f, d)));
  }

  /** Truncating at a finer precision first loses nothing. */
  lemma {:induction false} FloorOfFiner(w: string, f: string, s: nat, t: nat)
    requires AllDigits(w) && AllDigits(f) && s > t
    ensures FloorScaled(w, f, s) / Pow10(s - t) == FloorScaled(w, f, t)
  {
    Pow10Add(t, s - t);
    var n, p, a, b := Numerator(w, f), Pow10(|f|), Pow10(t), Pow10(s - t);
    MulAssoc(n, a, b);
    DivDiv(n * a * b, p, b);
    DivCancel(n * a, p, b);
  }

  /** What truncating parsing accepts, which does not depend on the precision. */
  predicate TruncatesOk(text: string) {
    && text != "" && Numeric(text) && text[0] != '-'
    && !(WholePart(text) == "0" && AllZeros(FracPart(text)))
    && Val(WholePart(text)) <= MAX_SAFE_INTEGER
  }

  lemma {:induction false} TruncateOnText(text: string, d: nat)
    ensures var r := ParseCleaned(text, d, Truncate, None);
            && (r.Ok? <==> TruncatesOk(text))
            && (r.Ok? ==> UnsignedNumeric(text))
            && (r.Ok? ==> r.value.amount == FloorScaled(WholePart(text), FracPart(text), d))
  {
    if text != "" && Numeric(text) && text[0] != '-' {
      TruncatedWhole(WholePart(text), FracPart(text), d);
    }
  }

  lemma {:induction false} RescaledDown(x: nat, s: nat, t: nat)
    requires ValidDecimals(s) && s >= t
    ensures ValidDecimals(t) && RoundAmount(x, s, t, Truncate).Ok?
    ensures RoundAmount(x, s, t, Truncate).value.amount == if s > t then x / Pow10(s - t) else x
  {
    hide Pow10;
  }

  lemma {:induction false} RescaledAgrees(text: string, s: nat, t: nat)
    requires ValidDecimals(s) && s >= t && TruncatesOk(text)
    ensures UnsignedNumeric(text) && ValidDecimals(t)
    ensures ParseCleaned(text, s, Truncate, None).Ok? && ParseCleaned(text, t, Truncate, None).Ok?
    ensures ParseCleaned(text, t, Truncate, None).value.amount == FloorScaled(WholePart(text), FracPart(text), t)
    ensures var finer := ParseCleaned(text, s, Truncate, None).value.amount;
            && RoundAmount(finer, s, t, Truncate).Ok?
            && RoundAmount(finer, s, t, Truncate).value.amount == FloorScaled(WholePart(text), FracPart(text), t)
  {
    hide Pow10, Val, FloorScaled, TruncatesOk, ParseCleaned, RoundAmount;
    TruncateOnText(text, s);
    TruncateOnText(text, t);
    RescaledDown(FloorScaled(WholePart(text), FracPart(text), s), s, t);
    if s > t {
      FloorOfFiner(WholePart(text), FracPart(text), s, t);
    }
  }

  /** In truncating mode, on one cleaned text, three routes give one amount: both parsers, and parsing finer then rescaling. */
  lemma {:induction false} RoutesAgree(input: string, source: AssetMetadata, target: AssetMetadata, strict: bool,
                                       syntax: NumberSyntax)
    requires syntax.Standard() && ValidDecimals(source.decimals) && source.decimals >= target.decimals
    ensures var text := SanitizeInput(input, target.symbol);
            SanitizeInput(input, source.symbol) == text && syntax.Clean(input, target.symbol) == Some(text) ==>
              var direct := ParseSpec(input, target, ParseOptions(None, Some(Truncate)));
              var second := ParseAmountSpec(input, target, strict, syntax);
              var rescaled := RoundParsedAmount(input, source, target, Some(Truncate));
              && (direct.Ok? <==> rescaled.Ok?)
              && (direct.Ok? ==> second == Ok(direct.value.amount) && rescaled.value.amount == direct.value.amount)
  {
    hide Pow10, Val, FloorScaled, SanitizeInput, TruncatesOk, ParseCleaned, ParseAmountText, RoundAmount, UnsignedNumeric, WholePart,
         FracPart;
    var text := SanitizeInput(input, target.symbol);
    TruncateOnText(text, source.decimals);
    TruncateOnText(text, target.decimals);
    if TruncatesOk(text) {
      RescaledAgrees(text, source.decimals, target.decimals);
      ParseAmountTakesFloor(text, target.decimals, strict, syntax);
    }
  }

  // ----- printing and parsing back -----

  lemma {:induction false} RemoveAfterNumber(prefix: string, symbol: string)
    requires (forall i :: 0 <= i < |prefix| ==> NumberChar(prefix[i])) && Telling(symbol)
    ensures RemoveFirst(prefix + symbol, symbol) == prefix
  {
    var text := prefix + symbol;
    if symbol == "" {
      assert MatchesAt(text, symbol, 0);
    } else {
      forall i: nat | i < |prefix| ensures !MatchesAt(text, symbol, i) {
        NoMatchInside(prefix, symbol, symbol, i);
      }
      assert MatchesAt(text, symbol, |prefix|);
    }
  }

  lemma {:induction false} SanitizePrinted(number: string, symbol: string)
    requires number != "" && (forall i :: 0 <= i < |number| ==> IsDigit(number[i]) || number[i] == '.')
    requires Telling(symbol)
    ensures SanitizeInput(number + " " + symbol, symbol) == number
  {
    var prefix := number + " ";
    RemoveAfterNumber(prefix, symbol);
    RemoveCharsNone(prefix, CURRENCY);
    TrimPrinted(number);
  }

  lemma {:induction false} TrimPrinted(number: string)
    requires number != "" && !IsSpace(number[0]) && !IsSpace(number[|number| - 1])
    ensures Trim(number + " ") == number
  {
    var s := number + " ";
    assert s[0] == number[0] && s[..|s| - 1] == number;
    assert TrimEnd(s) == TrimEnd(number);
  }

  /** The number both printers write before the symbol. */
  function PrintedNumber(amount: int, d: nat): string {
    var whole, frac := TDiv(amount, Pow10(d)), TRem(amount, Pow10(d));
    if frac == 0 then IntText(whole) else IntText(whole) + "." + StripTrailingZeros(PadStart(IntText(frac), d))
  }

  lemma {:induction false} StripIsEmpty(s: string)
    ensures StripTrailingZeros(s) == "" <==> AllZeros(s)
  {
    var r := StripTrailingZeros(s);
    assert r != "" ==> r[|r| - 1] == s[|r| - 1] != '0';
    assert r == "" ==> s[0..] == s;
  }

  /** The two separately written printers give the same text, for amounts of either sign. */
  lemma {:induction false} PrintersAgree(amount: int, d: nat, symbol: string)
    requires ValidDecimals(d)
    ensures FormatRoundedAmount(amount, d, symbol) == Ok(FormatDebugAmount(amount, d, symbol))
    ensures FormatDebugAmount(amount, d, symbol) == PrintedNumber(amount, d) + " " + symbol
  {
    FracTextIsEmpty(TRem(amount, Pow10(d)), d);
  }

  lemma {:induction false} FracTextIsEmpty(frac: int, d: nat)
    ensures StripTrailingZeros(PadStart(IntText(frac), d)) == "" <==> frac == 0
  {
    var s := PadStart(IntText(frac), d);
    StripIsEmpty(s);
    if frac >= 0 {
      PadStartVal(NatText(frac), d);
      ValNatText(frac);
      ValZeroIffAllZeros(s);
    } else {
      var n := |s| - |IntText(frac)|;
      assert s[n] == '-';
    }
  }

  lemma {:induction false} QuotRem(amount: nat, scale: nat)
    requires scale > 0
    ensures amount == Mul(amount / scale, scale) + amount % scale
  {
  }

  lemma {:induction false} AboveOne(d: nat)
    ensures Pow10(d) > 1 ==> d >= 1
  {
  }

  /** The digits printed after the point denote the fraction. */
  lemma {:induction false} PrintedFraction(frac: nat, d: nat)
    requires 0 < frac < Pow10(d)
    ensures var f := StripTrailingZeros(PadStart(NatText(frac), d));
            && AllDigits(f) && 0 < |f| <= d && !AllZeros(f) && Mul(Val(f), Pow10(d - |f|)) == frac
  {
    hide Pow10, Val, NatText, StripTrailingZeros;
    AboveOne(d);
    FracTextIsEmpty(frac, d);
    NatTextLength(frac, d);
    PadStartVal(NatText(frac), d);
    ValNatText(frac);
    StripVal(PadStart(NatText(frac), d));
  }

  lemma {:induction false} WholeValue(w: string, d: nat)
    requires AllDigits(w)
    ensures FloorScaled(w, "", d) == Mul(Val(w), Pow10(d))
  {
    PaddedValue(w, "", d);
  }

  function NumberText(whole: nat, frac: nat, d: nat): string {
    if frac == 0 then NatText(whole) else NatText(whole) + "." + StripTrailingZeros(PadStart(NatText(frac), d))
  }

  /** The text is accepted, and denotes `whole + frac / 10^d` exactly. */
  predicate Denotes(s: string, whole: nat, frac: nat, d: nat) {
    && s != "" && UnsignedNumeric(s) && s[0] != '-'
    && WholePart(s) == NatText(whole) && |FracPart(s)| <= d
    && (AllZeros(FracPart(s)) <==> frac == 0)
    && FloorScaled(WholePart(s), FracPart(s), d) == Mul(whole, Pow10(d)) + frac
    && (forall i :: 0 <= i < |s| ==> IsDigit(s[i]) || s[i] == '.')
  }

  lemma {:induction false} WholeDenotes(whole: nat, d: nat)
    ensures Denotes(NatText(whole), whole, 0, d)
  {
    hide Mul, Pow10, Val, FloorScaled, NatText, IndexOf;
    ValNatText(whole);
    ShapeWhole(NatText(whole));
    WholeValue(NatText(whole), d);
  }

  lemma {:induction false} PointShape(w: string, f: string)
    requires AllDigits(w) && AllDigits(f) && w != ""
    ensures var s := w + "." + f;
            && UnsignedNumeric(s) && s[0] != '-' && WholePart(s) == w && FracPart(s) == f
            && forall i :: 0 <= i < |s| ==> IsDigit(s[i]) || s[i] == '.'
  {
    hide IndexOf;
    ShapeFrac(w, f);
    assert (w + "." + f)[0] == w[0];
  }

  lemma {:induction false} FractionDenotes(whole: nat, frac: nat, d: nat)
    requires 0 < frac < Pow10(d)
    ensures Denotes(NumberText(whole, frac, d), whole, frac, d)
  {
    hide Mul, Pow10, Val, FloorScaled, NatText, StripTrailingZeros, PadStart, UnsignedNumeric, WholePart, FracPart, AllZeros, AllDigits;
    var w, f := NatText(whole), StripTrailingZeros(PadStart(NatText(frac), d));
    ValNatText(whole);
    PrintedFraction(frac, d);
    PointShape(w, f);
    PaddedValue(w, f, d);
  }

  /** A printed number is an accepted text whose exact value is the amount. */
  lemma {:induction false} PrintedParts(amount: nat, d: nat) returns (whole: nat, frac: nat)
    ensures whole == amount / Pow10(d) && frac == amount % Pow10(d) && amount == Mul(whole, Pow10(d)) + frac
    ensures Denotes(PrintedNumber(amount, d), whole, frac, d)
  {
    hide Mul, Pow10, Denotes, NatText, StripTrailingZeros, PadStart;
    QuotRem(amount, Pow10(d));
    whole, frac := Quot(amount, Pow10(d)), amount % Pow10(d);
    assert PrintedNumber(amount, d) == NumberText(whole, frac, d);
    if frac == 0 {
      WholeDenotes(whole, d);
    } else {
      FractionDenotes(whole, frac, d);
    }
  }

  /** Parsing a printed number, in any mode and without bounds. */
  lemma {:induction false} ParsePrinted(amount: nat, d: nat, mode: RoundingMode)
    ensures ParseCleaned(PrintedNumber(amount, d), d, mode, None) ==
            if amount == 0 then Err(ZeroValue)
            else if amount / Pow10(d) > MAX_SAFE_INTEGER then Err(Overflow)
            else Ok(ParsedAmount(amount, d, false))
  {
    hide Pow10, Val, FloorScaled, NatText, PrintedNumber, WholePart, FracPart, UnsignedNumeric, Mul;
    var whole, frac := PrintedParts(amount, d);
    QuotRem(amount, Pow10(d));
    WholeIsZero(amount / Pow10(d));
  }

  lemma {:induction false} WholeIsZero(whole: nat)
    ensures NatText(whole) == "0" <==> whole == 0
  {
    ValNatText(whole);
    assert "0"[..0] == "";
    assert Val("0") == 0;
  }

  /** Parsing undoes printing, in every mode, exactly for the positive amounts the parser does not refuse as too large. */
  lemma {:induction false} ParseUndoesFormat(amount: nat, asset: AssetMetadata, rounding: Option<RoundingMode>)
    requires ValidDecimals(asset.decimals) && Telling(asset.symbol)
    ensures var d := asset.decimals;
            var printed := FormatRoundedAmount(amount, d, asset.symbol);
            && printed == Ok(FormatDebugAmount(amount, d, asset.symbol))
            && (ParseSpec(printed.value, asset, ParseOptions(None, rounding)) == Ok(ParsedAmount(amount, d, false)) <==>
                  0 < amount && amount / Pow10(d) <= MAX_SAFE_INTEGER)
  {
    var d := asset.decimals;
    PrintersAgree(amount, d, asset.symbol);
    var whole, frac := PrintedParts(amount, d);
    SanitizePrinted(PrintedNumber(amount, d), asset.symbol);
    ParsePrinted(amount, d, ModeOf(ParseOptions(None, rounding)));
  }

  /** A symbol that is a digit can swallow a digit of the number instead: "12 1" cleans to "2 1". */
  lemma {:induction false} DigitSymbolBreaksRoundTrip()
    ensures SanitizeInput("12 1", "1") == "2 1"
  {
    assert MatchesAt("12 1", "1", 0);
    assert RemoveFirst("12 1", "1") == "2 1";
    RemoveCharsNone("2 1", CURRENCY);
  }
}
