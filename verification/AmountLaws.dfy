/** What the payroll amount parser's results mean, for every accepted text. */
module AmountLaws {
  import opened Prelude
  import opened Digits
  import opened Text
  import opened Assets
  import opened AmountParsing

  // ----- the excess digits -----

  lemma {:induction false} LeadingDigit(h: string)
    requires AllDigits(h) && |h| > 0
    ensures Val(h) == Mul(DigitOf(h[0]), Pow10(|h| - 1)) + Val(h[1..])
    ensures Val(h[1..]) < Pow10(|h| - 1)
  {
    assert h == [h[0]] + h[1..];
    ValConcat([h[0]], h[1..]);
    assert [h[0]][..0] == "";
    assert Val([h[0]]) == DigitOf(h[0]);
    ValBound(h[1..]);
  }

  /** The first excess digit decides whether the excess reaches one half. */
  lemma {:induction false} HalfIsFirstDigit(h: string)
    requires AllDigits(h) && |h| > 0
    ensures h[0] >= '5' <==> 2 * Val(h) >= Pow10(|h|)
  {
    LeadingDigit(h);
    var p, c := Pow10(|h| - 1), DigitOf(h[0]);
    if c >= 5 {
      MulMonotone(5, c, p);
    } else {
      MulMonotone(c, 4, p);
    }
  }

  // ----- rounding a fraction F + h/b -----

  /** (2(F*b + h)*a + ab) / 2ab is F, plus one when h is at least half of b. */
  lemma {:induction false} HalfUpQuotient(n: nat, q: nat, h: nat, a: nat, b: nat)
    requires a > 0 && b > 0 && n == Mul(q, b) + h && h < b
    ensures Mul(a, b) > 0
    ensures Quot(2 * Mul(n, a) + Mul(a, b), 2 * Mul(a, b)) == if 2 * h >= b then q + 1 else q
  {
    HalfUpPlain(n, q, h, b);
    DivCancel(2 * n + b, 2 * b, a);
    calc {
      (2 * n + b) * a;
      2 * n * a + b * a;
      2 * (n * a) + a * b;
    }
    assert (2 * b) * a == 2 * (a * b);
  }

  /** The ceiling of (F*b + h)/b is F, plus one when h is not zero. */
  lemma {:induction false} CeilQuotient(n: nat, q: nat, h: nat, a: nat, b: nat)
    requires a > 0 && b > 0 && n == Mul(q, b) + h && h < b
    ensures Mul(a, b) > 0
    ensures Quot(Mul(n, a) + Mul(a, b) - 1, Mul(a, b)) == if h > 0 then q + 1 else q
  {
    var c := a * b;
    assert c > 0;
    assert n * a == q * c + h * a by { assert (q * b) * a == q * (a * b); }
    if h == 0 {
      CeilBracket(n * a + c - 1, c, q);
    } else {
      MulMonotone(1, h, a);
      MulMonotone(h, b - 1, a);
      assert (b - 1) * a == c - a;
      MulSucc(q, c);
      CeilBracket(n * a + c - 1, c, q + 1);
    }
  }

  lemma {:induction false} CeilBracket(n: nat, c: nat, q: nat)
    requires c > 0 && Mul(q, c) <= n < Mul(q, c) + c
    ensures n / c == q
  {
    assert (q + 1) * c == q * c + c;
    DivUnique(n, c, q);
  }

  lemma {:induction false} RoundedByDigits(w: string, f: string, d: nat)
    requires AllDigits(w) && AllDigits(f) && |f| > d
    ensures HalfUpScaled(w, f, d) == FloorScaled(w, f, d) + if f[d] >= '5' then 1 else 0
    ensures CeilScaled(w, f, d) == FloorScaled(w, f, d) + if AllZeros(f[d..]) then 0 else 1
  {
    var h := f[d..];
    CutValue(w, f, d);
    HalfIsFirstDigit(h);
    ValZeroIffAllZeros(h);
    Pow10Add(d, |h|);
    var n, q, a, b := Numerator(w, f), FloorScaled(w, f, d), Pow10(d), Pow10(|h|);
    HalfUpQuotient(n, q, Val(h), a, b);
    CeilQuotient(n, q, Val(h), a, b);
  }

  lemma {:induction false} ExactWhenPadded(w: string, f: string, d: nat)
    requires AllDigits(w) && AllDigits(f) && |f| <= d
    ensures HalfUpScaled(w, f, d) == FloorScaled(w, f, d) == CeilScaled(w, f, d)
  {
    PaddedValue(w, f, d);
    var q, p := FloorScaled(w, f, d), Pow10(|f|);
    HalfUpQuotient(q, q, 0, p, 1);
    CeilQuotient(q, q, 0, p, 1);
  }

  // ----- the main results -----

  /** HALF_UP is floor(W.F * 10^d + 1/2), except when a carry happens at zero decimals. */
  lemma {:induction false} HalfUpExact(w: string, f: string, d: nat)
    requires AllDigits(w) && AllDigits(f)
    ensures AmountOf(w, f, d, HalfUp) == HalfUpScaled(w, f, d) <==> !(d == 0 && f != "" && f[0] >= '5')
  {
    if |f| > d {
      RoundedByDigits(w, f, d);
    } else {
      ExactWhenPadded(w, f, d);
    }
  }

  /** CEIL is the ceiling exactly when its first-excess-digit test sees the excess, and no carry digit is kept. */
  lemma {:induction false} CeilExact(w: string, f: string, d: nat)
    requires AllDigits(w) && AllDigits(f)
    ensures AmountOf(w, f, d, Ceil) == CeilScaled(w, f, d) <==>
            |f| <= d || AllZeros(f[d..]) || (f[d] > '0' && d >= 1)
  {
    if |f| > d {
      RoundedByDigits(w, f, d);
      assert AllZeros(f[d..]) ==> f[d..][0] == '0';
    } else {
      ExactWhenPadded(w, f, d);
    }
  }

  lemma {:induction false} QuotBelow(n: nat, d: nat, k: nat)
    requires d > 0
    ensures Quot(n, d) < k <==> n < Mul(k, d)
  {
    if Quot(n, d) < k {
      MulMonotone(Quot(n, d) + 1, k, d);
    } else {
      MulMonotone(k, Quot(n, d), d);
    }
  }

  /** An accepted amount is below 2^53 whole units, except for one carry at zero decimals. */
  lemma {:induction false} AmountBelowLimit(w: string, f: string, d: nat, mode: RoundingMode)
    requires AllDigits(w) && AllDigits(f) && CarriedWhole(w, f, d, mode) <= MAX_SAFE_INTEGER
    ensures AmountOf(w, f, d, mode) < Mul(MAX_SAFE_INTEGER + 1, Pow10(d)) <==>
            !(d == 0 && RoundsUp(f, d, mode) && FloorScaled(w, f, d) + 1 == MAX_SAFE_INTEGER)
  {
    var rounded := FloorScaled(w, f, d) + (if RoundsUp(f, d, mode) then 1 else 0);
    QuotBelow(rounded, Pow10(d), MAX_SAFE_INTEGER + 1);
  }

  /** Zero is refused only when the whole part is the single digit 0 (or missing). */
  lemma {:induction false} ZeroRefused(w: string, f: string, d: nat, mode: RoundingMode, bounds: Option<AmountBounds>)
    requires AllDigits(w) && AllDigits(f) && w != ""
    ensures ParseParts(w, f, d, mode, bounds) == Err(ZeroValue) <==> Numerator(w, f) == 0 && |w| == 1
  {
    ValZeroIffAllZeros(w + f);
    if Numerator(w, f) == 0 && |w| == 1 {
      assert (w + f)[0] == '0' && w == "0";
      assert forall i :: 0 <= i < |f| ==> f[i] == (w + f)[1 + i];
    }
  }

  /** An unrounded result is exact: no digit was dropped. */
  lemma {:induction false} UnroundedIsExact(w: string, f: string, d: nat, mode: RoundingMode)
    requires AllDigits(w) && AllDigits(f) && |f| <= d
    ensures Mul(AmountOf(w, f, d, mode), Pow10(|f|)) == Mul(Numerator(w, f), Pow10(d))
  {
    PaddedValue(w, f, d);
  }

  /** The parser on every text it accepts, for every mode and precision. */
  lemma {:induction false} ParseMeetsArithmetic(input: string, asset: AssetMetadata, options: ParseOptions)
    requires ParseSpec(input, asset, options).Ok?
    ensures var s, d, mode := SanitizeInput(input, asset.symbol), asset.decimals, ModeOf(options);
            var r := ParseSpec(input, asset, options).value;
            && UnsignedNumeric(s)
            && var w, f := WholePart(s), FracPart(s);
            && r.decimals == d
            && (mode in {Truncate, Floor} ==> r.amount == FloorScaled(w, f, d))
            && (mode == HalfUp ==>
                  (r.amount == HalfUpScaled(w, f, d) <==> !(d == 0 && f != "" && f[0] >= '5')))
            && (mode == Ceil ==>
                  (r.amount == CeilScaled(w, f, d) <==>
                     |f| <= d || AllZeros(f[d..]) || (f[d] > '0' && d >= 1)))
            && (d >= 1 ==> r.amount < Mul(MAX_SAFE_INTEGER + 1, Pow10(d)))
            && (!r.wasRounded ==> Mul(r.amount, Pow10(|f|)) == Mul(Numerator(w, f), Pow10(d)))
  {
    var s, d, mode := SanitizeInput(input, asset.symbol), asset.decimals, ModeOf(options);
    var w, f := WholePart(s), FracPart(s);
    HalfUpExact(w, f, d);
    CeilExact(w, f, d);
    AmountBelowLimit(w, f, d, mode);
    if |f| <= d {
      UnroundedIsExact(w, f, d, mode);
    }
  }

  // ----- every outcome -----

  /** The rounded value whose whole part is checked: CEIL sees an excess only by its first digit. */
  function RoundedScaled(w: string, f: string, d: nat, mode: RoundingMode): nat
    requires AllDigits(w) && AllDigits(f)
  {
    match mode
    case HalfUp => HalfUpScaled(w, f, d)
    case Ceil => if |f| > d && f[d] == '0' then FloorScaled(w, f, d) else CeilScaled(w, f, d)
    case _ => FloorScaled(w, f, d)
  }

  lemma {:induction false} CheckedWhole(w: string, f: string, d: nat, mode: RoundingMode)
    requires AllDigits(w) && AllDigits(f)
    ensures CarriedWhole(w, f, d, mode) == Quot(RoundedScaled(w, f, d, mode), Pow10(d))
  {
    hide Quot, FloorScaled, CeilScaled, HalfUpScaled, Pow10;
    if |f| > d {
      RoundedByDigits(w, f, d);
      assert AllZeros(f[d..]) ==> f[d..][0] == '0';
    } else {
      ExactWhenPadded(w, f, d);
    }
  }

  /** The accepted pattern, with an optional minus sign. */
  ghost predicate MatchesPattern(s: string) {
    var unsigned := if s != "" && s[0] == '-' then s[1..] else s;
    PointThenDigits(unsigned) || DigitsThenPoint(unsigned)
  }

  /** What the parser reports of a well-formed unsigned number. */
  lemma {:induction false} PartsRefused(w: string, f: string, d: nat, mode: RoundingMode, bounds: Option<AmountBounds>)
    requires AllDigits(w) && AllDigits(f) && w != ""
    ensures var r := ParseParts(w, f, d, mode, bounds);
            && (r == Err(ZeroValue) <==> Numerator(w, f) == 0 && |w| == 1)
            && (r == Err(Overflow) <==>
                  !(Numerator(w, f) == 0 && |w| == 1) && Quot(RoundedScaled(w, f, d, mode), Pow10(d)) > 9007199254740991)
            && (r.Err? ==> r.error !in {EmptyInput, InvalidFormat, NegativeValue})
  {
    hide Quot, FloorScaled, Pow10, RoundedScaled, AllZeros, CarriedWhole, AmountOf;
    ZeroRefused(w, f, d, mode, bounds);
    CheckedWhole(w, f, d, mode);
  }

  /** Which texts are refused, and why: first by their form, then zero, then whole parts of 2^53 and more. */
  lemma {:induction false} RefusedExactly(input: string, asset: AssetMetadata, options: ParseOptions)
    ensures var s, r, d, mode := SanitizeInput(input, asset.symbol), ParseSpec(input, asset, options), asset.decimals, ModeOf(options);
            && (r == Err(EmptyInput) <==> s == "")
            && (r == Err(InvalidFormat) <==> s != "" && !MatchesPattern(s))
            && (r == Err(NegativeValue) <==> s != "" && MatchesPattern(s) && s[0] == '-')
            && (s != "" && MatchesPattern(s) && s[0] != '-' <==> UnsignedNumeric(s))
            && (UnsignedNumeric(s) ==>
                  var w, f := WholePart(s), FracPart(s);
                  && (r == Err(ZeroValue) <==> Numerator(w, f) == 0 && |w| == 1)
                  && (r == Err(Overflow) <==>
                        !(Numerator(w, f) == 0 && |w| == 1) && Quot(RoundedScaled(w, f, d, mode), Pow10(d)) > 9007199254740991))
  {
    hide SanitizeInput, ParseParts, PointThenDigits, DigitsThenPoint, RoundedScaled, WholePart, FracPart, Numerator, Quot;
    var s := SanitizeInput(input, asset.symbol);
    NumericIsThePattern(if s != "" && s[0] == '-' then s[1..] else s);
    SignedIsNotUnsigned(s);
    if UnsignedNumeric(s) {
      PartsRefused(WholePart(s), FracPart(s), asset.decimals, ModeOf(options), options.bounds);
    }
    hide UnsignedNumeric;
  }

  lemma {:induction false} SignedIsNotUnsigned(s: string)
    ensures UnsignedNumeric(s) ==> s != "" && s[0] != '-'
  {
    if UnsignedNumeric(s) {
      var dot := IndexOf(s, '.');
      assert dot > 0 ==> IsDigit(s[0]) by {
        assert dot > 0 ==> s[0] == s[..dot][0] && AllDigits(s[..dot]);
      }
    }
  }

  /** Bounds only refuse: below the minimum first, then above the maximum, and never change an accepted amount. */
  lemma {:induction false} BoundsOnlyRefuse(input: string, asset: AssetMetadata, options: ParseOptions)
    ensures var free := ParseSpec(input, asset, options.(bounds := None));
            var r, b := ParseSpec(input, asset, options), options.bounds;
            if free.Err? || b.None? then r == free
            else
              var a, min, max := free.value.amount, b.value.min, b.value.max;
              && (r == Err(BelowMinimum) <==> min.Some? && a < min.value)
              && (r == Err(ExceedsMaximum) <==> !(min.Some? && a < min.value) && max.Some? && a > max.value)
              && ((min.Some? ==> min.value <= a) && (max.Some? ==> a <= max.value) ==> r == free)
  {
    hide SanitizeInput, AmountOf, CarriedWhole;
  }

  // ----- cleaning a number -----

  /** Characters of a printed number. */
  predicate NumberChar(c: char) {
    IsDigit(c) || c == '.' || c == ' '
  }

  /** Index of the first character that no printed number has, or the length when there is none. */
  function FirstOther(s: string): (i: nat)
    ensures i <= |s| && forall k :: 0 <= k < i ==> NumberChar(s[k])
    ensures i < |s| ==> !NumberChar(s[i])
  {
    if s == "" || !NumberChar(s[0]) then 0 else 1 + FirstOther(s[1..])
  }

  /** A symbol that cannot be mistaken for a part of a number: empty, or with such a character. */
  predicate Telling(symbol: string) {
    symbol == "" || FirstOther(symbol) < |symbol|
  }

  /** A telling symbol does not match where it would begin within a number. */
  lemma {:induction false} NoMatchInside(number: string, rest: string, symbol: string, i: nat)
    requires (forall k :: 0 <= k < |number| ==> NumberChar(number[k])) && i < |number|
    requires symbol != "" && Telling(symbol) && (rest == symbol || rest == "")
    ensures !MatchesAt(number + rest, symbol, i)
  {
    var text, m := number + rest, FirstOther(symbol);
    if i + |symbol| <= |text| {
      assert NumberChar(text[i + m]) by {
        if i + m >= |number| {
          assert text[i + m] == rest[i + m - |number|];
        }
      }
      assert Fold(text[i + m]) != Fold(symbol[m]);
    }
  }

  lemma {:induction false} NothingToRemove(text: string, symbol: string)
    requires (forall k :: 0 <= k < |text| ==> NumberChar(text[k])) && Telling(symbol)
    ensures RemoveFirst(text, symbol) == text
  {
    assert text + "" == text;
    if symbol != "" {
      forall i: nat | i < |text| ensures !MatchesAt(text, symbol, i) {
        NoMatchInside(text, "", symbol, i);
      }
    } else {
      assert MatchesAt(text, symbol, 0);
    }
  }

  /** A bare number is its own cleaned text. */
  lemma {:induction false} CleanNumber(text: string, symbol: string)
    requires text != "" && (forall k :: 0 <= k < |text| ==> IsDigit(text[k]) || text[k] == '.') && Telling(symbol)
    ensures SanitizeInput(text, symbol) == text
  {
    hide RemoveFirst, RemoveChars, Telling;
    NothingToRemove(text, symbol);
    RemoveCharsNone(text, CURRENCY);
  }

  /** A character that is not dropped as formatting. */
  predicate Kept(c: char) {
    c !in {'$', '\U{20AC}', '\U{00A3}', '\U{00A5}', ','}
  }

  /** A character that is neither part of a number nor dropped as formatting. */
  predicate Foreign(c: char) {
    !NumberChar(c) && Kept(c)
  }

  lemma {:induction false} ForeignNoMatch(text: string, symbol: string, m: nat, i: nat)
    requires (forall k :: 0 <= k < |text| ==> !Foreign(text[k])) && m < |symbol| && Foreign(symbol[m])
    ensures !MatchesAt(text, symbol, i)
  {
    if i + |symbol| <= |text| {
      assert Fold(text[i + m]) != Fold(symbol[m]);
    }
  }

  lemma {:induction false} FormattingDropped(s: string)
    ensures RemoveChars(s, CURRENCY) == Filter(Kept, s)
  {
    if s != "" {
      FormattingDropped(s[1..]);
    }
  }

  /** Commas and currency signs may stand anywhere in a number: the text without them parses alike. */
  lemma {:induction false} FormattingIgnored(text: string, asset: AssetMetadata, options: ParseOptions)
    requires forall k :: 0 <= k < |text| ==> !Foreign(text[k])
    requires exists m :: 0 <= m < |asset.symbol| && Foreign(asset.symbol[m])
    ensures var bare := Filter(Kept, text);
            && SanitizeInput(text, asset.symbol) == Trim(bare)
            && ParseSpec(text, asset, options) == ParseSpec(bare, asset, options)
  {
    hide ParseCleaned, Trim, RemoveFirst, RemoveChars, Filter, NumberChar, IsDigit;
    var bare := Filter(Kept, text);
    var m :| 0 <= m < |asset.symbol| && Foreign(asset.symbol[m]);
    forall k | 0 <= k < |bare| ensures !Foreign(bare[k]) && Kept(bare[k]) {
      FilterMember(Kept, text, bare[k]);
    }
    NoneForeign(text, asset.symbol, m);
    NoneForeign(bare, asset.symbol, m);
    FormattingDropped(text);
    RemoveCharsNone(bare, CURRENCY);
  }

  lemma {:induction false} NoneForeign(text: string, symbol: string, m: nat)
    requires (forall k :: 0 <= k < |text| ==> !Foreign(text[k])) && m < |symbol| && Foreign(symbol[m])
    ensures RemoveFirst(text, symbol) == text
  {
    forall i: nat | i <= |text| ensures !MatchesAt(text, symbol, i) {
      ForeignNoMatch(text, symbol, m, i);
    }
  }

  // ----- texts on which the documented rounding fails -----

  /** At zero decimals ".5" parses to 2, although it rounds to 1. */
  lemma {:induction false} HalfAtZeroDecimals(asset: AssetMetadata)
    requires asset.decimals == 0 && Telling(asset.symbol)
    ensures ParseSpec(".5", asset, ParseOptions(None, None)) == Ok(ParsedAmount(2, 0, true))
    ensures HalfUpScaled("0", "5", 0) == 1
  {
    CleanNumber(".5", asset.symbol);
    HalfOfUnit();
    assert ".5"[..0] == "" && ".5"[1..] == "5" && IndexOf(".5", '.') == 0;
    assert UnsignedNumeric(".5") && WholePart(".5") == "0" && FracPart(".5") == "5";
  }

  lemma {:induction false} HalfOfUnit()
    ensures AmountOf("0", "5", 0, HalfUp) == 2 && HalfUpScaled("0", "5", 0) == 1
    ensures CarriedWhole("0", "5", 0, HalfUp) == 1 && !AllZeros("5")
  {
    HalfUpExact("0", "5", 0);
    ValueOf05();
    RoundedByDigits("0", "5", 0);
    CutValue("0", "5", 0);
    assert "5"[..0] == "";
    assert "0"[..0] == "";
    assert Val("0") == 0;
  }

  lemma {:induction false} ValueOf05()
    ensures AllDigits("05") && Val("05") == 5
  {
    assert "05"[..1] == "0" && "0"[..0] == "";
  }

  /** CEIL keeps 1.005 at 1.0 when one decimal is kept: its first excess digit hides the excess behind it. */
  lemma {:induction false} CeilMissesLaterDigits(asset: AssetMetadata)
    requires asset.decimals == 1 && Telling(asset.symbol)
    ensures ParseSpec("1.005", asset, ParseOptions(None, Some(Ceil))) == Ok(ParsedAmount(10, 1, true))
    ensures AllDigits("1") && AllDigits("005") && 10 < CeilScaled("1", "005", 1)
  {
    hide Val, Pow10, CeilScaled, AmountOf, CarriedWhole, SanitizeInput, Telling;
    CleanNumber("1.005", asset.symbol);
    OneAndALittle();
    assert "1.005"[..1] == "1" && "1.005"[2..] == "005";
    IndexOfAfterFree("1", ".005", '.');
    assert "1" + ".005" == "1.005";
    assert UnsignedNumeric("1.005") && WholePart("1.005") == "1" && FracPart("1.005") == "005";
  }

  lemma {:induction false} OneAndALittle()
    ensures AmountOf("1", "005", 1, Ceil) == 10 < CeilScaled("1", "005", 1) && CarriedWhole("1", "005", 1, Ceil) == 1
  {
    RoundedByDigits("1", "005", 1);
    assert "005"[1..][1] == '5';
    CutValue("1", "005", 1);
    assert "005"[..1] == "0" && "0"[..0] == "" && "1"[..0] == "";
    assert Val("1") == 1 && Val("0") == 0 && Pow10(1) == 10;
    SplitAmount(10, 10, 1, 0);
  }

  /** "00" is accepted as the amount 0 by every asset, mode and bound that admits it, although zero is documented as refused. */
  lemma {:induction false} DoubleZeroAccepted(asset: AssetMetadata, options: ParseOptions)
    requires Telling(asset.symbol)
    ensures ParseSpec("00", asset, options.(bounds := None)) == Ok(ParsedAmount(0, asset.decimals, false))
    ensures var min := if options.bounds.Some? then options.bounds.value.min else None;
            var max := if options.bounds.Some? then options.bounds.value.max else None;
            ParseSpec("00", asset, options).Ok? <==> (min.Some? ==> min.value <= 0) && (max.Some? ==> max.value >= 0)
  {
    hide SanitizeInput, ParseParts, Telling, UnsignedNumeric, WholePart, FracPart;
    BoundsOnlyRefuse("00", asset, options);
    CleanNumber("00", asset.symbol);
    DoubleZeroShape();
    DoubleZeroParts(asset.decimals, ModeOf(options));
  }

  lemma {:induction false} DoubleZeroShape()
    ensures UnsignedNumeric("00") && WholePart("00") == "00" && FracPart("00") == ""
  {
    IndexOfAfterFree("00", "", '.');
    assert "00" + "" == "00";
  }

  lemma {:induction false} DoubleZeroParts(d: nat, mode: RoundingMode)
    ensures ParseParts("00", "", d, mode, None) == Ok(ParsedAmount(0, d, false))
  {
    hide AmountOf, CarriedWhole;
    DoubleZero(d, mode);
  }

  lemma {:induction false} DoubleZero(d: nat, mode: RoundingMode)
    ensures AmountOf("00", "", d, mode) == 0 && CarriedWhole("00", "", d, mode) == 0
  {
    PaddedValue("00", "", d);
    ValZeroIffAllZeros("00");
    SplitAmount(0, Pow10(d), 0, 0);
  }
}
