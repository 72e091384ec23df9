/**
 * JSON values and the canonical form behind stable serialisation.
 * An object is its own properties in enumeration order.
 */
module CanonicalJson {
  import opened Prelude
  import opened Digits
  import opened Text
  import opened Sorting

  datatype Json =
    | Undefined
    | Null
    | Bool(b: bool)
    | Num(n: real)
    | Str(s: string)
    | Arr(items: seq<Json>)
    | Obj(fields: seq<Field>)

  datatype Field = Field(key: string, value: Json)

  /** Property names within an object are distinct. */
  ghost predicate Wf(v: Json) {
    match v
    case Arr(items) => forall i :: 0 <= i < |items| ==> Wf(items[i])
    case Obj(fields) =>
      && (forall i, j :: 0 <= i < j < |fields| ==> fields[i].key != fields[j].key)
      && (forall i :: 0 <= i < |fields| ==> Wf(fields[i].value))
    case _ => true
  }

  // ----- enumeration order -----

  /** Names that engines enumerate before all others, in numeric order. */
  predicate IsIndex(key: string) {
    0 < |key| <= 10 && AllDigits(key) && (key[0] == '0' ==> key == "0") && Val(key) < 4294967295
  }

  /** Code-unit order of ranks is enumeration order after `sort`: indices by magnitude, then the other names. */
  function Rank(key: string): string {
    if IsIndex(key) then ['\0', |key| as char] + key else ['A'] + key
  }

  lemma {:induction false} RankInjective(a: string, b: string)
    requires Rank(a) == Rank(b)
    ensures a == b
  {
    assert Rank(a)[0] == Rank(b)[0];
    if IsIndex(a) {
      assert Rank(a)[2..] == a && Rank(b)[2..] == b;
    } else {
      assert Rank(a)[1..] == a && Rank(b)[1..] == b;
    }
  }

  function FieldRank(f: Field): string {
    Rank(f.key)
  }

  // ----- the canonical form -----

  /** Fields that survive: defined, and not the name whose assignment replaces the prototype. */
  predicate Effective(f: Field) {
    f.value != Undefined && f.key != "__proto__"
  }

  /** `sortForStableJson`. */
  function Canon(v: Json): Json {
    match v
    case Arr(items) => Arr(CanonItems(items))
    case Obj(fields) => Obj(SortBy(FieldRank, CanonFields(fields)))
    case _ => v
  }

  function CanonItems(items: seq<Json>): (r: seq<Json>)
    ensures |r| == |items| && forall i :: 0 <= i < |items| ==> r[i] == Canon(items[i])
  {
    if items == [] then [] else [Canon(items[0])] + CanonItems(items[1..])
  }

  function CanonFields(fields: seq<Field>): seq<Field> {
    if fields == [] then []
    else
      (if Effective(fields[0]) then [Field(fields[0].key, Canon(fields[0].value))] else []) + CanonFields(fields[1..])
  }

  predicate FromField(p: Field, f: Field) {
    Effective(f) && p == Field(f.key, Canon(f.value))
  }

  lemma {:induction false} CanonFieldsElements(fields: seq<Field>, p: Field)
    ensures p in CanonFields(fields) <==> exists i :: 0 <= i < |fields| && FromField(p, fields[i])
    decreases |fields|
  {
    if fields != [] {
      CanonFieldsElements(fields[1..], p);
      if i :| 0 <= i < |fields[1..]| && FromField(p, fields[1..][i]) {
        assert FromField(p, fields[i + 1]);
      }
      if i :| 0 <= i < |fields| && FromField(p, fields[i]) {
        if i > 0 {
          assert FromField(p, fields[1..][i - 1]);
        }
      }
    }
  }

  lemma {:induction false} CanonFieldsDistinct(fields: seq<Field>)
    requires forall i, j :: 0 <= i < j < |fields| ==> fields[i].key != fields[j].key
    ensures DistinctKeys(FieldRank, CanonFields(fields))
    decreases |fields|
  {
    if fields != [] {
      var rest := CanonFields(fields[1..]);
      CanonFieldsDistinct(fields[1..]);
      forall j | 0 <= j < |rest| ensures FieldRank(rest[j]) != Rank(fields[0].key) {
        CanonFieldsElements(fields[1..], rest[j]);
        var i :| 0 <= i < |fields[1..]| && FromField(rest[j], fields[1..][i]);
        assert fields[i + 1].key == rest[j].key;
        if FieldRank(rest[j]) == Rank(fields[0].key) {
          RankInjective(rest[j].key, fields[0].key);
        }
      }
    }
  }

  /** The fields of a canonical object are exactly the canonised effective ones. */
  lemma {:induction false} CanonObject(fields: seq<Field>, p: Field)
    ensures p in Canon(Obj(fields)).fields <==> exists i :: 0 <= i < |fields| && FromField(p, fields[i])
  {
    SortByElements(FieldRank, CanonFields(fields));
    CanonFieldsElements(fields, p);
  }

  // ----- same content -----

  ghost predicate Matches(f: Field, g: Field)
    decreases f
  {
    Effective(f) && Effective(g) && f.key == g.key && Same(f.value, g.value)
  }

  /** Equality up to the order and the absence of object fields, at every depth. */
  ghost predicate Same(a: Json, b: Json)
    decreases a
  {
    match (a, b)
    case (Arr(xs), Arr(ys)) => |xs| == |ys| && forall i :: 0 <= i < |xs| ==> Same(xs[i], ys[i])
    case (Obj(fs), Obj(gs)) =>
      && (forall i :: 0 <= i < |fs| && Effective(fs[i]) ==> exists j :: 0 <= j < |gs| && Matches(fs[i], gs[j]))
      && (forall j :: 0 <= j < |gs| && Effective(gs[j]) ==> exists i :: 0 <= i < |fs| && Matches(fs[i], gs[j]))
    case _ => a == b
  }

  /** Two values have the same canonical form exactly when they have the same content. */
  lemma {:induction false} CanonIffSame(a: Json, b: Json)
    requires Wf(a) && Wf(b)
    ensures Canon(a) == Canon(b) <==> Same(a, b)
    decreases a
  {
    if a.Arr? && b.Arr? {
      CanonItemsIffSame(a.items, b.items);
    } else if a.Obj? && b.Obj? {
      forall i, j | 0 <= i < |a.fields| && 0 <= j < |b.fields|
        ensures Canon(a.fields[i].value) == Canon(b.fields[j].value) <==> Same(a.fields[i].value, b.fields[j].value)
      {
        CanonIffSame(a.fields[i].value, b.fields[j].value);
      }
      if Same(a, b) {
        SameObjects(a.fields, b.fields);
      }
      if Canon(a) == Canon(b) {
        EqualObjects(a.fields, b.fields);
      }
    }
  }

  ghost predicate ValuesDecided(fs: seq<Field>, gs: seq<Field>) {
    forall i, j :: 0 <= i < |fs| && 0 <= j < |gs| ==>
      (Canon(fs[i].value) == Canon(gs[j].value) <==> Same(fs[i].value, gs[j].value))
  }

  lemma {:induction false} CanonItemsIffSame(xs: seq<Json>, ys: seq<Json>)
    requires Wf(Arr(xs)) && Wf(Arr(ys))
    ensures CanonItems(xs) == CanonItems(ys) <==> Same(Arr(xs), Arr(ys))
    decreases xs, 0
  {
    if |xs| == |ys| {
      forall i | 0 <= i < |xs| ensures Canon(xs[i]) == Canon(ys[i]) <==> Same(xs[i], ys[i]) {
        CanonIffSame(xs[i], ys[i]);
      }
      if forall i :: 0 <= i < |xs| ==> Same(xs[i], ys[i]) {
        assert CanonItems(xs) == CanonItems(ys);
      } else {
        var i :| 0 <= i < |xs| && !Same(xs[i], ys[i]);
        assert CanonItems(xs)[i] != CanonItems(ys)[i];
      }
    }
  }

  ghost predicate Covered(fs: seq<Field>, gs: seq<Field>) {
    forall i :: 0 <= i < |fs| && Effective(fs[i]) ==> exists j :: 0 <= j < |gs| && Matches(fs[i], gs[j])
  }

  ghost predicate CoveredBack(fs: seq<Field>, gs: seq<Field>) {
    forall j :: 0 <= j < |gs| && Effective(gs[j]) ==> exists i :: 0 <= i < |fs| && Matches(fs[i], gs[j])
  }

  lemma {:induction false} SameIsCovered(fs: seq<Field>, gs: seq<Field>)
    ensures Same(Obj(fs), Obj(gs)) <==> Covered(fs, gs) && CoveredBack(fs, gs)
  {
  }

  lemma {:induction false} MatchedFields(f: Field, g: Field)
    requires Canon(f.value) == Canon(g.value) <==> Same(f.value, g.value)
    ensures Matches(f, g) <==> Effective(f) && FromField(Field(f.key, Canon(f.value)), g)
  {
  }

  lemma {:induction false} CarriedOver(fs: seq<Field>, gs: seq<Field>, p: Field)
    requires ValuesDecided(fs, gs)
    ensures Covered(fs, gs) && p in CanonFields(fs) ==> p in CanonFields(gs)
    ensures CoveredBack(fs, gs) && p in CanonFields(gs) ==> p in CanonFields(fs)
  {
    hide Same, Canon, CanonFields, Matches;
    CanonFieldsElements(fs, p);
    CanonFieldsElements(gs, p);
    if i :| Covered(fs, gs) && 0 <= i < |fs| && FromField(p, fs[i]) {
      var j :| 0 <= j < |gs| && Matches(fs[i], gs[j]);
      MatchedFields(fs[i], gs[j]);
      assert FromField(p, gs[j]);
    }
    if j :| CoveredBack(fs, gs) && 0 <= j < |gs| && FromField(p, gs[j]) {
      var i :| 0 <= i < |fs| && Matches(fs[i], gs[j]);
      MatchedFields(fs[i], gs[j]);
      assert FromField(p, fs[i]);
    }
  }

  lemma {:induction false} SameObjects(fs: seq<Field>, gs: seq<Field>)
    requires Wf(Obj(fs)) && Wf(Obj(gs)) && ValuesDecided(fs, gs) && Same(Obj(fs), Obj(gs))
    ensures Canon(Obj(fs)) == Canon(Obj(gs))
  {
    SameIsCovered(fs, gs);
    hide Same, CanonFields, Covered, CoveredBack, ValuesDecided;
    forall p ensures p in CanonFields(fs) <==> p in CanonFields(gs) {
      CarriedOver(fs, gs, p);
    }
    CanonFieldsDistinct(fs);
    CanonFieldsDistinct(gs);
    SortOfSameElements(FieldRank, CanonFields(fs), CanonFields(gs));
  }

  lemma {:induction false} EqualObjects(fs: seq<Field>, gs: seq<Field>)
    requires ValuesDecided(fs, gs) && Canon(Obj(fs)) == Canon(Obj(gs))
    ensures Same(Obj(fs), Obj(gs))
  {
    SameIsCovered(fs, gs);
    hide Same, Matches;
    forall i | 0 <= i < |fs| && Effective(fs[i]) ensures exists j :: 0 <= j < |gs| && Matches(fs[i], gs[j]) {
      var p := Field(fs[i].key, Canon(fs[i].value));
      assert FromField(p, fs[i]);
      CanonObject(fs, p);
      CanonObject(gs, p);
      var j :| 0 <= j < |gs| && FromField(p, gs[j]);
      MatchedFields(fs[i], gs[j]);
    }
    forall j | 0 <= j < |gs| && Effective(gs[j]) ensures exists i :: 0 <= i < |fs| && Matches(fs[i], gs[j]) {
      var p := Field(gs[j].key, Canon(gs[j].value));
      assert FromField(p, gs[j]);
      CanonObject(fs, p);
      CanonObject(gs, p);
      var i :| 0 <= i < |fs| && FromField(p, fs[i]);
      MatchedFields(fs[i], gs[j]);
    }
  }

  // ----- the canonical form is a form -----

  lemma {:induction false} CanonDefined(v: Json)
    ensures Canon(v) == Undefined <==> v == Undefined
  {
  }

  /** The canonical form is well-formed and has the content of the value. */
  lemma {:induction false} CanonIsSame(v: Json)
    requires Wf(v)
    ensures Wf(Canon(v)) && Same(v, Canon(v))
    decreases v
  {
    match v {
      case Arr(items) =>
        forall i | 0 <= i < |items| ensures Wf(CanonItems(items)[i]) && Same(items[i], CanonItems(items)[i]) {
          CanonIsSame(items[i]);
        }
      case Obj(fields) =>
        forall i | 0 <= i < |fields| ensures Wf(Canon(fields[i].value)) && Same(fields[i].value, Canon(fields[i].value)) {
          CanonIsSame(fields[i].value);
        }
        CanonObjectIsSame(fields);
      case _ =>
    }
  }

  lemma {:induction false} CanonObjectIsSame(fields: seq<Field>)
    requires Wf(Obj(fields))
    requires forall i :: 0 <= i < |fields| ==> Wf(Canon(fields[i].value)) && Same(fields[i].value, Canon(fields[i].value))
    ensures Wf(Canon(Obj(fields))) && Same(Obj(fields), Canon(Obj(fields)))
  {
    var sorted := Canon(Obj(fields)).fields;
    forall j | 0 <= j < |sorted|
      ensures Effective(sorted[j]) && Wf(sorted[j].value) && exists i :: 0 <= i < |fields| && Matches(fields[i], sorted[j])
    {
      CanonObject(fields, sorted[j]);
      var i :| 0 <= i < |fields| && FromField(sorted[j], fields[i]);
      CanonDefined(fields[i].value);
      assert Matches(fields[i], sorted[j]);
    }
    forall i | 0 <= i < |fields| && Effective(fields[i])
      ensures exists j :: 0 <= j < |sorted| && Matches(fields[i], sorted[j])
    {
      var p := Field(fields[i].key, Canon(fields[i].value));
      assert FromField(p, fields[i]);
      CanonObject(fields, p);
      var j :| 0 <= j < |sorted| && sorted[j] == p;
      CanonDefined(fields[i].value);
      assert Matches(fields[i], sorted[j]);
    }
    CanonFieldsDistinct(fields);
    SortBySorted(FieldRank, CanonFields(fields));
    forall i, j | 0 <= i < j < |sorted| ensures sorted[i].key != sorted[j].key {
      assert Less(FieldRank(sorted[i]), FieldRank(sorted[j]));
      LessTotal(FieldRank(sorted[i]), FieldRank(sorted[j]));
    }
  }

  /** Canonising twice changes nothing more. */
  lemma {:induction false} CanonIdempotent(v: Json)
    requires Wf(v)
    ensures Canon(Canon(v)) == Canon(v)
  {
    CanonIsSame(v);
    CanonIffSame(v, Canon(v));
  }

  /** A permutation of the fields of an object, as the simplest case of "same content". */
  lemma {:induction false} FieldOrderIgnored(fs: seq<Field>, gs: seq<Field>)
    requires Wf(Obj(fs)) && Wf(Obj(gs)) && multiset(fs) == multiset(gs)
    ensures Canon(Obj(fs)) == Canon(Obj(gs))
  {
    forall p ensures p in CanonFields(fs) <==> p in CanonFields(gs) {
      CanonFieldsElements(fs, p);
      CanonFieldsElements(gs, p);
      if i :| 0 <= i < |fs| && FromField(p, fs[i]) {
        assert fs[i] in multiset(gs);
        var j :| 0 <= j < |gs| && gs[j] == fs[i];
      }
      if j :| 0 <= j < |gs| && FromField(p, gs[j]) {
        assert gs[j] in multiset(fs);
        var i :| 0 <= i < |fs| && fs[i] == gs[j];
      }
    }
    CanonFieldsDistinct(fs);
    CanonFieldsDistinct(gs);
    SortOfSameElements(FieldRank, CanonFields(fs), CanonFields(gs));
  }

  // ----- the order of the fields -----

  /** Names that are the decimal text of an array index. */
  ghost predicate IndexName(key: string) {
    exists n: nat :: n < 4294967295 && key == NatText(n)
  }

  /** A digit string without leading zero is what its value prints. */
  lemma {:induction false} PrintsBack(s: string)
    requires AllDigits(s) && s != "" && (s[0] == '0' ==> s == "0")
    ensures NatText(Val(s)) == s
  {
    if |s| == 1 {
      assert s[..0] == "" && s == [s[0]];
    } else {
      var init, last := s[..|s| - 1], s[|s| - 1];
      PrintsBack(init);
      ValZeroIffAllZeros(init);
      assert init[0] == s[0];
      assert Val(s) == 10 * Val(init) + DigitOf(last) && s == init + [last];
      assert DigitChar(DigitOf(last)) == last;
    }
  }

  lemma {:induction false} NoLeadingZero(n: nat)
    ensures NatText(n)[0] == '0' ==> n == 0
  {
    if n >= 10 {
      NoLeadingZero(n / 10);
      assert NatText(n)[0] == NatText(n / 10)[0];
    }
  }

  lemma {:induction false} IndexNames(key: string)
    ensures IsIndex(key) <==> IndexName(key)
  {
    if IsIndex(key) {
      PrintsBack(key);
      assert Val(key) < 4294967295 && key == NatText(Val(key));
    }
    if n: nat :| n < 4294967295 && key == NatText(n) {
      ValNatText(n);
      NoLeadingZero(n);
      assert Pow10(10) == 10000000000 by {
        assert Pow10(5) == 100000;
        Pow10Add(5, 5);
      }
      NatTextLength(n, 10);
      assert n == 0 ==> key == "0";
    }
  }

  lemma {:induction false} FirstDigit(s: string)
    requires AllDigits(s) && s != ""
    ensures Val(s) == Mul(DigitOf(s[0]), Pow10(|s| - 1)) + Val(s[1..]) && Val(s[1..]) < Pow10(|s| - 1)
  {
    assert s == [s[0]] + s[1..];
    ValConcat([s[0]], s[1..]);
    assert [s[0]][..0] == "";
    ValBound(s[1..]);
  }

  /** A greater leading digit outweighs what follows. */
  lemma {:induction false} LeadingDecides(x: nat, y: nat, p: nat, r: nat, q: nat)
    requires x < y && r < p
    ensures Mul(x, p) + r < Mul(y, p) + q
  {
    MulMonotone(x + 1, y, p);
    assert (x + 1) * p == x * p + p;
  }

  lemma {:induction false} LessHead(a: string, b: string)
    requires Less(a, b) && |a| == |b|
    ensures a != "" && (a[0] < b[0] || (a[0] == b[0] && Less(a[1..], b[1..])))
  {
  }

  lemma {:induction false} SameLengthOrder(a: string, b: string)
    requires AllDigits(a) && AllDigits(b) && |a| == |b| && Less(a, b)
    ensures Val(a) < Val(b)
  {
    hide Less, Val, Pow10, Mul;
    LessHead(a, b);
    FirstDigit(a);
    FirstDigit(b);
    if a[0] == b[0] {
      SameLengthOrder(a[1..], b[1..]);
    } else {
      LeadingDecides(DigitOf(a[0]), DigitOf(b[0]), Pow10(|a| - 1), Val(a[1..]), Val(b[1..]));
    }
  }

  lemma {:induction false} Pow10Grows(m: nat, n: nat)
    requires m <= n
    ensures Pow10(m) <= Pow10(n)
  {
    Pow10Add(m, n - m);
    MulMonotone(1, Pow10(n - m), Pow10(m));
  }

  /** A longer text without leading zero denotes more. */
  lemma {:induction false} LongerIsMore(a: string, b: string)
    requires AllDigits(a) && AllDigits(b) && |a| < |b| && b[0] != '0'
    ensures Val(a) < Val(b)
  {
    hide Val, Pow10, Mul;
    ValBound(a);
    FirstDigit(b);
    Pow10Grows(|a|, |b| - 1);
    LeadingDecides(0, DigitOf(b[0]), Pow10(|b| - 1), Val(a), Val(b[1..]));
    ZeroTimes(Pow10(|b| - 1));
  }

  lemma {:induction false} ZeroTimes(p: nat)
    ensures Mul(0, p) == 0
  {
  }

  lemma {:induction false} RankOrder(a: string, b: string)
    requires Less(Rank(a), Rank(b))
    ensures IsIndex(b) ==> IsIndex(a)
    ensures IsIndex(a) && IsIndex(b) ==> Val(a) < Val(b)
    ensures !IsIndex(a) && !IsIndex(b) ==> Less(a, b)
  {
    var x, y := Rank(a), Rank(b);
    if IsIndex(a) && IsIndex(b) {
      assert x[1..] == [|a| as char] + a && y[1..] == [|b| as char] + b;
      assert x[1..][1..] == a && y[1..][1..] == b;
      if |a| == |b| {
        SameLengthOrder(a, b);
      } else {
        LongerIsMore(a, b);
      }
    } else if !IsIndex(a) && !IsIndex(b) {
      assert x[1..] == a && y[1..] == b;
    }
  }

  /** Canonical objects list array indices first, by magnitude, and then the other names in code-unit order. */
  lemma {:induction false} EnumerationOrder(fields: seq<Field>, i: nat, j: nat)
    requires Wf(Obj(fields)) && i < j < |Canon(Obj(fields)).fields|
    ensures var a, b := Canon(Obj(fields)).fields[i].key, Canon(Obj(fields)).fields[j].key;
            && (IndexName(b) ==> IndexName(a))
            && (IndexName(a) && IndexName(b) ==> AllDigits(a) && AllDigits(b) && Val(a) < Val(b))
            && (!IndexName(a) && !IndexName(b) ==> Less(a, b))
  {
    var sorted := Canon(Obj(fields)).fields;
    CanonFieldsDistinct(fields);
    SortBySorted(FieldRank, CanonFields(fields));
    assert Less(FieldRank(sorted[i]), FieldRank(sorted[j]));
    hide Rank, Less, IndexName, Val;
    RankOrder(sorted[i].key, sorted[j].key);
    IndexNames(sorted[i].key);
    IndexNames(sorted[j].key);
  }

  // ----- property access -----

  /** `value[key]` on an object; absent properties, and properties of other values, read as undefined. */
  function Get(v: Json, key: string): Json {
    if v.Obj? then Lookup(v.fields, key) else Undefined
  }

  function Lookup(fields: seq<Field>, key: string): Json {
    if fields == [] then Undefined
    else if fields[0].key == key then fields[0].value
    else Lookup(fields[1..], key)
  }

  /** Reading gives the first field of the name; every other name, and every name of another value, reads as undefined. */
  lemma {:induction false} ReadsExactly(v: Json, key: string, i: nat)
    ensures v.Obj? && i < |v.fields| && v.fields[i].key == key && (forall j :: 0 <= j < i ==> v.fields[j].key != key) ==>
              Get(v, key) == v.fields[i].value
    ensures !v.Obj? || (forall f :: f in v.fields ==> f.key != key) ==> Get(v, key) == Undefined
  {
    if v.Obj? {
      if i < |v.fields| && v.fields[i].key == key && forall j :: 0 <= j < i ==> v.fields[j].key != key {
        FirstRead(v.fields, key, i);
      }
      LookupSource(v.fields, key);
    }
  }

  lemma {:induction false} FirstRead(fields: seq<Field>, key: string, i: nat)
    requires i < |fields| && fields[i].key == key && forall j :: 0 <= j < i ==> fields[j].key != key
    ensures Lookup(fields, key) == fields[i].value
  {
    if i > 0 {
      FirstRead(fields[1..], key, i - 1);
    }
  }

  lemma {:induction false} LookupFinds(fields: seq<Field>, i: nat)
    requires i < |fields| && forall k, j :: 0 <= k < j < |fields| ==> fields[k].key != fields[j].key
    ensures Lookup(fields, fields[i].key) == fields[i].value
  {
    if i > 0 {
      assert fields[0].key != fields[i].key;
      LookupFinds(fields[1..], i - 1);
    }
  }

  lemma {:induction false} LookupSource(fields: seq<Field>, key: string)
    ensures Lookup(fields, key) != Undefined ==>
              exists i :: 0 <= i < |fields| && fields[i].key == key && fields[i].value == Lookup(fields, key)
    decreases |fields|
  {
    if fields != [] && fields[0].key != key {
      LookupSource(fields[1..], key);
      if i :| 0 <= i < |fields[1..]| && fields[1..][i].key == key && fields[1..][i].value == Lookup(fields[1..], key) {
        assert fields[i + 1].key == key;
      }
    }
  }

  /** Reading a property commutes with canonising. */
  lemma {:induction false} GetCanon(v: Json, key: string)
    requires Wf(v) && key != "__proto__"
    ensures Get(Canon(v), key) == Canon(Get(v, key))
  {
    if v.Obj? {
      var x, y, sorted := Get(v, key), Get(Canon(v), key), Canon(v).fields;
      CanonIsSame(v);
      LookupSource(v.fields, key);
      LookupSource(sorted, key);
      if x != Undefined {
        var i :| 0 <= i < |v.fields| && v.fields[i].key == key && v.fields[i].value == x;
        var p := Field(key, Canon(x));
        assert FromField(p, v.fields[i]);
        CanonObject(v.fields, p);
        var j :| 0 <= j < |sorted| && sorted[j] == p;
        LookupFinds(sorted, j);
      } else if y != Undefined {
        var j :| 0 <= j < |sorted| && sorted[j].key == key && sorted[j].value == y;
        CanonObject(v.fields, sorted[j]);
        var i :| 0 <= i < |v.fields| && FromField(sorted[j], v.fields[i]);
        LookupFinds(v.fields, i);
      }
    }
  }

  /** The keys on which "__proto__" is lost: canonising an object with that field forgets it. */
  lemma {:induction false} ProtoFieldForgotten(x: Json)
    ensures Canon(Obj([Field("__proto__", x)])) == Obj([])
  {
    assert CanonFields([Field("__proto__", x)]) == [];
  }
}
