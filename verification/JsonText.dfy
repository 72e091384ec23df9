/** A printing of JSON that parses back, with any digest: the assumption made of the platform can be met. */
module JsonText {
  import opened Prelude
  import opened Digits
  import opened CanonicalJson
  import opened AuditPackage

  /** A length as a run of ones closed by a zero, and a text behind its length. */
  function Length(n: nat): string {
    if n == 0 then "0" else "1" + Length(n - 1)
  }

  function Text(s: string): string {
    Length(|s|) + s
  }

  predicate Whole(n: real) {
    n == n.Floor as real
  }

  function Encode(v: Json): string {
    match v
    case Undefined => "u"
    case Null => "z"
    case Bool(b) => if b then "t" else "f"
    case Num(n) => "n" + Text(IntText(n.Floor))
    case Str(s) => "s" + Text(s)
    case Arr(items) => "a" + EncodeItems(items)
    case Obj(fields) => "o" + EncodeFields(fields)
  }

  function EncodeItems(items: seq<Json>): string {
    if items == [] then "." else "," + Encode(items[0]) + EncodeItems(items[1..])
  }

  function EncodeFields(fields: seq<Field>): string {
    if fields == [] then "." else "," + Text(fields[0].key) + Encode(fields[0].value) + EncodeFields(fields[1..])
  }

  /** Numbers at every depth are whole. */
  ghost predicate Printable(v: Json) {
    match v
    case Num(n) => Whole(n)
    case Arr(items) => forall i :: 0 <= i < |items| ==> Printable(items[i])
    case Obj(fields) => forall i :: 0 <= i < |fields| ==> Printable(fields[i].value)
    case _ => true
  }

  lemma {:induction false} LengthSplits(m: nat, n: nat, x: string, y: string)
    requires Length(m) + x == Length(n) + y
    ensures m == n && x == y
  {
    assert (Length(m) + x)[0] == (Length(n) + y)[0];
    if m > 0 && n > 0 {
      assert (Length(m) + x)[1..] == Length(m - 1) + x && (Length(n) + y)[1..] == Length(n - 1) + y;
      LengthSplits(m - 1, n - 1, x, y);
    } else {
      assert (Length(m) + x)[1..] == x && (Length(n) + y)[1..] == y;
    }
  }

  lemma {:induction false} TextSplits(s: string, t: string, x: string, y: string)
    requires Text(s) + x == Text(t) + y
    ensures s == t && x == y
  {
    assert Text(s) + x == Length(|s|) + (s + x) && Text(t) + y == Length(|t|) + (t + y);
    LengthSplits(|s|, |t|, s + x, t + y);
    assert (s + x)[..|s|] == s && (t + y)[..|t|] == t;
    assert (s + x)[|s|..] == x && (t + y)[|t|..] == y;
  }

  lemma {:induction false} Tail(c: string, s: string, x: string)
    requires |c| == 1
    ensures (c + s + x)[0] == c[0] && (c + s + x)[1..] == s + x
  {
  }

  lemma {:induction false} Behind(u: string, v: string, w: string, x: string)
    ensures var t := "," + u + v + w + x; t[0] == ',' && t[1..] == u + (v + (w + x))
  {
  }

  lemma {:induction false} BehindOne(v: string, w: string, x: string)
    ensures var t := "," + v + w + x; t[0] == ',' && t[1..] == v + (w + x)
  {
  }

  /** No encoding is a prefix of another. */
  lemma {:induction false} EncodeSplits(v: Json, w: Json, x: string, y: string)
    requires Printable(v) && Printable(w) && Encode(v) + x == Encode(w) + y
    ensures v == w && x == y
    decreases v
  {
    assert (Encode(v) + x)[0] == (Encode(w) + y)[0];
    assert Encode(v)[0] == Encode(w)[0];
    match v {
      case Num(n) =>
        Tail("n", Text(IntText(n.Floor)), x);
        Tail("n", Text(IntText(w.n.Floor)), y);
        TextSplits(IntText(n.Floor), IntText(w.n.Floor), x, y);
        IntTextRoundTrip(n.Floor);
        IntTextRoundTrip(w.n.Floor);
      case Str(s) =>
        Tail("s", Text(s), x);
        Tail("s", Text(w.s), y);
        TextSplits(s, w.s, x, y);
      case Arr(items) =>
        Tail("a", EncodeItems(items), x);
        Tail("a", EncodeItems(w.items), y);
        ItemsSplit(items, w.items, x, y);
      case Obj(fields) =>
        Tail("o", EncodeFields(fields), x);
        Tail("o", EncodeFields(w.fields), y);
        FieldsSplit(fields, w.fields, x, y);
      case _ =>
        assert (Encode(v) + x)[1..] == x && (Encode(w) + y)[1..] == y;
    }
  }

  lemma {:induction false} ItemsUnfold(vs: seq<Json>, x: string)
    ensures var t := EncodeItems(vs) + x;
            if vs == [] then t[0] == '.' && t[1..] == x
            else t[0] == ',' && t[1..] == Encode(vs[0]) + (EncodeItems(vs[1..]) + x)
  {
    hide Encode;
    if vs == [] {
      Tail(".", "", x);
    } else {
      BehindOne(Encode(vs[0]), EncodeItems(vs[1..]), x);
    }
  }

  lemma {:induction false} ItemsSplit(vs: seq<Json>, ws: seq<Json>, x: string, y: string)
    requires Printable(Arr(vs)) && Printable(Arr(ws)) && EncodeItems(vs) + x == EncodeItems(ws) + y
    ensures vs == ws && x == y
    decreases vs
  {
    hide Encode, EncodeItems;
    ItemsUnfold(vs, x);
    ItemsUnfold(ws, y);
    if vs != [] && ws != [] {
      EncodeSplits(vs[0], ws[0], EncodeItems(vs[1..]) + x, EncodeItems(ws[1..]) + y);
      ItemsSplit(vs[1..], ws[1..], x, y);
      assert vs == [vs[0]] + vs[1..] && ws == [ws[0]] + ws[1..];
    }
  }

  lemma {:induction false} FieldsUnfold(fs: seq<Field>, x: string)
    ensures var t := EncodeFields(fs) + x;
            if fs == [] then t[0] == '.' && t[1..] == x
            else t[0] == ',' && t[1..] == Text(fs[0].key) + (Encode(fs[0].value) + (EncodeFields(fs[1..]) + x))
  {
    hide Encode, Text;
    if fs == [] {
      Tail(".", "", x);
    } else {
      Behind(Text(fs[0].key), Encode(fs[0].value), EncodeFields(fs[1..]), x);
    }
  }

  lemma {:induction false} FieldsSplit(fs: seq<Field>, gs: seq<Field>, x: string, y: string)
    requires Printable(Obj(fs)) && Printable(Obj(gs)) && EncodeFields(fs) + x == EncodeFields(gs) + y
    ensures fs == gs && x == y
    decreases fs
  {
    hide Encode, EncodeFields, Text;
    FieldsUnfold(fs, x);
    FieldsUnfold(gs, y);
    if fs != [] && gs != [] {
      var p, q := EncodeFields(fs[1..]) + x, EncodeFields(gs[1..]) + y;
      TextSplits(fs[0].key, gs[0].key, Encode(fs[0].value) + p, Encode(gs[0].value) + q);
      EncodeSplits(fs[0].value, gs[0].value, p, q);
      FieldsSplit(fs[1..], gs[1..], x, y);
      assert fs == [fs[0]] + fs[1..] && gs == [gs[0]] + gs[1..];
    }
  }

  ghost function Decode(text: string): Option<Json> {
    if exists v :: Printable(v) && Encode(v) == text then
      var v :| Printable(v) && Encode(v) == text;
      Some(v)
    else None
  }

  lemma {:induction false} DecodeEncode(v: Json)
    requires Printable(v)
    ensures Decode(Encode(v)) == Some(v)
  {
    var w := Decode(Encode(v)).value;
    EncodeSplits(v, w, "", "");
  }

  lemma {:induction false} CanonPrintable(platform: Platform, v: Json)
    requires platform.isNumber == Whole && platform.Storable(v)
    ensures Printable(Canon(v))
    decreases v
  {
    match v {
      case Arr(items) =>
        forall i | 0 <= i < |items| ensures Printable(Canon(items[i])) {
          CanonPrintable(platform, items[i]);
        }
      case Obj(fields) =>
        var canonical := Canon(v).fields;
        forall i | 0 <= i < |canonical| ensures Printable(canonical[i].value) {
          CanonObject(fields, canonical[i]);
          var j :| 0 <= j < |fields| && FromField(canonical[i], fields[j]);
          CanonPrintable(platform, fields[j].value);
        }
      case _ =>
    }
  }

  /** Some platform prints faithfully all data whose numbers are whole, whatever its digest. */
  lemma {:induction false} FaithfulPlatformExists(digest: string -> string) returns (platform: Platform)
    ensures platform.Faithful() && platform.digest == digest && platform.isNumber == Whole
  {
    platform := Platform(Encode, v => Decode(v), Whole, digest);
    forall v | Wf(v) && platform.Storable(v) ensures platform.parse(platform.stringify(Canon(v))) == Some(Canon(v)) {
      CanonPrintable(platform, v);
      DecodeEncode(Canon(v));
    }
  }
}
