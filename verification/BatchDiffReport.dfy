/** What a batch comparison reports, said of the two batches: keys, entries, fields and kinds, each exactly. */
module BatchDiffReport {
  import opened Prelude
  import opened Digits
  import opened Text
  import opened Sorting
  import opened OrderedMaps
  import opened BatchDiffEngine

  /** The records compared: the first of each key. */
  function Batch(list: seq<BatchRecord>): map<string, BatchRecord> {
    Index(list).vals
  }

  /** A record goes by its id as written, and by its position where the id is missing or only white space. */
  lemma {:induction false} KeyExactly(r: BatchRecord, i: nat)
    ensures RecordId(r, i) == if r.id.None? || AllSpace(r.id.value) then "__i:" + NatText(i) else r.id.value
  {
    if r.id.Some? {
      BlankExactly(r.id.value);
    }
  }

  // ----- the compared fields -----

  /** Numbers and big integers are compared as their text; an amount of another type counts as none. */
  lemma {:induction false} AmountTextExactly(n: int, s: string)
    ensures AmountText(Some(Big(n))) == Some(IntText(n)) && AmountText(Some(Txt(s))) == Some(s) && AmountText(Some(Number(s))) == Some(s)
    ensures AmountText(None) == None && AmountText(Some(OtherAmount)) == None
  {
  }

  /** Text fields differ where at least one is a text and they are not the same; an absent one is the empty text. */
  predicate TextMoved(x: MetaValue, y: MetaValue) {
    && x != y && (x.Text? || y.Text?)
    && (x == Absent ==> y.s != "") && (y == Absent ==> x.s != "")
  }

  predicate FieldMoved(f: string, p: BatchRecord, c: BatchRecord) {
    || (f == "amount" && AmountText(p.amount) != AmountText(c.amount))
    || (f == "asset" && p.asset != c.asset && !(p.asset == None && c.asset == Some("")) && !(p.asset == Some("") && c.asset == None))
    || (f == "meta" && TextMoved(p.meta, c.meta))
    || (f == "commitment" && TextMoved(p.commitment, c.commitment))
    || (f == "commitmentHash" && TextMoved(p.commitmentHash, c.commitmentHash))
    || (f == "noteHash" && TextMoved(p.noteHash, c.noteHash))
  }

  /** The amount first, the asset next, the others once each in text order. */
  predicate InFieldOrder(fields: seq<string>) {
    forall i, j :: 0 <= i < j < |fields| ==>
      && fields[j] != "amount"
      && (fields[i] == "amount" || (fields[j] != "asset" && (fields[i] == "asset" || Less(fields[i], fields[j]))))
  }

  lemma {:induction false} TextMovedMeans(x: MetaValue, y: MetaValue)
    ensures TextMoved(x, y) <==> MetaDiffers(x, y)
  {
  }

  function OtherFields(p: BatchRecord, c: BatchRecord): seq<string> {
    If(MetaDiffers(p.meta, c.meta), "meta") + If(MetaDiffers(p.commitment, c.commitment), "commitment")
    + If(MetaDiffers(p.commitmentHash, c.commitmentHash), "commitmentHash") + If(MetaDiffers(p.noteHash, c.noteHash), "noteHash")
  }

  lemma {:induction false} OtherFieldsExactly(p: BatchRecord, c: BatchRecord)
    ensures DistinctKeys((f: string) => f, OtherFields(p, c))
    ensures forall f :: f in OtherFields(p, c) <==>
              || (f == "meta" && TextMoved(p.meta, c.meta)) || (f == "commitment" && TextMoved(p.commitment, c.commitment))
              || (f == "commitmentHash" && TextMoved(p.commitmentHash, c.commitmentHash))
              || (f == "noteHash" && TextMoved(p.noteHash, c.noteHash))
  {
    hide TextMoved, MetaDiffers;
    TextMovedMeans(p.meta, c.meta);
    TextMovedMeans(p.commitment, c.commitment);
    TextMovedMeans(p.commitmentHash, c.commitmentHash);
    TextMovedMeans(p.noteHash, c.noteHash);
    assert |"meta"| == 4 && |"commitment"| == 10 && |"commitmentHash"| == 14 && |"noteHash"| == 8;
  }

  lemma {:induction false} Assembled(amount: bool, asset: bool, rest: seq<string>)
    requires StrictlySorted((f: string) => f, rest) && forall f :: f in rest ==> f != "amount" && f != "asset"
    ensures InFieldOrder(If(amount, "amount") + If(asset, "asset") + rest)
    ensures forall f :: f in If(amount, "amount") + If(asset, "asset") + rest <==>
              f in rest || (f == "amount" && amount) || (f == "asset" && asset)
  {
    hide Less;
    var first := If(amount, "amount") + If(asset, "asset");
    var all := first + rest;
    forall i, j | 0 <= i < j < |all| && i >= |first| ensures Less(all[i], all[j]) && all[j] in rest && all[i] in rest {
      assert Less(((f: string) => f)(rest[i - |first|]), ((f: string) => f)(rest[j - |first|]));
    }
    forall j | |first| <= j < |all| ensures all[j] in rest {
    }
  }

  /** The changed fields of two records are those in which they differ, in the documented order. */
  lemma {:induction false} FieldsExactly(p: BatchRecord, c: BatchRecord, f: string)
    ensures f in ChangedFields(p, c) <==> FieldMoved(f, p, c)
    ensures InFieldOrder(ChangedFields(p, c))
  {
    hide AmountText, TextMoved, OtherFields, If, InFieldOrder, StrictlySorted, SortBy;
    var others := OtherFields(p, c);
    var sorted := SortBy((f: string) => f, others);
    OtherFieldsExactly(p, c);
    SortByElements((f: string) => f, others);
    SortBySorted((f: string) => f, others);
    FieldsAre(p, c, sorted);
    forall g | g in sorted ensures g != "amount" && g != "asset" {
      assert g in others;
      assert |"amount"| == 6 && |"asset"| == 5 && "asset"[0] == 'a' && "amount"[0] == 'a';
    }
    Assembled(AmountText(p.amount) != AmountText(c.amount), AssetText(p) != AssetText(c), sorted);
  }

  lemma {:induction false} FieldsAre(p: BatchRecord, c: BatchRecord, sorted: seq<string>)
    requires sorted == SortBy((f: string) => f, OtherFields(p, c))
    ensures ChangedFields(p, c) == If(AmountText(p.amount) != AmountText(c.amount), "amount") + If(AssetText(p) != AssetText(c), "asset") + sorted
  {
  }

  // ----- the entries -----

  /** A record as reported: as it is, or with its amount, if it has that property, replaced. */
  function AsReported(r: BatchRecord, show: bool): BatchRecord {
    if show || r.amount == None then r
    else BatchRecord(r.id, Some(Txt("[redacted]")), r.asset, r.meta, r.commitment, r.commitmentHash, r.noteHash)
  }

  lemma {:induction false} ReportedMeans(r: BatchRecord, show: bool)
    ensures Hide(r, show) == AsReported(r, show)
  {
  }

  /** The entry of a key that only one batch has. */
  predicate OnlyEntry(c: Change, m: map<string, BatchRecord>, other: map<string, BatchRecord>, added: bool,
                      show: bool) {
    && c.id in m && c.id !in other && c.fields == []
    && if added then c.kind == AddedKind && c.prev == None && c.curr == Some(AsReported(m[c.id], show))
       else c.kind == RemovedKind && c.curr == None && c.prev == Some(AsReported(m[c.id], show))
  }

  /** The entry of a key both batches have, with records that differ: the kind is that of the weightiest changed field. */
  predicate ChangedEntry(c: Change, a: map<string, BatchRecord>, b: map<string, BatchRecord>, show: bool) {
    && c.id in a && c.id in b && c.fields != [] && c.fields == ChangedFields(a[c.id], b[c.id])
    && c.prev == Some(AsReported(a[c.id], show)) && c.curr == Some(AsReported(b[c.id], show))
    && (c.kind == AmountChanged <==> FieldMoved("amount", a[c.id], b[c.id]))
    && (c.kind == AssetChanged <==> !FieldMoved("amount", a[c.id], b[c.id]) && FieldMoved("asset", a[c.id], b[c.id]))
    && c.kind in {AmountChanged, AssetChanged, CommitmentChanged}
  }

  lemma {:induction false} OnlyInMembers(keys: seq<string>, m: map<string, BatchRecord>,
                                         other: map<string, BatchRecord>, added: bool, show: bool, c: Change)
    requires forall k :: k in keys ==> k in m
    ensures c in OnlyIn(keys, m, other, added, show) <==> c.id in keys && OnlyEntry(c, m, other, added, show)
  {
    hide Hide, AsReported;
    if keys != [] {
      OnlyInMembers(keys[..|keys| - 1], m, other, added, show, c);
      ReportedMeans(m[keys[|keys| - 1]], show);
      assert keys == keys[..|keys| - 1] + [keys[|keys| - 1]];
    }
  }

  lemma {:induction false} OnlyInDistinct(keys: seq<string>, m: map<string, BatchRecord>,
                                          other: map<string, BatchRecord>, added: bool, show: bool)
    requires (forall k :: k in keys ==> k in m) && Distinct(keys)
    ensures DistinctKeys(IdOf, OnlyIn(keys, m, other, added, show))
  {
    hide Hide;
    if keys != [] {
      var k, init := keys[|keys| - 1], keys[..|keys| - 1];
      OnlyInDistinct(init, m, other, added, show);
      var found := OnlyIn(init, m, other, added, show);
      forall i | 0 <= i < |found| ensures found[i].id != k {
        OnlyInMembers(init, m, other, added, show, found[i]);
      }
    }
  }

  lemma {:induction false} ChangedMeans(c: Change, a: map<string, BatchRecord>, b: map<string, BatchRecord>, show: bool)
    requires c.id in a && c.id in b
    ensures ChangedEntry(c, a, b, show) <==> ChangedFields(a[c.id], b[c.id]) != [] && c == ChangeAt(c.id, a[c.id], b[c.id], show)
  {
    hide Hide, AsReported, ChangedFields, FieldMoved;
    ReportedMeans(a[c.id], show);
    ReportedMeans(b[c.id], show);
    FieldsExactly(a[c.id], b[c.id], "amount");
    FieldsExactly(a[c.id], b[c.id], "asset");
  }

  /**
   * The three lists of a report hold exactly the entries of the keys only the second batch has, only the first has, and
   * both have with a difference; each key once, in text order; and the total counts them.
   */
  lemma {:induction false} EntriesExactly(a: seq<BatchRecord>, b: seq<BatchRecord>, show: bool, c: Change)
    ensures var r := DiffSpec(a, b, show);
            && (c in r.added <==> OnlyEntry(c, Batch(b), Batch(a), true, show))
            && (c in r.removed <==> OnlyEntry(c, Batch(a), Batch(b), false, show))
            && (c in r.changed <==> ChangedEntry(c, Batch(a), Batch(b), show))
            && StrictlySorted((x: Change) => x.id, r.added) && StrictlySorted((x: Change) => x.id, r.removed)
            && StrictlySorted((x: Change) => x.id, r.changed)
            && r.total == |r.added| + |r.removed| + |r.changed| && (r.hasDifferences <==> r.total != 0)
  {
    hide Index, OnlyIn, ChangedIn, ChangedFields, OnlyEntry, ChangedEntry, SortBy, ChangeAt, StrictlySorted, DistinctKeys;
    var mapA, mapB := Index(a), Index(b);
    OnlyInMembers(mapB.keys, mapB.vals, mapA.vals, true, show, c);
    OnlyInMembers(mapA.keys, mapA.vals, mapB.vals, false, show, c);
    ChangedInElements(mapA.keys, mapA.vals, mapB.vals, show, c);
    EntryIds(c, mapA.vals, mapB.vals, show);
    OnlyInDistinct(mapB.keys, mapB.vals, mapA.vals, true, show);
    OnlyInDistinct(mapA.keys, mapA.vals, mapB.vals, false, show);
    ChangedInDistinct(mapA.keys, mapA.vals, mapB.vals, show);
    SortedById(OnlyIn(mapB.keys, mapB.vals, mapA.vals, true, show));
    SortedById(OnlyIn(mapA.keys, mapA.vals, mapB.vals, false, show));
    SortedById(ChangedIn(mapA.keys, mapA.vals, mapB.vals, show));
  }

  lemma {:induction false} EntryIds(c: Change, a: map<string, BatchRecord>, b: map<string, BatchRecord>, show: bool)
    ensures OnlyEntry(c, a, b, false, show) ==> c.id in a
    ensures OnlyEntry(c, b, a, true, show) ==> c.id in b
    ensures ChangedEntry(c, a, b, show) ==> c.id in a && c.id in b
    ensures c.id in a && c.id in b ==>
              (ChangedEntry(c, a, b, show) <==> ChangedFields(a[c.id], b[c.id]) != [] && c == ChangeAt(c.id, a[c.id], b[c.id], show))
  {
    hide ChangedFields, ChangeAt, AsReported, FieldMoved;
    if c.id in a && c.id in b {
      ChangedMeans(c, a, b, show);
    }
  }

  lemma {:induction false} SortedById(cs: seq<Change>)
    requires DistinctKeys(IdOf, cs)
    ensures StrictlySorted((x: Change) => x.id, SortBy(IdOf, cs))
    ensures forall c :: c in SortBy(IdOf, cs) <==> c in cs
  {
    SortByElements(IdOf, cs);
    SortBySorted(IdOf, cs);
  }
}
