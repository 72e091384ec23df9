/** `diffBatches`: a redacted, deterministically ordered comparison of two batches by record id. */
module BatchDiffEngine {
  import opened Prelude
  import opened Digits
  import opened Text
  import opened Sorting
  import opened OrderedMaps

  /** An `amount` property: a bigint, a string, a number with its text, or something else. */
  datatype AmountValue = Big(n: int) | Txt(s: string) | Number(text: string) | OtherAmount

  /** A property compared as text: absent or null, a string, or a value of another type. */
  datatype MetaValue = Absent | Text(s: string) | OtherMeta(identity: nat)

  datatype BatchRecord = BatchRecord(id: Option<string>, amount: Option<AmountValue>, asset: Option<string>,
                                     meta: MetaValue, commitment: MetaValue, commitmentHash: MetaValue, noteHash: MetaValue)

  datatype Kind = AddedKind | RemovedKind | AmountChanged | AssetChanged | CommitmentChanged

  datatype Change = Change(id: string, kind: Kind, fields: seq<string>, prev: Option<BatchRecord>, curr: Option<BatchRecord>)

  datatype Report = Report(added: seq<Change>, removed: seq<Change>, changed: seq<Change>, hasDifferences: bool, total: nat)

  const HIDDEN := "[redacted]"

  /** Key of a record: its id, or its position when the id is missing or blank. */
  function RecordId(r: BatchRecord, i: nat): string {
    if r.id.Some? && !Blank(r.id.value) then r.id.value else "__i:" + NatText(i)
  }

  function AmountText(a: Option<AmountValue>): Option<string> {
    match a
    case Some(Big(n)) => Some(IntText(n))
    case Some(Txt(s)) => Some(s)
    case Some(Number(text)) => Some(text)
    case _ => None
  }

  function Hide(r: BatchRecord, show: bool): BatchRecord {
    if show || r.amount.None? then r else r.(amount := Some(Txt(HIDDEN)))
  }

  /** Records by key; the first record of a key counts. */
  function Index(list: seq<BatchRecord>): (m: OrderedMap<BatchRecord>)
    ensures m.Valid()
  {
    if list == [] then Empty()
    else
      var m, i := Index(list[..|list| - 1]), |list| - 1;
      var id := RecordId(list[i], i);
      if m.Has(id) then m else m.Put(id, list[i])
  }

  /** The index holds the first record of each key. */
  lemma {:induction false} IndexKeepsFirst(list: seq<BatchRecord>, i: nat)
    requires i < |list| && forall j :: 0 <= j < i ==> RecordId(list[j], j) != RecordId(list[i], i)
    ensures RecordId(list[i], i) in Index(list).vals && Index(list).vals[RecordId(list[i], i)] == list[i]
  {
    hide RecordId;
    if i < |list| - 1 {
      IndexKeepsFirst(list[..|list| - 1], i);
    } else {
      NotYetIndexed(list[..i], RecordId(list[i], i));
    }
  }

  lemma {:induction false} NotYetIndexed(list: seq<BatchRecord>, id: string)
    requires forall j :: 0 <= j < |list| ==> RecordId(list[j], j) != id
    ensures id !in Index(list).vals
  {
    hide RecordId;
    if list != [] {
      NotYetIndexed(list[..|list| - 1], id);
    }
  }

  function Nullish(x: MetaValue): MetaValue {
    if x == Absent then Text("") else x
  }

  predicate MetaDiffers(x: MetaValue, y: MetaValue) {
    (x.Text? || y.Text?) && Nullish(x) != Nullish(y)
  }

  function AssetText(r: BatchRecord): string {
    if r.asset.Some? then r.asset.value else ""
  }

  function If(c: bool, f: string): seq<string> {
    if c then [f] else []
  }

  /** Names of the changed fields: amount, asset, then the others in text order. */
  function ChangedFields(p: BatchRecord, c: BatchRecord): seq<string> {
    var others :=
      If(MetaDiffers(p.meta, c.meta), "meta") + If(MetaDiffers(p.commitment, c.commitment), "commitment")
      + If(MetaDiffers(p.commitmentHash, c.commitmentHash), "commitmentHash") + If(MetaDiffers(p.noteHash, c.noteHash), "noteHash");
    If(AmountText(p.amount) != AmountText(c.amount), "amount") + If(AssetText(p) != AssetText(c), "asset")
    + SortBy((f: string) => f, others)
  }

  function KindOf(fields: seq<string>): Kind {
    if "amount" in fields then AmountChanged else if "asset" in fields then AssetChanged else CommitmentChanged
  }

  function IdOf(c: Change): string {
    c.id
  }

  /** Records of `m` whose key `other` lacks. */
  function OnlyIn(keys: seq<string>, m: map<string, BatchRecord>, other: map<string, BatchRecord>, added: bool,
                  show: bool): seq<Change>
    requires forall k :: k in keys ==> k in m
  {
    if keys == [] then []
    else
      var k := keys[|keys| - 1];
      OnlyIn(keys[..|keys| - 1], m, other, added, show) +
      if k in other then []
      else if added then [Change(k, AddedKind, [], None, Some(Hide(m[k], show)))]
      else [Change(k, RemovedKind, [], Some(Hide(m[k], show)), None)]
  }

  function ChangeAt(k: string, p: BatchRecord, c: BatchRecord, show: bool): Change {
    var fields := ChangedFields(p, c);
    Change(k, KindOf(fields), fields, Some(Hide(p, show)), Some(Hide(c, show)))
  }

  function ChangedIn(keys: seq<string>, a: map<string, BatchRecord>, b: map<string, BatchRecord>,
                     show: bool): seq<Change>
    requires forall k :: k in keys ==> k in a
  {
    if keys == [] then []
    else
      var k := keys[|keys| - 1];
      ChangedIn(keys[..|keys| - 1], a, b, show) +
      if k in b && ChangedFields(a[k], b[k]) != [] then [ChangeAt(k, a[k], b[k], show)] else []
  }

  function DiffSpec(a: seq<BatchRecord>, b: seq<BatchRecord>, show: bool): Report {
    var mapA, mapB := Index(a), Index(b);
    var added := SortBy(IdOf, OnlyIn(mapB.keys, mapB.vals, mapA.vals, true, show));
    var removed := SortBy(IdOf, OnlyIn(mapA.keys, mapA.vals, mapB.vals, false, show));
    var changed := SortBy(IdOf, ChangedIn(mapA.keys, mapA.vals, mapB.vals, show));
    var total := |added| + |removed| + |changed|;
    Report(added, removed, changed, total > 0, total)
  }

  method DiffBatches(a: seq<BatchRecord>, b: seq<BatchRecord>, show: bool) returns (r: Report)
    ensures r == DiffSpec(a, b, show)
  {
    hide SortBy, Index, OnlyIn, ChangedIn;
    var mapA := BuildIndex(a);
    var mapB := BuildIndex(b);
    var added := FindOnlyIn(mapB, mapA, true, show);
    var removed := FindOnlyIn(mapA, mapB, false, show);
    var changed := FindChanged(mapA, mapB, show);
    added, removed, changed := SortBy(IdOf, added), SortBy(IdOf, removed), SortBy(IdOf, changed);
    var total := |added| + |removed| + |changed|;
    r := Report(added, removed, changed, total > 0, total);
  }

  method FindOnlyIn(m: OrderedMap<BatchRecord>, other: OrderedMap<BatchRecord>, added: bool,
                    show: bool) returns (found: seq<Change>)
    requires m.Valid() && other.Valid()
    ensures found == OnlyIn(m.keys, m.vals, other.vals, added, show)
  {
    hide Hide;
    found := [];
    for i := 0 to |m.keys|
      invariant found == OnlyIn(m.keys[..i], m.vals, other.vals, added, show)
    {
      var id := m.keys[i];
      assert m.keys[..i + 1][..i] == m.keys[..i];
      if !other.Has(id) {
        var shown := Some(Hide(m.vals[id], show));
        found := found + [if added then Change(id, AddedKind, [], None, shown) else Change(id, RemovedKind, [], shown, None)];
      }
    }
    assert m.keys[..|m.keys|] == m.keys;
  }

  method BuildIndex(list: seq<BatchRecord>) returns (m: OrderedMap<BatchRecord>)
    ensures m == Index(list)
  {
    m := Empty();
    for i := 0 to |list|
      invariant m == Index(list[..i])
    {
      assert list[..i + 1][..i] == list[..i];
      var id := RecordId(list[i], i);
      if !m.Has(id) {
        m := m.Put(id, list[i]);
      }
    }
    assert list[..|list|] == list;
  }

  method FindChanged(mapA: OrderedMap<BatchRecord>, mapB: OrderedMap<BatchRecord>,
                     show: bool) returns (changed: seq<Change>)
    requires mapA.Valid() && mapB.Valid()
    ensures changed == ChangedIn(mapA.keys, mapA.vals, mapB.vals, show)
  {
    hide ChangedFields, Hide;
    changed := [];
    for i := 0 to |mapA.keys|
      invariant changed == ChangedIn(mapA.keys[..i], mapA.vals, mapB.vals, show)
    {
      var id := mapA.keys[i];
      assert mapA.keys[..i + 1][..i] == mapA.keys[..i];
      if mapB.Has(id) {
        var fields := ChangedFields(mapA.vals[id], mapB.vals[id]);
        if |fields| > 0 {
          changed := changed + [Change(id, KindOf(fields), fields, Some(Hide(mapA.vals[id], show)), Some(Hide(mapB.vals[id], show)))];
        }
      }
    }
    assert mapA.keys[..|mapA.keys|] == mapA.keys;
  }

  // ----- swapping the arguments -----

  function SwapKind(k: Kind): Kind {
    match k case AddedKind => RemovedKind case RemovedKind => AddedKind case _ => k
  }

  /** The same change seen from the other side. */
  function Swap(c: Change): Change {
    Change(c.id, SwapKind(c.kind), c.fields, c.curr, c.prev)
  }

  function SwapAll(cs: seq<Change>): (r: seq<Change>)
    ensures |r| == |cs| && forall i :: 0 <= i < |cs| ==> r[i] == Swap(cs[i])
  {
    seq(|cs|, i requires 0 <= i < |cs| => Swap(cs[i]))
  }

  lemma {:induction false} FieldsSymmetric(p: BatchRecord, c: BatchRecord)
    ensures ChangedFields(p, c) == ChangedFields(c, p)
  {
    hide SortBy, AmountText;
  }

  lemma {:induction false} KindsOfFields(fields: seq<string>)
    ensures SwapKind(KindOf(fields)) == KindOf(fields)
  {
  }

  lemma {:induction false} ChangeAtSwaps(k: string, p: BatchRecord, c: BatchRecord, show: bool)
    ensures Swap(ChangeAt(k, p, c, show)) == ChangeAt(k, c, p, show)
  {
    FieldsSymmetric(p, c);
    KindsOfFields(ChangedFields(p, c));
  }

  lemma {:induction false} OnlyInSwaps(keys: seq<string>, m: map<string, BatchRecord>,
                                       other: map<string, BatchRecord>, added: bool, show: bool)
    requires forall k :: k in keys ==> k in m
    ensures OnlyIn(keys, m, other, !added, show) == SwapAll(OnlyIn(keys, m, other, added, show))
  {
    if keys != [] {
      OnlyInSwaps(keys[..|keys| - 1], m, other, added, show);
    }
  }

  lemma {:induction false} ChangedInElements(keys: seq<string>, a: map<string, BatchRecord>,
                                             b: map<string, BatchRecord>, show: bool, c: Change)
    requires forall k :: k in keys ==> k in a
    ensures c in ChangedIn(keys, a, b, show) <==>
            c.id in keys && c.id in b && ChangedFields(a[c.id], b[c.id]) != [] && c == ChangeAt(c.id, a[c.id], b[c.id], show)
  {
    hide ChangedFields, ChangeAt;
    if keys != [] {
      var k := keys[|keys| - 1];
      ChangedInElements(keys[..|keys| - 1], a, b, show, c);
      ChangeAtId(k, a[k], if k in b then b[k] else a[k], show);
      assert keys == keys[..|keys| - 1] + [k];
    }
  }

  lemma {:induction false} ChangeAtId(k: string, p: BatchRecord, c: BatchRecord, show: bool)
    ensures ChangeAt(k, p, c, show).id == k
  {
  }

  lemma {:induction false} ChangedInDistinct(keys: seq<string>, a: map<string, BatchRecord>,
                                             b: map<string, BatchRecord>, show: bool)
    requires forall k :: k in keys ==> k in a
    requires forall i, j :: 0 <= i < j < |keys| ==> keys[i] != keys[j]
    ensures DistinctKeys(IdOf, ChangedIn(keys, a, b, show))
  {
    hide ChangedFields, ChangeAt;
    if keys != [] {
      var k, init := keys[|keys| - 1], keys[..|keys| - 1];
      ChangedInDistinct(init, a, b, show);
      ChangeAtId(k, a[k], if k in b then b[k] else a[k], show);
      forall i | 0 <= i < |ChangedIn(init, a, b, show)| ensures ChangedIn(init, a, b, show)[i].id != k {
        ChangedInElements(init, a, b, show, ChangedIn(init, a, b, show)[i]);
      }
    }
  }

  lemma {:induction false} InsertSwaps(x: Change, s: seq<Change>)
    ensures InsertBy(IdOf, Swap(x), SwapAll(s)) == SwapAll(InsertBy(IdOf, x, s))
  {
    if s != [] {
      InsertSwaps(x, s[1..]);
      assert SwapAll(s)[1..] == SwapAll(s[1..]);
    }
  }

  lemma {:induction false} SortSwaps(s: seq<Change>)
    ensures SortBy(IdOf, SwapAll(s)) == SwapAll(SortBy(IdOf, s))
  {
    if s != [] {
      SortSwaps(s[1..]);
      assert SwapAll(s)[1..] == SwapAll(s[1..]);
      InsertSwaps(s[0], SortBy(IdOf, s[1..]));
    }
  }

  lemma {:induction false} SwapInvolutive(c: Change)
    ensures Swap(Swap(c)) == c
  {
  }

  /** The changed records found from either side are the same up to swapping. */
  lemma {:induction false} ChangedSwaps(a: OrderedMap<BatchRecord>, b: OrderedMap<BatchRecord>, show: bool)
    requires a.Valid() && b.Valid()
    ensures SortBy(IdOf, ChangedIn(b.keys, b.vals, a.vals, show)) == SwapAll(SortBy(IdOf, ChangedIn(a.keys, a.vals, b.vals, show)))
  {
    var ab, ba := ChangedIn(a.keys, a.vals, b.vals, show), ChangedIn(b.keys, b.vals, a.vals, show);
    ChangedInDistinct(a.keys, a.vals, b.vals, show);
    ChangedInDistinct(b.keys, b.vals, a.vals, show);
    forall c: Change ensures c in ba <==> c in SwapAll(ab) {
      SwappedMember(a, b, show, c);
      if c in SwapAll(ab) {
        var i :| 0 <= i < |ab| && SwapAll(ab)[i] == c;
        SwapInvolutive(ab[i]);
        assert ab[i] in ab;
      }
      if Swap(c) in ab {
        var i :| 0 <= i < |ab| && ab[i] == Swap(c);
        SwapInvolutive(c);
        assert SwapAll(ab)[i] in SwapAll(ab);
      }
    }
    SortOfSameElements(IdOf, ba, SwapAll(ab));
    SortSwaps(ab);
  }

  lemma {:induction false} SwappedMember(a: OrderedMap<BatchRecord>, b: OrderedMap<BatchRecord>, show: bool, c: Change)
    requires a.Valid() && b.Valid()
    ensures c in ChangedIn(b.keys, b.vals, a.vals, show) <==> Swap(c) in ChangedIn(a.keys, a.vals, b.vals, show)
  {
    ChangedInElements(b.keys, b.vals, a.vals, show, c);
    ChangedInElements(a.keys, a.vals, b.vals, show, Swap(c));
    if c.id in a.vals && c.id in b.vals {
      FieldsSymmetric(a.vals[c.id], b.vals[c.id]);
      ChangeAtSwaps(c.id, a.vals[c.id], b.vals[c.id], show);
      ChangeAtSwaps(c.id, b.vals[c.id], a.vals[c.id], show);
      SwapInvolutive(c);
    }
  }

  /** Swapping the batches swaps added and removed, and keeps the changed ids, fields and kinds, in the same order. */
  lemma {:induction false} SwappingArguments(a: seq<BatchRecord>, b: seq<BatchRecord>, show: bool)
    ensures var forth, back := DiffSpec(a, b, show), DiffSpec(b, a, show);
            && back.added == SwapAll(forth.removed) && back.removed == SwapAll(forth.added)
            && back.changed == SwapAll(forth.changed)
            && back.hasDifferences == forth.hasDifferences && back.total == forth.total
  {
    hide SortBy, OnlyIn, ChangedIn, Index;
    var mapA, mapB := Index(a), Index(b);
    OnlyInSwaps(mapA.keys, mapA.vals, mapB.vals, false, show);
    SortSwaps(OnlyIn(mapA.keys, mapA.vals, mapB.vals, false, show));
    OnlyInSwaps(mapB.keys, mapB.vals, mapA.vals, true, show);
    SortSwaps(OnlyIn(mapB.keys, mapB.vals, mapA.vals, true, show));
    ChangedSwaps(mapA, mapB, show);
  }

  // ----- what "no differences" means -----

  lemma {:induction false} OnlyInEmpty(keys: seq<string>, m: map<string, BatchRecord>,
                                       other: map<string, BatchRecord>, added: bool, show: bool)
    requires forall k :: k in keys ==> k in m
    ensures OnlyIn(keys, m, other, added, show) == [] <==> forall k :: k in keys ==> k in other
  {
    if keys != [] {
      OnlyInEmpty(keys[..|keys| - 1], m, other, added, show);
      assert keys == keys[..|keys| - 1] + [keys[|keys| - 1]];
    }
  }

  lemma {:induction false} ChangedInEmpty(keys: seq<string>, a: map<string, BatchRecord>, b: map<string, BatchRecord>,
                                          show: bool)
    requires forall k :: k in keys ==> k in a
    ensures ChangedIn(keys, a, b, show) == [] <==> forall k :: k in keys && k in b ==> ChangedFields(a[k], b[k]) == []
  {
    hide ChangedFields;
    if keys != [] {
      ChangedInEmpty(keys[..|keys| - 1], a, b, show);
      assert keys == keys[..|keys| - 1] + [keys[|keys| - 1]];
    }
  }

  /** Equal in everything the comparison looks at. */
  predicate SameFields(p: BatchRecord, c: BatchRecord) {
    && AmountText(p.amount) == AmountText(c.amount) && AssetText(p) == AssetText(c)
    && !MetaDiffers(p.meta, c.meta) && !MetaDiffers(p.commitment, c.commitment)
    && !MetaDiffers(p.commitmentHash, c.commitmentHash) && !MetaDiffers(p.noteHash, c.noteHash)
  }

  lemma {:induction false} NoChangedFields(p: BatchRecord, c: BatchRecord)
    ensures ChangedFields(p, c) == [] <==> SameFields(p, c)
  {
    var others :=
      If(MetaDiffers(p.meta, c.meta), "meta") + If(MetaDiffers(p.commitment, c.commitment), "commitment")
      + If(MetaDiffers(p.commitmentHash, c.commitmentHash), "commitmentHash") + If(MetaDiffers(p.noteHash, c.noteHash), "noteHash");
    SortByElements((f: string) => f, others);
    hide SortBy, AmountText, MetaDiffers;
  }

  lemma {:induction false} SortedLength(s: seq<Change>)
    ensures |SortBy(IdOf, s)| == |s|
  {
    SortByElements(IdOf, s);
  }

  lemma {:induction false} NothingFound(a: seq<BatchRecord>, b: seq<BatchRecord>, show: bool)
    ensures var mapA, mapB := Index(a), Index(b);
            !DiffSpec(a, b, show).hasDifferences <==>
            && OnlyIn(mapB.keys, mapB.vals, mapA.vals, true, show) == []
            && OnlyIn(mapA.keys, mapA.vals, mapB.vals, false, show) == []
            && ChangedIn(mapA.keys, mapA.vals, mapB.vals, show) == []
  {
    hide Index, OnlyIn, ChangedIn, SortBy;
    var mapA, mapB := Index(a), Index(b);
    SortedLength(OnlyIn(mapB.keys, mapB.vals, mapA.vals, true, show));
    SortedLength(OnlyIn(mapA.keys, mapA.vals, mapB.vals, false, show));
    SortedLength(ChangedIn(mapA.keys, mapA.vals, mapB.vals, show));
  }

  /** No difference is reported exactly when both batches have the same ids with equal amounts, assets and other compared fields. */
  lemma {:induction false} NoDifferences(a: seq<BatchRecord>, b: seq<BatchRecord>, show: bool)
    ensures var mapA, mapB := Index(a).vals, Index(b).vals;
            !DiffSpec(a, b, show).hasDifferences <==>
            mapA.Keys == mapB.Keys && forall k :: k in mapA && k in mapB ==> SameFields(mapA[k], mapB[k])
  {
    hide ChangedFields, Index, DiffSpec, OnlyIn, ChangedIn, SameFields;
    var mapA, mapB := Index(a), Index(b);
    NothingFound(a, b, show);
    OnlyInEmpty(mapB.keys, mapB.vals, mapA.vals, true, show);
    OnlyInEmpty(mapA.keys, mapA.vals, mapB.vals, false, show);
    ChangedInEmpty(mapA.keys, mapA.vals, mapB.vals, show);
    forall k | k in mapA.vals && k in mapB.vals
      ensures ChangedFields(mapA.vals[k], mapB.vals[k]) == [] <==> SameFields(mapA.vals[k], mapB.vals[k])
    {
      NoChangedFields(mapA.vals[k], mapB.vals[k]);
    }
  }

  // ----- redaction -----

  predicate Redacted(r: Option<BatchRecord>) {
    r.Some? && r.value.amount.Some? ==> r.value.amount.value == Txt(HIDDEN)
  }

  /** Unless amounts are to be shown, no record in a report carries one. */
  lemma {:induction false} ReportHidesAmounts(a: seq<BatchRecord>, b: seq<BatchRecord>, c: Change)
    ensures var r := DiffSpec(a, b, false);
            c in r.added || c in r.removed || c in r.changed ==> Redacted(c.prev) && Redacted(c.curr)
  {
    var mapA, mapB := Index(a), Index(b);
    SortByElements(IdOf, OnlyIn(mapB.keys, mapB.vals, mapA.vals, true, false));
    SortByElements(IdOf, OnlyIn(mapA.keys, mapA.vals, mapB.vals, false, false));
    SortByElements(IdOf, ChangedIn(mapA.keys, mapA.vals, mapB.vals, false));
    hide SortBy, Index, ChangedFields;
    OnlyInRedacted(mapB.keys, mapB.vals, mapA.vals, true, c);
    OnlyInRedacted(mapA.keys, mapA.vals, mapB.vals, false, c);
    ChangedInElements(mapA.keys, mapA.vals, mapB.vals, false, c);
  }

  lemma {:induction false} OnlyInRedacted(keys: seq<string>, m: map<string, BatchRecord>,
                                          other: map<string, BatchRecord>, added: bool, c: Change)
    requires forall k :: k in keys ==> k in m
    ensures c in OnlyIn(keys, m, other, added, false) ==> Redacted(c.prev) && Redacted(c.curr)
  {
    if keys != [] {
      OnlyInRedacted(keys[..|keys| - 1], m, other, added, c);
    }
  }
}
