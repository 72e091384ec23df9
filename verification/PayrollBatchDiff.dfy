/** `diffPayrollBatches` and `comparePayrollDrafts`: what changed between two payroll drafts. */
module PayrollBatchDiff {
  import opened Prelude
  import opened Text
  import opened Sorting
  import opened OrderedMaps

  datatype Recipient = Recipient(recipientId: Option<string>, amount: string, asset: Option<string>)

  /** A compiled draft; policy and approvals are present as their stable JSON texts. */
  datatype Draft = Draft(draftId: string, totalAmount: string, asset: string, scheduleTimestamp: string,
                         recipients: seq<Recipient>, policyText: string, approvalsText: string)

  /** `BigInt(text)`, absent where it throws. */
  type BigIntParser = string -> Option<int>

  /** The platform: number parsing, the sort key behind `localeCompare`, and the hexadecimal digest. */
  datatype Env = Env(bigInt: BigIntParser, collate: string -> string, digest: string -> string)

  datatype FieldName =
    | DraftIdField | TotalAmountField | AssetField | ScheduleField | PolicyField | ApprovalsField
    | RecipientsAdded | RecipientsAssets | RecipientsEdited | RecipientsRemoved

  datatype Kind = Added | Removed | Edited

  datatype RecipientDiff = RecipientDiff(kind: Kind, recipientId: string, previousAmount: Option<string>,
                                         currentAmount: Option<string>, amountChanged: bool, assetChanged: bool,
                                         previousAsset: Option<string>, currentAsset: Option<string>,
                                         previousCommitment: Option<string>, currentCommitment: Option<string>)

  /** A changed field with its values, where they are reported. */
  datatype Change = Change(field: string, previous: Option<string>, current: Option<string>)

  datatype Commitments = Commitments(previous: string, current: string, changed: bool)

  datatype Report = Report(hasDifferences: bool, changedFields: seq<FieldName>, recipients: seq<RecipientDiff>,
                           addedIds: seq<string>, removedIds: seq<string>, editedIds: seq<string>,
                           assetChanges: seq<Change>, metadataChanges: seq<Change>, commitments: Commitments, redacted: bool)

  const REDACTED := "[REDACTED]"

  function Shown(value: string, show: bool): string {
    if show then value else REDACTED
  }

  /** Amounts are compared as numbers when both are, and literally otherwise. */
  predicate AmountsEqual(a: string, b: string, env: Env) {
    a == b || (env.bigInt(a).Some? && env.bigInt(b).Some? && env.bigInt(a) == env.bigInt(b))
  }

  /** First recipient of each id; entries without an id are skipped. */
  function Index(list: seq<Recipient>): (m: OrderedMap<Recipient>)
    ensures m.Valid()
  {
    if list == [] then Empty()
    else
      var m, last := Index(list[..|list| - 1]), list[|list| - 1];
      if last.recipientId.Some? && !m.Has(last.recipientId.value) then m.Put(last.recipientId.value, last) else m
  }

  method IndexRecipients(list: seq<Recipient>) returns (m: OrderedMap<Recipient>)
    ensures m == Index(list)
  {
    m := Empty();
    for i := 0 to |list|
      invariant m == Index(list[..i])
    {
      assert list[..i + 1][..i] == list[..i];
      if list[i].recipientId.Some? && !m.Has(list[i].recipientId.value) {
        m := m.Put(list[i].recipientId.value, list[i]);
      }
    }
    assert list[..|list|] == list;
  }

  /** The index holds the first recipient of each id. */
  lemma {:induction false} IndexKeepsFirst(list: seq<Recipient>, i: nat)
    requires i < |list| && list[i].recipientId.Some?
    requires forall j :: 0 <= j < i ==> list[j].recipientId != list[i].recipientId
    ensures list[i].recipientId.value in Index(list).vals && Index(list).vals[list[i].recipientId.value] == list[i]
  {
    if i < |list| - 1 {
      IndexKeepsFirst(list[..|list| - 1], i);
    } else {
      NotYetIndexed(list[..i], list[i].recipientId.value);
    }
  }

  lemma {:induction false} NotYetIndexed(list: seq<Recipient>, id: string)
    requires forall j :: 0 <= j < |list| ==> list[j].recipientId != Some(id)
    ensures id !in Index(list).vals
  {
    if list != [] {
      NotYetIndexed(list[..|list| - 1], id);
    }
  }

  const VERSION := "zkpayroll-draft-metadata-v1"

  /** The joined pieces: a version, and the six metadata texts. */
  function Pieces(d: Draft): (r: seq<string>)
    ensures |r| == 7
  {
    [VERSION, d.draftId, d.totalAmount, d.asset, d.scheduleTimestamp, d.policyText, d.approvalsText]
  }

  function WithPieces(d: Draft, pieces: seq<string>): Draft
    requires |pieces| == 7
  {
    d.(draftId := pieces[1], totalAmount := pieces[2], asset := pieces[3], scheduleTimestamp := pieces[4],
       policyText := pieces[5], approvalsText := pieces[6])
  }

  /** The text hashed by `computeDraftMetadataCommitment`. */
  function MetadataPayload(d: Draft): string {
    Join(Pieces(d), '|')
  }

  /** `computeDraftMetadataCommitment`. */
  function MetadataCommitment(d: Draft, env: Env): string {
    "draftmeta:" + env.digest(MetadataPayload(d))
  }

  // ----- per-recipient differences -----

  /** `recipientCommitment`. */
  function RecipientCommitment(r: Recipient, env: Env): string {
    var asset := if r.asset.Some? then r.asset.value else "";
    "recipient:" + env.digest(Join(["zkpayroll-recipient-v1", r.amount, asset], '|'))
  }

  /** What is reported of a recipient of the modified draft. */
  function CurrentDiff(id: string, was: map<string, Recipient>, now: map<string, Recipient>, env: Env, show: bool)
    : seq<RecipientDiff>
    requires id in now
  {
    var c := now[id];
    if id !in was then
      [RecipientDiff(Added, id, None, Some(Shown(c.amount, show)), false, false, None, c.asset, None, Some(RecipientCommitment(c, env)))]
    else
      var p := was[id];
      var amountChanged, assetChanged := !AmountsEqual(p.amount, c.amount, env), p.asset != c.asset;
      if amountChanged || assetChanged then
        [RecipientDiff(Edited, id, Some(Shown(p.amount, show)), Some(Shown(c.amount, show)), amountChanged, assetChanged,
                       p.asset, c.asset, Some(RecipientCommitment(p, env)), Some(RecipientCommitment(c, env)))]
      else []
  }

  function RemovedDiff(id: string, was: map<string, Recipient>, now: map<string, Recipient>, env: Env,
                       show: bool): seq<RecipientDiff>
    requires id in was
  {
    if id in now then []
    else
      [RecipientDiff(Removed, id, Some(Shown(was[id].amount, show)), None, false, false, was[id].asset, None,
                     Some(RecipientCommitment(was[id], env)), None)]
  }

  function CurrentDiffs(ids: seq<string>, was: map<string, Recipient>, now: map<string, Recipient>, env: Env,
                        show: bool)
    : seq<RecipientDiff>
    requires forall id :: id in ids ==> id in now
  {
    if ids == [] then []
    else CurrentDiffs(ids[..|ids| - 1], was, now, env, show) + CurrentDiff(ids[|ids| - 1], was, now, env, show)
  }

  function RemovedDiffs(ids: seq<string>, was: map<string, Recipient>, now: map<string, Recipient>, env: Env,
                        show: bool): seq<RecipientDiff>
    requires forall id :: id in ids ==> id in was
  {
    if ids == [] then [] else RemovedDiffs(ids[..|ids| - 1], was, now, env, show) + RemovedDiff(ids[|ids| - 1], was, now, env, show)
  }

  function AllDiffs(was: OrderedMap<Recipient>, now: OrderedMap<Recipient>, env: Env, show: bool): seq<RecipientDiff>
    requires was.Valid() && now.Valid()
  {
    CurrentDiffs(now.keys, was.vals, now.vals, env, show) + RemovedDiffs(was.keys, was.vals, now.vals, env, show)
  }

  /** Ids of the differences of one kind, in order. */
  function IdsOf(kind: Kind, ds: seq<RecipientDiff>): seq<string> {
    if ds == [] then []
    else IdsOf(kind, ds[..|ds| - 1]) + if ds[|ds| - 1].kind == kind then [ds[|ds| - 1].recipientId] else []
  }

  /** Which roster fields a list of differences touches. */
  predicate Touches(f: FieldName, d: RecipientDiff) {
    match f
    case RecipientsAdded => d.kind == Added
    case RecipientsRemoved => d.kind == Removed
    case RecipientsEdited => d.amountChanged
    case RecipientsAssets => d.assetChanged
    case _ => false
  }

  predicate TouchedBy(f: FieldName, ds: seq<RecipientDiff>) {
    exists i :: 0 <= i < |ds| && Touches(f, ds[i])
  }

  function RosterFields(ds: seq<RecipientDiff>): set<FieldName> {
    set f: FieldName | TouchedBy(f, ds)
  }

  function Marked(f: FieldName, differs: bool, fields: set<FieldName>): set<FieldName> {
    if differs then fields + {f} else fields
  }

  function Listed(change: Change, differs: bool, changes: seq<Change>): seq<Change> {
    if differs then changes + [change] else changes
  }

  function MetadataFields(a: Draft, b: Draft): set<FieldName> {
    var ids := Marked(TotalAmountField, a.totalAmount != b.totalAmount, Marked(DraftIdField, a.draftId != b.draftId, {}));
    var terms := Marked(ScheduleField, a.scheduleTimestamp != b.scheduleTimestamp, Marked(AssetField, a.asset != b.asset, ids));
    Marked(ApprovalsField, a.approvalsText != b.approvalsText, Marked(PolicyField, a.policyText != b.policyText, terms))
  }

  /** Every field name, in report order. */
  const FIELD_ORDER: seq<FieldName> :=
    [DraftIdField, TotalAmountField, AssetField, ScheduleField, PolicyField, ApprovalsField,
     RecipientsAdded, RecipientsAssets, RecipientsEdited, RecipientsRemoved]

  function OrderedFields(fields: set<FieldName>): seq<FieldName> {
    Filter(f => f in fields, FIELD_ORDER)
  }

  function Sorted(ids: seq<string>): seq<string> {
    SortBy((s: string) => s, ids)
  }

  /** The changed asset of an edited recipient. */
  function AssetChange(d: RecipientDiff): seq<Change> {
    if d.assetChanged then [Change("recipients[" + d.recipientId + "].asset", d.previousAsset, d.currentAsset)] else []
  }

  function AssetChangesOf(ds: seq<RecipientDiff>): seq<Change> {
    if ds == [] then [] else AssetChangesOf(ds[..|ds| - 1]) + AssetChange(ds[|ds| - 1])
  }

  /** Asset changes: those of edited recipients, then the draft's own. */
  function AssetChanges(a: Draft, b: Draft, roster: seq<Change>): seq<Change> {
    Listed(Change("asset", Some(a.asset), Some(b.asset)), a.asset != b.asset, roster)
  }

  /** Changed metadata other than assets: totals are sensitive, policy and approvals are only named. */
  function MetadataChanges(a: Draft, b: Draft, show: bool): seq<Change> {
    var ids := Listed(Change("draftId", Some(a.draftId), Some(b.draftId)), a.draftId != b.draftId, []);
    var totals := Listed(Change("totalAmount", Some(Shown(a.totalAmount, show)), Some(Shown(b.totalAmount, show))),
                         a.totalAmount != b.totalAmount, ids);
    var terms := Listed(Change("scheduleTimestamp", Some(a.scheduleTimestamp), Some(b.scheduleTimestamp)),
                        a.scheduleTimestamp != b.scheduleTimestamp, totals);
    Listed(Change("approvals", None, None), a.approvalsText != b.approvalsText,
           Listed(Change("policy", None, None), a.policyText != b.policyText, terms))
  }

  /** Recipients are ordered by collated id, then by kind; the key separates them by a character no sort key has. */
  function RecipientKey(env: Env): RecipientDiff -> string {
    (d: RecipientDiff) => env.collate(d.recipientId) + ['\0', match d.kind case Added => '0' case Removed => '1' case Edited => '2']
  }

  function FieldKey(env: Env): Change -> string {
    (c: Change) => env.collate(c.field)
  }

  function CommitmentsOf(a: Draft, b: Draft, env: Env): Commitments {
    var previous, current := MetadataCommitment(a, env), MetadataCommitment(b, env);
    Commitments(previous, current, previous != current)
  }

  function DiffSpec(original: Draft, modified: Draft, env: Env, show: bool): Report {
    var ds := AllDiffs(Index(original.recipients), Index(modified.recipients), env, show);
    var fields := OrderedFields(RosterFields(ds) + MetadataFields(original, modified));
    Report(fields != [], fields, SortBy(RecipientKey(env), ds),
           Sorted(IdsOf(Added, ds)), Sorted(IdsOf(Removed, ds)), Sorted(IdsOf(Edited, ds)),
           SortBy(FieldKey(env), AssetChanges(original, modified, AssetChangesOf(ds))),
           SortBy(FieldKey(env), MetadataChanges(original, modified, show)),
           CommitmentsOf(original, modified, env), !show)
  }

  /** What the loops have collected is what the differences found so far amount to. */
  ghost predicate Collected(ds: seq<RecipientDiff>, added: seq<string>, removed: seq<string>, edited: seq<string>,
                            fields: set<FieldName>, assets: seq<Change>) {
    && added == IdsOf(Added, ds) && removed == IdsOf(Removed, ds) && edited == IdsOf(Edited, ds) && fields == RosterFields(ds)
    && assets == AssetChangesOf(ds)
  }

  function TouchSet(d: RecipientDiff): set<FieldName> {
    (if d.kind == Added then {RecipientsAdded} else {}) + (if d.kind == Removed then {RecipientsRemoved} else {})
    + (if d.amountChanged then {RecipientsEdited} else {}) + (if d.assetChanged then {RecipientsAssets} else {})
  }

  lemma {:induction false} IdsOfOne(kind: Kind, ds: seq<RecipientDiff>, d: RecipientDiff)
    ensures IdsOf(kind, ds + [d]) == IdsOf(kind, ds) + if d.kind == kind then [d.recipientId] else []
  {
    assert (ds + [d])[..|ds|] == ds;
  }

  lemma {:induction false} AssetChangesOne(ds: seq<RecipientDiff>, d: RecipientDiff)
    ensures AssetChangesOf(ds + [d]) == AssetChangesOf(ds) + AssetChange(d)
  {
    hide AssetChange;
    assert (ds + [d])[..|ds|] == ds;
  }

  lemma {:induction false} RosterFieldsOne(ds: seq<RecipientDiff>, d: RecipientDiff)
    ensures RosterFields(ds + [d]) == RosterFields(ds) + TouchSet(d)
  {
    forall f: FieldName ensures TouchedBy(f, ds + [d]) <==> TouchedBy(f, ds) || Touches(f, d) {
      if Touches(f, d) {
        assert Touches(f, (ds + [d])[|ds|]);
      }
      if i :| 0 <= i < |ds| && Touches(f, ds[i]) {
        assert Touches(f, (ds + [d])[i]);
      }
    }
  }

  lemma {:induction false} CollectedOne(ds: seq<RecipientDiff>, d: RecipientDiff, added: seq<string>,
                                        removed: seq<string>, edited: seq<string>,
                     fields: set<FieldName>, assets: seq<Change>)
    requires Collected(ds, added, removed, edited, fields, assets)
    ensures Collected(ds + [d],
                      added + (if d.kind == Added then [d.recipientId] else []),
                      removed + (if d.kind == Removed then [d.recipientId] else []),
                      edited + (if d.kind == Edited then [d.recipientId] else []),
                      fields + TouchSet(d), assets + AssetChange(d))
  {
    hide IdsOf, AssetChangesOf, AssetChange, RosterFields, TouchSet;
    IdsOfOne(Added, ds, d);
    IdsOfOne(Removed, ds, d);
    IdsOfOne(Edited, ds, d);
    AssetChangesOne(ds, d);
    RosterFieldsOne(ds, d);
  }

  lemma {:induction false} CollectedAdded(ds: seq<RecipientDiff>, d: RecipientDiff, added: seq<string>,
                                          removed: seq<string>, edited: seq<string>,
                       fields: set<FieldName>, assets: seq<Change>)
    requires Collected(ds, added, removed, edited, fields, assets) && d.kind == Added && !d.assetChanged
    ensures Collected(ds + [d], added + [d.recipientId], removed, edited, fields + TouchSet(d), assets)
  {
    hide Collected, TouchSet;
    CollectedOne(ds, d, added, removed, edited, fields, assets);
    assert removed + [] == removed && edited + [] == edited && assets + [] == assets;
  }

  lemma {:induction false} CollectedEdited(ds: seq<RecipientDiff>, d: RecipientDiff, added: seq<string>,
                                           removed: seq<string>, edited: seq<string>,
                        fields: set<FieldName>, assets: seq<Change>)
    requires Collected(ds, added, removed, edited, fields, assets) && d.kind == Edited
    ensures Collected(ds + [d], added, removed, edited + [d.recipientId], fields + TouchSet(d), assets + AssetChange(d))
  {
    hide Collected, TouchSet, AssetChange;
    CollectedOne(ds, d, added, removed, edited, fields, assets);
    assert added + [] == added && removed + [] == removed;
  }

  lemma {:induction false} CollectedRemoved(ds: seq<RecipientDiff>, d: RecipientDiff, added: seq<string>,
                                            removed: seq<string>, edited: seq<string>,
                         fields: set<FieldName>, assets: seq<Change>)
    requires Collected(ds, added, removed, edited, fields, assets) && d.kind == Removed && !d.assetChanged
    ensures Collected(ds + [d], added, removed + [d.recipientId], edited, fields + TouchSet(d), assets)
  {
    hide Collected, TouchSet;
    CollectedOne(ds, d, added, removed, edited, fields, assets);
    assert added + [] == added && edited + [] == edited && assets + [] == assets;
  }

  lemma {:induction false} NothingCollected(was: OrderedMap<Recipient>, now: OrderedMap<Recipient>, env: Env,
                                            show: bool)
    requires was.Valid() && now.Valid()
    ensures CurrentDiffs(now.keys[..0], was.vals, now.vals, env, show) == []
    ensures RemovedDiffs(was.keys[..0], was.vals, now.vals, env, show) == []
    ensures Collected([], [], [], [], {}, [])
  {
  }

  lemma {:induction false} OneMoreCurrent(ids: seq<string>, i: nat, was: map<string, Recipient>,
                                          now: map<string, Recipient>, env: Env, show: bool)
    requires i < |ids| && forall id :: id in ids ==> id in now
    ensures CurrentDiffs(ids[..i + 1], was, now, env, show)
            == CurrentDiffs(ids[..i], was, now, env, show) + CurrentDiff(ids[i], was, now, env, show)
  {
    assert ids[..i + 1][..i] == ids[..i];
  }

  lemma {:induction false} OneMoreRemoved(ids: seq<string>, i: nat, was: map<string, Recipient>,
                                          now: map<string, Recipient>, env: Env, show: bool)
    requires i < |ids| && forall id :: id in ids ==> id in was
    ensures RemovedDiffs(ids[..i + 1], was, now, env, show) == RemovedDiffs(ids[..i], was, now, env, show) + RemovedDiff(ids[i], was, now, env, show)
  {
    assert ids[..i + 1][..i] == ids[..i];
  }

  /** The loop over the modified draft: additions and edits. */
  method CollectCurrent(was: OrderedMap<Recipient>, now: OrderedMap<Recipient>, env: Env, show: bool)
    returns (ds: seq<RecipientDiff>, added: seq<string>, edited: seq<string>, fields: set<FieldName>, assets: seq<Change>)
    requires was.Valid() && now.Valid()
    ensures ds == CurrentDiffs(now.keys, was.vals, now.vals, env, show)
    ensures Collected(ds, added, [], edited, fields, assets)
  {
    hide CurrentDiffs, RemovedDiffs, Collected, AmountsEqual, Shown, RecipientCommitment, TouchSet, AssetChange;
    ds, added, edited, fields, assets := [], [], [], {}, [];
    NothingCollected(was, now, env, show);
    for i := 0 to |now.keys|
      invariant ds == CurrentDiffs(now.keys[..i], was.vals, now.vals, env, show)
      invariant Collected(ds, added, [], edited, fields, assets)
    {
      var id := now.keys[i];
      var c := now.vals[id];
      OneMoreCurrent(now.keys, i, was.vals, now.vals, env, show);
      if !was.Has(id) {
        var d := RecipientDiff(Added, id, None, Some(Shown(c.amount, show)), false, false, None, c.asset,
                               None, Some(RecipientCommitment(c, env)));
        CollectedAdded(ds, d, added, [], edited, fields, assets);
        ds, added, fields := ds + [d], added + [id], fields + TouchSet(d);
      } else {
        var p := was.vals[id];
        var amountChanged, assetChanged := !AmountsEqual(p.amount, c.amount, env), p.asset != c.asset;
        if amountChanged || assetChanged {
          var d := RecipientDiff(Edited, id, Some(Shown(p.amount, show)), Some(Shown(c.amount, show)), amountChanged,
                                 assetChanged, p.asset, c.asset,
                                 Some(RecipientCommitment(p, env)), Some(RecipientCommitment(c, env)));
          CollectedEdited(ds, d, added, [], edited, fields, assets);
          ds, edited, fields, assets := ds + [d], edited + [id], fields + TouchSet(d), assets + AssetChange(d);
        }
      }
    }
    assert now.keys[..|now.keys|] == now.keys;
  }

  /** The loop over the original draft: removals. */
  method CollectRemoved(was: OrderedMap<Recipient>, now: OrderedMap<Recipient>, env: Env, show: bool)
    returns (ds: seq<RecipientDiff>, removed: seq<string>, fields: set<FieldName>)
    requires was.Valid() && now.Valid()
    ensures ds == RemovedDiffs(was.keys, was.vals, now.vals, env, show)
    ensures Collected(ds, [], removed, [], fields, [])
  {
    hide CurrentDiffs, RemovedDiffs, Collected, Shown, RecipientCommitment, TouchSet;
    ds, removed, fields := [], [], {};
    NothingCollected(was, now, env, show);
    for i := 0 to |was.keys|
      invariant ds == RemovedDiffs(was.keys[..i], was.vals, now.vals, env, show)
      invariant Collected(ds, [], removed, [], fields, [])
    {
      var id := was.keys[i];
      OneMoreRemoved(was.keys, i, was.vals, now.vals, env, show);
      if !now.Has(id) {
        var d := RecipientDiff(Removed, id, Some(Shown(was.vals[id].amount, show)), None, false, false, was.vals[id].asset, None,
                               Some(RecipientCommitment(was.vals[id], env)), None);
        CollectedRemoved(ds, d, [], removed, [], fields, []);
        ds, removed, fields := ds + [d], removed + [id], fields + TouchSet(d);
      }
    }
    assert was.keys[..|was.keys|] == was.keys;
  }

  lemma {:induction false} IdsOfConcat(kind: Kind, a: seq<RecipientDiff>, b: seq<RecipientDiff>)
    ensures IdsOf(kind, a + b) == IdsOf(kind, a) + IdsOf(kind, b)
  {
    if b == [] {
      assert a + b == a;
    } else {
      var init := b[..|b| - 1];
      IdsOfConcat(kind, a, init);
      assert (a + b)[..|a + b| - 1] == a + init && (a + b)[|a + b| - 1] == b[|b| - 1];
    }
  }

  lemma {:induction false} AssetChangesNone()
    ensures AssetChangesOf([]) == []
  {
  }

  lemma {:induction false} AssetChangesConcat(a: seq<RecipientDiff>, b: seq<RecipientDiff>)
    ensures AssetChangesOf(a + b) == AssetChangesOf(a) + AssetChangesOf(b)
  {
    hide AssetChangesOf, AssetChange;
    if b == [] {
      assert a + b == a;
      AssetChangesNone();
    } else {
      var init, last := b[..|b| - 1], b[|b| - 1];
      AssetChangesConcat(a, init);
      AssetChangesOne(a + init, last);
      AssetChangesOne(init, last);
      assert b == init + [last] && a + b == (a + init) + [last];
    }
  }

  lemma {:induction false} RosterFieldsConcat(a: seq<RecipientDiff>, b: seq<RecipientDiff>)
    ensures RosterFields(a + b) == RosterFields(a) + RosterFields(b)
  {
    forall f: FieldName ensures TouchedBy(f, a + b) <==> TouchedBy(f, a) || TouchedBy(f, b) {
      if i :| 0 <= i < |a| && Touches(f, a[i]) {
        assert Touches(f, (a + b)[i]);
      }
      if i :| 0 <= i < |b| && Touches(f, b[i]) {
        assert Touches(f, (a + b)[|a| + i]);
      }
    }
  }

  lemma {:induction false} CollectedConcat(a: seq<RecipientDiff>, b: seq<RecipientDiff>, added: seq<string>,
                                           removed: seq<string>, edited: seq<string>,
                        fa: set<FieldName>, fb: set<FieldName>, assets: seq<Change>)
    requires Collected(a, added, [], edited, fa, assets) && Collected(b, [], removed, [], fb, [])
    ensures Collected(a + b, added, removed, edited, fa + fb, assets)
  {
    AssetChangesConcat(a, b);
    IdsOfConcat(Added, a, b);
    IdsOfConcat(Removed, a, b);
    IdsOfConcat(Edited, a, b);
    RosterFieldsConcat(a, b);
  }

  /** One draft-level comparison. */
  method Note(f: FieldName, differs: bool, change: Change, fields: set<FieldName>, changes: seq<Change>)
    returns (grown: set<FieldName>, longer: seq<Change>)
    ensures grown == Marked(f, differs, fields) && longer == Listed(change, differs, changes)
  {
    if differs {
      return fields + {f}, changes + [change];
    }
    return fields, changes;
  }

  /** The draft-level comparisons, which grow the lists of changes field by field. */
  method CollectMetadata(original: Draft, modified: Draft, show: bool, rosterAssets: seq<Change>)
    returns (fields: set<FieldName>, assets: seq<Change>, changes: seq<Change>)
    ensures fields == MetadataFields(original, modified)
    ensures assets == AssetChanges(original, modified, rosterAssets)
    ensures changes == MetadataChanges(original, modified, show)
  {
    hide Shown, Marked, Listed;
    fields, changes := Note(DraftIdField, original.draftId != modified.draftId,
                            Change("draftId", Some(original.draftId), Some(modified.draftId)), {}, []);
    fields, changes := Note(TotalAmountField, original.totalAmount != modified.totalAmount,
                            Change("totalAmount", Some(Shown(original.totalAmount, show)), Some(Shown(modified.totalAmount, show))),
                            fields, changes);
    fields, assets := Note(AssetField, original.asset != modified.asset,
                           Change("asset", Some(original.asset), Some(modified.asset)), fields, rosterAssets);
    fields, changes := Note(ScheduleField, original.scheduleTimestamp != modified.scheduleTimestamp,
                            Change("scheduleTimestamp", Some(original.scheduleTimestamp), Some(modified.scheduleTimestamp)),
                            fields, changes);
    fields, changes := Note(PolicyField, original.policyText != modified.policyText, Change("policy", None, None), fields, changes);
    fields, changes := Note(ApprovalsField, original.approvalsText != modified.approvalsText, Change("approvals", None, None),
                            fields, changes);
  }

  method DiffPayrollBatches(original: Draft, modified: Draft, env: Env, show: bool) returns (r: Report)
    ensures r == DiffSpec(original, modified, env, show)
  {
    var was := IndexRecipients(original.recipients);
    var now := IndexRecipients(modified.recipients);
    hide CurrentDiffs, RemovedDiffs, Index, MetadataFields, MetadataChanges, AssetChanges, SortBy, OrderedFields, RosterFields;
    var current, added, edited, fields, rosterAssets := CollectCurrent(was, now, env, show);
    var gone, removed, goneFields := CollectRemoved(was, now, env, show);
    CollectedConcat(current, gone, added, removed, edited, fields, goneFields, rosterAssets);
    var metadataFields, assets, changes := CollectMetadata(original, modified, show, rosterAssets);
    var ordered := OrderedFields(fields + goneFields + metadataFields);
    var previous, latest := MetadataCommitment(original, env), MetadataCommitment(modified, env);
    r := Report(|ordered| > 0, ordered, SortBy(RecipientKey(env), current + gone), Sorted(added), Sorted(removed), Sorted(edited),
                SortBy(FieldKey(env), assets), SortBy(FieldKey(env), changes),
                Commitments(previous, latest, previous != latest), !show);
  }

  /** `comparePayrollDrafts`, for approval invalidation: the same verdict without the values. */
  method ComparePayrollDrafts(original: Draft, modified: Draft, env: Env) returns (hasDifferences: bool,
                              changedFields: seq<FieldName>)
    ensures hasDifferences == DiffSpec(original, modified, env, true).hasDifferences
    ensures changedFields == DiffSpec(original, modified, env, true).changedFields
  {
    var r := DiffPayrollBatches(original, modified, env, false);
    ShowingChangesNoVerdict(original, modified, env);
    return r.hasDifferences, r.changedFields;
  }

  // ----- what the report means -----

  /** The same recipients, with numerically equal amounts and the same assets. */
  predicate SameRoster(was: map<string, Recipient>, now: map<string, Recipient>, env: Env) {
    && was.Keys == now.Keys
    && forall id :: id in was && id in now ==> AmountsEqual(was[id].amount, now[id].amount, env) && was[id].asset == now[id].asset
  }

  predicate SameMetadata(a: Draft, b: Draft) {
    a.draftId == b.draftId && a.totalAmount == b.totalAmount && a.asset == b.asset
    && a.scheduleTimestamp == b.scheduleTimestamp && a.policyText == b.policyText && a.approvalsText == b.approvalsText
  }

  lemma {:induction false} CurrentDiffsEmpty(ids: seq<string>, was: map<string, Recipient>,
                                             now: map<string, Recipient>, env: Env, show: bool)
    requires forall id :: id in ids ==> id in now
    ensures CurrentDiffs(ids, was, now, env, show) == [] <==>
            forall id :: id in ids ==>
              id in was && AmountsEqual(was[id].amount, now[id].amount, env) && was[id].asset == now[id].asset
  {
    hide AmountsEqual;
    if ids != [] {
      CurrentDiffsEmpty(ids[..|ids| - 1], was, now, env, show);
      assert ids == ids[..|ids| - 1] + [ids[|ids| - 1]];
    }
  }

  lemma {:induction false} RemovedDiffsEmpty(ids: seq<string>, was: map<string, Recipient>,
                                             now: map<string, Recipient>, env: Env, show: bool)
    requires forall id :: id in ids ==> id in was
    ensures RemovedDiffs(ids, was, now, env, show) == [] <==> forall id :: id in ids ==> id in now
  {
    if ids != [] {
      RemovedDiffsEmpty(ids[..|ids| - 1], was, now, env, show);
      assert ids == ids[..|ids| - 1] + [ids[|ids| - 1]];
    }
  }

  predicate Genuine(d: RecipientDiff) {
    d.kind == Edited ==> d.amountChanged || d.assetChanged
  }

  lemma {:induction false} DiffsGenuine(ids: seq<string>, was: map<string, Recipient>, now: map<string, Recipient>,
                                        env: Env, show: bool)
    ensures (forall id :: id in ids ==> id in now) ==>
              forall i :: 0 <= i < |CurrentDiffs(ids, was, now, env, show)| ==> Genuine(CurrentDiffs(ids, was, now, env, show)[i])
    ensures (forall id :: id in ids ==> id in was) ==>
              forall i :: 0 <= i < |RemovedDiffs(ids, was, now, env, show)| ==> Genuine(RemovedDiffs(ids, was, now, env, show)[i])
  {
    hide AmountsEqual;
    if ids != [] {
      DiffsGenuine(ids[..|ids| - 1], was, now, env, show);
    }
  }

  lemma {:induction false} NoRosterFields(ds: seq<RecipientDiff>)
    requires forall i :: 0 <= i < |ds| ==> Genuine(ds[i])
    ensures RosterFields(ds) == {} <==> ds == []
  {
    if ds != [] {
      var d := ds[0];
      var f := if d.kind == Added then RecipientsAdded else if d.kind == Removed then RecipientsRemoved
               else if d.amountChanged then RecipientsEdited else RecipientsAssets;
      assert Touches(f, ds[0]);
      assert TouchedBy(f, ds);
      assert f in RosterFields(ds);
    }
  }

  lemma {:induction false} OrderedFieldsEmpty(fields: set<FieldName>)
    ensures OrderedFields(fields) == [] <==> fields == {}
  {
    if f :| f in fields {
      AllFieldsListed(f);
      FilterMember(g => g in fields, FIELD_ORDER, f);
    } else {
      if OrderedFields(fields) != [] {
        FilterMember(g => g in fields, FIELD_ORDER, OrderedFields(fields)[0]);
      }
    }
  }

  lemma {:induction false} AllFieldsListed(f: FieldName)
    ensures f in FIELD_ORDER
  {
    assert FIELD_ORDER[0] == DraftIdField && FIELD_ORDER[1] == TotalAmountField && FIELD_ORDER[2] == AssetField
           && FIELD_ORDER[3] == ScheduleField && FIELD_ORDER[4] == PolicyField && FIELD_ORDER[5] == ApprovalsField
           && FIELD_ORDER[6] == RecipientsAdded && FIELD_ORDER[7] == RecipientsAssets && FIELD_ORDER[8] == RecipientsEdited
           && FIELD_ORDER[9] == RecipientsRemoved;
  }

  lemma {:induction false} RosterVerdict(was: OrderedMap<Recipient>, now: OrderedMap<Recipient>, env: Env, show: bool)
    requires was.Valid() && now.Valid()
    ensures RosterFields(AllDiffs(was, now, env, show)) == {} <==> SameRoster(was.vals, now.vals, env)
  {
    hide CurrentDiffs, RemovedDiffs, AmountsEqual, RosterFields;
    CurrentDiffsEmpty(now.keys, was.vals, now.vals, env, show);
    RemovedDiffsEmpty(was.keys, was.vals, now.vals, env, show);
    DiffsGenuine(now.keys, was.vals, now.vals, env, show);
    DiffsGenuine(was.keys, was.vals, now.vals, env, show);
    NoRosterFields(AllDiffs(was, now, env, show));
  }

  /** No difference is reported exactly when the first-occurrence rosters and all compared metadata agree. */
  lemma {:induction false} NoDifferenceMeansAgreement(original: Draft, modified: Draft, env: Env, show: bool)
    ensures !DiffSpec(original, modified, env, show).hasDifferences <==>
            SameRoster(Index(original.recipients).vals, Index(modified.recipients).vals, env) && SameMetadata(original, modified)
  {
    hide AllDiffs, Index, SameRoster, RosterFields, OrderedFields;
    RosterVerdict(Index(original.recipients), Index(modified.recipients), env, show);
    OrderedFieldsEmpty(RosterFields(AllDiffs(Index(original.recipients), Index(modified.recipients), env, show)) + MetadataFields(original, modified));
  }

  predicate SameTouch(a: seq<RecipientDiff>, b: seq<RecipientDiff>) {
    |a| == |b| && forall i :: 0 <= i < |a| ==>
      a[i].kind == b[i].kind && a[i].amountChanged == b[i].amountChanged && a[i].assetChanged == b[i].assetChanged
  }

  lemma {:induction false} ShowingKeepsDiffs(ids: seq<string>, was: map<string, Recipient>,
                                             now: map<string, Recipient>, env: Env)
    ensures (forall id :: id in ids ==> id in now) ==>
              SameTouch(CurrentDiffs(ids, was, now, env, true), CurrentDiffs(ids, was, now, env, false))
    ensures (forall id :: id in ids ==> id in was) ==>
              SameTouch(RemovedDiffs(ids, was, now, env, true), RemovedDiffs(ids, was, now, env, false))
  {
    hide AmountsEqual;
    if ids != [] {
      ShowingKeepsDiffs(ids[..|ids| - 1], was, now, env);
    }
  }

  /** Revealing amounts does not change the verdict or the changed fields. */
  lemma {:induction false} ShowingChangesNoVerdict(original: Draft, modified: Draft, env: Env)
    ensures DiffSpec(original, modified, env, true).changedFields == DiffSpec(original, modified, env, false).changedFields
  {
    var was, now := Index(original.recipients), Index(modified.recipients);
    ShowingKeepsDiffs(now.keys, was.vals, now.vals, env);
    ShowingKeepsDiffs(was.keys, was.vals, now.vals, env);
    hide CurrentDiffs, RemovedDiffs, Index, RosterFields, OrderedFields, MetadataFields, Sorted, IdsOf, SameTouch;
    SameTouchConcat(CurrentDiffs(now.keys, was.vals, now.vals, env, true), CurrentDiffs(now.keys, was.vals, now.vals, env, false),
                    RemovedDiffs(was.keys, was.vals, now.vals, env, true), RemovedDiffs(was.keys, was.vals, now.vals, env, false));
    SameTouchSameFields(AllDiffs(was, now, env, true), AllDiffs(was, now, env, false));
  }

  lemma {:induction false} SameTouchConcat(a: seq<RecipientDiff>, b: seq<RecipientDiff>, c: seq<RecipientDiff>,
                                           d: seq<RecipientDiff>)
    requires SameTouch(a, b) && SameTouch(c, d)
    ensures SameTouch(a + c, b + d)
  {
  }

  lemma {:induction false} SameTouchSameFields(a: seq<RecipientDiff>, b: seq<RecipientDiff>)
    requires SameTouch(a, b)
    ensures RosterFields(a) == RosterFields(b)
  {
    forall f: FieldName ensures TouchedBy(f, a) <==> TouchedBy(f, b) {
      if i :| 0 <= i < |a| && Touches(f, a[i]) {
        assert Touches(f, b[i]);
      }
      if i :| 0 <= i < |b| && Touches(f, b[i]) {
        assert Touches(f, a[i]);
      }
    }
  }

  // ----- what is listed -----

  /** The differences of one recipient, whichever loop finds it. */
  predicate DiffersAs(d: RecipientDiff, was: map<string, Recipient>, now: map<string, Recipient>, env: Env,
                      show: bool) {
    || (d.recipientId in now && CurrentDiff(d.recipientId, was, now, env, show) == [d])
    || (d.recipientId in was && RemovedDiff(d.recipientId, was, now, env, show) == [d])
  }

  lemma {:induction false} CurrentMembers(ids: seq<string>, was: map<string, Recipient>, now: map<string, Recipient>,
                                          env: Env, show: bool, d: RecipientDiff)
    requires forall id :: id in ids ==> id in now
    ensures d in CurrentDiffs(ids, was, now, env, show) <==>
            d.recipientId in ids && CurrentDiff(d.recipientId, was, now, env, show) == [d]
  {
    hide AmountsEqual, Shown, RecipientCommitment;
    if ids != [] {
      CurrentMembers(ids[..|ids| - 1], was, now, env, show, d);
      assert ids == ids[..|ids| - 1] + [ids[|ids| - 1]];
    }
  }

  lemma {:induction false} RemovedMembers(ids: seq<string>, was: map<string, Recipient>, now: map<string, Recipient>,
                                          env: Env, show: bool, d: RecipientDiff)
    requires forall id :: id in ids ==> id in was
    ensures d in RemovedDiffs(ids, was, now, env, show) <==>
            d.recipientId in ids && RemovedDiff(d.recipientId, was, now, env, show) == [d]
  {
    hide Shown, RecipientCommitment;
    if ids != [] {
      RemovedMembers(ids[..|ids| - 1], was, now, env, show, d);
      assert ids == ids[..|ids| - 1] + [ids[|ids| - 1]];
    }
  }

  lemma {:induction false} FoundExactly(was: OrderedMap<Recipient>, now: OrderedMap<Recipient>, env: Env, show: bool,
                                        d: RecipientDiff)
    requires was.Valid() && now.Valid()
    ensures d in AllDiffs(was, now, env, show) <==> DiffersAs(d, was.vals, now.vals, env, show)
  {
    hide CurrentDiffs, RemovedDiffs, CurrentDiff, RemovedDiff;
    CurrentMembers(now.keys, was.vals, now.vals, env, show, d);
    RemovedMembers(was.keys, was.vals, now.vals, env, show, d);
  }

  /** The recipients listed are exactly the added, the removed and the edited ones, in collated order. */
  lemma {:induction false} RecipientsListed(original: Draft, modified: Draft, env: Env, show: bool, d: RecipientDiff)
    ensures var r := DiffSpec(original, modified, env, show);
            && (d in r.recipients <==> DiffersAs(d, Index(original.recipients).vals, Index(modified.recipients).vals, env, show))
            && Ordered(RecipientKey(env), r.recipients)
            && Ordered(FieldKey(env), r.assetChanges) && Ordered(FieldKey(env), r.metadataChanges)
  {
    hide Index, SortBy, AllDiffs, OrderedFields, RosterFields, MetadataFields, MetadataChanges, AssetChanges, CommitmentsOf, IdsOf, Sorted,
         DiffersAs, RecipientKey, FieldKey, Ordered;
    var was, now := Index(original.recipients), Index(modified.recipients);
    var ds := AllDiffs(was, now, env, show);
    FoundExactly(was, now, env, show, d);
    SortByElements(RecipientKey(env), ds);
    SortByOrdered(RecipientKey(env), ds);
    SortByOrdered(FieldKey(env), AssetChanges(original, modified, AssetChangesOf(ds)));
    SortByOrdered(FieldKey(env), MetadataChanges(original, modified, show));
  }

  /** Where sort keys hold no zero character, that is the order by id first and by kind second. */
  lemma {:induction false} KeyOrder(a: string, b: string, j: char, k: char)
    requires Free(a, '\0') && Free(b, '\0')
    ensures Less(a + ['\0', j], b + ['\0', k]) <==> Less(a, b) || (a == b && j < k)
    decreases |a|
  {
    var x, y := a + ['\0', j], b + ['\0', k];
    if a != "" && b != "" && a[0] == b[0] {
      KeyOrder(a[1..], b[1..], j, k);
      assert x[1..] == a[1..] + ['\0', j] && y[1..] == b[1..] + ['\0', k];
      assert a == [a[0]] + a[1..] && b == [b[0]] + b[1..];
    } else if a == "" && b == "" {
      assert x[0] == y[0] && x[1..] == [j] && y[1..] == [k];
      assert Less([j], [k]) <==> j < k || (j == k && Less([j][1..], [k][1..]));
    } else {
      assert x[0] == (if a == "" then '\0' else a[0]) && y[0] == (if b == "" then '\0' else b[0]);
    }
  }

  /** Unless amounts are revealed, none is reported. */
  predicate Hidden(value: Option<string>) {
    value.None? || value.value == REDACTED
  }

  lemma {:induction false} AmountsHidden(original: Draft, modified: Draft, env: Env, d: RecipientDiff, c: Change)
    ensures var r := DiffSpec(original, modified, env, false);
            && r.redacted
            && (d in r.recipients ==> Hidden(d.previousAmount) && Hidden(d.currentAmount))
            && (c in r.metadataChanges && c.field == "totalAmount" ==> Hidden(c.previous) && Hidden(c.current))
  {
    RecipientsListed(original, modified, env, false, d);
    var changes := MetadataChanges(original, modified, false);
    SortByElements(FieldKey(env), changes);
    hide Index, SortBy, AllDiffs, OrderedFields, RosterFields, MetadataFields, CommitmentsOf, IdsOf, Sorted, RecipientCommitment,
         AssetChanges, Ordered, AmountsEqual;
    if c in changes && c.field == "totalAmount" {
      TotalsHidden(original, modified, c);
    }
  }

  lemma {:induction false} TotalsHidden(original: Draft, modified: Draft, c: Change)
    requires c in MetadataChanges(original, modified, false) && c.field == "totalAmount"
    ensures Hidden(c.previous) && Hidden(c.current)
  {
  }

  // ----- the order of the recipients in the drafts -----

  predicate IdsDiffer(ds: seq<RecipientDiff>) {
    forall i, j :: 0 <= i < j < |ds| ==> ds[i].recipientId != ds[j].recipientId
  }

  lemma {:induction false} CurrentIdsDiffer(ids: seq<string>, was: map<string, Recipient>,
                                            now: map<string, Recipient>, env: Env, show: bool)
    requires (forall id :: id in ids ==> id in now) && Distinct(ids)
    ensures IdsDiffer(CurrentDiffs(ids, was, now, env, show))
  {
    hide AmountsEqual, Shown, RecipientCommitment;
    if ids != [] {
      var init, id := ids[..|ids| - 1], ids[|ids| - 1];
      CurrentIdsDiffer(init, was, now, env, show);
      var ds := CurrentDiffs(init, was, now, env, show);
      forall i | 0 <= i < |ds| ensures ds[i].recipientId != id {
        CurrentMembers(init, was, now, env, show, ds[i]);
      }
    }
  }

  lemma {:induction false} RemovedIdsDiffer(ids: seq<string>, was: map<string, Recipient>,
                                            now: map<string, Recipient>, env: Env, show: bool)
    requires (forall id :: id in ids ==> id in was) && Distinct(ids)
    ensures IdsDiffer(RemovedDiffs(ids, was, now, env, show))
  {
    hide Shown, RecipientCommitment;
    if ids != [] {
      var init, id := ids[..|ids| - 1], ids[|ids| - 1];
      RemovedIdsDiffer(init, was, now, env, show);
      var ds := RemovedDiffs(init, was, now, env, show);
      forall i | 0 <= i < |ds| ensures ds[i].recipientId != id {
        RemovedMembers(init, was, now, env, show, ds[i]);
      }
    }
  }

  /** No recipient is found twice. */
  lemma {:induction false} FoundOnce(was: OrderedMap<Recipient>, now: OrderedMap<Recipient>, env: Env, show: bool)
    requires was.Valid() && now.Valid()
    ensures IdsDiffer(AllDiffs(was, now, env, show))
  {
    hide CurrentDiffs, RemovedDiffs, CurrentDiff;
    CurrentIdsDiffer(now.keys, was.vals, now.vals, env, show);
    RemovedIdsDiffer(was.keys, was.vals, now.vals, env, show);
    var current, gone := CurrentDiffs(now.keys, was.vals, now.vals, env, show), RemovedDiffs(was.keys, was.vals, now.vals, env, show);
    forall i, j | 0 <= i < |current| && 0 <= j < |gone| ensures current[i].recipientId != gone[j].recipientId {
      CurrentMembers(now.keys, was.vals, now.vals, env, show, current[i]);
      RemovedMembers(was.keys, was.vals, now.vals, env, show, gone[j]);
    }
  }

  lemma {:induction false} IdsOfMembers(kind: Kind, ds: seq<RecipientDiff>, id: string)
    ensures id in IdsOf(kind, ds) <==> exists d :: d in ds && d.kind == kind && d.recipientId == id
  {
    if ds != [] {
      IdsOfMembers(kind, ds[..|ds| - 1], id);
      assert ds == ds[..|ds| - 1] + [ds[|ds| - 1]];
    }
  }

  lemma {:induction false} IdsOfDistinct(kind: Kind, ds: seq<RecipientDiff>)
    requires IdsDiffer(ds)
    ensures Distinct(IdsOf(kind, ds))
  {
    if ds != [] {
      IdsOfDistinct(kind, ds[..|ds| - 1]);
      IdsOfMembers(kind, ds[..|ds| - 1], ds[|ds| - 1].recipientId);
    }
  }

  lemma {:induction false} AssetChangesMembers(ds: seq<RecipientDiff>, c: Change)
    ensures c in AssetChangesOf(ds) <==> exists d :: d in ds && AssetChange(d) == [c]
  {
    if ds != [] {
      AssetChangesMembers(ds[..|ds| - 1], c);
      assert ds == ds[..|ds| - 1] + [ds[|ds| - 1]];
    }
  }

  ghost predicate FieldsDiffer(cs: seq<Change>) {
    forall i, j :: 0 <= i < j < |cs| ==> cs[i].field != cs[j].field
  }

  lemma {:induction false} AssetFieldTells(a: RecipientDiff, b: RecipientDiff)
    requires a.assetChanged && b.assetChanged && AssetChange(a)[0].field == AssetChange(b)[0].field
    ensures a.recipientId == b.recipientId
  {
    var x, y := AssetChange(a)[0].field, AssetChange(b)[0].field;
    assert |x| == 18 + |a.recipientId| && |y| == 18 + |b.recipientId|;
    assert x[11..11 + |a.recipientId|] == a.recipientId && y[11..11 + |b.recipientId|] == b.recipientId;
  }

  lemma {:induction false} AssetFieldsDiffer(ds: seq<RecipientDiff>)
    requires IdsDiffer(ds)
    ensures FieldsDiffer(AssetChangesOf(ds))
  {
    if ds != [] {
      var init, last := ds[..|ds| - 1], ds[|ds| - 1];
      AssetFieldsDiffer(init);
      var cs := AssetChangesOf(init);
      forall i | 0 <= i < |cs| && last.assetChanged ensures cs[i].field != AssetChange(last)[0].field {
        AssetChangesMembers(init, cs[i]);
        var d :| d in init && AssetChange(d) == [cs[i]];
        if cs[i].field == AssetChange(last)[0].field {
          AssetFieldTells(d, last);
        }
      }
    }
  }

  lemma {:induction false} DraftAssetDiffers(a: Draft, b: Draft, ds: seq<RecipientDiff>)
    requires IdsDiffer(ds)
    ensures FieldsDiffer(AssetChanges(a, b, AssetChangesOf(ds)))
  {
    AssetFieldsDiffer(ds);
    var cs := AssetChangesOf(ds);
    forall i | 0 <= i < |cs| ensures cs[i].field != "asset" {
      AssetChangesMembers(ds, cs[i]);
      assert cs[i].field[0] == 'r' && "asset"[0] == 'a';
    }
  }

  /** Distinct names have distinct sort keys. */
  ghost predicate Collates(env: Env) {
    forall a, b :: env.collate(a) == env.collate(b) ==> a == b
  }

  lemma {:induction false} KeysDiffer(env: Env, ds: seq<RecipientDiff>)
    requires Collates(env) && IdsDiffer(ds)
    ensures DistinctKeys(RecipientKey(env), ds)
  {
    var key := RecipientKey(env);
    forall i, j | 0 <= i < j < |ds| ensures key(ds[i]) != key(ds[j]) {
      var x, y := env.collate(ds[i].recipientId), env.collate(ds[j].recipientId);
      assert key(ds[i])[..|key(ds[i])| - 2] == x && key(ds[j])[..|key(ds[j])| - 2] == y;
    }
  }

  /** Lists of the same differences give the same report, in whatever order they were found. */
  lemma {:induction false} SameFound(env: Env, xs: seq<RecipientDiff>, ys: seq<RecipientDiff>)
    requires Collates(env) && IdsDiffer(xs) && IdsDiffer(ys) && forall d :: d in xs <==> d in ys
    ensures SortBy(RecipientKey(env), xs) == SortBy(RecipientKey(env), ys)
    ensures RosterFields(xs) == RosterFields(ys)
  {
    KeysDiffer(env, xs);
    KeysDiffer(env, ys);
    SortOfSameElements(RecipientKey(env), xs, ys);
    forall f: FieldName ensures TouchedBy(f, xs) <==> TouchedBy(f, ys) {
      if i :| 0 <= i < |xs| && Touches(f, xs[i]) {
        assert xs[i] in ys;
      }
      if i :| 0 <= i < |ys| && Touches(f, ys[i]) {
        assert ys[i] in xs;
      }
    }
  }

  lemma {:induction false} SameIds(kind: Kind, xs: seq<RecipientDiff>, ys: seq<RecipientDiff>)
    requires IdsDiffer(xs) && IdsDiffer(ys) && forall d :: d in xs <==> d in ys
    ensures Sorted(IdsOf(kind, xs)) == Sorted(IdsOf(kind, ys))
  {
    IdsOfDistinct(kind, xs);
    IdsOfDistinct(kind, ys);
    forall id ensures id in IdsOf(kind, xs) <==> id in IdsOf(kind, ys) {
      IdsOfMembers(kind, xs, id);
      IdsOfMembers(kind, ys, id);
    }
    SortOfSameElements((s: string) => s, IdsOf(kind, xs), IdsOf(kind, ys));
  }

  lemma {:induction false} SameAssets(env: Env, a: Draft, b: Draft, xs: seq<RecipientDiff>, ys: seq<RecipientDiff>)
    requires Collates(env) && IdsDiffer(xs) && IdsDiffer(ys) && forall d :: d in xs <==> d in ys
    ensures SortBy(FieldKey(env), AssetChanges(a, b, AssetChangesOf(xs))) == SortBy(FieldKey(env), AssetChanges(a, b, AssetChangesOf(ys)))
  {
    DraftAssetDiffers(a, b, xs);
    DraftAssetDiffers(a, b, ys);
    forall c ensures c in AssetChangesOf(xs) <==> c in AssetChangesOf(ys) {
      AssetChangesMembers(xs, c);
      AssetChangesMembers(ys, c);
    }
    SortOfSameElements(FieldKey(env), AssetChanges(a, b, AssetChangesOf(xs)), AssetChanges(a, b, AssetChangesOf(ys)));
  }

  /** The same draft up to the order of its recipients, whose ids are distinct. */
  predicate SameUpToOrder(a: Draft, b: Draft) {
    && SameMetadata(a, b) && multiset(a.recipients) == multiset(b.recipients)
    && UniqueIds(a.recipients) && UniqueIds(b.recipients)
  }

  predicate UniqueIds(list: seq<Recipient>) {
    forall i, j :: 0 <= i < j < |list| && list[i].recipientId.Some? ==> list[i].recipientId != list[j].recipientId
  }

  lemma {:induction false} IndexSource(list: seq<Recipient>, id: string)
    ensures id in Index(list).vals ==> Index(list).vals[id] in list && Index(list).vals[id].recipientId == Some(id)
  {
    if list != [] {
      IndexSource(list[..|list| - 1], id);
      assert list == list[..|list| - 1] + [list[|list| - 1]];
    }
  }

  lemma {:induction false} IndexCarries(a: seq<Recipient>, b: seq<Recipient>, id: string)
    requires multiset(a) == multiset(b) && UniqueIds(b) && id in Index(a).vals
    ensures id in Index(b).vals && Index(b).vals[id] == Index(a).vals[id]
  {
    IndexSource(a, id);
    var r := Index(a).vals[id];
    assert r in multiset(a);
    assert r in multiset(b);
    var j :| 0 <= j < |b| && b[j] == r;
    IndexKeepsFirst(b, j);
  }

  lemma {:induction false} SameIndex(a: seq<Recipient>, b: seq<Recipient>)
    requires multiset(a) == multiset(b) && UniqueIds(a) && UniqueIds(b)
    ensures Index(a).vals == Index(b).vals
  {
    hide Index, UniqueIds;
    forall id | id in Index(a).vals ensures id in Index(b).vals && Index(b).vals[id] == Index(a).vals[id] {
      IndexCarries(a, b, id);
    }
    forall id | id in Index(b).vals ensures id in Index(a).vals {
      IndexCarries(b, a, id);
    }
  }

  /** The report does not depend on the order of the recipients in either draft, when distinct names have distinct sort keys. */
  lemma {:induction false} OrderIrrelevant(a: Draft, b: Draft, a': Draft, b': Draft, env: Env, show: bool)
    requires SameUpToOrder(a, a') && SameUpToOrder(b, b') && Collates(env)
    ensures DiffSpec(a, b, env, show) == DiffSpec(a', b', env, show)
  {
    hide Index, AllDiffs, SortBy, Sorted, IdsOf, AssetChanges, AssetChangesOf, RosterFields, OrderedFields, IdsDiffer, DiffersAs,
         UniqueIds, Shown, Collates, RecipientKey, FieldKey, Marked, Listed, Join;
    SameIndex(a.recipients, a'.recipients);
    SameIndex(b.recipients, b'.recipients);
    var xs, ys := AllDiffs(Index(a.recipients), Index(b.recipients), env, show), AllDiffs(Index(a'.recipients), Index(b'.recipients), env, show);
    FoundOnce(Index(a.recipients), Index(b.recipients), env, show);
    FoundOnce(Index(a'.recipients), Index(b'.recipients), env, show);
    forall d ensures d in xs <==> d in ys {
      FoundExactly(Index(a.recipients), Index(b.recipients), env, show, d);
      FoundExactly(Index(a'.recipients), Index(b'.recipients), env, show, d);
    }
    SameFound(env, xs, ys);
    SameIds(Added, xs, ys);
    SameIds(Removed, xs, ys);
    SameIds(Edited, xs, ys);
    SameAssets(env, a, b, xs, ys);
    SameAssetChanges(a, b, a', b', AssetChangesOf(ys));
  }

  lemma {:induction false} SameAssetChanges(a: Draft, b: Draft, a': Draft, b': Draft, roster: seq<Change>)
    requires SameMetadata(a, a') && SameMetadata(b, b')
    ensures AssetChanges(a, b, roster) == AssetChanges(a', b', roster)
  {
  }

  // ----- the metadata commitment -----

  predicate BarFree(d: Draft) {
    forall i :: 1 <= i < 7 ==> Free(Pieces(d)[i], '|')
  }

  lemma {:induction false} VersionFree()
    ensures Free(VERSION, '|')
  {
  }

  lemma {:induction false} PiecesAreMetadata(a: Draft, b: Draft)
    ensures Pieces(a) == Pieces(b) <==> SameMetadata(a, b)
  {
    if Pieces(a) == Pieces(b) {
      assert forall i :: 1 <= i < 7 ==> Pieces(a)[i] == Pieces(b)[i];
      assert Pieces(a)[1] == a.draftId && Pieces(a)[2] == a.totalAmount && Pieces(a)[3] == a.asset
             && Pieces(a)[4] == a.scheduleTimestamp && Pieces(a)[5] == a.policyText && Pieces(a)[6] == a.approvalsText;
    }
  }

  /** Where one draft holds no separator, any draft committed to by the same text has the same metadata. */
  lemma {:induction false} FreeBinds(a: Draft, b: Draft)
    requires BarFree(a) && MetadataPayload(a) == MetadataPayload(b)
    ensures SameMetadata(a, b)
  {
    hide Join, Split, Free, SameMetadata;
    VersionFree();
    SplitCounts(Pieces(a), '|');
    SplitCounts(Pieces(b), '|');
    SplitJoin(Pieces(a), '|');
    SplitJoin(Pieces(b), '|');
    PiecesAreMetadata(a, b);
  }

  /** A separator in any piece can be shared out differently between two neighbours. */
  lemma {:induction false} Regrouped(a: Draft, i: nat) returns (b: Draft)
    requires 1 <= i < 7 && !Free(Pieces(a)[i], '|')
    ensures MetadataPayload(b) == MetadataPayload(a) && !SameMetadata(a, b)
  {
    hide Join, SameMetadata;
    var pieces := Pieces(a);
    var bar := IndexOf(pieces[i], '|');
    assert bar < |pieces[i]| by {
      assert pieces[i][..|pieces[i]|] == pieces[i];
    }
    var x, y := pieces[i][..bar], pieces[i][bar + 1..];
    assert pieces[i] == x + ['|'] + y;
    var k := if i < 6 then i else 5;
    var first, second := if i < 6 then x else pieces[5] + ['|'] + x, if i < 6 then y + ['|'] + pieces[i + 1] else y;
    var moved := pieces[..k] + [first, second] + pieces[k + 2..];
    assert pieces == pieces[..k] + [pieces[k], pieces[k + 1]] + pieces[k + 2..];
    if i < 6 {
      JoinRegroups(pieces[..k], x, y, pieces[i + 1], pieces[k + 2..], '|');
    } else {
      JoinRegroups(pieces[..k], pieces[5], x, y, pieces[k + 2..], '|');
    }
    b := WithPieces(a, moved);
    assert Pieces(b) == moved;
    assert moved[k] == first != pieces[k];
    PiecesAreMetadata(a, b);
  }

  /** The committed text determines the metadata of a draft exactly when no field of it holds the separator. */
  lemma {:induction false} CommitmentBindsMetadata(a: Draft)
    ensures (forall b: Draft :: MetadataPayload(b) == MetadataPayload(a) ==> SameMetadata(a, b)) <==> BarFree(a)
  {
    hide MetadataPayload, SameMetadata;
    if BarFree(a) {
      forall b: Draft | MetadataPayload(b) == MetadataPayload(a) ensures SameMetadata(a, b) {
        FreeBinds(a, b);
      }
    } else {
      var i :| 1 <= i < 7 && !Free(Pieces(a)[i], '|');
      var b := Regrouped(a, i);
    }
  }

  /** For instance, a draft id and a total may share their digits differently. */
  lemma {:induction false} CommitmentAmbiguous(d: Draft)
    ensures var a, b := d.(draftId := "d|1", totalAmount := "2"), d.(draftId := "d", totalAmount := "1|2");
            MetadataPayload(a) == MetadataPayload(b) && !SameMetadata(a, b)
  {
    var a, b := d.(draftId := "d|1", totalAmount := "2"), d.(draftId := "d", totalAmount := "1|2");
    var post := [d.asset, d.scheduleTimestamp, d.policyText, d.approvalsText];
    JoinRegroups([VERSION], "d", "1", "2", post, '|');
    hide Join;
    assert "d" + ['|'] + "1" == "d|1" && "1" + ['|'] + "2" == "1|2";
    assert Pieces(a) == [VERSION] + ["d|1", "2"] + post && Pieces(b) == [VERSION] + ["d", "1|2"] + post;
  }

  /** When the digests of the two texts do not collide, the commitment changes exactly with the metadata of a bar-free draft. */
  lemma {:induction false} CommitmentChanges(original: Draft, modified: Draft, env: Env)
    requires BarFree(original)
    requires env.digest(MetadataPayload(original)) == env.digest(MetadataPayload(modified)) ==> MetadataPayload(original) == MetadataPayload(modified)
    ensures CommitmentsOf(original, modified, env).changed <==> !SameMetadata(original, modified)
  {
    hide MetadataPayload, BarFree;
    var x, y := env.digest(MetadataPayload(original)), env.digest(MetadataPayload(modified));
    assert ("draftmeta:" + x)[10..] == x && ("draftmeta:" + y)[10..] == y;
    if MetadataPayload(original) == MetadataPayload(modified) {
      FreeBinds(original, modified);
    }
    if SameMetadata(original, modified) {
      PiecesAreMetadata(original, modified);
      SamePayload(original, modified);
    }
  }

  lemma {:induction false} SamePayload(a: Draft, b: Draft)
    requires Pieces(a) == Pieces(b)
    ensures MetadataPayload(a) == MetadataPayload(b)
  {
  }
}
