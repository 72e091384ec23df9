/** What a payroll batch report holds, said of the two drafts: its lists, fields and values, each exactly. */
module PayrollBatchReport {
  import opened Prelude
  import opened Text
  import opened Sorting
  import opened PayrollBatchDiff

  /** The rosters compared: the first recipient of each id. */
  function Roster(d: Draft): map<string, Recipient> {
    Index(d.recipients).vals
  }

  /** Amounts that differ as numbers, or literally where one of them is no number. */
  predicate AmountDiffers(id: string, was: map<string, Recipient>, now: map<string, Recipient>, env: Env)
    requires id in was && id in now
  {
    var a, b := was[id].amount, now[id].amount;
    a != b && (env.bigInt(a).None? || env.bigInt(b).None? || env.bigInt(a).value != env.bigInt(b).value)
  }

  predicate AssetDiffers(id: string, was: map<string, Recipient>, now: map<string, Recipient>)
    requires id in was && id in now
  {
    was[id].asset != now[id].asset
  }

  lemma {:induction false} AmountsDiffer(id: string, was: map<string, Recipient>, now: map<string, Recipient>, env: Env)
    requires id in was && id in now
    ensures AmountDiffers(id, was, now, env) <==> !AmountsEqual(was[id].amount, now[id].amount, env)
  {
  }

  // ----- the entries -----

  function Reported(amount: string, show: bool): string {
    if show then amount else "[REDACTED]"
  }

  function CommittedTo(r: Recipient, env: Env): string {
    "recipient:" + env.digest("zkpayroll-recipient-v1|" + r.amount + "|" + if r.asset.Some? then r.asset.value else "")
  }

  lemma {:induction false} CommitmentText(r: Recipient, env: Env)
    ensures RecipientCommitment(r, env) == CommittedTo(r, env)
  {
    var asset := if r.asset.Some? then r.asset.value else "";
    var version := "zkpayroll-recipient-v1";
    JoinCons(version, [r.amount, asset], '|');
    JoinCons(r.amount, [asset], '|');
    assert [version] + [r.amount, asset] == [version, r.amount, asset] && [r.amount] + [asset] == [r.amount, asset];
    assert version + ['|'] == "zkpayroll-recipient-v1|";
    Regroup(version + ['|'], r.amount, ['|'], asset);
  }

  lemma {:induction false} Regroup(a: string, b: string, c: string, d: string)
    ensures a + (b + c + d) == a + b + c + d
  {
  }

  /** An entry tells the truth: its kind is where the recipient stands, and its values are those of the two drafts. */
  predicate Describes(d: RecipientDiff, was: map<string, Recipient>, now: map<string, Recipient>, env: Env,
                      show: bool) {
    var id := d.recipientId;
    match d.kind
    case Added =>
      && id !in was && id in now && !d.amountChanged && !d.assetChanged
      && d.previousAmount == None && d.previousAsset == None && d.previousCommitment == None
      && d.currentAmount == Some(Reported(now[id].amount, show)) && d.currentAsset == now[id].asset
      && d.currentCommitment == Some(CommittedTo(now[id], env))
    case Removed =>
      && id in was && id !in now && !d.amountChanged && !d.assetChanged
      && d.currentAmount == None && d.currentAsset == None && d.currentCommitment == None
      && d.previousAmount == Some(Reported(was[id].amount, show)) && d.previousAsset == was[id].asset
      && d.previousCommitment == Some(CommittedTo(was[id], env))
    case Edited =>
      && id in was && id in now
      && (d.amountChanged <==> AmountDiffers(id, was, now, env)) && (d.assetChanged <==> AssetDiffers(id, was, now))
      && (d.amountChanged || d.assetChanged)
      && d.previousAmount == Some(Reported(was[id].amount, show)) && d.currentAmount == Some(Reported(now[id].amount, show))
      && d.previousAsset == was[id].asset && d.currentAsset == now[id].asset
      && d.previousCommitment == Some(CommittedTo(was[id], env)) && d.currentCommitment == Some(CommittedTo(now[id], env))
  }

  lemma {:induction false} DiffersMeans(d: RecipientDiff, was: map<string, Recipient>, now: map<string, Recipient>,
                                        env: Env, show: bool)
    ensures DiffersAs(d, was, now, env, show) <==> Describes(d, was, now, env, show)
  {
    hide AmountsEqual, AmountDiffers, CommittedTo, RecipientCommitment;
    var id := d.recipientId;
    if id in was {
      CommitmentText(was[id], env);
    }
    if id in now {
      CommitmentText(now[id], env);
    }
    if id in was && id in now {
      AmountsDiffer(id, was, now, env);
    }
  }

  lemma {:induction false} InsertKeepsIds(key: RecipientDiff -> string, x: RecipientDiff, s: seq<RecipientDiff>)
    requires IdsDiffer(s) && forall y :: y in s ==> y.recipientId != x.recipientId
    ensures IdsDiffer(InsertBy(key, x, s))
  {
    hide Less;
    if s != [] && Less(key(s[0]), key(x)) {
      var tail := InsertBy(key, x, s[1..]);
      InsertKeepsIds(key, x, s[1..]);
      InsertByElements(key, x, s[1..]);
      forall j | 0 <= j < |tail| ensures tail[j].recipientId != s[0].recipientId {
        assert tail[j] in multiset(tail);
        if tail[j] != x {
          assert tail[j] in s[1..];
          var k :| 0 <= k < |s[1..]| && s[1..][k] == tail[j];
          assert s[k + 1] == tail[j];
        }
      }
    }
  }

  lemma {:induction false} SortKeepsIds(key: RecipientDiff -> string, s: seq<RecipientDiff>)
    requires IdsDiffer(s)
    ensures IdsDiffer(SortBy(key, s))
  {
    if s != [] {
      SortKeepsIds(key, s[1..]);
      SortByElements(key, s[1..]);
      var rest := SortBy(key, s[1..]);
      forall y | y in rest ensures y.recipientId != s[0].recipientId {
        assert y in s[1..];
        var k :| 0 <= k < |s[1..]| && s[1..][k] == y;
        assert s[k + 1] == y;
      }
      InsertKeepsIds(key, s[0], rest);
    }
  }

  /** The reported recipients are the true entries, and no recipient is reported twice. */
  lemma {:induction false} EntriesExactly(a: Draft, b: Draft, env: Env, show: bool, d: RecipientDiff)
    ensures var r := DiffSpec(a, b, env, show);
            && (d in r.recipients <==> Describes(d, Roster(a), Roster(b), env, show))
            && IdsDiffer(r.recipients)
  {
    hide Index, AllDiffs, Describes, DiffersAs, SortBy, OrderedFields, RosterFields, MetadataFields, MetadataChanges, AssetChanges,
         CommitmentsOf, IdsOf, Sorted, Ordered, RecipientKey, FieldKey, IdsDiffer;
    RecipientsListed(a, b, env, show, d);
    DiffersMeans(d, Roster(a), Roster(b), env, show);
    FoundOnce(Index(a.recipients), Index(b.recipients), env, show);
    SortKeepsIds(RecipientKey(env), AllDiffs(Index(a.recipients), Index(b.recipients), env, show));
  }

  function KindPlace(kind: Kind): nat {
    match kind case Added => 0 case Removed => 1 case Edited => 2
  }

  /** Where sort keys hold no zero character, entries come by collated id, and by kind where ids collate alike. */
  lemma {:induction false} EntriesOrdered(a: Draft, b: Draft, env: Env, show: bool, i: nat, j: nat)
    requires forall id :: Free(env.collate(id), '\0')
    requires i < j < |DiffSpec(a, b, env, show).recipients|
    ensures var r := DiffSpec(a, b, env, show).recipients;
            var x, y := env.collate(r[i].recipientId), env.collate(r[j].recipientId);
            Less(x, y) || (x == y && KindPlace(r[i].kind) <= KindPlace(r[j].kind))
  {
    hide Index, AllDiffs, SortBy, OrderedFields, RosterFields, MetadataFields, MetadataChanges, AssetChanges, CommitmentsOf, IdsOf, Sorted,
         FieldKey, Less, Free;
    var r := DiffSpec(a, b, env, show).recipients;
    RecipientsListed(a, b, env, show, r[i]);
    var x, y := env.collate(r[i].recipientId), env.collate(r[j].recipientId);
    KeyOrder(y, x, KindChar(r[j].kind), KindChar(r[i].kind));
    assert RecipientKey(env)(r[j]) == y + ['\0', KindChar(r[j].kind)] && RecipientKey(env)(r[i]) == x + ['\0', KindChar(r[i].kind)];
    LessTotal(x, y);
  }

  function KindChar(kind: Kind): char {
    match kind case Added => '0' case Removed => '1' case Edited => '2'
  }

  /** The one entry of a recipient that has one. */
  function EntryOf(id: string, was: map<string, Recipient>, now: map<string, Recipient>, env: Env,
                   show: bool): RecipientDiff
    requires id in was || id in now
  {
    if id !in was then
      RecipientDiff(Added, id, None, Some(Reported(now[id].amount, show)), false, false, None, now[id].asset, None, Some(CommittedTo(now[id], env)))
    else if id !in now then
      RecipientDiff(Removed, id, Some(Reported(was[id].amount, show)), None, false, false, was[id].asset, None, Some(CommittedTo(was[id], env)), None)
    else
      RecipientDiff(Edited, id, Some(Reported(was[id].amount, show)), Some(Reported(now[id].amount, show)),
                    AmountDiffers(id, was, now, env), AssetDiffers(id, was, now), was[id].asset, now[id].asset,
                    Some(CommittedTo(was[id], env)), Some(CommittedTo(now[id], env)))
  }

  /** Which recipients have an entry of a kind. */
  predicate Stands(kind: Kind, id: string, was: map<string, Recipient>, now: map<string, Recipient>, env: Env) {
    match kind
    case Added => id in now && id !in was
    case Removed => id in was && id !in now
    case Edited => id in was && id in now && (AmountDiffers(id, was, now, env) || AssetDiffers(id, was, now))
  }

  lemma {:induction false} StandsMeans(kind: Kind, id: string, was: map<string, Recipient>,
                                       now: map<string, Recipient>, env: Env, show: bool)
    ensures Stands(kind, id, was, now, env) <==> exists d: RecipientDiff :: d.kind == kind && d.recipientId == id && Describes(d, was, now, env, show)
  {
    hide AmountDiffers, CommittedTo, Reported;
    if Stands(kind, id, was, now, env) {
      assert Describes(EntryOf(id, was, now, env, show), was, now, env, show);
    }
  }

  // ----- the lists of ids -----

  lemma {:induction false} IdsExactly(kind: Kind, a: Draft, b: Draft, env: Env, show: bool, id: string)
    ensures var ds := AllDiffs(Index(a.recipients), Index(b.recipients), env, show);
            && (id in Sorted(IdsOf(kind, ds)) <==> Stands(kind, id, Roster(a), Roster(b), env))
            && StrictlySorted((s: string) => s, Sorted(IdsOf(kind, ds)))
  {
    hide Index, AllDiffs, Describes, DiffersAs, SortBy, IdsOf, IdsDiffer, Stands;
    var ds := AllDiffs(Index(a.recipients), Index(b.recipients), env, show);
    FoundOnce(Index(a.recipients), Index(b.recipients), env, show);
    IdsOfDistinct(kind, ds);
    IdsOfMembers(kind, ds, id);
    SortByElements((s: string) => s, IdsOf(kind, ds));
    SortBySorted((s: string) => s, IdsOf(kind, ds));
    StandsMeans(kind, id, Roster(a), Roster(b), env, show);
    forall d: RecipientDiff ensures d in ds <==> Describes(d, Roster(a), Roster(b), env, show) {
      FoundExactly(Index(a.recipients), Index(b.recipients), env, show, d);
      DiffersMeans(d, Roster(a), Roster(b), env, show);
    }
  }

  /**
   * The three lists of ids: those only in the modified draft, those only in the original, and those in both with a
   * numerically different amount or another asset; each id once, in code-unit order.
   */
  lemma {:induction false} ListsExactly(a: Draft, b: Draft, env: Env, show: bool, id: string)
    ensures var r, was, now := DiffSpec(a, b, env, show), Roster(a), Roster(b);
            && (id in r.addedIds <==> id in now && id !in was)
            && (id in r.removedIds <==> id in was && id !in now)
            && (id in r.editedIds <==> id in was && id in now && (AmountDiffers(id, was, now, env) || AssetDiffers(id, was, now)))
            && forall ids :: ids in {r.addedIds, r.removedIds, r.editedIds} ==> Distinct(ids) && StrictlySorted((s: string) => s, ids)
  {
    hide Index, AllDiffs, SortBy, IdsOf, AmountDiffers, AssetDiffers, OrderedFields, RosterFields, MetadataFields, MetadataChanges,
         AssetChanges, CommitmentsOf, Sorted, RecipientKey, FieldKey, StrictlySorted, Distinct;
    IdsExactly(Added, a, b, env, show, id);
    IdsExactly(Removed, a, b, env, show, id);
    IdsExactly(Edited, a, b, env, show, id);
    var r := DiffSpec(a, b, env, show);
    StrictIsDistinct(r.addedIds);
    StrictIsDistinct(r.removedIds);
    StrictIsDistinct(r.editedIds);
  }

  lemma {:induction false} StrictIsDistinct(ids: seq<string>)
    requires StrictlySorted((s: string) => s, ids)
    ensures Distinct(ids)
  {
    forall i, j | 0 <= i < j < |ids| ensures ids[i] != ids[j] {
      assert Less(ids[i], ids[j]);
      LessTotal(ids[i], ids[j]);
    }
  }

  // ----- the changed fields -----

  /** What each changed field name says of the two drafts. */
  predicate FieldDiffers(f: FieldName, a: Draft, b: Draft, env: Env) {
    var was, now := Roster(a), Roster(b);
    match f
    case DraftIdField => a.draftId != b.draftId
    case TotalAmountField => a.totalAmount != b.totalAmount
    case AssetField => a.asset != b.asset
    case ScheduleField => a.scheduleTimestamp != b.scheduleTimestamp
    case PolicyField => a.policyText != b.policyText
    case ApprovalsField => a.approvalsText != b.approvalsText
    case RecipientsAdded => exists id :: id in now && id !in was
    case RecipientsAssets => exists id :: id in was && id in now && AssetDiffers(id, was, now)
    case RecipientsEdited => exists id :: id in was && id in now && AmountDiffers(id, was, now, env)
    case RecipientsRemoved => exists id :: id in was && id !in now
  }

  /** The documented order: the draft's own fields, then the roster's by name. */
  function FieldPlace(f: FieldName): nat {
    match f
    case DraftIdField => 0
    case TotalAmountField => 1
    case AssetField => 2
    case ScheduleField => 3
    case PolicyField => 4
    case ApprovalsField => 5
    case RecipientsAdded => 6
    case RecipientsAssets => 7
    case RecipientsEdited => 8
    case RecipientsRemoved => 9
  }

  predicate RosterDiffers(f: FieldName, id: string, was: map<string, Recipient>, now: map<string, Recipient>,
                          env: Env) {
    match f
    case RecipientsAdded => id in now && id !in was
    case RecipientsRemoved => id in was && id !in now
    case RecipientsAssets => id in was && id in now && AssetDiffers(id, was, now)
    case RecipientsEdited => id in was && id in now && AmountDiffers(id, was, now, env)
    case _ => false
  }

  /** A field of the roster is touched by the entry of a recipient that differs in it. */
  lemma {:induction false} TouchedExactly(f: FieldName, id: string, was: map<string, Recipient>,
                                          now: map<string, Recipient>, env: Env, show: bool)
    ensures (exists d: RecipientDiff :: d.recipientId == id && Touches(f, d) && Describes(d, was, now, env, show))
            <==> RosterDiffers(f, id, was, now, env)
  {
    hide AmountDiffers, AssetDiffers, CommittedTo, Reported;
    if RosterDiffers(f, id, was, now, env) {
      assert Touches(f, EntryOf(id, was, now, env, show)) && Describes(EntryOf(id, was, now, env, show), was, now, env, show);
    }
  }

  lemma {:induction false} TouchesMeans(f: FieldName, a: Draft, b: Draft, env: Env, show: bool)
    ensures (exists d: RecipientDiff :: Touches(f, d) && Describes(d, Roster(a), Roster(b), env, show))
            <==> exists id :: RosterDiffers(f, id, Roster(a), Roster(b), env)
  {
    hide Index, Touches, Describes, RosterDiffers;
    var was, now := Roster(a), Roster(b);
    if d: RecipientDiff :| Touches(f, d) && Describes(d, was, now, env, show) {
      TouchedExactly(f, d.recipientId, was, now, env, show);
    }
    if id :| RosterDiffers(f, id, was, now, env) {
      TouchedExactly(f, id, was, now, env, show);
    }
  }

  lemma {:induction false} RosterFieldsMean(f: FieldName, a: Draft, b: Draft, env: Env, show: bool)
    ensures f in RosterFields(AllDiffs(Index(a.recipients), Index(b.recipients), env, show))
            <==> exists id :: RosterDiffers(f, id, Roster(a), Roster(b), env)
  {
    hide Index, AllDiffs, Touches, Describes, RosterDiffers, DiffersAs;
    var ds := AllDiffs(Index(a.recipients), Index(b.recipients), env, show);
    TouchesMeans(f, a, b, env, show);
    forall d: RecipientDiff ensures d in ds <==> Describes(d, Roster(a), Roster(b), env, show) {
      FoundExactly(Index(a.recipients), Index(b.recipients), env, show, d);
      DiffersMeans(d, Roster(a), Roster(b), env, show);
    }
    if d: RecipientDiff :| Touches(f, d) && Describes(d, Roster(a), Roster(b), env, show) {
      var i :| 0 <= i < |ds| && ds[i] == d;
    }
  }

  predicate InFieldOrder(fields: seq<FieldName>) {
    forall i, j :: 0 <= i < j < |fields| ==> FieldPlace(fields[i]) < FieldPlace(fields[j])
  }

  lemma {:induction false} FilterInOrder(p: FieldName -> bool, fields: seq<FieldName>)
    requires InFieldOrder(fields)
    ensures InFieldOrder(Filter(p, fields))
  {
    if fields != [] {
      FilterInOrder(p, fields[1..]);
      var rest := Filter(p, fields[1..]);
      forall j | 0 <= j < |rest| ensures FieldPlace(fields[0]) < FieldPlace(rest[j]) {
        FilterMember(p, fields[1..], rest[j]);
        var k :| 0 <= k < |fields[1..]| && fields[1..][k] == rest[j];
        assert fields[k + 1] == rest[j];
      }
    }
  }

  lemma {:induction false} FieldOrderOrdered()
    ensures InFieldOrder(FIELD_ORDER)
  {
    assert forall i :: 0 <= i < |FIELD_ORDER| ==> FieldPlace(FIELD_ORDER[i]) == i;
  }

  lemma {:induction false} OrderedMembers(fields: set<FieldName>, f: FieldName)
    ensures f in OrderedFields(fields) <==> f in fields
  {
    hide Filter;
    AllFieldsListed(f);
    FilterMember(g => g in fields, FIELD_ORDER, f);
  }

  lemma {:induction false} OrderedInOrder(fields: set<FieldName>)
    ensures InFieldOrder(OrderedFields(fields))
  {
    hide Filter, InFieldOrder;
    FieldOrderOrdered();
    FilterInOrder(g => g in fields, FIELD_ORDER);
  }

  /** The changed fields are exactly those in which the drafts differ, each once and in the documented order. */
  lemma {:induction false} FieldsExactly(a: Draft, b: Draft, env: Env, show: bool, f: FieldName)
    ensures var r := DiffSpec(a, b, env, show);
            && (f in r.changedFields <==> FieldDiffers(f, a, b, env)) && InFieldOrder(r.changedFields)
            && (r.hasDifferences <==> r.changedFields != []) && (r.redacted <==> !show)
  {
    hide Index, AllDiffs, SortBy, IdsOf, Sorted, MetadataChanges, AssetChanges, CommitmentsOf, RecipientKey, FieldKey, RosterFields,
         OrderedFields, InFieldOrder, AmountDiffers, AssetDiffers;
    var fields := RosterFields(AllDiffs(Index(a.recipients), Index(b.recipients), env, show)) + MetadataFields(a, b);
    OrderedMembers(fields, f);
    OrderedInOrder(fields);
    RosterFieldsMean(f, a, b, env, show);
    DiffersInField(f, a, b, env);
    MetadataFieldsMean(f, a, b);
  }

  predicate MetadataDiffers(f: FieldName, a: Draft, b: Draft) {
    match f
    case DraftIdField => a.draftId != b.draftId
    case TotalAmountField => a.totalAmount != b.totalAmount
    case AssetField => a.asset != b.asset
    case ScheduleField => a.scheduleTimestamp != b.scheduleTimestamp
    case PolicyField => a.policyText != b.policyText
    case ApprovalsField => a.approvalsText != b.approvalsText
    case _ => false
  }

  lemma {:induction false} MetadataFieldsMean(f: FieldName, a: Draft, b: Draft)
    ensures f in MetadataFields(a, b) <==> MetadataDiffers(f, a, b)
  {
  }

  lemma {:induction false} DiffersInField(f: FieldName, a: Draft, b: Draft, env: Env)
    ensures FieldDiffers(f, a, b, env) <==> MetadataDiffers(f, a, b) || exists id :: RosterDiffers(f, id, Roster(a), Roster(b), env)
  {
    hide Index, AmountDiffers, AssetDiffers;
    var was, now := Roster(a), Roster(b);
    forall id ensures RosterDiffers(f, id, was, now, env) ==> FieldDiffers(f, a, b, env) {
    }
    match f {
      case RecipientsAdded =>
        if id :| id in now && id !in was {
          assert RosterDiffers(f, id, was, now, env);
        }
      case RecipientsRemoved =>
        if id :| id in was && id !in now {
          assert RosterDiffers(f, id, was, now, env);
        }
      case RecipientsAssets =>
        if id :| id in was && id in now && AssetDiffers(id, was, now) {
          assert RosterDiffers(f, id, was, now, env);
        }
      case RecipientsEdited =>
        if id :| id in was && id in now && AmountDiffers(id, was, now, env) {
          assert RosterDiffers(f, id, was, now, env);
        }
      case _ =>
    }
  }

  // ----- the changes listed by field -----

  /** The change of a recipient's asset. */
  predicate AssetMoved(c: Change, id: string, was: map<string, Recipient>, now: map<string, Recipient>) {
    && id in was && id in now && was[id].asset != now[id].asset
    && c == Change("recipients[" + id + "].asset", was[id].asset, now[id].asset)
  }

  lemma {:induction false} AssetMovedMeans(c: Change, id: string, was: map<string, Recipient>,
                                           now: map<string, Recipient>, env: Env, show: bool)
    ensures AssetMoved(c, id, was, now) <==>
            exists d: RecipientDiff :: d.recipientId == id && AssetChange(d) == [c] && Describes(d, was, now, env, show)
  {
    hide AmountDiffers, CommittedTo, Reported;
    if AssetMoved(c, id, was, now) {
      var e := EntryOf(id, was, now, env, show);
      assert AssetChange(e) == [c] && Describes(e, was, now, env, show);
    }
  }

  lemma {:induction false} AssetsMoved(c: Change, a: Draft, b: Draft, env: Env, show: bool)
    ensures c in AssetChangesOf(AllDiffs(Index(a.recipients), Index(b.recipients), env, show))
            <==> exists id :: AssetMoved(c, id, Roster(a), Roster(b))
  {
    hide Index, AllDiffs, AssetChange, Describes, DiffersAs, AssetMoved, AssetChangesOf;
    var ds := AllDiffs(Index(a.recipients), Index(b.recipients), env, show);
    AssetChangesMembers(ds, c);
    forall d: RecipientDiff ensures d in ds <==> Describes(d, Roster(a), Roster(b), env, show) {
      FoundExactly(Index(a.recipients), Index(b.recipients), env, show, d);
      DiffersMeans(d, Roster(a), Roster(b), env, show);
    }
    if d: RecipientDiff :| AssetChange(d) == [c] && Describes(d, Roster(a), Roster(b), env, show) {
      AssetMovedMeans(c, d.recipientId, Roster(a), Roster(b), env, show);
    }
    if id :| AssetMoved(c, id, Roster(a), Roster(b)) {
      AssetMovedMeans(c, id, Roster(a), Roster(b), env, show);
    }
  }

  /** A changed metadata field other than the asset, with its two values: totals shown or hidden, policy and approvals named only. */
  predicate MetadataMoved(c: Change, a: Draft, b: Draft, show: bool) {
    || (a.draftId != b.draftId && c == Change("draftId", Some(a.draftId), Some(b.draftId)))
    || (a.totalAmount != b.totalAmount
        && c == Change("totalAmount", Some(Reported(a.totalAmount, show)), Some(Reported(b.totalAmount, show))))
    || (a.scheduleTimestamp != b.scheduleTimestamp
        && c == Change("scheduleTimestamp", Some(a.scheduleTimestamp), Some(b.scheduleTimestamp)))
    || (a.policyText != b.policyText && c == Change("policy", None, None))
    || (a.approvalsText != b.approvalsText && c == Change("approvals", None, None))
  }

  lemma {:induction false} MetadataMovedMeans(c: Change, a: Draft, b: Draft, show: bool)
    ensures c in MetadataChanges(a, b, show) <==> MetadataMoved(c, a, b, show)
  {
  }

  /** The two lists of changes hold exactly the changed assets and the other changed metadata, in collated order. */
  lemma {:induction false} ChangesExactly(a: Draft, b: Draft, env: Env, show: bool, c: Change)
    ensures var r := DiffSpec(a, b, env, show);
            && (c in r.assetChanges <==>
                  || (a.asset != b.asset && c == Change("asset", Some(a.asset), Some(b.asset)))
                  || exists id :: AssetMoved(c, id, Roster(a), Roster(b)))
            && (c in r.metadataChanges <==> MetadataMoved(c, a, b, show))
            && Ordered((x: Change) => env.collate(x.field), r.assetChanges)
            && Ordered((x: Change) => env.collate(x.field), r.metadataChanges)
  {
    hide Index, AllDiffs, SortBy, IdsOf, Sorted, MetadataChanges, CommitmentsOf, RecipientKey, RosterFields, OrderedFields, Ordered,
         MetadataFields, AssetMoved, MetadataMoved, AssetChangesOf;
    var found := AssetChangesOf(AllDiffs(Index(a.recipients), Index(b.recipients), env, show));
    AssetsMoved(c, a, b, env, show);
    MetadataMovedMeans(c, a, b, show);
    SortByElements(FieldKey(env), AssetChanges(a, b, found));
    SortByElements(FieldKey(env), MetadataChanges(a, b, show));
    SortByOrdered(FieldKey(env), AssetChanges(a, b, found));
    SortByOrdered(FieldKey(env), MetadataChanges(a, b, show));
    SameOrder(env, DiffSpec(a, b, env, show).assetChanges);
    SameOrder(env, DiffSpec(a, b, env, show).metadataChanges);
  }

  lemma {:induction false} SameOrder(env: Env, changes: seq<Change>)
    requires Ordered(FieldKey(env), changes)
    ensures Ordered((x: Change) => env.collate(x.field), changes)
  {
  }

  // ----- the commitments -----

  function CommittedText(d: Draft): string {
    "zkpayroll-draft-metadata-v1" + "|" + d.draftId + "|" + d.totalAmount + "|" + d.asset + "|" + d.scheduleTimestamp
    + "|" + d.policyText + "|" + d.approvalsText
  }

  lemma {:induction false} JoinMore(first: string, second: string, rest: seq<string>)
    ensures Join([first, second] + rest, '|') == Join([first + "|" + second] + rest, '|')
  {
    if rest == [] {
      JoinCons(first, [second], '|');
      assert [first, second] + rest == [first] + [second] && [first + "|" + second] + rest == [first + "|" + second];
    } else {
      JoinCons(first, [second] + rest, '|');
      JoinCons(second, rest, '|');
      JoinCons(first + "|" + second, rest, '|');
      assert [first, second] + rest == [first] + ([second] + rest);
      Regroup(first + ['|'], second, ['|'], Join(rest, '|'));
    }
  }

  lemma {:induction false} CommittedTextIsPayload(d: Draft)
    ensures MetadataPayload(d) == CommittedText(d)
  {
    hide Join;
    var rest := Pieces(d)[2..];
    var text := Pieces(d)[0] + "|" + Pieces(d)[1];
    assert Pieces(d) == [Pieces(d)[0], Pieces(d)[1]] + rest;
    JoinMore(Pieces(d)[0], Pieces(d)[1], rest);
    for i := 2 to 7
      invariant rest == Pieces(d)[i..] && MetadataPayload(d) == Join([text] + rest, '|')
      invariant text == TextUpTo(d, i)
    {
      assert [text] + rest == [text, Pieces(d)[i]] + Pieces(d)[i + 1..];
      JoinMore(text, Pieces(d)[i], Pieces(d)[i + 1..]);
      text, rest := text + "|" + Pieces(d)[i], Pieces(d)[i + 1..];
    }
    assert [text] + rest == [text];
    JoinOne(text);
    TextIsCommitted(d);
  }

  lemma {:induction false} TextIsCommitted(d: Draft)
    ensures TextUpTo(d, 7) == CommittedText(d)
  {
    var terms := TextUpTo(d, 4);
    assert terms == TextUpTo(d, 3) + "|" + d.asset && TextUpTo(d, 3) == TextUpTo(d, 2) + "|" + d.totalAmount;
    assert TextUpTo(d, 7) == TextUpTo(d, 6) + "|" + d.approvalsText && TextUpTo(d, 6) == TextUpTo(d, 5) + "|" + d.policyText;
    assert TextUpTo(d, 5) == terms + "|" + d.scheduleTimestamp;
  }

  lemma {:induction false} JoinOne(text: string)
    ensures Join([text], '|') == text
  {
  }

  /** The first `n` pieces of the committed text. */
  function TextUpTo(d: Draft, n: nat): string
    requires 1 <= n <= 7
  {
    if n == 1 then Pieces(d)[0] else TextUpTo(d, n - 1) + "|" + Pieces(d)[n - 1]
  }

  /** The commitments of a report: digests of the two drafts' metadata texts, and whether they differ. */
  lemma {:induction false} CommitmentsExactly(a: Draft, b: Draft, env: Env, show: bool)
    ensures var commitments := DiffSpec(a, b, env, show).commitments;
            && commitments.previous == "draftmeta:" + env.digest(CommittedText(a))
            && commitments.current == "draftmeta:" + env.digest(CommittedText(b))
            && (commitments.changed <==> commitments.previous != commitments.current)
  {
    hide Index, AllDiffs, SortBy, IdsOf, Sorted, MetadataChanges, RecipientKey, RosterFields, OrderedFields, MetadataFields, MetadataPayload,
         CommittedText, AssetChanges, AssetChangesOf, FieldKey;
    CommittedTextIsPayload(a);
    CommittedTextIsPayload(b);
  }
}
