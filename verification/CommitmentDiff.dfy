/** `comparePayrollCommitments`: the difference of two rosters, and the difference as a patch. */
module CommitmentDiff {
  import opened Prelude
  import opened OrderedMaps

  datatype Commitment = Commitment(recipient: string, amount: int, asset: string)

  datatype Diff =
    | Added(recipient: string, newAmount: int, asset: string)
    | Modified(recipient: string, oldAmount: int, newAmount: int, asset: string)
    | Removed(recipient: string, oldAmount: int, asset: string)

  /** `new Map(list.map((c) => [c.recipient, c]))`: the last commitment of a recipient counts. */
  function Index(list: seq<Commitment>): (m: OrderedMap<Commitment>)
    ensures m.Valid()
    ensures forall k :: k in m.vals ==> m.vals[k].recipient == k
  {
    if list == [] then Empty()
    else
      var last := list[|list| - 1];
      Index(list[..|list| - 1]).Put(last.recipient, last)
  }

  /** The index holds each recipient's last commitment, and nothing else. */
  lemma {:induction false} IndexKeepsLast(list: seq<Commitment>, i: nat)
    requires i < |list| && forall j :: i < j < |list| ==> list[j].recipient != list[i].recipient
    ensures list[i].recipient in Index(list).vals && Index(list).vals[list[i].recipient] == list[i]
  {
    if i < |list| - 1 {
      IndexKeepsLast(list[..|list| - 1], i);
    }
  }

  /** What the comparison says of one recipient of the proposed roster. */
  function ChangeOf(k: string, cur: map<string, Commitment>, prop: map<string, Commitment>): seq<Diff>
    requires k in prop
  {
    if k !in cur then [Added(k, prop[k].amount, prop[k].asset)]
    else if cur[k].amount != prop[k].amount || cur[k].asset != prop[k].asset then
      [Modified(k, cur[k].amount, prop[k].amount, prop[k].asset)]
    else []
  }

  function RemovalOf(k: string, cur: map<string, Commitment>, prop: map<string, Commitment>): seq<Diff>
    requires k in cur
  {
    if k in prop then [] else [Removed(k, cur[k].amount, cur[k].asset)]
  }

  function Changes(keys: seq<string>, cur: map<string, Commitment>, prop: map<string, Commitment>): seq<Diff>
    requires forall k :: k in keys ==> k in prop
  {
    if keys == [] then [] else Changes(keys[..|keys| - 1], cur, prop) + ChangeOf(keys[|keys| - 1], cur, prop)
  }

  function Removals(keys: seq<string>, cur: map<string, Commitment>, prop: map<string, Commitment>): seq<Diff>
    requires forall k :: k in keys ==> k in cur
  {
    if keys == [] then [] else Removals(keys[..|keys| - 1], cur, prop) + RemovalOf(keys[|keys| - 1], cur, prop)
  }

  function DiffOf(cur: OrderedMap<Commitment>, prop: OrderedMap<Commitment>): seq<Diff>
    requires cur.Valid() && prop.Valid()
  {
    Changes(prop.keys, cur.vals, prop.vals) + Removals(cur.keys, cur.vals, prop.vals)
  }

  lemma {:induction false} OneMore(keys: seq<string>, i: nat, cur: map<string, Commitment>,
                                   prop: map<string, Commitment>)
    requires i < |keys|
    ensures (forall k :: k in keys ==> k in prop) ==>
              Changes(keys[..i + 1], cur, prop) == Changes(keys[..i], cur, prop) + ChangeOf(keys[i], cur, prop)
    ensures (forall k :: k in keys ==> k in cur) ==>
              Removals(keys[..i + 1], cur, prop) == Removals(keys[..i], cur, prop) + RemovalOf(keys[i], cur, prop)
  {
    assert keys[..i + 1][..i] == keys[..i];
  }

  method ComparePayrollCommitments(current: seq<Commitment>, proposed: seq<Commitment>) returns (diffs: seq<Diff>)
    ensures diffs == DiffOf(Index(current), Index(proposed))
  {
    hide Changes, Removals, Index;
    var cur, prop := Index(current), Index(proposed);
    assert Changes(prop.keys[..0], cur.vals, prop.vals) == [] by { NothingYet(cur, prop); }
    diffs := [];
    for i := 0 to |prop.keys|
      invariant diffs == Changes(prop.keys[..i], cur.vals, prop.vals)
    {
      var recipient := prop.keys[i];
      var proposedOne := prop.vals[recipient];
      OneMore(prop.keys, i, cur.vals, prop.vals);
      if !cur.Has(recipient) {
        diffs := diffs + [Added(recipient, proposedOne.amount, proposedOne.asset)];
      } else if cur.vals[recipient].amount != proposedOne.amount || cur.vals[recipient].asset != proposedOne.asset {
        diffs := diffs + [Modified(recipient, cur.vals[recipient].amount, proposedOne.amount, proposedOne.asset)];
      }
    }
    assert prop.keys[..|prop.keys|] == prop.keys;
    NothingYet(cur, prop);
    ghost var changes := diffs;
    for i := 0 to |cur.keys|
      invariant diffs == changes + Removals(cur.keys[..i], cur.vals, prop.vals)
    {
      var recipient := cur.keys[i];
      OneMore(cur.keys, i, cur.vals, prop.vals);
      if !prop.Has(recipient) {
        diffs := diffs + [Removed(recipient, cur.vals[recipient].amount, cur.vals[recipient].asset)];
      }
    }
    assert cur.keys[..|cur.keys|] == cur.keys;
  }

  lemma {:induction false} NothingYet(cur: OrderedMap<Commitment>, prop: OrderedMap<Commitment>)
    ensures Changes(prop.keys[..0], cur.vals, prop.vals) == [] && Removals(cur.keys[..0], cur.vals, prop.vals) == []
  {
  }

  // ----- the difference as a patch -----

  type Roster = map<string, (int, string)>

  function RosterOf(m: map<string, Commitment>): Roster {
    map k | k in m :: (m[k].amount, m[k].asset)
  }

  /** Applies one difference, refusing it where its old values do not match the roster. */
  function ApplyDiff(r: Roster, d: Diff): Option<Roster> {
    match d
    case Added(k, amount, asset) => if k in r then None else Some(r[k := (amount, asset)])
    case Modified(k, was, amount, asset) => if k in r && r[k].0 == was then Some(r[k := (amount, asset)]) else None
    case Removed(k, was, asset) => if k in r && r[k] == (was, asset) then Some(r - {k}) else None
  }

  function Patch(r: Roster, diffs: seq<Diff>): Option<Roster> {
    if diffs == [] then Some(r)
    else match Patch(r, diffs[..|diffs| - 1]) case None => None case Some(s) => ApplyDiff(s, diffs[|diffs| - 1])
  }

  lemma {:induction false} PatchAppend(r: Roster, a: seq<Diff>, b: seq<Diff>)
    ensures Patch(r, a + b) == match Patch(r, a) case None => None case Some(s) => Patch(s, b)
    decreases |b|
  {
    if b == [] {
      assert a + b == a;
    } else {
      PatchAppend(r, a, b[..|b| - 1]);
      assert (a + b)[..|a + b| - 1] == a + b[..|b| - 1];
      assert (a + b)[|a + b| - 1] == b[|b| - 1];
    }
  }

  /** The proposed entries of the recipients in `keys`. */
  function Part(keys: seq<string>, prop: map<string, Commitment>): Roster {
    map k | k in prop && k in keys :: (prop[k].amount, prop[k].asset)
  }

  lemma {:induction false} PatchAtMostOne(r: Roster, ds: seq<Diff>)
    requires |ds| <= 1
    ensures Patch(r, ds) == if ds == [] then Some(r) else ApplyDiff(r, ds[0])
  {
    if |ds| == 1 {
      assert ds[..0] == [];
    }
  }

  /** One change takes a recipient from its current entry, or none, to its proposed one. */
  lemma {:induction false} PatchChange(before: Roster, k: string, cur: map<string, Commitment>,
                                       prop: map<string, Commitment>)
    requires k in prop && (k in before <==> k in cur)
    requires k in cur ==> before[k] == (cur[k].amount, cur[k].asset)
    ensures Patch(before, ChangeOf(k, cur, prop)) == Some(before[k := (prop[k].amount, prop[k].asset)])
  {
    PatchAtMostOne(before, ChangeOf(k, cur, prop));
    if ChangeOf(k, cur, prop) == [] {
      assert before == before[k := (prop[k].amount, prop[k].asset)];
    }
  }

  lemma {:induction false} PatchRemoval(before: Roster, k: string, cur: map<string, Commitment>,
                                        prop: map<string, Commitment>)
    requires k in cur && k in before && (k !in prop ==> before[k] == (cur[k].amount, cur[k].asset))
    ensures Patch(before, RemovalOf(k, cur, prop)) == Some(if k in prop then before else before - {k})
  {
    PatchAtMostOne(before, RemovalOf(k, cur, prop));
  }

  /** The current roster with the recipients in `keys` moved to their proposed entries. */
  function Overridden(keys: seq<string>, cur: map<string, Commitment>, prop: map<string, Commitment>): Roster {
    RosterOf(cur) + Part(keys, prop)
  }

  lemma {:induction false} OverriddenStep(init: seq<string>, k: string, cur: map<string, Commitment>,
                                          prop: map<string, Commitment>)
    requires k in prop && k !in init
    ensures var before := Overridden(init, cur, prop);
            && (k in before <==> k in cur)
            && (k in cur ==> before[k] == (cur[k].amount, cur[k].asset))
            && Overridden(init + [k], cur, prop) == before[k := (prop[k].amount, prop[k].asset)]
  {
  }

  /** Applying the changes of some recipients overrides the current roster with their proposed entries. */
  lemma {:induction false} PatchChanges(keys: seq<string>, cur: map<string, Commitment>, prop: map<string, Commitment>)
    requires forall k :: k in keys ==> k in prop
    requires forall i, j :: 0 <= i < j < |keys| ==> keys[i] != keys[j]
    ensures Patch(RosterOf(cur), Changes(keys, cur, prop)) == Some(Overridden(keys, cur, prop))
  {
    hide Overridden, RosterOf, Patch, ChangeOf;
    if keys == [] {
      NothingOverridden(cur, prop);
    } else {
      var init, k := keys[..|keys| - 1], keys[|keys| - 1];
      PatchChanges(init, cur, prop);
      assert keys == init + [k] && k !in init;
      PatchAppend(RosterOf(cur), Changes(init, cur, prop), ChangeOf(k, cur, prop));
      OverriddenStep(init, k, cur, prop);
      PatchChange(Overridden(init, cur, prop), k, cur, prop);
    }
  }

  lemma {:induction false} NothingOverridden(cur: map<string, Commitment>, prop: map<string, Commitment>)
    ensures Patch(RosterOf(cur), []) == Some(RosterOf(cur)) && Overridden([], cur, prop) == RosterOf(cur)
  {
  }

  /** Both rosters merged, without the recipients in `keys` that are not proposed. */
  function Trimmed(keys: seq<string>, cur: map<string, Commitment>, prop: map<string, Commitment>): Roster {
    map k | k in RosterOf(cur) + RosterOf(prop) && !(k in keys && k !in prop) :: (RosterOf(cur) + RosterOf(prop))[k]
  }

  lemma {:induction false} TrimmedStep(init: seq<string>, k: string, cur: map<string, Commitment>,
                                       prop: map<string, Commitment>)
    requires k in cur && k !in init
    ensures var before := Trimmed(init, cur, prop);
            && k in before && (k !in prop ==> before[k] == (cur[k].amount, cur[k].asset))
            && Trimmed(init + [k], cur, prop) == if k in prop then before else before - {k}
  {
  }

  lemma {:induction false} PatchRemovals(keys: seq<string>, cur: map<string, Commitment>, prop: map<string, Commitment>)
    requires forall k :: k in keys ==> k in cur
    requires forall i, j :: 0 <= i < j < |keys| ==> keys[i] != keys[j]
    ensures Patch(Trimmed([], cur, prop), Removals(keys, cur, prop)) == Some(Trimmed(keys, cur, prop))
  {
    hide Trimmed, RosterOf, RemovalOf;
    if keys == [] {
      assert Removals([], cur, prop) == [];
    } else {
      hide Patch;
      var init, k := keys[..|keys| - 1], keys[|keys| - 1];
      PatchRemovals(init, cur, prop);
      assert keys == init + [k] && k !in init;
      PatchAppend(Trimmed([], cur, prop), Removals(init, cur, prop), RemovalOf(k, cur, prop));
      TrimmedStep(init, k, cur, prop);
      PatchRemoval(Trimmed(init, cur, prop), k, cur, prop);
    }
  }

  lemma {:induction false} RostersMeet(cur: OrderedMap<Commitment>, prop: OrderedMap<Commitment>)
    requires cur.Valid() && prop.Valid()
    ensures Overridden(prop.keys, cur.vals, prop.vals) == Trimmed([], cur.vals, prop.vals)
    ensures Trimmed(cur.keys, cur.vals, prop.vals) == RosterOf(prop.vals)
  {
    assert Part(prop.keys, prop.vals) == RosterOf(prop.vals);
  }

  /** Applying the difference to the current roster gives the proposed one, every old value matching on the way. */
  lemma {:induction false} DiffIsAPatch(current: seq<Commitment>, proposed: seq<Commitment>)
    ensures var cur, prop := Index(current), Index(proposed);
            Patch(RosterOf(cur.vals), DiffOf(cur, prop)) == Some(RosterOf(prop.vals))
  {
    hide Index, Patch, Changes, Removals, Overridden, Trimmed, RosterOf;
    var cur, prop := Index(current), Index(proposed);
    PatchChanges(prop.keys, cur.vals, prop.vals);
    PatchRemovals(cur.keys, cur.vals, prop.vals);
    RostersMeet(cur, prop);
    PatchAppend(RosterOf(cur.vals), Changes(prop.keys, cur.vals, prop.vals), Removals(cur.keys, cur.vals, prop.vals));
  }

  lemma {:induction false} NoChanges(keys: seq<string>, cur: map<string, Commitment>, prop: map<string, Commitment>)
    requires RosterOf(cur) == RosterOf(prop) && forall k :: k in keys ==> k in prop
    ensures Changes(keys, cur, prop) == [] && (forall k :: k in keys ==> k in cur)
    ensures Removals(keys, cur, prop) == []
  {
    assert cur.Keys == RosterOf(cur).Keys && prop.Keys == RosterOf(prop).Keys;
    if keys != [] {
      var k := keys[|keys| - 1];
      NoChanges(keys[..|keys| - 1], cur, prop);
      assert RosterOf(cur)[k] == RosterOf(prop)[k];
    }
  }

  lemma {:induction false} SameRosterSameKeys(cur: map<string, Commitment>, prop: map<string, Commitment>)
    requires RosterOf(cur) == RosterOf(prop)
    ensures forall k :: k in cur <==> k in prop
  {
    assert cur.Keys == RosterOf(cur).Keys && prop.Keys == RosterOf(prop).Keys;
  }

  /** The difference is empty exactly when the rosters are equal. */
  lemma {:induction false} EmptyIffEqual(current: seq<Commitment>, proposed: seq<Commitment>)
    ensures var cur, prop := Index(current), Index(proposed);
            DiffOf(cur, prop) == [] <==> RosterOf(cur.vals) == RosterOf(prop.vals)
  {
    hide Index, Patch, Changes, Removals, RosterOf, Overridden;
    var cur, prop := Index(current), Index(proposed);
    DiffIsAPatch(current, proposed);
    NothingOverridden(cur.vals, prop.vals);
    if RosterOf(cur.vals) == RosterOf(prop.vals) {
      SameRosterSameKeys(cur.vals, prop.vals);
      NoChanges(prop.keys, cur.vals, prop.vals);
      NoChanges(cur.keys, cur.vals, prop.vals);
    }
  }
}
