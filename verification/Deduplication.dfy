/** Duplicate detection over a batch: groups of equal values, and their tie to batch validation. */
module Deduplication {
  import opened Prelude
  import opened Text
  import opened Digits
  import opened OrderedMaps
  import opened BatchPayloads

  datatype Value = TextValue(text: string) | BigIntValue(number: int)

  datatype Group = Group(key: string, value: Value, indices: seq<nat>)

  datatype Error = EmptyEntries | NoKeys | InvalidKey(key: string) | MissingField(key: string, index: nat)

  const VALID_KEYS := ["recipient", "amount", "asset"]

  function FieldOf(e: Entry, key: string): Option<Value>
    requires key in VALID_KEYS
  {
    if key == "recipient" then (if e.recipient.Some? then Some(TextValue(e.recipient.value)) else None)
    else if key == "amount" then (if e.amount.Some? then Some(BigIntValue(e.amount.value)) else None)
    else if e.asset.Some? then Some(TextValue(e.asset.value)) else None
  }

  /** Values are compared by their text. */
  function Normalised(v: Value): string {
    match v case TextValue(t) => t case BigIntValue(n) => IntText(n)
  }

  // ----- validation of the input -----

  function FirstInvalid(keys: seq<string>): (r: Option<string>)
    ensures r.None? <==> forall i :: 0 <= i < |keys| ==> keys[i] in VALID_KEYS
  {
    if keys == [] then None else if keys[0] !in VALID_KEYS then Some(keys[0]) else FirstInvalid(keys[1..])
  }

  function FirstMissing(entries: seq<Entry>, key: string, from: nat): (r: Option<nat>)
    requires key in VALID_KEYS && from <= |entries|
    ensures r.None? <==> forall i :: from <= i < |entries| ==> FieldOf(entries[i], key).Some?
    decreases |entries| - from
  {
    if from == |entries| then None
    else if FieldOf(entries[from], key).None? then Some(from)
    else FirstMissing(entries, key, from + 1)
  }

  predicate HasField(entries: seq<Entry>, key: string) {
    key in VALID_KEYS && forall i :: 0 <= i < |entries| ==> FieldOf(entries[i], key).Some?
  }

  function FirstMissingField(entries: seq<Entry>, keys: seq<string>): (r: Option<Error>)
    requires forall i :: 0 <= i < |keys| ==> keys[i] in VALID_KEYS
    ensures r.None? <==> forall i :: 0 <= i < |keys| ==> HasField(entries, keys[i])
  {
    if keys == [] then None
    else
      match FirstMissing(entries, keys[0], 0)
      case Some(i) => Some(MissingField(keys[0], i))
      case None => FirstMissingField(entries, keys[1..])
  }

  /** The input is accepted exactly when there are entries and keys, every key is known, and every entry has every field. */
  function ValidateDeduplicationInput(entries: seq<Entry>, keys: seq<string>): (r: Option<Error>)
    ensures r.None? <==> entries != [] && keys != [] && forall i :: 0 <= i < |keys| ==> HasField(entries, keys[i])
  {
    if entries == [] then Some(EmptyEntries)
    else if keys == [] then Some(NoKeys)
    else if FirstInvalid(keys).Some? then Some(InvalidKey(FirstInvalid(keys).value))
    else FirstMissingField(entries, keys)
  }

  // ----- the specification: value classes -----

  /** The texts compared under one key. */
  function Column(entries: seq<Entry>, key: string): (r: seq<string>)
    requires HasField(entries, key)
    ensures |r| == |entries| && forall i :: 0 <= i < |r| ==> r[i] == Normalised(FieldOf(entries[i], key).value)
  {
    seq(|entries|, i requires 0 <= i < |entries| => Normalised(FieldOf(entries[i], key).value))
  }

  predicate Ascending(s: seq<nat>) {
    forall i, j :: 0 <= i < j < |s| ==> s[i] < s[j]
  }

  /** Positions below `n` holding `text`, ascending. */
  function Positions(column: seq<string>, text: string, n: nat): (r: seq<nat>)
    requires n <= |column|
    ensures forall a :: 0 <= a < |r| ==> r[a] < n
  {
    if n == 0 then [] else Positions(column, text, n - 1) + if column[n - 1] == text then [n - 1] else []
  }

  lemma {:induction false} PositionsAscend(column: seq<string>, text: string, n: nat)
    requires n <= |column|
    ensures Ascending(Positions(column, text, n))
  {
    if n > 0 {
      PositionsAscend(column, text, n - 1);
    }
  }

  lemma {:induction false} PositionsMembers(column: seq<string>, text: string, n: nat, i: int)
    requires n <= |column|
    ensures i in Positions(column, text, n) <==> 0 <= i < n && column[i] == text
  {
    if n > 0 {
      PositionsMembers(column, text, n - 1, i);
    }
  }

  lemma {:induction false} PositionsMean(column: seq<string>, text: string, n: nat)
    requires n <= |column|
    ensures forall i :: i in Positions(column, text, n) <==> 0 <= i < n && column[i] == text
    ensures Ascending(Positions(column, text, n))
  {
    hide Positions, Ascending;
    PositionsAscend(column, text, n);
    forall i ensures i in Positions(column, text, n) <==> 0 <= i < n && column[i] == text {
      PositionsMembers(column, text, n, i);
    }
  }

  /** The distinct texts of the first `n` positions, by first occurrence. */
  function Texts(column: seq<string>, n: nat): seq<string>
    requires n <= |column|
  {
    if n == 0 then []
    else if column[n - 1] in column[..n - 1] then Texts(column, n - 1)
    else Texts(column, n - 1) + [column[n - 1]]
  }

  lemma {:induction false} TextsMean(column: seq<string>, n: nat)
    requires n <= |column|
    ensures forall t :: t in Texts(column, n) <==> t in column[..n]
  {
    if n > 0 {
      TextsMean(column, n - 1);
      assert column[..n] == column[..n - 1] + [column[n - 1]];
    }
  }

  /** A bigint is reported as such, anything else as its text. */
  function GroupValue(entries: seq<Entry>, key: string, text: string, first: nat): Value
    requires HasField(entries, key) && first < |entries|
  {
    var raw := FieldOf(entries[first], key).value;
    if raw.BigIntValue? then raw else TextValue(text)
  }

  /** One group for each of the texts that occurs more than once. */
  function GroupsFrom(entries: seq<Entry>, key: string, texts: seq<string>): seq<Group>
    requires HasField(entries, key)
  {
    if texts == [] then []
    else
      var t := texts[|texts| - 1];
      var indices := Positions(Column(entries, key), t, |entries|);
      GroupsFrom(entries, key, texts[..|texts| - 1]) +
      if |indices| > 1 then [Group(key, GroupValue(entries, key, t, indices[0]), indices)] else []
  }

  function GroupsOf(entries: seq<Entry>, key: string): seq<Group>
    requires HasField(entries, key)
  {
    GroupsFrom(entries, key, Texts(Column(entries, key), |entries|))
  }

  function AllGroups(entries: seq<Entry>, keys: seq<string>): seq<Group>
    requires forall i :: 0 <= i < |keys| ==> HasField(entries, keys[i])
  {
    if keys == [] then [] else AllGroups(entries, keys[..|keys| - 1]) + GroupsOf(entries, keys[|keys| - 1])
  }

  // ----- the loops -----

  /** The map from each text met so far to its positions. */
  ghost predicate Collected(column: seq<string>, n: nat, seen: OrderedMap<seq<nat>>)
    requires n <= |column|
  {
    && seen.Valid() && seen.keys == Texts(column, n)
    && forall t :: t in seen.vals ==> seen.vals[t] == Positions(column, t, n)
  }

  lemma {:induction false} NoPositions(column: seq<string>, t: string, n: nat)
    requires n <= |column| && t !in column[..n]
    ensures Positions(column, t, n) == []
  {
    PositionsMean(column, t, n);
    assert forall i :: 0 <= i < n ==> column[..n][i] == column[i];
    EmptyOrMember(Positions(column, t, n));
  }

  lemma {:induction false} PositionsGrow(column: seq<string>, t: string, n: nat)
    requires n < |column|
    ensures Positions(column, t, n + 1) == if column[n] == t then Positions(column, t, n) + [n] else Positions(column, t, n)
  {
  }

  lemma {:induction false} TextsGrow(column: seq<string>, n: nat)
    requires n < |column|
    ensures column[n] in Texts(column, n) ==> Texts(column, n + 1) == Texts(column, n)
    ensures column[n] !in Texts(column, n) ==>
              Texts(column, n + 1) == Texts(column, n) + [column[n]] && Positions(column, column[n], n) == []
  {
    TextsMean(column, n);
    if column[n] !in Texts(column, n) {
      NoPositions(column, column[n], n);
    }
  }

  /** One more position for a text. */
  function Extended(seen: OrderedMap<seq<nat>>, t: string, n: nat): OrderedMap<seq<nat>> {
    seen.Put(t, if t in seen.vals then seen.vals[t] + [n] else [n])
  }

  lemma {:induction false} CollectedEmpty(column: seq<string>)
    ensures Collected(column, 0, Empty())
  {
  }

  lemma {:induction false} CollectedGrows(column: seq<string>, n: nat, seen: OrderedMap<seq<nat>>)
    requires n < |column| && Collected(column, n, seen)
    ensures Collected(column, n + 1, Extended(seen, column[n], n))
  {
    hide Texts, Positions;
    var t := column[n];
    TextsGrow(column, n);
    var held := if t in seen.vals then seen.vals[t] + [n] else [n];
    var grown := Extended(seen, t, n);
    seen.PutValid(t, held);
    assert t in seen.vals <==> t in seen.keys;
    forall k | k in grown.vals ensures grown.vals[k] == Positions(column, k, n + 1) {
      PositionsGrow(column, k, n);
      assert k != t ==> k in seen.vals;
    }
  }

  /** The first inner loop. */
  method Collect(entries: seq<Entry>, key: string) returns (seen: OrderedMap<seq<nat>>)
    requires HasField(entries, key)
    ensures Collected(Column(entries, key), |entries|, seen)
  {
    hide Collected, Normalised, Column;
    ghost var column := Column(entries, key);
    CollectedEmpty(column);
    seen := Empty();
    for i := 0 to |entries|
      invariant Collected(column, i, seen)
    {
      var text := Normalised(FieldOf(entries[i], key).value);
      CollectedGrows(column, i, seen);
      if text in seen.vals {
        seen := seen.Put(text, seen.vals[text] + [i]);
      } else {
        seen := seen.Put(text, [i]);
      }
    }
  }

  /** The second inner loop. */
  method ReadGroups(entries: seq<Entry>, key: string, seen: OrderedMap<seq<nat>>) returns (groups: seq<Group>)
    requires HasField(entries, key) && Collected(Column(entries, key), |entries|, seen)
    ensures groups == GroupsOf(entries, key)
  {
    hide Column, Texts, Positions, GroupValue, HasField;
    groups := [];
    for k := 0 to |seen.keys|
      invariant groups == GroupsFrom(entries, key, seen.keys[..k])
    {
      var texts := seen.keys[..k + 1];
      assert texts[..k] == seen.keys[..k] && texts[k] == seen.keys[k];
      var text := seen.keys[k];
      assert text in seen.keys;
      var indices := seen.vals[text];
      if |indices| > 1 {
        groups := groups + [Group(key, GroupValue(entries, key, text, indices[0]), indices)];
      }
    }
    assert seen.keys[..|seen.keys|] == seen.keys;
  }

  method DetectDuplicates(entries: seq<Entry>, keys: seq<string>) returns (r: Result<seq<Group>, Error>)
    ensures var invalid := ValidateDeduplicationInput(entries, keys);
            r == if invalid.Some? then Err(invalid.value) else Ok(AllGroups(entries, keys))
  {
    var invalid := ValidateDeduplicationInput(entries, keys);
    if invalid.Some? {
      return Err(invalid.value);
    }
    var duplicates := [];
    for k := 0 to |keys|
      invariant duplicates == AllGroups(entries, keys[..k])
    {
      assert keys[..k + 1][..k] == keys[..k];
      var seen := Collect(entries, keys[k]);
      var groups := ReadGroups(entries, keys[k], seen);
      duplicates := duplicates + groups;
    }
    assert keys[..|keys|] == keys;
    return Ok(duplicates);
  }

  // ----- groups are the value classes -----

  /** Under one key, equal texts mean equal values. */
  lemma {:induction false} SameTextSameValue(a: Entry, b: Entry, key: string)
    requires key in VALID_KEYS && FieldOf(a, key).Some? && FieldOf(b, key).Some?
    ensures Normalised(FieldOf(a, key).value) == Normalised(FieldOf(b, key).value) <==> FieldOf(a, key) == FieldOf(b, key)
  {
    if key == "amount" {
      IntTextRoundTrip(a.amount.value);
      IntTextRoundTrip(b.amount.value);
    }
  }

  /** The fields that can be compared. */
  lemma {:induction false} FieldExactly(e: Entry)
    ensures VALID_KEYS == ["recipient", "amount", "asset"]
    ensures FieldOf(e, "recipient") == if e.recipient.None? then None else Some(TextValue(e.recipient.value))
    ensures FieldOf(e, "amount") == if e.amount.None? then None else Some(BigIntValue(e.amount.value))
    ensures FieldOf(e, "asset") == if e.asset.None? then None else Some(TextValue(e.asset.value))
  {
    assert VALID_KEYS[0] == "recipient" && VALID_KEYS[1] == "amount" && VALID_KEYS[2] == "asset";
    assert |"recipient"| == 9 && |"amount"| == 6 && |"asset"| == 5;
  }

  /** The entries all have the fields of the first `k` keys. */
  predicate CompleteUpTo(entries: seq<Entry>, keys: seq<string>, k: nat)
    requires k <= |keys|
  {
    forall j :: 0 <= j < k ==> HasField(entries, keys[j])
  }

  lemma {:induction false} FirstInvalidExactly(keys: seq<string>, k: nat)
    requires k < |keys| && keys[k] !in VALID_KEYS && forall j :: 0 <= j < k ==> keys[j] in VALID_KEYS
    ensures FirstInvalid(keys) == Some(keys[k])
  {
    if k > 0 {
      FirstInvalidExactly(keys[1..], k - 1);
    }
  }

  lemma {:induction false} FirstMissingExactly(entries: seq<Entry>, key: string, from: nat, i: nat)
    requires key in VALID_KEYS && from <= i < |entries| && FieldOf(entries[i], key).None?
    requires forall j :: from <= j < i ==> FieldOf(entries[j], key).Some?
    ensures FirstMissing(entries, key, from) == Some(i)
    decreases i - from
  {
    hide FieldOf;
    if from < i {
      FirstMissingExactly(entries, key, from + 1, i);
    }
  }

  lemma {:induction false} FirstMissingFieldExactly(entries: seq<Entry>, keys: seq<string>, k: nat, i: nat)
    requires (forall j :: 0 <= j < |keys| ==> keys[j] in VALID_KEYS) && k < |keys| && CompleteUpTo(entries, keys, k)
    requires i < |entries| && FieldOf(entries[i], keys[k]).None? && forall j :: 0 <= j < i ==> FieldOf(entries[j], keys[k]).Some?
    ensures FirstMissingField(entries, keys) == Some(MissingField(keys[k], i))
  {
    hide FieldOf;
    if k > 0 {
      assert HasField(entries, keys[0]);
      FirstMissingFieldExactly(entries, keys[1..], k - 1, i);
    } else {
      FirstMissingExactly(entries, keys[0], 0, i);
    }
  }

  /** Which fault is reported: no entries, no keys, the first unknown key, or the first key and entry with a field missing. */
  lemma {:induction false} FaultExactly(entries: seq<Entry>, keys: seq<string>, k: nat, i: nat)
    ensures entries == [] ==> ValidateDeduplicationInput(entries, keys) == Some(EmptyEntries)
    ensures entries != [] && keys == [] ==> ValidateDeduplicationInput(entries, keys) == Some(NoKeys)
    ensures entries != [] && k < |keys| && keys[k] !in VALID_KEYS && (forall j :: 0 <= j < k ==> keys[j] in VALID_KEYS) ==>
              ValidateDeduplicationInput(entries, keys) == Some(InvalidKey(keys[k]))
    ensures k < |keys| && (forall j :: 0 <= j < |keys| ==> keys[j] in VALID_KEYS) && CompleteUpTo(entries, keys, k)
            && i < |entries| && FieldOf(entries[i], keys[k]).None? && (forall j :: 0 <= j < i ==> FieldOf(entries[j], keys[k]).Some?) ==>
              ValidateDeduplicationInput(entries, keys) == Some(MissingField(keys[k], i))
  {
    hide FieldOf;
    if k < |keys| && keys[k] !in VALID_KEYS && forall j :: 0 <= j < k ==> keys[j] in VALID_KEYS {
      FirstInvalidExactly(keys, k);
    }
    if k < |keys| && (forall j :: 0 <= j < |keys| ==> keys[j] in VALID_KEYS) && CompleteUpTo(entries, keys, k)
       && i < |entries| && FieldOf(entries[i], keys[k]).None? && forall j :: 0 <= j < i ==> FieldOf(entries[j], keys[k]).Some? {
      FirstMissingFieldExactly(entries, keys, k, i);
    }
  }

  /** A class of at least two entries with the group's value and no others, in ascending order. */
  ghost predicate IsClass(entries: seq<Entry>, key: string, g: Group)
    requires key in VALID_KEYS
  {
    && g.key == key && |g.indices| > 1 && Ascending(g.indices)
    && forall i :: i in g.indices <==> 0 <= i < |entries| && FieldOf(entries[i], key) == Some(g.value)
  }

  function GroupFor(entries: seq<Entry>, key: string, t: string): Group
    requires HasField(entries, key) && Positions(Column(entries, key), t, |entries|) != []
  {
    var indices := Positions(Column(entries, key), t, |entries|);
    Group(key, GroupValue(entries, key, t, indices[0]), indices)
  }

  lemma {:induction false} GroupForIsClass(entries: seq<Entry>, key: string, t: string)
    requires HasField(entries, key) && |Positions(Column(entries, key), t, |entries|)| > 1
    ensures IsClass(entries, key, GroupFor(entries, key, t))
  {
    hide Normalised, Positions, FieldOf;
    var column := Column(entries, key);
    var g := GroupFor(entries, key, t);
    PositionsMean(column, t, |entries|);
    var first := g.indices[0];
    assert first in g.indices;
    ReportedValue(entries, key, t, first);
    forall i ensures i in g.indices <==> 0 <= i < |entries| && FieldOf(entries[i], key) == Some(g.value) {
      if 0 <= i < |entries| {
        SameTextSameValue(entries[i], entries[first], key);
      }
    }
  }

  lemma {:induction false} ReportedValue(entries: seq<Entry>, key: string, t: string, first: nat)
    requires HasField(entries, key) && first < |entries| && Column(entries, key)[first] == t
    ensures Some(GroupValue(entries, key, t, first)) == FieldOf(entries[first], key)
  {
  }

  lemma {:induction false} GroupsFromMembers(entries: seq<Entry>, key: string, texts: seq<string>, g: Group)
    requires HasField(entries, key)
    ensures g in GroupsFrom(entries, key, texts) <==>
            exists t :: t in texts && |Positions(Column(entries, key), t, |entries|)| > 1 && g == GroupFor(entries, key, t)
  {
    hide HasField, Column, Positions, GroupValue;
    if texts != [] {
      GroupsFromMembers(entries, key, texts[..|texts| - 1], g);
      assert texts == texts[..|texts| - 1] + [texts[|texts| - 1]];
    }
  }

  lemma {:induction false} AscendingUnique(a: seq<nat>, b: seq<nat>)
    requires Ascending(a) && Ascending(b)
    requires forall x :: x in a <==> x in b
    ensures a == b
  {
    if a == [] {
      EmptyOrMember(b);
    } else {
      assert a[|a| - 1] in b && b != [];
      assert b[|b| - 1] in a;
      var x := a[|a| - 1];
      assert b[|b| - 1] == x;
      var p, q := a[..|a| - 1], b[..|b| - 1];
      assert a == p + [x] && b == q + [x];
      forall y ensures y in p <==> y in q {
        assert y in p ==> y in a && y != x;
        assert y in q ==> y in b && y != x;
      }
      AscendingUnique(p, q);
    }
  }

  lemma {:induction false} ClassIsGroupFor(entries: seq<Entry>, key: string, g: Group)
    requires HasField(entries, key) && IsClass(entries, key, g)
    ensures g.indices[0] < |entries|
    ensures var column := Column(entries, key);
            var t := column[g.indices[0]];
            |Positions(column, t, |entries|)| > 1 && g == GroupFor(entries, key, t)
  {
    hide Normalised, Positions, FieldOf;
    var column, first := Column(entries, key), g.indices[0];
    assert first in g.indices;
    var t := column[first];
    PositionsMean(column, t, |entries|);
    var positions := Positions(column, t, |entries|);
    forall i ensures i in g.indices <==> i in positions {
      if 0 <= i < |entries| {
        SameTextSameValue(entries[i], entries[first], key);
      }
    }
    AscendingUnique(g.indices, positions);
    ReportedValue(entries, key, t, first);
  }

  /** Groups ordered by where their value first occurs, all of it before position `n`. */
  predicate FirstsAscend(groups: seq<Group>, n: nat) {
    && (forall i :: 0 <= i < |groups| ==> groups[i].indices != [] && groups[i].indices[0] < n)
    && forall i, j :: 0 <= i < j < |groups| ==> groups[i].indices[0] < groups[j].indices[0]
  }

  lemma {:induction false} FirstPosition(column: seq<string>, n: nat)
    requires 0 < n <= |column| && column[n - 1] !in column[..n - 1]
    ensures var positions := Positions(column, column[n - 1], |column|);
            positions != [] && positions[0] == n - 1
  {
    hide Positions;
    var positions := Positions(column, column[n - 1], |column|);
    PositionsMean(column, column[n - 1], |column|);
    assert n - 1 in positions;
    assert positions[0] in positions;
    assert forall i :: 0 <= i < n - 1 ==> column[..n - 1][i] == column[i];
  }

  lemma {:induction false} GroupsFromOne(entries: seq<Entry>, key: string, texts: seq<string>, t: string)
    requires HasField(entries, key)
    ensures var positions := Positions(Column(entries, key), t, |entries|);
            GroupsFrom(entries, key, texts + [t]) == GroupsFrom(entries, key, texts) + if |positions| > 1 then [GroupFor(entries, key, t)] else []
  {
    hide HasField, Column, Positions, GroupValue;
    assert (texts + [t])[..|texts|] == texts;
  }

  lemma {:induction false} FirstsGrow(groups: seq<Group>, n: nat, g: Group)
    requires FirstsAscend(groups, n)
    ensures FirstsAscend(groups, n + 1)
    ensures g.indices != [] && g.indices[0] == n ==> FirstsAscend(groups + [g], n + 1)
  {
  }

  lemma {:induction false} GroupsFromOrder(entries: seq<Entry>, key: string, n: nat)
    requires HasField(entries, key) && n <= |entries|
    ensures FirstsAscend(GroupsFrom(entries, key, Texts(Column(entries, key), n)), n)
  {
    hide HasField, Column, Positions, GroupValue, FirstsAscend, GroupsFrom;
    var column := Column(entries, key);
    if n > 0 {
      var t, earlier := column[n - 1], GroupsFrom(entries, key, Texts(column, n - 1));
      GroupsFromOrder(entries, key, n - 1);
      assert earlier + [] == earlier;
      if t !in column[..n - 1] {
        FirstPosition(column, n);
        FirstsGrow(earlier, n - 1, GroupFor(entries, key, t));
        GroupsFromOne(entries, key, Texts(column, n - 1), t);
      } else {
        FirstsGrow(earlier, n - 1, Group(key, TextValue(t), []));
      }
    } else {
      NoGroups(entries, key);
    }
  }

  lemma {:induction false} NoGroups(entries: seq<Entry>, key: string)
    requires HasField(entries, key)
    ensures FirstsAscend(GroupsFrom(entries, key, []), 0)
  {
  }

  /** Groups come key by key, and under a key in the order in which their values first occur. */
  lemma {:induction false} GroupsInOrder(entries: seq<Entry>, keys: seq<string>, k: nat)
    requires (forall i :: 0 <= i < |keys| ==> HasField(entries, keys[i])) && k < |keys|
    ensures FirstsAscend(GroupsOf(entries, keys[k]), |entries|)
    ensures AllGroups(entries, keys) == AllGroups(entries, keys[..k]) + GroupsOf(entries, keys[k]) + AllGroups(entries, keys[k + 1..])
    decreases |keys|
  {
    hide GroupsOf, HasField;
    GroupsOfOrder(entries, keys[k]);
    var init, last := keys[..|keys| - 1], keys[|keys| - 1];
    if k < |init| {
      GroupsInOrder(entries, init, k);
      assert init[..k] == keys[..k] && keys[k + 1..][..|keys| - k - 2] == init[k + 1..] && keys[k + 1..][|keys| - k - 2] == last;
    } else {
      assert keys[k + 1..] == [];
    }
  }

  lemma {:induction false} GroupsOfOrder(entries: seq<Entry>, key: string)
    requires HasField(entries, key)
    ensures FirstsAscend(GroupsOf(entries, key), |entries|)
  {
    GroupsFromOrder(entries, key, |entries|);
  }

  /** The groups under a key are exactly the classes of equal values with more than one member. */
  lemma {:induction false} GroupsAreClasses(entries: seq<Entry>, key: string, g: Group)
    requires HasField(entries, key)
    ensures g in GroupsOf(entries, key) <==> IsClass(entries, key, g)
  {
    hide Normalised, Positions, Texts, GroupsFrom, GroupFor, FieldOf;
    var column := Column(entries, key);
    var texts := Texts(column, |entries|);
    GroupsFromMembers(entries, key, texts, g);
    if g in GroupsOf(entries, key) {
      var t :| t in texts && |Positions(column, t, |entries|)| > 1 && g == GroupFor(entries, key, t);
      GroupForIsClass(entries, key, t);
    }
    TextsMean(column, |entries|);
    assert column[..|entries|] == column;
    if IsClass(entries, key, g) {
      ClassIsGroupFor(entries, key, g);
    }
  }

  lemma {:induction false} TextsDistinct(column: seq<string>, n: nat)
    requires n <= |column|
    ensures Distinct(Texts(column, n))
  {
    if n > 0 {
      TextsDistinct(column, n - 1);
      TextsMean(column, n - 1);
    }
  }

  lemma {:induction false} GroupsFromDistinct(entries: seq<Entry>, key: string, texts: seq<string>)
    requires HasField(entries, key) && Distinct(texts)
    ensures Distinct(GroupsFrom(entries, key, texts))
  {
    hide HasField, Column, Positions, GroupValue;
    if texts != [] {
      var init, t, column := texts[..|texts| - 1], texts[|texts| - 1], Column(entries, key);
      GroupsFromDistinct(entries, key, init);
      if |Positions(column, t, |entries|)| > 1 {
        NewGroup(entries, key, init, t);
      }
    }
  }

  /** Groups of different texts have different first positions. */
  lemma {:induction false} NewGroup(entries: seq<Entry>, key: string, texts: seq<string>, t: string)
    requires HasField(entries, key) && |Positions(Column(entries, key), t, |entries|)| > 1 && t !in texts
    ensures GroupFor(entries, key, t) !in GroupsFrom(entries, key, texts)
  {
    hide HasField, Column, Positions, GroupValue, GroupsFrom;
    var column, g := Column(entries, key), GroupFor(entries, key, t);
    GroupsFromMembers(entries, key, texts, g);
    forall u | u != t && Positions(column, u, |entries|) != [] ensures g != GroupFor(entries, key, u) {
      FirstHolds(column, t);
      FirstHolds(column, u);
    }
  }

  lemma {:induction false} FirstHolds(column: seq<string>, t: string)
    requires Positions(column, t, |column|) != []
    ensures column[Positions(column, t, |column|)[0]] == t
  {
    PositionsMean(column, t, |column|);
    assert Positions(column, t, |column|)[0] in Positions(column, t, |column|);
  }

  /** No group is reported twice. */
  lemma {:induction false} GroupsDistinct(entries: seq<Entry>, key: string)
    requires HasField(entries, key)
    ensures Distinct(GroupsOf(entries, key))
  {
    TextsDistinct(Column(entries, key), |entries|);
    GroupsFromDistinct(entries, key, Texts(Column(entries, key), |entries|));
  }

  // ----- duplicate errors of the batch validation -----

  predicate IsDuplicateError(e: ValidationError) {
    e.DuplicateRecipient?
  }

  /** Members of a group beyond its first; a blank recipient is reported as missing instead. */
  function Extra(g: Group): nat {
    if g.value.TextValue? && Blank(g.value.text) then 0 else if g.indices == [] then 0 else |g.indices| - 1
  }

  function TotalExtra(groups: seq<Group>): nat {
    if groups == [] then 0 else TotalExtra(groups[..|groups| - 1]) + Extra(groups[|groups| - 1])
  }

  lemma {:induction false} TotalExtraAppend(groups: seq<Group>, g: Group)
    ensures TotalExtra(groups + [g]) == TotalExtra(groups) + Extra(g)
  {
    assert (groups + [g])[..|groups|] == groups;
  }

  /** Positions that repeat an earlier text. */
  function Repeats(column: seq<string>, n: nat): nat
    requires n <= |column|
  {
    if n == 0 then 0
    else Repeats(column, n - 1) + if !Blank(column[n - 1]) && column[n - 1] in column[..n - 1] then 1 else 0
  }

  function Excess(column: seq<string>, texts: seq<string>, n: nat): int
    requires n <= |column|
  {
    if texts == [] then 0
    else
      var t := texts[|texts| - 1];
      Excess(column, texts[..|texts| - 1], n) + if Blank(t) then 0 else |Positions(column, t, n)| - 1
  }

  lemma {:induction false} ExcessGrows(column: seq<string>, texts: seq<string>, n: nat)
    requires n < |column| && Distinct(texts)
    ensures Excess(column, texts, n + 1) ==
            Excess(column, texts, n) + if column[n] in texts && !Blank(column[n]) then 1 else 0
  {
    hide Blank;
    if texts != [] {
      var init, t := texts[..|texts| - 1], texts[|texts| - 1];
      ExcessGrows(column, init, n);
      assert texts == init + [t];
      assert |Positions(column, t, n + 1)| == |Positions(column, t, n)| + if column[n] == t then 1 else 0;
    }
  }

  lemma {:induction false} ExcessAppend(column: seq<string>, texts: seq<string>, t: string, n: nat)
    requires n <= |column|
    ensures Excess(column, texts + [t], n) == Excess(column, texts, n) + if Blank(t) then 0 else |Positions(column, t, n)| - 1
  {
    hide Blank, Positions;
    assert (texts + [t])[..|texts|] == texts;
  }

  lemma {:induction false} ExcessIsRepeats(column: seq<string>, n: nat)
    requires n <= |column|
    ensures Excess(column, Texts(column, n), n) == Repeats(column, n)
  {
    if n > 0 {
      hide Blank, Texts, Positions, Excess, Distinct;
      var texts, t := Texts(column, n - 1), column[n - 1];
      ExcessIsRepeats(column, n - 1);
      TextsDistinct(column, n - 1);
      TextsMean(column, n - 1);
      ExcessGrows(column, texts, n - 1);
      TextsGrow(column, n - 1);
      if t !in texts {
        PositionsGrow(column, t, n - 1);
        ExcessAppend(column, texts, t, n);
      }
    }
  }

  lemma {:induction false} GroupForExtra(entries: seq<Entry>, t: string)
    requires HasField(entries, "recipient") && Positions(Column(entries, "recipient"), t, |entries|) != []
    ensures Extra(GroupFor(entries, "recipient", t)) ==
            if Blank(t) then 0 else |Positions(Column(entries, "recipient"), t, |entries|)| - 1
  {
    hide Blank;
  }

  lemma {:induction false} ExtraIsExcess(entries: seq<Entry>, texts: seq<string>)
    requires HasField(entries, "recipient")
    requires forall t :: t in texts ==> t in Column(entries, "recipient")
    ensures TotalExtra(GroupsFrom(entries, "recipient", texts)) == Excess(Column(entries, "recipient"), texts, |entries|)
  {
    hide Blank, Positions, Extra, HasField, Column;
    if texts != [] {
      var init, t, column := texts[..|texts| - 1], texts[|texts| - 1], Column(entries, "recipient");
      assert forall u :: u in init ==> u in texts;
      ExtraIsExcess(entries, init);
      assert t in texts;
      var at :| 0 <= at < |column| && column[at] == t;
      PositionsMean(column, t, |entries|);
      assert at in Positions(column, t, |entries|);
      if |Positions(column, t, |entries|)| > 1 {
        GroupForExtra(entries, t);
        TotalExtraAppend(GroupsFrom(entries, "recipient", init), GroupFor(entries, "recipient", t));
      } else {
        assert GroupsFrom(entries, "recipient", texts) == GroupsFrom(entries, "recipient", init);
      }
    }
  }

  lemma {:induction false} CountConcat(a: seq<ValidationError>, b: seq<ValidationError>)
    ensures Count(IsDuplicateError, a + b) == Count(IsDuplicateError, a) + Count(IsDuplicateError, b)
  {
    if b == [] {
      assert a + b == a;
    } else {
      var init, last := b[..|b| - 1], b[|b| - 1];
      CountConcat(a, init);
      assert a + b == (a + init) + [last];
      CountAppend(IsDuplicateError, a + init, last);
    }
  }

  lemma {:induction false} RecipientDuplicates(entries: seq<Entry>, i: nat)
    requires HasField(entries, "recipient") && i < |entries|
    ensures var column := Column(entries, "recipient");
            Count(IsDuplicateError, RecipientErrors(entries, i)) == if !Blank(column[i]) && column[i] in column[..i] then 1 else 0
  {
    hide Blank;
    var column, recipients := Column(entries, "recipient"), Recipients(entries);
    assert forall j :: 0 <= j <= i ==> recipients[j] == Some(column[j]);
    var e := Earlier(recipients, i);
    if e.Some? {
      assert column[..i][e.value] == column[i];
    } else {
      assert forall j :: 0 <= j < i ==> recipients[j] != recipients[i];
    }
  }

  lemma {:induction false} EntryDuplicates(entries: seq<Entry>, i: nat)
    requires HasField(entries, "recipient") && i < |entries|
    ensures var column := Column(entries, "recipient");
            Count(IsDuplicateError, EntryErrors(entries, i)) == if !Blank(column[i]) && column[i] in column[..i] then 1 else 0
  {
    hide Blank, Missing, BadAmount, RecipientErrors, Column, HasField;
    RecipientDuplicates(entries, i);
    var amountErrors := if BadAmount(entries[i].amount) then [InvalidAmount(i)] else [];
    var assetErrors := if Missing(entries[i].asset) then [MissingAsset(i)] else [];
    CountConcat(RecipientErrors(entries, i) + amountErrors, assetErrors);
    CountConcat(RecipientErrors(entries, i), amountErrors);
    CountZero(IsDuplicateError, amountErrors);
    CountZero(IsDuplicateError, assetErrors);
  }

  lemma {:induction false} DuplicatesAreRepeats(entries: seq<Entry>, n: nat)
    requires HasField(entries, "recipient") && n <= |entries|
    ensures Count(IsDuplicateError, ErrorsUpTo(entries, n)) == Repeats(Column(entries, "recipient"), n)
  {
    hide EntryErrors, HasField, Column, Blank, Count;
    if n == 0 {
      CountZero(IsDuplicateError, []);
    } else {
      DuplicatesAreRepeats(entries, n - 1);
      EntryDuplicates(entries, n - 1);
      CountConcat(ErrorsUpTo(entries, n - 1), EntryErrors(entries, n - 1));
    }
  }

  /** Validation reports one duplicate-recipient error for each group member beyond the first. */
  lemma {:induction false} DuplicateErrorsMatchGroups(entries: seq<Entry>)
    requires ValidateDeduplicationInput(entries, ["recipient"]).None?
    ensures Count(IsDuplicateError, Errors(entries)) == TotalExtra(AllGroups(entries, ["recipient"]))
  {
    hide Blank, Positions, Texts, EntryErrors, ErrorsUpTo;
    assert HasField(entries, ["recipient"][0]);
    var column := Column(entries, "recipient");
    DuplicatesAreRepeats(entries, |entries|);
    ExcessIsRepeats(column, |entries|);
    TextsMean(column, |entries|);
    assert column[..|entries|] == column;
    ExtraIsExcess(entries, Texts(column, |entries|));
    assert ["recipient"][..0] == [];
    assert AllGroups(entries, ["recipient"]) == GroupsOf(entries, "recipient");
  }
}
