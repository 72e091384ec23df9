/** Building and validating a batch of payments. */
module BatchPayloads {
  import opened Prelude
  import opened Text

  /** One payment as it arrives; a field may be `undefined`. */
  datatype Entry = Entry(recipient: Option<string>, amount: Option<int>, asset: Option<string>)

  datatype Payload = Payload(entries: seq<Entry>, totalAmount: int)

  /** Each error with the entry it is about; a duplicate also names the first entry with its recipient. */
  datatype ValidationError =
    | EmptyBatch
    | InvalidRecipient(index: nat)
    | DuplicateRecipient(index: nat, first: nat)
    | InvalidAmount(index: nat)
    | MissingAsset(index: nat)

  /** `NotABigInt` is the error of adding `undefined` to a bigint. */
  datatype BuildError = Invalid(errors: seq<ValidationError>) | NotABigInt

  // ----- first occurrences in a column of texts -----

  predicate Missing(text: Option<string>) {
    text.None? || Blank(text.value)
  }

  /** The first earlier position holding the same text. */
  function Earlier(column: seq<Option<string>>, i: nat, from: nat := 0): (r: Option<nat>)
    requires from <= i < |column|
    ensures r.Some? ==> from <= r.value < i && column[r.value] == column[i]
    ensures r.Some? ==> forall j :: from <= j < r.value ==> column[j] != column[i]
    ensures r.None? ==> forall j :: from <= j < i ==> column[j] != column[i]
    decreases i - from
  {
    if from == i then None else if column[from] == column[i] then Some(from) else Earlier(column, i, from + 1)
  }

  /** `seen` maps every text of the first `n` positions that is not blank to its first position. */
  ghost predicate Indexed(column: seq<Option<string>>, n: nat, seen: map<string, nat>)
    requires n <= |column|
  {
    && (forall k :: k in seen ==> seen[k] < n && column[seen[k]] == Some(k) && forall j :: 0 <= j < seen[k] ==> column[j] != Some(k))
    && forall j :: 0 <= j < n && !Missing(column[j]) ==> column[j].value in seen
  }

  lemma {:induction false} IndexedNone(column: seq<Option<string>>)
    ensures Indexed(column, 0, map[])
  {
  }

  /** `Earlier` is the least earlier position, whatever way it is found. */
  lemma {:induction false} EarlierIs(column: seq<Option<string>>, n: nat, i: nat)
    requires i < n < |column| && column[i] == column[n] && forall j :: 0 <= j < i ==> column[j] != column[n]
    ensures Earlier(column, n) == Some(i)
  {
  }

  lemma {:induction false} IndexedFinds(column: seq<Option<string>>, n: nat, seen: map<string, nat>)
    requires n < |column| && Indexed(column, n, seen) && !Missing(column[n])
    ensures Earlier(column, n) == if column[n].value in seen then Some(seen[column[n].value]) else None
  {
    hide Blank;
    var v := column[n].value;
    assert column[n] == Some(v);
    if v in seen {
      EarlierIs(column, n, seen[v]);
    } else {
      assert forall j :: 0 <= j < n ==> Missing(column[j]) || column[j].value != v;
    }
  }

  lemma {:induction false} IndexedGrows(column: seq<Option<string>>, n: nat, seen: map<string, nat>)
    requires n < |column| && Indexed(column, n, seen) && !Missing(column[n])
    ensures Indexed(column, n + 1, if column[n].value in seen then seen else seen[column[n].value := n])
  {
    hide Blank;
    var v := column[n].value;
    assert column[n] == Some(v);
    if v !in seen {
      assert forall j :: 0 <= j < n ==> Missing(column[j]) || column[j].value != v;
    }
  }

  lemma {:induction false} IndexedSkips(column: seq<Option<string>>, n: nat, seen: map<string, nat>)
    requires n < |column| && Indexed(column, n, seen) && Missing(column[n])
    ensures Indexed(column, n + 1, seen)
  {
  }

  /** The body of each duplicate check: look a usable text up, and remember its position when it is new. */
  method LookUp(ghost column: seq<Option<string>>, i: nat, text: Option<string>, seen: map<string, nat>)
    returns (firstIdx: Option<nat>, grown: map<string, nat>)
    requires i < |column| && column[i] == text && Indexed(column, i, seen)
    ensures !Missing(text) ==> firstIdx == Earlier(column, i)
    ensures Indexed(column, i + 1, grown)
  {
    if Missing(text) {
      IndexedSkips(column, i, seen);
      return None, seen;
    }
    IndexedFinds(column, i, seen);
    IndexedGrows(column, i, seen);
    hide Indexed, Earlier, Blank;
    if text.value in seen {
      return Some(seen[text.value]), seen;
    }
    return None, seen[text.value := i];
  }

  // ----- validation -----

  function Recipients(entries: seq<Entry>): (r: seq<Option<string>>)
    ensures |r| == |entries|
  {
    seq(|entries|, i requires 0 <= i < |entries| => entries[i].recipient)
  }

  /** An absent amount compares false with zero. */
  predicate BadAmount(amount: Option<int>) {
    amount.Some? && amount.value <= 0
  }

  function RecipientErrors(entries: seq<Entry>, i: nat): seq<ValidationError>
    requires i < |entries|
  {
    if Missing(entries[i].recipient) then [InvalidRecipient(i)]
    else if Earlier(Recipients(entries), i).Some? then [DuplicateRecipient(i, Earlier(Recipients(entries), i).value)]
    else []
  }

  function EntryErrors(entries: seq<Entry>, i: nat): seq<ValidationError>
    requires i < |entries|
  {
    RecipientErrors(entries, i)
    + (if BadAmount(entries[i].amount) then [InvalidAmount(i)] else [])
    + (if Missing(entries[i].asset) then [MissingAsset(i)] else [])
  }

  function ErrorsUpTo(entries: seq<Entry>, n: nat): seq<ValidationError>
    requires n <= |entries|
  {
    if n == 0 then [] else ErrorsUpTo(entries, n - 1) + EntryErrors(entries, n - 1)
  }

  lemma {:induction false} ErrorsUnfold(entries: seq<Entry>, n: nat)
    requires n < |entries|
    ensures ErrorsUpTo(entries, 0) == []
    ensures ErrorsUpTo(entries, n + 1) == ErrorsUpTo(entries, n) + EntryErrors(entries, n)
  {
  }

  function Errors(entries: seq<Entry>): seq<ValidationError> {
    if entries == [] then [EmptyBatch] else ErrorsUpTo(entries, |entries|)
  }

  function Total(entries: seq<Entry>): int {
    if entries == [] then 0
    else Total(entries[..|entries| - 1]) + if entries[|entries| - 1].amount.Some? then entries[|entries| - 1].amount.value else 0
  }

  predicate AllAmounts(entries: seq<Entry>) {
    forall i :: 0 <= i < |entries| ==> entries[i].amount.Some?
  }

  /** The body of the validation loop: the errors of one entry, and the first position of every recipient so far. */
  method CheckEntry(entries: seq<Entry>, i: nat, seenRecipients: map<string, nat>)
    returns (errors: seq<ValidationError>, grown: map<string, nat>)
    requires i < |entries| && Indexed(Recipients(entries), i, seenRecipients)
    ensures errors == EntryErrors(entries, i) && Indexed(Recipients(entries), i + 1, grown)
  {
    hide Missing, Indexed, Earlier, BadAmount;
    var entry, firstIdx := entries[i], None;
    firstIdx, grown := LookUp(Recipients(entries), i, entry.recipient, seenRecipients);
    if Missing(entry.recipient) {
      errors := [InvalidRecipient(i)];
    } else if firstIdx.Some? {
      errors := [DuplicateRecipient(i, firstIdx.value)];
    } else {
      errors := [];
    }
    assert errors == RecipientErrors(entries, i);
    hide RecipientErrors;
    if BadAmount(entry.amount) {
      errors := errors + [InvalidAmount(i)];
    }
    if Missing(entry.asset) {
      errors := errors + [MissingAsset(i)];
    }
  }

  class BatchPayloadBuilder {
    var entries: seq<Entry>

    constructor ()
      ensures entries == []
    {
      entries := [];
    }

    method Add(entry: Entry)
      modifies this
      ensures entries == old(entries) + [entry]
    {
      entries := entries + [entry];
    }

    method AddMany(more: seq<Entry>)
      modifies this
      ensures entries == old(entries) + more
    {
      for i := 0 to |more|
        invariant entries == old(entries) + more[..i]
      {
        Add(more[i]);
      }
    }

    method Validate() returns (errors: seq<ValidationError>)
      ensures errors == Errors(entries)
    {
      hide EntryErrors, ErrorsUpTo, Indexed, Recipients;
      var batch := entries;
      if |batch| == 0 {
        return [EmptyBatch];
      }
      ErrorsUnfold(batch, 0);
      errors := [];
      var seenRecipients: map<string, nat> := map[];
      IndexedNone(Recipients(batch));
      for i := 0 to |batch|
        invariant errors == ErrorsUpTo(batch, i)
        invariant Indexed(Recipients(batch), i, seenRecipients)
      {
        var found;
        found, seenRecipients := CheckEntry(batch, i, seenRecipients);
        ErrorsUnfold(batch, i);
        errors := errors + found;
      }
    }

    method Build() returns (r: Result<Payload, BuildError>)
      ensures r == BuildSpec(entries)
    {
      var errors := Validate();
      if |errors| > 0 {
        return Err(Invalid(errors));
      }
      var totalAmount := 0;
      for i := 0 to |entries|
        invariant totalAmount == Total(entries[..i]) && AllAmounts(entries[..i])
      {
        assert entries[..i + 1][..i] == entries[..i];
        if entries[i].amount.None? {
          assert !AllAmounts(entries);
          return Err(NotABigInt);
        }
        totalAmount := totalAmount + entries[i].amount.value;
      }
      assert entries[..|entries|] == entries;
      return Ok(Payload(entries, totalAmount));
    }
  }

  function BuildSpec(entries: seq<Entry>): Result<Payload, BuildError> {
    if Errors(entries) != [] then Err(Invalid(Errors(entries)))
    else if !AllAmounts(entries) then Err(NotABigInt)
    else Ok(Payload(entries, Total(entries)))
  }

  // ----- when a batch is valid -----

  predicate EntryFine(entries: seq<Entry>, i: nat)
    requires i < |entries|
  {
    && !Missing(entries[i].recipient) && !BadAmount(entries[i].amount) && !Missing(entries[i].asset)
    && forall j :: 0 <= j < i ==> entries[j].recipient != entries[i].recipient
  }

  lemma {:induction false} NoEntryErrors(entries: seq<Entry>, i: nat)
    requires i < |entries|
    ensures EntryErrors(entries, i) == [] <==> EntryFine(entries, i)
  {
    hide Missing;
    var column := Recipients(entries);
    assert |EntryErrors(entries, i)| >= |RecipientErrors(entries, i)|;
    if !Missing(entries[i].recipient) {
      var e := Earlier(column, i);
      assert forall j :: 0 <= j < i ==> column[j] == entries[j].recipient;
      if e.Some? {
        assert entries[e.value].recipient == entries[i].recipient;
      }
    }
  }

  lemma {:induction false} NoErrorsUpTo(entries: seq<Entry>, n: nat)
    requires n <= |entries|
    ensures ErrorsUpTo(entries, n) == [] <==> forall i :: 0 <= i < n ==> EntryFine(entries, i)
  {
    hide EntryErrors, EntryFine;
    if n > 0 {
      NoErrorsUpTo(entries, n - 1);
      NoEntryErrors(entries, n - 1);
    }
  }

  /** Every entry is fully described and positive, and recipients are distinct. */
  ghost predicate Payable(entries: seq<Entry>) {
    && entries != []
    && (forall i :: 0 <= i < |entries| ==>
          && !Missing(entries[i].recipient) && !Missing(entries[i].asset)
          && entries[i].amount.Some? && entries[i].amount.value > 0)
    && forall i, j :: 0 <= i < j < |entries| ==> entries[i].recipient != entries[j].recipient
  }

  /** A payload is built exactly for payable batches, and then holds their entries and the sum of their amounts. */
  lemma {:induction false} BuiltExactly(entries: seq<Entry>)
    ensures BuildSpec(entries).Ok? <==> Payable(entries)
    ensures Payable(entries) ==> BuildSpec(entries) == Ok(Payload(entries, Total(entries)))
  {
    hide Missing;
    NoErrorsUpTo(entries, |entries|);
    if BuildSpec(entries).Ok? {
      forall i | 0 <= i < |entries|
        ensures !Missing(entries[i].recipient) && !Missing(entries[i].asset) && entries[i].amount.Some? && entries[i].amount.value > 0
      {
        assert EntryFine(entries, i);
      }
      forall i, j | 0 <= i < j < |entries| ensures entries[i].recipient != entries[j].recipient {
        assert EntryFine(entries, j);
      }
    }
    if Payable(entries) {
      forall i | 0 <= i < |entries| ensures EntryFine(entries, i) {
      }
    }
  }

  /** Validation lets an absent amount pass, and building then fails without reporting a validation error. */
  lemma {:induction false} AbsentAmountPasses(recipient: Option<string>, asset: Option<string>)
    requires !Missing(recipient) && !Missing(asset)
    ensures Errors([Entry(recipient, None, asset)]) == []
    ensures BuildSpec([Entry(recipient, None, asset)]) == Err(NotABigInt)
  {
    hide Missing;
    var entries := [Entry(recipient, None, asset)];
    NoErrorsUpTo(entries, 1);
    assert EntryFine(entries, 0);
    assert !AllAmounts(entries);
  }

  /** Payable but for amounts that are absent. */
  ghost predicate PayableButForAmounts(entries: seq<Entry>) {
    && (forall i :: 0 <= i < |entries| ==>
          && !Missing(entries[i].recipient) && !Missing(entries[i].asset)
          && (entries[i].amount.Some? ==> entries[i].amount.value > 0))
    && (forall i, j :: 0 <= i < j < |entries| ==> entries[i].recipient != entries[j].recipient)
    && exists i :: 0 <= i < |entries| && entries[i].amount.None?
  }

  lemma {:induction false} FineApart(entries: seq<Entry>)
    requires !AllAmounts(entries)
    ensures (forall i :: 0 <= i < |entries| ==> EntryFine(entries, i)) <==> PayableButForAmounts(entries)
  {
    hide Missing;
    if forall i :: 0 <= i < |entries| ==> EntryFine(entries, i) {
      forall i, j | 0 <= i < j < |entries| ensures entries[i].recipient != entries[j].recipient {
        assert EntryFine(entries, j);
      }
      forall i | 0 <= i < |entries| ensures !Missing(entries[i].recipient) && !Missing(entries[i].asset) && !BadAmount(entries[i].amount) {
        assert EntryFine(entries, i);
      }
    }
  }

  /** Exactly these batches pass validation without becoming a payload. */
  lemma {:induction false} ValidationMissesExactly(entries: seq<Entry>)
    ensures Errors(entries) == [] && BuildSpec(entries).Err? <==> PayableButForAmounts(entries)
  {
    hide Missing, EntryFine;
    NoErrorsUpTo(entries, |entries|);
    if !AllAmounts(entries) {
      FineApart(entries);
    }
  }

  // ----- what the errors say -----

  /** Nothing but white space, or nothing at all. */
  predicate NoText(text: Option<string>) {
    text.None? || AllSpace(text.value)
  }

  lemma {:induction false} MissingMeans(text: Option<string>)
    ensures Missing(text) <==> NoText(text)
  {
    if text.Some? {
      BlankExactly(text.value);
    }
  }

  /** What is wrong with the batch or with one of its entries. */
  predicate Fault(entries: seq<Entry>, e: ValidationError) {
    match e
    case EmptyBatch => entries == []
    case InvalidRecipient(i) => i < |entries| && NoText(entries[i].recipient)
    case DuplicateRecipient(i, first) =>
      && first < i < |entries| && !NoText(entries[i].recipient) && entries[first].recipient == entries[i].recipient
      && forall j :: 0 <= j < first ==> entries[j].recipient != entries[i].recipient
    case InvalidAmount(i) => i < |entries| && entries[i].amount.Some? && entries[i].amount.value <= 0
    case MissingAsset(i) => i < |entries| && NoText(entries[i].asset)
  }

  /** Errors are listed entry by entry, and for one entry by recipient, amount and asset. */
  function Place(e: ValidationError): nat {
    match e
    case EmptyBatch => 0
    case InvalidRecipient(i) => 3 * i
    case DuplicateRecipient(i, _) => 3 * i
    case InvalidAmount(i) => 3 * i + 1
    case MissingAsset(i) => 3 * i + 2
  }

  predicate InOrder(errors: seq<ValidationError>) {
    forall i, j :: 0 <= i < j < |errors| ==> Place(errors[i]) < Place(errors[j])
  }

  lemma {:induction false} RecipientErrorsExactly(entries: seq<Entry>, i: nat, e: ValidationError)
    requires i < |entries|
    ensures |RecipientErrors(entries, i)| <= 1
    ensures e in RecipientErrors(entries, i) <==>
            Fault(entries, e) && (e == InvalidRecipient(i) || (e.DuplicateRecipient? && e.index == i))
  {
    hide NoText, Missing;
    MissingMeans(entries[i].recipient);
    var column, first := Recipients(entries), Earlier(Recipients(entries), i);
    assert forall j :: 0 <= j < |entries| ==> column[j] == entries[j].recipient;
  }

  lemma {:induction false} EntryErrorsExactly(entries: seq<Entry>, i: nat, e: ValidationError)
    requires i < |entries|
    ensures e in EntryErrors(entries, i) <==> Fault(entries, e) && e != EmptyBatch && 3 * i <= Place(e) < 3 * i + 3
    ensures InOrder(EntryErrors(entries, i))
  {
    hide NoText, Missing, RecipientErrors;
    RecipientErrorsExactly(entries, i, e);
    MissingMeans(entries[i].asset);
    forall x | x in RecipientErrors(entries, i) ensures Place(x) == 3 * i {
      RecipientErrorsExactly(entries, i, x);
    }
  }

  lemma {:induction false} ErrorsUpToExactly(entries: seq<Entry>, n: nat, e: ValidationError)
    requires n <= |entries|
    ensures e in ErrorsUpTo(entries, n) <==> Fault(entries, e) && e != EmptyBatch && Place(e) < 3 * n
  {
    hide EntryErrors, Fault, Place;
    if n > 0 {
      ErrorsUpToExactly(entries, n - 1, e);
      EntryErrorsExactly(entries, n - 1, e);
    }
  }

  lemma {:induction false} ErrorsUpToOrder(entries: seq<Entry>, n: nat)
    requires n <= |entries|
    ensures InOrder(ErrorsUpTo(entries, n))
  {
    hide EntryErrors, Fault, Place;
    if n > 0 {
      var earlier, here := ErrorsUpTo(entries, n - 1), EntryErrors(entries, n - 1);
      ErrorsUpToOrder(entries, n - 1);
      forall x | x in earlier ensures Place(x) < 3 * (n - 1) {
        ErrorsUpToExactly(entries, n - 1, x);
      }
      forall x | x in here ensures Place(x) >= 3 * (n - 1) {
        EntryErrorsExactly(entries, n - 1, x);
      }
      EntryErrorsExactly(entries, n - 1, EmptyBatch);
    }
  }

  /** The validation errors are exactly the faults of the batch, each once, entry by entry. */
  lemma {:induction false} ErrorsExactly(entries: seq<Entry>, e: ValidationError)
    ensures e in Errors(entries) <==> Fault(entries, e)
    ensures InOrder(Errors(entries))
  {
    hide ErrorsUpTo;
    ErrorsUpToExactly(entries, |entries|, e);
    ErrorsUpToOrder(entries, |entries|);
  }
}
