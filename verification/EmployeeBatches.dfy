/** Validating employee records, and converting them into a batch of payments. */
module EmployeeBatches {
  import opened Prelude
  import opened Text
  import B = BatchPayloads

  /** One employee as it arrives; a field may be `undefined`. */
  datatype Employee = Employee(employeeId: Option<string>, recipient: Option<string>, salary: Option<int>, asset: Option<string>)

  datatype EmployeeBatch = EmployeeBatch(employees: seq<Employee>, totalSalary: int)

  datatype ValidationError =
    | EmptyEmployeeBatch
    | MissingEmployeeId(index: nat)
    | DuplicateEmployeeId(index: nat, first: nat)
    | InvalidRecipient(index: nat)
    | DuplicateRecipient(index: nat, first: nat)
    | InvalidSalary(index: nat)
    | MissingAsset(index: nat)

  function ConvertToBatchPaymentEntries(employees: seq<Employee>): (r: seq<B.Entry>)
    ensures |r| == |employees|
    ensures forall i :: 0 <= i < |r| ==> r[i] == B.Entry(employees[i].recipient, employees[i].salary, employees[i].asset)
  {
    seq(|employees|, i requires 0 <= i < |employees| => B.Entry(employees[i].recipient, employees[i].salary, employees[i].asset))
  }

  function Ids(employees: seq<Employee>): (r: seq<Option<string>>)
    ensures |r| == |employees|
  {
    seq(|employees|, i requires 0 <= i < |employees| => employees[i].employeeId)
  }

  function Recipients(employees: seq<Employee>): (r: seq<Option<string>>)
    ensures |r| == |employees|
  {
    seq(|employees|, i requires 0 <= i < |employees| => employees[i].recipient)
  }

  predicate BadSalary(salary: Option<int>) {
    salary.None? || salary.value <= 0
  }

  function IdErrors(employees: seq<Employee>, i: nat): seq<ValidationError>
    requires i < |employees|
  {
    if B.Missing(employees[i].employeeId) then [MissingEmployeeId(i)]
    else if B.Earlier(Ids(employees), i).Some? then [DuplicateEmployeeId(i, B.Earlier(Ids(employees), i).value)]
    else []
  }

  function RecipientErrors(employees: seq<Employee>, i: nat): seq<ValidationError>
    requires i < |employees|
  {
    if B.Missing(employees[i].recipient) then [InvalidRecipient(i)]
    else if B.Earlier(Recipients(employees), i).Some? then [DuplicateRecipient(i, B.Earlier(Recipients(employees), i).value)]
    else []
  }

  function SalaryErrors(employees: seq<Employee>, i: nat): seq<ValidationError>
    requires i < |employees|
  {
    if BadSalary(employees[i].salary) then [InvalidSalary(i)] else []
  }

  function AssetErrors(employees: seq<Employee>, i: nat): seq<ValidationError>
    requires i < |employees|
  {
    if B.Missing(employees[i].asset) then [MissingAsset(i)] else []
  }

  function PaymentErrors(employees: seq<Employee>, i: nat): seq<ValidationError>
    requires i < |employees|
  {
    RecipientErrors(employees, i) + SalaryErrors(employees, i) + AssetErrors(employees, i)
  }

  function EntryErrors(employees: seq<Employee>, i: nat): seq<ValidationError>
    requires i < |employees|
  {
    IdErrors(employees, i) + PaymentErrors(employees, i)
  }

  function ErrorsUpTo(employees: seq<Employee>, n: nat): seq<ValidationError>
    requires n <= |employees|
  {
    if n == 0 then [] else ErrorsUpTo(employees, n - 1) + EntryErrors(employees, n - 1)
  }

  lemma {:induction false} ErrorsUnfold(employees: seq<Employee>, n: nat)
    requires n < |employees|
    ensures ErrorsUpTo(employees, 0) == []
    ensures ErrorsUpTo(employees, n + 1) == ErrorsUpTo(employees, n) + EntryErrors(employees, n)
  {
  }

  function Errors(employees: seq<Employee>): seq<ValidationError> {
    if employees == [] then [EmptyEmployeeBatch] else ErrorsUpTo(employees, |employees|)
  }

  function Total(employees: seq<Employee>): int {
    if employees == [] then 0
    else Total(employees[..|employees| - 1]) + if employees[|employees| - 1].salary.Some? then employees[|employees| - 1].salary.value else 0
  }

  function BuildSpec(employees: seq<Employee>): Result<EmployeeBatch, seq<ValidationError>> {
    if Errors(employees) != [] then Err(Errors(employees)) else Ok(EmployeeBatch(employees, Total(employees)))
  }

  /** The body of the validation loop, with the first positions of identifiers and recipients so far. */
  method CheckEntry(employees: seq<Employee>, i: nat, seenEmployeeIds: map<string, nat>,
                    seenRecipients: map<string, nat>)
    returns (errors: seq<ValidationError>, grownIds: map<string, nat>, grownRecipients: map<string, nat>)
    requires i < |employees| && B.Indexed(Ids(employees), i, seenEmployeeIds) && B.Indexed(Recipients(employees), i, seenRecipients)
    ensures errors == EntryErrors(employees, i)
    ensures B.Indexed(Ids(employees), i + 1, grownIds) && B.Indexed(Recipients(employees), i + 1, grownRecipients)
  {
    hide B.Missing, B.Indexed, B.Earlier, BadSalary;
    var emp, firstId, firstRecipient := employees[i], None, None;
    firstId, grownIds := B.LookUp(Ids(employees), i, emp.employeeId, seenEmployeeIds);
    var forId :=
      if B.Missing(emp.employeeId) then [MissingEmployeeId(i)]
      else if firstId.Some? then [DuplicateEmployeeId(i, firstId.value)]
      else [];
    assert forId == IdErrors(employees, i);
    hide IdErrors;
    firstRecipient, grownRecipients := B.LookUp(Recipients(employees), i, emp.recipient, seenRecipients);
    var forRecipient :=
      if B.Missing(emp.recipient) then [InvalidRecipient(i)]
      else if firstRecipient.Some? then [DuplicateRecipient(i, firstRecipient.value)]
      else [];
    assert forRecipient == RecipientErrors(employees, i);
    hide RecipientErrors;
    var forSalary := if BadSalary(emp.salary) then [InvalidSalary(i)] else [];
    var forAsset := if B.Missing(emp.asset) then [MissingAsset(i)] else [];
    errors := forId + (forRecipient + forSalary + forAsset);
  }

  class EmployeeBatchSchemaValidator {
    var employees: seq<Employee>

    constructor ()
      ensures employees == []
    {
      employees := [];
    }

    method Add(employee: Employee)
      modifies this
      ensures employees == old(employees) + [employee]
    {
      employees := employees + [employee];
    }

    method AddMany(more: seq<Employee>)
      modifies this
      ensures employees == old(employees) + more
    {
      for i := 0 to |more|
        invariant employees == old(employees) + more[..i]
      {
        Add(more[i]);
      }
    }

    method Validate() returns (errors: seq<ValidationError>)
      ensures errors == Errors(employees)
    {
      hide EntryErrors, ErrorsUpTo, B.Indexed, Ids, Recipients;
      var batch := employees;
      if |batch| == 0 {
        return [EmptyEmployeeBatch];
      }
      ErrorsUnfold(batch, 0);
      errors := [];
      var seenEmployeeIds: map<string, nat> := map[];
      var seenRecipients: map<string, nat> := map[];
      B.IndexedNone(Ids(batch));
      B.IndexedNone(Recipients(batch));
      for i := 0 to |batch|
        invariant errors == ErrorsUpTo(batch, i)
        invariant B.Indexed(Ids(batch), i, seenEmployeeIds)
        invariant B.Indexed(Recipients(batch), i, seenRecipients)
      {
        var found;
        found, seenEmployeeIds, seenRecipients := CheckEntry(batch, i, seenEmployeeIds, seenRecipients);
        ErrorsUnfold(batch, i);
        errors := errors + found;
      }
    }

    method Build() returns (r: Result<EmployeeBatch, seq<ValidationError>>)
      ensures r == BuildSpec(employees)
    {
      var errors := Validate();
      if |errors| > 0 {
        return Err(errors);
      }
      var totalSalary := 0;
      for i := 0 to |employees|
        invariant totalSalary == Total(employees[..i])
      {
        assert employees[..i + 1][..i] == employees[..i];
        SalaryPresent(employees, i);
        totalSalary := totalSalary + employees[i].salary.value;
      }
      assert employees[..|employees|] == employees;
      return Ok(EmployeeBatch(employees, totalSalary));
    }
  }

  lemma {:induction false} ErrorsInclude(employees: seq<Employee>, n: nat, i: nat, e: ValidationError)
    requires i < n <= |employees| && e in EntryErrors(employees, i)
    ensures e in ErrorsUpTo(employees, n)
  {
    hide EntryErrors;
    if i < n - 1 {
      ErrorsInclude(employees, n - 1, i, e);
    }
  }

  lemma {:induction false} SalaryPresent(employees: seq<Employee>, i: nat)
    requires i < |employees| && Errors(employees) == []
    ensures employees[i].salary.Some? && employees[i].salary.value > 0
  {
    if BadSalary(employees[i].salary) {
      assert InvalidSalary(i) in SalaryErrors(employees, i);
      ErrorsInclude(employees, |employees|, i, InvalidSalary(i));
    }
  }

  // ----- the payment batch of the same employees -----

  /** The payment error an employee error turns into: none for identifiers, nor for a salary that is absent. */
  function AsPayment(employees: seq<Employee>, e: ValidationError): seq<B.ValidationError> {
    match e
    case EmptyEmployeeBatch => [B.EmptyBatch]
    case MissingEmployeeId(_) => []
    case DuplicateEmployeeId(_, _) => []
    case InvalidRecipient(i) => [B.InvalidRecipient(i)]
    case DuplicateRecipient(i, first) => [B.DuplicateRecipient(i, first)]
    case InvalidSalary(i) => if i < |employees| && employees[i].salary.None? then [] else [B.InvalidAmount(i)]
    case MissingAsset(i) => [B.MissingAsset(i)]
  }

  function AllAsPayment(employees: seq<Employee>, errors: seq<ValidationError>): seq<B.ValidationError> {
    if errors == [] then []
    else AllAsPayment(employees, errors[..|errors| - 1]) + AsPayment(employees, errors[|errors| - 1])
  }

  lemma {:induction false} AllAsPaymentConcat(employees: seq<Employee>, a: seq<ValidationError>,
                                              b: seq<ValidationError>)
    ensures AllAsPayment(employees, a + b) == AllAsPayment(employees, a) + AllAsPayment(employees, b)
  {
    hide AsPayment;
    if b == [] {
      assert a + b == a;
    } else {
      AllAsPaymentConcat(employees, a, b[..|b| - 1]);
      assert (a + b)[..|a + b| - 1] == a + b[..|b| - 1];
    }
  }

  lemma {:induction false} AllAsPaymentOne(employees: seq<Employee>, e: ValidationError)
    ensures AllAsPayment(employees, [e]) == AsPayment(employees, e)
  {
    assert [e][..0] == [];
  }

  lemma {:induction false} AllAsPaymentNone(employees: seq<Employee>)
    ensures AllAsPayment(employees, []) == []
  {
  }

  lemma {:induction false} IdErrorsVanish(employees: seq<Employee>, i: nat)
    requires i < |employees|
    ensures AllAsPayment(employees, IdErrors(employees, i)) == []
  {
    hide B.Missing, B.Earlier, AllAsPayment;
    AllAsPaymentNone(employees);
    AllAsPaymentOne(employees, MissingEmployeeId(i));
    if B.Earlier(Ids(employees), i).Some? {
      AllAsPaymentOne(employees, DuplicateEmployeeId(i, B.Earlier(Ids(employees), i).value));
    }
  }

  lemma {:induction false} SameColumn(employees: seq<Employee>)
    ensures B.Recipients(ConvertToBatchPaymentEntries(employees)) == Recipients(employees)
  {
  }

  lemma {:induction false} RecipientCorresponds(employees: seq<Employee>, i: nat)
    requires i < |employees|
    ensures AllAsPayment(employees, RecipientErrors(employees, i)) == B.RecipientErrors(ConvertToBatchPaymentEntries(employees), i)
  {
    hide B.Missing, B.Earlier, AllAsPayment, B.Recipients, Recipients;
    SameColumn(employees);
    AllAsPaymentNone(employees);
    AllAsPaymentOne(employees, InvalidRecipient(i));
    if B.Earlier(Recipients(employees), i).Some? {
      AllAsPaymentOne(employees, DuplicateRecipient(i, B.Earlier(Recipients(employees), i).value));
    }
  }

  lemma {:induction false} RestCorresponds(employees: seq<Employee>, i: nat)
    requires i < |employees|
    ensures AllAsPayment(employees, SalaryErrors(employees, i)) == if B.BadAmount(employees[i].salary) then [B.InvalidAmount(i)] else []
    ensures AllAsPayment(employees, AssetErrors(employees, i)) == if B.Missing(employees[i].asset) then [B.MissingAsset(i)] else []
  {
    hide B.Missing;
    AllAsPaymentOne(employees, InvalidSalary(i));
    AllAsPaymentOne(employees, MissingAsset(i));
  }

  lemma {:induction false} PaymentCorresponds(employees: seq<Employee>, i: nat)
    requires i < |employees|
    ensures AllAsPayment(employees, PaymentErrors(employees, i)) == B.EntryErrors(ConvertToBatchPaymentEntries(employees), i)
  {
    hide AllAsPayment, B.Missing, B.BadAmount, B.RecipientErrors, RecipientErrors, SalaryErrors, AssetErrors;
    var forRecipient, forSalary, forAsset := RecipientErrors(employees, i), SalaryErrors(employees, i), AssetErrors(employees, i);
    RecipientCorresponds(employees, i);
    RestCorresponds(employees, i);
    AllAsPaymentConcat(employees, forRecipient + forSalary, forAsset);
    AllAsPaymentConcat(employees, forRecipient, forSalary);
  }

  lemma {:induction false} EntryCorresponds(employees: seq<Employee>, i: nat)
    requires i < |employees|
    ensures AllAsPayment(employees, EntryErrors(employees, i)) == B.EntryErrors(ConvertToBatchPaymentEntries(employees), i)
  {
    hide AllAsPayment, B.EntryErrors, PaymentErrors, IdErrors;
    IdErrorsVanish(employees, i);
    PaymentCorresponds(employees, i);
    AllAsPaymentConcat(employees, IdErrors(employees, i), PaymentErrors(employees, i));
  }

  lemma {:induction false} NothingCorresponds(employees: seq<Employee>, entries: seq<B.Entry>)
    ensures B.ErrorsUpTo(entries, 0) == AllAsPayment(employees, ErrorsUpTo(employees, 0))
  {
  }

  lemma {:induction false} PrefixCorresponds(employees: seq<Employee>, n: nat)
    requires n <= |employees|
    ensures B.ErrorsUpTo(ConvertToBatchPaymentEntries(employees), n) == AllAsPayment(employees, ErrorsUpTo(employees, n))
  {
    hide B.EntryErrors, EntryErrors, AllAsPayment, ErrorsUpTo, B.ErrorsUpTo;
    var entries := ConvertToBatchPaymentEntries(employees);
    if n == 0 {
      NothingCorresponds(employees, entries);
    } else {
      PrefixCorresponds(employees, n - 1);
      EntryCorresponds(employees, n - 1);
      ErrorsUnfold(employees, n - 1);
      B.ErrorsUnfold(entries, n - 1);
      AllAsPaymentConcat(employees, ErrorsUpTo(employees, n - 1), EntryErrors(employees, n - 1));
    }
  }

  /** Validating the converted batch reports, in order, exactly the errors of the employees that concern payments. */
  lemma {:induction false} ErrorsCorrespond(employees: seq<Employee>)
    ensures B.Errors(ConvertToBatchPaymentEntries(employees)) == AllAsPayment(employees, Errors(employees))
  {
    hide B.ErrorsUpTo, ErrorsUpTo;
    PrefixCorresponds(employees, |employees|);
    AllAsPaymentOne(employees, EmptyEmployeeBatch);
  }

  lemma {:induction false} TotalsAgree(employees: seq<Employee>)
    ensures B.Total(ConvertToBatchPaymentEntries(employees)) == Total(employees)
  {
    if employees != [] {
      var entries, init := ConvertToBatchPaymentEntries(employees), employees[..|employees| - 1];
      TotalsAgree(init);
      assert entries[..|entries| - 1] == ConvertToBatchPaymentEntries(init);
    }
  }

  /** A valid employee batch converts to a payload with the same entries and the same total. */
  lemma {:induction false} ValidConverts(employees: seq<Employee>)
    requires BuildSpec(employees).Ok?
    ensures var entries := ConvertToBatchPaymentEntries(employees);
            B.BuildSpec(entries) == Ok(B.Payload(entries, BuildSpec(employees).value.totalSalary))
  {
    ErrorsCorrespond(employees);
    TotalsAgree(employees);
    forall i | 0 <= i < |employees| ensures employees[i].salary.Some? {
      SalaryPresent(employees, i);
    }
  }

  predicate AboutId(e: ValidationError) {
    e.MissingEmployeeId? || e.DuplicateEmployeeId?
  }

  /** Conversely a payload is built exactly when only identifiers were wrong. */
  lemma {:induction false} ConvertsExactly(employees: seq<Employee>)
    ensures B.BuildSpec(ConvertToBatchPaymentEntries(employees)).Ok? <==>
            forall k :: 0 <= k < |Errors(employees)| ==> AboutId(Errors(employees)[k])
  {
    hide Errors, B.Errors, AllAsPayment;
    var entries, errors := ConvertToBatchPaymentEntries(employees), Errors(employees);
    ErrorsCorrespond(employees);
    if B.BuildSpec(entries).Ok? {
      assert forall i :: 0 <= i < |employees| ==> entries[i].amount == employees[i].salary;
      forall k | 0 <= k < |errors| ensures AboutId(errors[k]) {
        DroppedError(employees, errors, k);
      }
    }
    if forall k :: 0 <= k < |errors| ==> AboutId(errors[k]) {
      OnlyIdErrors(employees, errors);
      forall i | 0 <= i < |entries| ensures entries[i].amount.Some? {
        if employees[i].salary.None? {
          SalaryReported(employees, i);
        }
      }
    }
  }

  lemma {:induction false} DroppedError(employees: seq<Employee>, errors: seq<ValidationError>, k: nat)
    requires k < |errors| && AllAsPayment(employees, errors) == []
    ensures AsPayment(employees, errors[k]) == []
  {
    hide AsPayment;
    if k < |errors| - 1 {
      DroppedError(employees, errors[..|errors| - 1], k);
    }
  }

  lemma {:induction false} OnlyIdErrors(employees: seq<Employee>, errors: seq<ValidationError>)
    requires forall k :: 0 <= k < |errors| ==> AboutId(errors[k])
    ensures AllAsPayment(employees, errors) == []
  {
    if errors != [] {
      OnlyIdErrors(employees, errors[..|errors| - 1]);
    }
  }

  lemma {:induction false} SalaryReported(employees: seq<Employee>, i: nat)
    requires i < |employees| && employees[i].salary.None?
    ensures InvalidSalary(i) in Errors(employees)
  {
    assert InvalidSalary(i) in SalaryErrors(employees, i);
    hide RecipientErrors, AssetErrors, SalaryErrors, IdErrors;
    ErrorsInclude(employees, |employees|, i, InvalidSalary(i));
  }

  // ----- what the errors say -----

  /** A repeated text names the first position that holds it. */
  predicate Repeats(text: int -> Option<string>, i: nat, first: nat) {
    first < i && !B.NoText(text(i)) && text(first) == text(i) && forall j :: 0 <= j < first ==> text(j) != text(i)
  }

  function IdAt(employees: seq<Employee>): int -> Option<string> {
    i => if 0 <= i < |employees| then employees[i].employeeId else None
  }

  function RecipientAt(employees: seq<Employee>): int -> Option<string> {
    i => if 0 <= i < |employees| then employees[i].recipient else None
  }

  /** What is wrong with the batch or with one of its employees. */
  predicate Fault(employees: seq<Employee>, e: ValidationError) {
    match e
    case EmptyEmployeeBatch => employees == []
    case MissingEmployeeId(i) => i < |employees| && B.NoText(employees[i].employeeId)
    case DuplicateEmployeeId(i, first) => i < |employees| && Repeats(IdAt(employees), i, first)
    case InvalidRecipient(i) => i < |employees| && B.NoText(employees[i].recipient)
    case DuplicateRecipient(i, first) => i < |employees| && Repeats(RecipientAt(employees), i, first)
    case InvalidSalary(i) => i < |employees| && (employees[i].salary.None? || employees[i].salary.value <= 0)
    case MissingAsset(i) => i < |employees| && B.NoText(employees[i].asset)
  }

  /** Errors are listed employee by employee, and for one by identifier, recipient, salary and asset. */
  function Place(e: ValidationError): nat {
    match e
    case EmptyEmployeeBatch => 0
    case MissingEmployeeId(i) => 4 * i
    case DuplicateEmployeeId(i, _) => 4 * i
    case InvalidRecipient(i) => 4 * i + 1
    case DuplicateRecipient(i, _) => 4 * i + 1
    case InvalidSalary(i) => 4 * i + 2
    case MissingAsset(i) => 4 * i + 3
  }

  predicate InOrder(errors: seq<ValidationError>) {
    forall i, j :: 0 <= i < j < |errors| ==> Place(errors[i]) < Place(errors[j])
  }

  lemma {:induction false} FirstIsEarlier(column: seq<Option<string>>, text: int -> Option<string>, i: nat, first: nat)
    requires i < |column| && (forall j :: 0 <= j < |column| ==> text(j) == column[j]) && !B.NoText(column[i])
    ensures Repeats(text, i, first) <==> B.Earlier(column, i) == Some(first)
  {
    hide B.NoText;
  }

  lemma {:induction false} IdErrorsExactly(employees: seq<Employee>, i: nat, e: ValidationError)
    requires i < |employees|
    ensures |IdErrors(employees, i)| <= 1
    ensures e in IdErrors(employees, i) <==>
            Fault(employees, e) && (e == MissingEmployeeId(i) || (e.DuplicateEmployeeId? && e.index == i))
  {
    hide B.NoText, B.Missing, B.Earlier;
    B.MissingMeans(employees[i].employeeId);
    if !B.NoText(employees[i].employeeId) && e.DuplicateEmployeeId? {
      FirstIsEarlier(Ids(employees), IdAt(employees), i, e.first);
    }
  }

  lemma {:induction false} RecipientErrorsExactly(employees: seq<Employee>, i: nat, e: ValidationError)
    requires i < |employees|
    ensures |RecipientErrors(employees, i)| <= 1
    ensures e in RecipientErrors(employees, i) <==>
            Fault(employees, e) && (e == InvalidRecipient(i) || (e.DuplicateRecipient? && e.index == i))
  {
    hide B.NoText, B.Missing, B.Earlier;
    B.MissingMeans(employees[i].recipient);
    if !B.NoText(employees[i].recipient) && e.DuplicateRecipient? {
      FirstIsEarlier(Recipients(employees), RecipientAt(employees), i, e.first);
    }
  }

  lemma {:induction false} EntryErrorsExactly(employees: seq<Employee>, i: nat, e: ValidationError)
    requires i < |employees|
    ensures e in EntryErrors(employees, i) <==>
            Fault(employees, e) && e != EmptyEmployeeBatch && 4 * i <= Place(e) < 4 * i + 4
    ensures InOrder(EntryErrors(employees, i))
  {
    hide B.NoText, B.Missing, IdErrors, RecipientErrors;
    IdErrorsExactly(employees, i, e);
    RecipientErrorsExactly(employees, i, e);
    B.MissingMeans(employees[i].asset);
    forall x | x in IdErrors(employees, i) ensures Place(x) == 4 * i {
      IdErrorsExactly(employees, i, x);
    }
    forall x | x in RecipientErrors(employees, i) ensures Place(x) == 4 * i + 1 {
      RecipientErrorsExactly(employees, i, x);
    }
  }

  lemma {:induction false} ErrorsUpToExactly(employees: seq<Employee>, n: nat, e: ValidationError)
    requires n <= |employees|
    ensures e in ErrorsUpTo(employees, n) <==> Fault(employees, e) && e != EmptyEmployeeBatch && Place(e) < 4 * n
  {
    hide EntryErrors, Fault, Place;
    if n > 0 {
      ErrorsUpToExactly(employees, n - 1, e);
      EntryErrorsExactly(employees, n - 1, e);
    }
  }

  lemma {:induction false} ErrorsUpToOrder(employees: seq<Employee>, n: nat)
    requires n <= |employees|
    ensures InOrder(ErrorsUpTo(employees, n))
  {
    hide EntryErrors, Fault, Place;
    if n > 0 {
      var earlier, here := ErrorsUpTo(employees, n - 1), EntryErrors(employees, n - 1);
      ErrorsUpToOrder(employees, n - 1);
      forall x | x in earlier ensures Place(x) < 4 * (n - 1) {
        ErrorsUpToExactly(employees, n - 1, x);
      }
      forall x | x in here ensures Place(x) >= 4 * (n - 1) {
        EntryErrorsExactly(employees, n - 1, x);
      }
      EntryErrorsExactly(employees, n - 1, EmptyEmployeeBatch);
    }
  }

  /** The validation errors are exactly the faults of the employees, each once, employee by employee. */
  lemma {:induction false} ErrorsExactly(employees: seq<Employee>, e: ValidationError)
    ensures e in Errors(employees) <==> Fault(employees, e)
    ensures InOrder(Errors(employees))
  {
    hide ErrorsUpTo;
    ErrorsUpToExactly(employees, |employees|, e);
    ErrorsUpToOrder(employees, |employees|);
  }
}
