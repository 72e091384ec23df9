/** Selective-disclosure audit packages: creation, canonical hashing, verification and serialisation. */
module AuditPackage {
  import opened Prelude
  import opened Sorting
  import opened CanonicalJson

  /** The platform: JSON printing with its parser, the numbers it can print, and the digest. */
  datatype Platform = Platform(stringify: Json -> string, parse: string -> Option<Json>, isNumber: real -> bool, digest: string -> string)
  {
    /** Data that JSON can hold: printable numbers, and `undefined` only as an absent object field. */
    ghost predicate Storable(v: Json) {
      match v
      case Undefined => false
      case Num(n) => isNumber(n)
      case Arr(items) => forall i :: 0 <= i < |items| ==> Storable(items[i])
      case Obj(fields) => forall i :: 0 <= i < |fields| ==> fields[i].value == Undefined || Storable(fields[i].value)
      case _ => true
    }

    /** Parsing undoes printing on canonical data. */
    ghost predicate Faithful() {
      forall v :: Wf(v) && Storable(v) ==> parse(stringify(Canon(v))) == Some(Canon(v))
    }

    /** Two different texts with one digest. */
    predicate Collide(s: string, t: string) {
      s != t && digest(s) == digest(t)
    }

    /** The text that is hashed for a package. */
    function HashedText(pkg: Json): string {
      stringify(Canon(WithoutHash(pkg)))
    }
  }

  predicate Truthy(v: Json) {
    match v
    case Undefined => false
    case Null => false
    case Bool(b) => b
    case Num(n) => n != 0.0
    case Str(s) => s != ""
    case _ => true
  }

  function Items(v: Json): seq<Json> {
    if v.Arr? then v.items else []
  }

  // ----- shape -----

  datatype ShapeError =
    | PackageIdMissing | BadSchemaVersion | CompanyIdMissing | PayrollRunIdMissing | PayrollPeriodIdMissing
    | ScopeTypeMissing | IntegrityHashMissing | ScopeExpired | ScopeMalformed
    | ProofIncomplete(index: nat) | VerificationKeyMissing(index: nat) | CommitmentIncomplete(index: nat)
    | NoProofs | HashMismatch

  /** The fields the validator reads have the types the interface declares. */
  ghost predicate WellTyped(pkg: Json) {
    && pkg.Obj?
    && (Get(Get(pkg, "disclosureScope"), "expiresAt").Undefined? || Get(Get(pkg, "disclosureScope"), "expiresAt").Num?)
    && (forall k :: k in Items(Get(pkg, "verificationKeys")) ==> Get(k, "id").Str?)
    && (forall p :: p in Items(Get(pkg, "proofReferences")) ==> Get(p, "verificationKeyId").Str?)
  }

  predicate Expired(scope: Json, now: real) {
    var expiresAt := Get(scope, "expiresAt");
    expiresAt.Num? && expiresAt.n <= now
  }

  predicate ScopeWellFormed(scope: Json) {
    var kind := Get(scope, "type");
    if kind == Str("employee_subset") then |Items(Get(scope, "employeeIds"))| > 0
    else if kind == Str("payroll_period") then |Items(Get(scope, "payrollPeriodIds"))| > 0
    else if kind == Str("department") then |Items(Get(scope, "departmentIds"))| > 0
    else kind == Str("reason") && Truthy(Get(scope, "reason"))
  }

  function Check(ok: bool, e: ShapeError): seq<ShapeError> {
    if ok then [] else [e]
  }

  function KeyIds(keys: seq<Json>): set<Json> {
    set k | k in keys :: Get(k, "id")
  }

  predicate ProofComplete(p: Json) {
    Truthy(Get(p, "id")) && Truthy(Get(p, "proofHash")) && Truthy(Get(p, "publicInputHash")) && Truthy(Get(p, "circuitId"))
  }

  predicate CommitmentComplete(c: Json) {
    Truthy(Get(c, "id")) && Truthy(Get(c, "employeeId")) && Truthy(Get(c, "commitmentHash"))
  }

  /** Errors of the first `n` proof references. */
  function ProofErrors(proofs: seq<Json>, keyIds: set<Json>, n: nat): seq<ShapeError>
    requires n <= |proofs|
  {
    if n == 0 then []
    else
      ProofErrors(proofs, keyIds, n - 1)
      + Check(ProofComplete(proofs[n - 1]), ProofIncomplete(n - 1))
      + Check(Get(proofs[n - 1], "verificationKeyId") in keyIds, VerificationKeyMissing(n - 1))
  }

  function CommitmentErrors(commitments: seq<Json>, n: nat): seq<ShapeError>
    requires n <= |commitments|
  {
    if n == 0 then []
    else CommitmentErrors(commitments, n - 1) + Check(CommitmentComplete(commitments[n - 1]), CommitmentIncomplete(n - 1))
  }

  function IdentityErrors(pkg: Json): seq<ShapeError> {
    Check(Truthy(Get(pkg, "packageId")), PackageIdMissing)
    + Check(Get(pkg, "schemaVersion") == Str("1.0"), BadSchemaVersion)
  }

  function PayrollErrors(payroll: Json): seq<ShapeError> {
    Check(Truthy(Get(payroll, "companyId")), CompanyIdMissing)
    + Check(Truthy(Get(payroll, "payrollRunId")), PayrollRunIdMissing)
    + Check(Truthy(Get(payroll, "payrollPeriodId")), PayrollPeriodIdMissing)
  }

  function HeaderErrors(pkg: Json, allowBlankHash: bool, now: real): seq<ShapeError> {
    var scope := Get(pkg, "disclosureScope");
    IdentityErrors(pkg)
    + PayrollErrors(Get(pkg, "payroll"))
    + Check(Truthy(Get(scope, "type")), ScopeTypeMissing)
    + Check(allowBlankHash || Truthy(Get(pkg, "integrityHash")), IntegrityHashMissing)
    + Check(!Expired(scope, now), ScopeExpired)
    + Check(ScopeWellFormed(scope), ScopeMalformed)
  }

  function ShapeErrors(pkg: Json, allowBlankHash: bool, now: real): seq<ShapeError> {
    var proofs, commitments := Items(Get(pkg, "proofReferences")), Items(Get(pkg, "commitments"));
    HeaderErrors(pkg, allowBlankHash, now)
    + ProofErrors(proofs, KeyIds(Items(Get(pkg, "verificationKeys"))), |proofs|)
    + CommitmentErrors(commitments, |commitments|)
    + Check(|proofs| > 0, NoProofs)
  }

  /** `validateAuditPackageShape`. */
  method ValidateAuditPackageShape(pkg: Json, allowBlankHash: bool, now: real) returns (errors: seq<ShapeError>)
    ensures errors == ShapeErrors(pkg, allowBlankHash, now)
  {
    hide Get, HeaderErrors, ProofComplete, CommitmentComplete;
    errors := HeaderErrors(pkg, allowBlankHash, now);
    ghost var header := errors;
    var keyIds := KeyIds(Items(Get(pkg, "verificationKeys")));
    var proofs := Items(Get(pkg, "proofReferences"));
    for i := 0 to |proofs|
      invariant errors == header + ProofErrors(proofs, keyIds, i)
    {
      if !ProofComplete(proofs[i]) {
        errors := errors + [ProofIncomplete(i)];
      }
      if Get(proofs[i], "verificationKeyId") !in keyIds {
        errors := errors + [VerificationKeyMissing(i)];
      }
    }
    ghost var checked := errors;
    var commitments := Items(Get(pkg, "commitments"));
    for i := 0 to |commitments|
      invariant errors == checked + CommitmentErrors(commitments, i)
    {
      if !CommitmentComplete(commitments[i]) {
        errors := errors + [CommitmentIncomplete(i)];
      }
    }
    if |proofs| == 0 {
      errors := errors + [NoProofs];
    }
  }

  // ----- hashing, creation, verification -----

  /** `{ integrityHash, ...rest }` keeps the rest. */
  function WithoutHash(pkg: Json): Json {
    if pkg.Obj? then Obj(DropHash(pkg.fields)) else pkg
  }

  function DropHash(fields: seq<Field>): seq<Field> {
    if fields == [] then []
    else (if fields[0].key == "integrityHash" then [] else [fields[0]]) + DropHash(fields[1..])
  }

  function IntegrityHash(platform: Platform, pkg: Json): string {
    platform.digest(platform.HashedText(pkg))
  }

  function Verify(platform: Platform, pkg: Json, now: real): seq<ShapeError> {
    ShapeErrors(pkg, false, now) + Check(Str(IntegrityHash(platform, pkg)) == Get(pkg, "integrityHash"), HashMismatch)
  }

  /** The input of `createSelectiveDisclosureAuditPackage`. */
  datatype PackageInput = PackageInput(packageId: string, payroll: Json, scope: Json, commitments: seq<Json>,
                                       proofs: seq<Json>, keys: seq<Json>, manifestHash: Json, metadata: Json)

  function Allowed(scope: Json, listName: string): set<Json> {
    set id | id in Items(Get(scope, listName))
  }

  /** Whether a commitment is disclosed under the scope. */
  predicate Disclosed(scope: Json, c: Json) {
    var kind := Get(scope, "type");
    if kind == Str("employee_subset") && Get(scope, "employeeIds").Arr? then
      Get(c, "employeeId") in Allowed(scope, "employeeIds")
    else if kind == Str("payroll_period") && Get(scope, "payrollPeriodIds").Arr? then
      Get(c, "payrollPeriodId") in Allowed(scope, "payrollPeriodIds")
    else if kind == Str("department") && Get(scope, "departmentIds").Arr? then
      Get(c, "departmentId") != Undefined && Get(c, "departmentId") in Allowed(scope, "departmentIds")
    else true
  }

  function ApplyDisclosureScope(commitments: seq<Json>, scope: Json): seq<Json> {
    if commitments == [] then []
    else (if Disclosed(scope, commitments[0]) then [commitments[0]] else []) + ApplyDisclosureScope(commitments[1..], scope)
  }

  function Unsigned(input: PackageInput): Json {
    Obj([Field("schemaVersion", Str("1.0")), Field("packageId", Str(input.packageId)), Field("payroll", input.payroll),
         Field("disclosureScope", input.scope),
         Field("commitments", Arr(ApplyDisclosureScope(input.commitments, input.scope))),
         Field("proofReferences", Arr(input.proofs)), Field("verificationKeys", Arr(input.keys)),
         Field("artifactManifestHash", input.manifestHash), Field("metadata", input.metadata)])
  }

  function Create(platform: Platform, input: PackageInput, now: real): Result<Json, seq<ShapeError>> {
    var pkg := Unsigned(input);
    var errors := ShapeErrors(Obj(pkg.fields + [Field("integrityHash", Str(""))]), true, now);
    if errors != [] then Err(errors)
    else Ok(Obj(pkg.fields + [Field("integrityHash", Str(IntegrityHash(platform, pkg)))]))
  }

  function Serialize(platform: Platform, pkg: Json): string {
    platform.stringify(Canon(pkg))
  }

  /** `deserializeAuditPackage`: absent when the text does not parse or has another schema version. */
  function Deserialize(platform: Platform, text: string): Option<Json> {
    match platform.parse(text)
    case None => None
    case Some(v) => if Get(v, "schemaVersion") == Str("1.0") then Some(v) else None
  }

  // ----- what survives canonising -----

  lemma {:induction false} TruthyCanon(v: Json)
    ensures Truthy(Canon(v)) == Truthy(v)
  {
  }

  lemma {:induction false} ReadCanon(v: Json, key: string)
    requires Wf(v) && key != "__proto__"
    ensures Truthy(Get(Canon(v), key)) == Truthy(Get(v, key))
    ensures Get(v, key).Str? || Get(Canon(v), key).Str? ==> Get(Canon(v), key) == Get(v, key)
    ensures Get(v, key).Num? || Get(Canon(v), key).Num? ==> Get(Canon(v), key) == Get(v, key)
    ensures Items(Get(Canon(v), key)) == CanonItems(Items(Get(v, key)))
    ensures Get(Canon(v), key) == Canon(Get(v, key)) && Wf(Get(v, key))
  {
    GetCanon(v, key);
    TruthyCanon(Get(v, key));
    if v.Obj? {
      LookupSource(v.fields, key);
    }
  }

  lemma {:induction false} TruthyRead(v: Json, key: string)
    requires Wf(v) && key != "__proto__"
    ensures Truthy(Get(Canon(v), key)) == Truthy(Get(v, key))
  {
    ReadCanon(v, key);
  }

  lemma {:induction false} IdentityErrorsCanon(pkg: Json)
    requires Wf(pkg)
    ensures IdentityErrors(Canon(pkg)) == IdentityErrors(pkg)
  {
    hide Canon, Get, Wf, Truthy;
    TruthyRead(pkg, "packageId");
    ReadCanon(pkg, "schemaVersion");
  }

  lemma {:induction false} PayrollErrorsCanon(payroll: Json)
    requires Wf(payroll)
    ensures PayrollErrors(Canon(payroll)) == PayrollErrors(payroll)
  {
    hide Canon, Get, Wf, Truthy;
    TruthyRead(payroll, "companyId");
    TruthyRead(payroll, "payrollRunId");
    TruthyRead(payroll, "payrollPeriodId");
  }

  lemma {:induction false} HeaderErrorsCanon(pkg: Json, allowBlankHash: bool, now: real)
    requires Wf(pkg)
    ensures HeaderErrors(Canon(pkg), allowBlankHash, now) == HeaderErrors(pkg, allowBlankHash, now)
  {
    hide Canon, Get, Wf, Truthy, IdentityErrors, PayrollErrors, ScopeWellFormed, Items, CanonItems;
    var scope := Get(pkg, "disclosureScope");
    ReadCanon(pkg, "payroll");
    ReadCanon(pkg, "disclosureScope");
    IdentityErrorsCanon(pkg);
    PayrollErrorsCanon(Get(pkg, "payroll"));
    TruthyRead(pkg, "integrityHash");
    TruthyRead(scope, "type");
    ReadCanon(scope, "expiresAt");
    ScopeCanon(scope);
  }

  lemma {:induction false} ScopeCanon(scope: Json)
    requires Wf(scope)
    ensures ScopeWellFormed(Canon(scope)) == ScopeWellFormed(scope)
  {
    hide Canon, Get, Wf;
    ReadCanon(scope, "type");
    ReadCanon(scope, "reason");
    ReadCanon(scope, "employeeIds");
    ReadCanon(scope, "payrollPeriodIds");
    ReadCanon(scope, "departmentIds");
  }

  lemma {:induction false} ProofCompleteCanon(p: Json)
    requires Wf(p)
    ensures ProofComplete(Canon(p)) == ProofComplete(p)
  {
    hide Canon, Get, Truthy, Wf;
    TruthyRead(p, "id");
    TruthyRead(p, "proofHash");
    TruthyRead(p, "publicInputHash");
    TruthyRead(p, "circuitId");
  }

  lemma {:induction false} CommitmentCompleteCanon(c: Json)
    requires Wf(c)
    ensures CommitmentComplete(Canon(c)) == CommitmentComplete(c)
  {
    hide Canon, Get, Truthy, Wf;
    TruthyRead(c, "id");
    TruthyRead(c, "employeeId");
    TruthyRead(c, "commitmentHash");
  }

  lemma {:induction false} ProofErrorsCanon(proofs: seq<Json>, keyIds: set<Json>, n: nat)
    requires n <= |proofs| && Wf(Arr(proofs)) && forall p :: p in proofs ==> Get(p, "verificationKeyId").Str?
    ensures ProofErrors(CanonItems(proofs), keyIds, n) == ProofErrors(proofs, keyIds, n)
  {
    hide Canon, Get, ProofComplete, CanonItems;
    if n > 0 {
      ProofErrorsCanon(proofs, keyIds, n - 1);
      assert proofs[n - 1] in proofs;
      ProofCompleteCanon(proofs[n - 1]);
      ReadCanon(proofs[n - 1], "verificationKeyId");
    }
  }

  lemma {:induction false} CommitmentErrorsCanon(commitments: seq<Json>, n: nat)
    requires n <= |commitments| && Wf(Arr(commitments))
    ensures CommitmentErrors(CanonItems(commitments), n) == CommitmentErrors(commitments, n)
  {
    hide Canon, Get, CommitmentComplete, CanonItems;
    if n > 0 {
      CommitmentErrorsCanon(commitments, n - 1);
      CommitmentCompleteCanon(commitments[n - 1]);
    }
  }

  lemma {:induction false} KeyIdsCanon(keys: seq<Json>)
    requires Wf(Arr(keys)) && forall k :: k in keys ==> Get(k, "id").Str?
    ensures KeyIds(CanonItems(keys)) == KeyIds(keys)
  {
    forall i | 0 <= i < |keys| ensures Get(CanonItems(keys)[i], "id") == Get(keys[i], "id") {
      assert keys[i] in keys;
      ReadCanon(keys[i], "id");
    }
    forall id ensures id in KeyIds(CanonItems(keys)) <==> id in KeyIds(keys) {
      if id in KeyIds(keys) {
        var i :| 0 <= i < |keys| && Get(keys[i], "id") == id;
        assert CanonItems(keys)[i] in CanonItems(keys);
      }
      if id in KeyIds(CanonItems(keys)) {
        var i :| 0 <= i < |keys| && Get(CanonItems(keys)[i], "id") == id;
        assert keys[i] in keys;
      }
    }
  }

  lemma {:induction false} ShapeErrorsCanon(pkg: Json, allowBlankHash: bool, now: real)
    requires Wf(pkg) && WellTyped(pkg)
    ensures ShapeErrors(Canon(pkg), allowBlankHash, now) == ShapeErrors(pkg, allowBlankHash, now)
  {
    hide Canon, Get, HeaderErrors, KeyIds, ProofErrors, CommitmentErrors, CanonItems, Truthy;
    HeaderErrorsCanon(pkg, allowBlankHash, now);
    ReadCanon(pkg, "proofReferences");
    ReadCanon(pkg, "commitments");
    ReadCanon(pkg, "verificationKeys");
    var proofs, keys := Items(Get(pkg, "proofReferences")), Items(Get(pkg, "verificationKeys"));
    KeyIdsCanon(keys);
    ProofErrorsCanon(proofs, KeyIds(keys), |proofs|);
    CommitmentErrorsCanon(Items(Get(pkg, "commitments")), |Items(Get(pkg, "commitments"))|);
  }

  lemma {:induction false} DropHashElements(fields: seq<Field>, f: Field)
    ensures f in DropHash(fields) <==> f in fields && f.key != "integrityHash"
  {
    if fields != [] {
      DropHashElements(fields[1..], f);
      assert fields == [fields[0]] + fields[1..];
    }
  }

  lemma {:induction false} DropHashWf(fields: seq<Field>)
    requires Wf(Obj(fields))
    ensures Wf(Obj(DropHash(fields)))
  {
    if fields != [] {
      DropHashWf(fields[1..]);
      var rest := DropHash(fields[1..]);
      forall j | 0 <= j < |rest| ensures rest[j].key != fields[0].key {
        DropHashElements(fields[1..], rest[j]);
        var i :| 0 <= i < |fields[1..]| && fields[1..][i] == rest[j];
        assert fields[i + 1] == rest[j];
      }
    }
  }

  /** Dropping the hash commutes with "same content". */
  lemma {:induction false} WithoutHashSame(a: Json, b: Json)
    requires Wf(a) && Wf(b) && a.Obj? && b.Obj? && Same(a, b)
    ensures Same(WithoutHash(a), WithoutHash(b))
  {
    SameIsCovered(a.fields, b.fields);
    SameIsCovered(DropHash(a.fields), DropHash(b.fields));
    DropHashCovered(a.fields, b.fields);
  }

  lemma {:induction false} MatchesKeys(f: Field, g: Field)
    requires Matches(f, g)
    ensures Effective(f) && Effective(g) && f.key == g.key
  {
  }

  lemma {:induction false} DropHashCovered(fs: seq<Field>, gs: seq<Field>)
    ensures Covered(fs, gs) ==> Covered(DropHash(fs), DropHash(gs))
    ensures CoveredBack(fs, gs) ==> CoveredBack(DropHash(fs), DropHash(gs))
  {
    hide Matches, DropHash;
    var fs', gs' := DropHash(fs), DropHash(gs);
    forall i | Covered(fs, gs) && 0 <= i < |fs'| && Effective(fs'[i])
      ensures exists j :: 0 <= j < |gs'| && Matches(fs'[i], gs'[j])
    {
      DropHashElements(fs, fs'[i]);
      var k :| 0 <= k < |fs| && fs[k] == fs'[i];
      var l :| 0 <= l < |gs| && Matches(fs[k], gs[l]);
      MatchesKeys(fs[k], gs[l]);
      DropHashElements(gs, gs[l]);
      var j :| 0 <= j < |gs'| && gs'[j] == gs[l];
    }
    forall j | CoveredBack(fs, gs) && 0 <= j < |gs'| && Effective(gs'[j])
      ensures exists i :: 0 <= i < |fs'| && Matches(fs'[i], gs'[j])
    {
      DropHashElements(gs, gs'[j]);
      var l :| 0 <= l < |gs| && gs[l] == gs'[j];
      var k :| 0 <= k < |fs| && Matches(fs[k], gs[l]);
      MatchesKeys(fs[k], gs[l]);
      DropHashElements(fs, fs[k]);
      var i :| 0 <= i < |fs'| && fs'[i] == fs[k];
    }
  }

  /** The hash covers content, not layout. */
  lemma {:induction false} HashOfSameContent(platform: Platform, a: Json, b: Json)
    requires Wf(a) && Wf(b) && a.Obj? && b.Obj? && Same(a, b)
    ensures IntegrityHash(platform, a) == IntegrityHash(platform, b)
  {
    WithoutHashSame(a, b);
    DropHashWf(a.fields);
    DropHashWf(b.fields);
    CanonIffSame(WithoutHash(a), WithoutHash(b));
  }

  // ----- the main results -----

  /** Verification does not see key order: a package and its canonical form get the same errors. */
  lemma {:induction false} VerifyIgnoresLayout(platform: Platform, pkg: Json, now: real)
    requires Wf(pkg) && WellTyped(pkg)
    ensures Verify(platform, Canon(pkg), now) == Verify(platform, pkg, now)
  {
    ShapeErrorsCanon(pkg, false, now);
    CanonIsSame(pkg);
    HashOfSameContent(platform, pkg, Canon(pkg));
    ReadCanon(pkg, "integrityHash");
  }

  /** Serialising and deserialising preserves the outcome of verification, at every time. */
  lemma {:induction false} RoundTripVerifies(platform: Platform, pkg: Json, now: real)
    requires platform.Faithful() && Wf(pkg) && platform.Storable(pkg) && WellTyped(pkg) && Get(pkg, "schemaVersion") == Str("1.0")
    ensures var back := Deserialize(platform, Serialize(platform, pkg));
            && back == Some(Canon(pkg)) && Same(pkg, back.value)
            && Verify(platform, back.value, now) == Verify(platform, pkg, now)
  {
    ReadCanon(pkg, "schemaVersion");
    CanonIsSame(pkg);
    VerifyIgnoresLayout(platform, pkg, now);
  }

  function BlankHash(hash: string): seq<ShapeError> {
    if hash == "" then [IntegrityHashMissing] else []
  }

  /** What the validator reads of a package besides its hash. */
  predicate ReadsAlike(x: Json, y: Json) {
    && Get(x, "schemaVersion") == Get(y, "schemaVersion") && Get(x, "packageId") == Get(y, "packageId")
    && Get(x, "payroll") == Get(y, "payroll") && Get(x, "disclosureScope") == Get(y, "disclosureScope")
    && Get(x, "commitments") == Get(y, "commitments") && Get(x, "proofReferences") == Get(y, "proofReferences")
    && Get(x, "verificationKeys") == Get(y, "verificationKeys")
  }

  lemma {:induction false} HeaderAlike(x: Json, y: Json, created: real, now: real)
    requires ReadsAlike(x, y) && HeaderErrors(x, true, created) == []
    ensures HeaderErrors(y, false, now) ==
            Check(Truthy(Get(y, "integrityHash")), IntegrityHashMissing) + Check(!Expired(Get(y, "disclosureScope"), now), ScopeExpired)
  {
    hide Get, Truthy, Expired, ScopeWellFormed, PayrollErrors;
    assert IdentityErrors(x) == IdentityErrors(y);
    hide IdentityErrors;
    assert IdentityErrors(x) == [] && PayrollErrors(Get(x, "payroll")) == [];
  }

  lemma {:induction false} ShapeAlike(x: Json, y: Json, created: real, now: real)
    requires ReadsAlike(x, y)
    ensures ShapeErrors(x, true, created) == [] ==>
              HeaderErrors(x, true, created) == [] && ShapeErrors(y, false, now) == HeaderErrors(y, false, now)
  {
    hide Get, HeaderErrors, ProofErrors, CommitmentErrors, KeyIds, Items;
    if ShapeErrors(x, true, created) == [] {
      var proofs, commitments := Items(Get(x, "proofReferences")), Items(Get(x, "commitments"));
      assert ProofErrors(proofs, KeyIds(Items(Get(x, "verificationKeys"))), |proofs|) == [];
      assert CommitmentErrors(commitments, |commitments|) == [];
    }
  }

  /** Once created, a package has no shape error but expiry, and a missing hash should the digest print nothing. */
  lemma {:induction false} CreatedShape(platform: Platform, input: PackageInput, created: real, now: real)
    ensures Create(platform, input, created).Ok? ==>
              var pkg := Create(platform, input, created).value;
              ShapeErrors(pkg, false, now) ==
              BlankHash(IntegrityHash(platform, Unsigned(input))) + if Expired(input.scope, now) then [ScopeExpired] else []
  {
    hide Get, ShapeErrors, HeaderErrors, IntegrityHash, Expired;
    ReadPackage(input, "");
    ReadPackage(input, IntegrityHash(platform, Unsigned(input)));
    hide WithoutHash, ApplyDisclosureScope;
    if Create(platform, input, created).Ok? {
      var blank, pkg := Obj(Unsigned(input).fields + [Field("integrityHash", Str(""))]), Create(platform, input, created).value;
      hide Unsigned;
      ShapeAlike(blank, pkg, created, now);
      HeaderAlike(blank, pkg, created, now);
    }
  }

  function Signed(input: PackageInput, hash: string): seq<Field> {
    Unsigned(input).fields + [Field("integrityHash", Str(hash))]
  }

  lemma {:induction false} ReadHeader(input: PackageInput, hash: string)
    ensures var fields := Signed(input, hash);
            && Lookup(fields, "schemaVersion") == Str("1.0") && Lookup(fields, "packageId") == Str(input.packageId)
            && Lookup(fields, "payroll") == input.payroll && Lookup(fields, "disclosureScope") == input.scope
  {
    hide Lookup, ApplyDisclosureScope;
    var fields := Signed(input, hash);
    FirstRead(fields, "schemaVersion", 0);
    FirstRead(fields, "packageId", 1);
    FirstRead(fields, "payroll", 2);
    FirstRead(fields, "disclosureScope", 3);
  }

  lemma {:induction false} ReadLists(input: PackageInput, hash: string)
    ensures var fields := Signed(input, hash);
            && Lookup(fields, "commitments") == Arr(ApplyDisclosureScope(input.commitments, input.scope))
            && Lookup(fields, "proofReferences") == Arr(input.proofs) && Lookup(fields, "verificationKeys") == Arr(input.keys)
  {
    hide Lookup, ApplyDisclosureScope;
    var fields := Signed(input, hash);
    FirstRead(fields, "commitments", 4);
    FirstRead(fields, "proofReferences", 5);
    FirstRead(fields, "verificationKeys", 6);
  }

  lemma {:induction false} ReadHash(input: PackageInput, hash: string)
    ensures Lookup(Signed(input, hash), "integrityHash") == Str(hash)
  {
    hide Lookup, ApplyDisclosureScope;
    FirstRead(Signed(input, hash), "integrityHash", 9);
  }

  lemma {:induction false} ReadPackage(input: PackageInput, hash: string)
    ensures var pkg := Obj(Unsigned(input).fields + [Field("integrityHash", Str(hash))]);
            && Get(pkg, "schemaVersion") == Str("1.0") && Get(pkg, "packageId") == Str(input.packageId)
            && Get(pkg, "payroll") == input.payroll && Get(pkg, "disclosureScope") == input.scope
            && Get(pkg, "commitments") == Arr(ApplyDisclosureScope(input.commitments, input.scope))
            && Get(pkg, "proofReferences") == Arr(input.proofs) && Get(pkg, "verificationKeys") == Arr(input.keys)
            && Get(pkg, "integrityHash") == Str(hash)
            && WithoutHash(pkg) == WithoutHash(Unsigned(input))
  {
    hide Lookup, DropHash, ApplyDisclosureScope;
    ReadHeader(input, hash);
    ReadLists(input, hash);
    ReadHash(input, hash);
    DropLast(Unsigned(input).fields, Field("integrityHash", Str(hash)));
  }

  lemma {:induction false} DropLast(fields: seq<Field>, last: Field)
    requires last.key == "integrityHash"
    ensures DropHash(fields + [last]) == DropHash(fields)
  {
    if fields == [] {
      assert [] + [last] == [last];
    } else {
      DropLast(fields[1..], last);
      assert (fields + [last])[1..] == fields[1..] + [last];
    }
  }

  /**
   * A created package verifies at exactly the times before its scope expires, whatever time it was created at,
   * provided its digest is not the empty text.
   */
  lemma {:induction false} CreatedVerifies(platform: Platform, input: PackageInput, created: real, now: real)
    ensures Create(platform, input, created).Ok? ==>
              var pkg := Create(platform, input, created).value;
              Verify(platform, pkg, now) ==
              BlankHash(IntegrityHash(platform, Unsigned(input))) + if Expired(input.scope, now) then [ScopeExpired] else []
  {
    hide Get, ShapeErrors, Canon, DropHash, Expired;
    CreatedShape(platform, input, created, now);
    ReadPackage(input, IntegrityHash(platform, Unsigned(input)));
    if Create(platform, input, created).Ok? {
      var pkg := Create(platform, input, created).value;
      assert WithoutHash(pkg) == WithoutHash(Unsigned(input));
      assert IntegrityHash(platform, pkg) == IntegrityHash(platform, Unsigned(input));
      hide WithoutHash, Unsigned, IntegrityHash, Create;
      assert Get(pkg, "integrityHash") == Str(IntegrityHash(platform, pkg));
    }
  }

  lemma {:induction false} DropHashStorable(platform: Platform, fields: seq<Field>)
    requires platform.Storable(Obj(fields))
    ensures platform.Storable(Obj(DropHash(fields)))
  {
    forall i | 0 <= i < |DropHash(fields)|
      ensures DropHash(fields)[i].value == Undefined || platform.Storable(DropHash(fields)[i].value)
    {
      DropHashElements(fields, DropHash(fields)[i]);
    }
  }

  /** Texts that parse back faithfully are equal only for the same content. */
  lemma {:induction false} TextBindsContent(platform: Platform, a: Json, b: Json)
    requires platform.Faithful() && Wf(a) && Wf(b) && a.Obj? && b.Obj? && platform.Storable(a) && platform.Storable(b)
    ensures platform.HashedText(a) == platform.HashedText(b) <==> Same(WithoutHash(a), WithoutHash(b))
  {
    DropHashStorable(platform, a.fields);
    DropHashStorable(platform, b.fields);
    DropHashWf(a.fields);
    DropHashWf(b.fields);
    CanonIffSame(WithoutHash(a), WithoutHash(b));
  }

  /** Packages whose hash is right carry the same hash exactly when they hold the same content, or their texts collide. */
  lemma {:induction false} HashBindsContent(platform: Platform, a: Json, b: Json)
    requires platform.Faithful() && Wf(a) && Wf(b) && a.Obj? && b.Obj? && platform.Storable(a) && platform.Storable(b)
    ensures IntegrityHash(platform, a) == IntegrityHash(platform, b) <==>
            Same(WithoutHash(a), WithoutHash(b)) || platform.Collide(platform.HashedText(a), platform.HashedText(b))
  {
    hide Same, Canon, Wf;
    TextBindsContent(platform, a, b);
  }

  /** Of accepted packages this is said of the hashes they carry. */
  lemma {:induction false} AcceptedHashesBind(platform: Platform, a: Json, b: Json, now: real)
    requires platform.Faithful() && Wf(a) && Wf(b) && a.Obj? && b.Obj? && platform.Storable(a) && platform.Storable(b)
    ensures Verify(platform, a, now) == [] && Verify(platform, b, now) == [] ==>
              (Get(a, "integrityHash") == Get(b, "integrityHash") <==>
               Same(WithoutHash(a), WithoutHash(b)) || platform.Collide(platform.HashedText(a), platform.HashedText(b)))
  {
    hide ShapeErrors, Get, Same, Canon, Wf, IntegrityHash, WithoutHash;
    HashBindsContent(platform, a, b);
    if Verify(platform, a, now) == [] && Verify(platform, b, now) == [] {
      AcceptedHash(platform, a, now);
      AcceptedHash(platform, b, now);
    }
  }

  lemma {:induction false} AcceptedHash(platform: Platform, pkg: Json, now: real)
    ensures Verify(platform, pkg, now) == [] ==> Get(pkg, "integrityHash") == Str(IntegrityHash(platform, pkg))
  {
    hide ShapeErrors, Get, IntegrityHash;
  }

  /** The disclosed commitments: only allowed ones, all of them, as often and in the order given. */
  lemma {:induction false} DisclosureIsExact(commitments: seq<Json>, scope: Json, c: Json)
    ensures multiset(ApplyDisclosureScope(commitments, scope))[c] == if Disclosed(scope, c) then multiset(commitments)[c] else 0
    ensures ApplyDisclosureScope(ApplyDisclosureScope(commitments, scope), scope) == ApplyDisclosureScope(commitments, scope)
  {
    hide Disclosed;
    DisclosureIdempotent(commitments, scope);
    if commitments != [] {
      DisclosureIsExact(commitments[1..], scope, c);
      assert commitments == [commitments[0]] + commitments[1..];
    }
  }

  lemma {:induction false} DisclosureIdempotent(commitments: seq<Json>, scope: Json)
    ensures ApplyDisclosureScope(ApplyDisclosureScope(commitments, scope), scope) == ApplyDisclosureScope(commitments, scope)
  {
    hide Disclosed;
    if commitments != [] {
      var rest := ApplyDisclosureScope(commitments[1..], scope);
      DisclosureIdempotent(commitments[1..], scope);
      if Disclosed(scope, commitments[0]) {
        assert ([commitments[0]] + rest)[1..] == rest;
      } else {
        assert ApplyDisclosureScope(commitments, scope) == rest;
      }
    }
  }

  // ----- what a scope discloses -----

  /** The named field of a commitment is an element of the list. */
  function ListedUnder(key: string, ids: seq<Json>): Json -> bool {
    (c: Json) => Get(c, key) in ids
  }

  /** The same of the department, which a commitment may leave undefined. */
  function DepartmentListed(ids: seq<Json>): Json -> bool {
    (c: Json) => Get(c, "departmentId") != Undefined && Get(c, "departmentId") in ids
  }

  lemma {:induction false} DisclosureIsFilter(commitments: seq<Json>, scope: Json, p: Json -> bool)
    requires forall c :: c in commitments ==> (Disclosed(scope, c) <==> p(c))
    ensures ApplyDisclosureScope(commitments, scope) == Filter(p, commitments)
  {
    hide Disclosed;
    if commitments != [] {
      assert commitments[0] in commitments;
      DisclosureIsFilter(commitments[1..], scope, p);
    }
  }

  lemma {:induction false} AllDisclosed(commitments: seq<Json>, scope: Json)
    requires forall c :: c in commitments ==> Disclosed(scope, c)
    ensures ApplyDisclosureScope(commitments, scope) == commitments
  {
    hide Disclosed;
    if commitments != [] {
      assert commitments[0] in commitments;
      AllDisclosed(commitments[1..], scope);
    }
  }

  /**
   * What each scope discloses: the commitments whose employee, period or defined department is in the scope's list, in
   * the order given; every commitment where the scope has another type or no list.
   */
  lemma {:induction false} ScopeDiscloses(commitments: seq<Json>, scope: Json)
    ensures var kind, r := Get(scope, "type"), ApplyDisclosureScope(commitments, scope);
            var employees, periods, departments := Get(scope, "employeeIds"), Get(scope, "payrollPeriodIds"), Get(scope, "departmentIds");
            if kind == Str("employee_subset") && employees.Arr? then r == Filter(ListedUnder("employeeId", employees.items), commitments)
            else if kind == Str("payroll_period") && periods.Arr? then r == Filter(ListedUnder("payrollPeriodId", periods.items), commitments)
            else if kind == Str("department") && departments.Arr? then
              r == Filter(DepartmentListed(departments.items), commitments)
            else r == commitments
  {
    hide Get, Filter, ApplyDisclosureScope;
    var kind, employees, periods := Get(scope, "type"), Get(scope, "employeeIds"), Get(scope, "payrollPeriodIds");
    var departments := Get(scope, "departmentIds");
    if kind == Str("employee_subset") && employees.Arr? {
      DisclosureIsFilter(commitments, scope, ListedUnder("employeeId", employees.items));
    } else if kind == Str("payroll_period") && periods.Arr? {
      DisclosureIsFilter(commitments, scope, ListedUnder("payrollPeriodId", periods.items));
    } else if kind == Str("department") && departments.Arr? {
      DisclosureIsFilter(commitments, scope, DepartmentListed(departments.items));
    } else {
      AllDisclosed(commitments, scope);
    }
  }

  /** The commitments of a created package: those of the input that its scope lists, and no other. */
  lemma {:induction false} CreatedDiscloses(platform: Platform, input: PackageInput, created: real, c: Json)
    ensures Create(platform, input, created).Ok? ==>
              var kind, listed := Get(input.scope, "type"), Get(Create(platform, input, created).value, "commitments");
              var employees, periods, departments :=
                Get(input.scope, "employeeIds"), Get(input.scope, "payrollPeriodIds"), Get(input.scope, "departmentIds");
              && listed.Arr?
              && (c in listed.items <==>
                  && c in input.commitments
                  && (kind == Str("employee_subset") && employees.Arr? ==> Get(c, "employeeId") in employees.items)
                  && (kind == Str("payroll_period") && periods.Arr? ==> Get(c, "payrollPeriodId") in periods.items)
                  && (kind == Str("department") && departments.Arr? ==>
                        Get(c, "departmentId") != Undefined && Get(c, "departmentId") in departments.items))
  {
    hide Get, Filter, ApplyDisclosureScope, Disclosed, ShapeErrors, IntegrityHash, WithoutHash;
    ReadPackage(input, IntegrityHash(platform, Unsigned(input)));
    hide Unsigned;
    ScopeDiscloses(input.commitments, input.scope);
    var employees, periods, departments := Get(input.scope, "employeeIds"), Get(input.scope, "payrollPeriodIds"), Get(input.scope, "departmentIds");
    if employees.Arr? {
      FilterMember(ListedUnder("employeeId", employees.items), input.commitments, c);
    }
    if periods.Arr? {
      FilterMember(ListedUnder("payrollPeriodId", periods.items), input.commitments, c);
    }
    if departments.Arr? {
      FilterMember(DepartmentListed(departments.items), input.commitments, c);
    }
  }

  // ----- what the shape errors say -----

  /** The check an error stands for, and the reference it is about: errors are listed in this order. */
  function Place(e: ShapeError): (nat, nat) {
    match e
    case PackageIdMissing => (0, 0)
    case BadSchemaVersion => (1, 0)
    case CompanyIdMissing => (2, 0)
    case PayrollRunIdMissing => (3, 0)
    case PayrollPeriodIdMissing => (4, 0)
    case ScopeTypeMissing => (5, 0)
    case IntegrityHashMissing => (6, 0)
    case ScopeExpired => (7, 0)
    case ScopeMalformed => (8, 0)
    case ProofIncomplete(i) => (9, 2 * i)
    case VerificationKeyMissing(i) => (9, 2 * i + 1)
    case CommitmentIncomplete(i) => (10, i)
    case NoProofs => (11, 0)
    case HashMismatch => (12, 0)
  }

  predicate Precedes(x: ShapeError, y: ShapeError) {
    Place(x).0 < Place(y).0 || (Place(x).0 == Place(y).0 && Place(x).1 < Place(y).1)
  }

  /** Every error once, in the order of the checks. */
  predicate InOrder(errors: seq<ShapeError>) {
    forall i, j :: 0 <= i < j < |errors| ==> Precedes(errors[i], errors[j])
  }

  /** A list in order that ends no later than `e`. */
  predicate UpTo(errors: seq<ShapeError>, e: ShapeError) {
    InOrder(errors) && forall i :: 0 <= i < |errors| ==> errors[i] == e || Precedes(errors[i], e)
  }

  /** What is wrong with the fields of a package outside its lists. */
  predicate HeaderFault(pkg: Json, allowBlankHash: bool, now: real, e: ShapeError) {
    var payroll, scope := Get(pkg, "payroll"), Get(pkg, "disclosureScope");
    match e
    case PackageIdMissing => !Truthy(Get(pkg, "packageId"))
    case BadSchemaVersion => Get(pkg, "schemaVersion") != Str("1.0")
    case CompanyIdMissing => !Truthy(Get(payroll, "companyId"))
    case PayrollRunIdMissing => !Truthy(Get(payroll, "payrollRunId"))
    case PayrollPeriodIdMissing => !Truthy(Get(payroll, "payrollPeriodId"))
    case ScopeTypeMissing => !Truthy(Get(scope, "type"))
    case IntegrityHashMissing => !allowBlankHash && !Truthy(Get(pkg, "integrityHash"))
    case ScopeExpired => Get(scope, "expiresAt").Num? && Get(scope, "expiresAt").n <= now
    case ScopeMalformed => !Serves(scope)
    case _ => false
  }

  /** A scope names its employees, its periods, its departments or its reason, whichever its type asks for. */
  predicate Serves(scope: Json) {
    || (Get(scope, "type") == Str("employee_subset") && Items(Get(scope, "employeeIds")) != [])
    || (Get(scope, "type") == Str("payroll_period") && Items(Get(scope, "payrollPeriodIds")) != [])
    || (Get(scope, "type") == Str("department") && Items(Get(scope, "departmentIds")) != [])
    || (Get(scope, "type") == Str("reason") && Truthy(Get(scope, "reason")))
  }

  /** The errors found by the checks so far, `last` being the latest: those that are faults, in order. */
  ghost predicate Found(errors: seq<ShapeError>, last: ShapeError, fault: ShapeError -> bool) {
    && UpTo(errors, last)
    && forall x :: x in errors <==> fault(x) && (x == last || Precedes(x, last))
  }

  lemma {:induction false} FirstCheck(ok: bool, fault: ShapeError -> bool)
    requires ok <==> !fault(PackageIdMissing)
    ensures Found(Check(ok, PackageIdMissing), PackageIdMissing, fault)
  {
  }

  lemma {:induction false} NextCheck(errors: seq<ShapeError>, e: ShapeError, ok: bool, f: ShapeError,
                                     fault: ShapeError -> bool)
    requires Found(errors, e, fault) && Place(f) == (Place(e).0 + 1, 0) && Place(f).0 <= 8 && (ok <==> !fault(f))
    ensures Found(errors + Check(ok, f), f, fault)
  {
    var longer := errors + Check(ok, f);
    forall x ensures x in longer <==> fault(x) && (x == f || Precedes(x, f)) {
      assert x in longer <==> x in errors || (x == f && !ok);
    }
  }

  lemma {:induction false} ScopeFaults(scope: Json, now: real)
    ensures ScopeWellFormed(scope) <==> Serves(scope)
    ensures Expired(scope, now) <==> Get(scope, "expiresAt").Num? && Get(scope, "expiresAt").n <= now
  {
    hide Get, Truthy;
  }

  function HeaderFaults(pkg: Json, allowBlankHash: bool, now: real): ShapeError -> bool {
    e => HeaderFault(pkg, allowBlankHash, now, e)
  }

  lemma {:induction false} IdentityExactly(pkg: Json, allowBlankHash: bool, now: real)
    ensures Found(IdentityErrors(pkg) + PayrollErrors(Get(pkg, "payroll")), PayrollPeriodIdMissing, HeaderFaults(pkg, allowBlankHash, now))
  {
    var payroll, fault := Get(pkg, "payroll"), HeaderFaults(pkg, allowBlankHash, now);
    var packageId, schema := Truthy(Get(pkg, "packageId")), Get(pkg, "schemaVersion") == Str("1.0");
    var company, run := Truthy(Get(payroll, "companyId")), Truthy(Get(payroll, "payrollRunId"));
    var period := Truthy(Get(payroll, "payrollPeriodId"));
    assert packageId == !fault(PackageIdMissing) && schema == !fault(BadSchemaVersion) && company == !fault(CompanyIdMissing)
           && run == !fault(PayrollRunIdMissing) && period == !fault(PayrollPeriodIdMissing);
    IdentitySteps(packageId, schema, company, run, period, fault);
  }

  lemma {:induction false} IdentitySteps(packageId: bool, schema: bool, company: bool, run: bool, period: bool,
                                         fault: ShapeError -> bool)
    requires packageId == !fault(PackageIdMissing) && schema == !fault(BadSchemaVersion) && company == !fault(CompanyIdMissing)
    requires run == !fault(PayrollRunIdMissing) && period == !fault(PayrollPeriodIdMissing)
    ensures var identity := Check(packageId, PackageIdMissing) + Check(schema, BadSchemaVersion);
            var payroll := Check(company, CompanyIdMissing) + Check(run, PayrollRunIdMissing) + Check(period, PayrollPeriodIdMissing);
            Found(identity + payroll, PayrollPeriodIdMissing, fault)
  {
    hide Check, Found;
    var e0 := Check(packageId, PackageIdMissing);
    FirstCheck(packageId, fault);
    NextCheck(e0, PackageIdMissing, schema, BadSchemaVersion, fault);
    var e1 := e0 + Check(schema, BadSchemaVersion);
    NextCheck(e1, BadSchemaVersion, company, CompanyIdMissing, fault);
    var e2 := e1 + Check(company, CompanyIdMissing);
    NextCheck(e2, CompanyIdMissing, run, PayrollRunIdMissing, fault);
    var e3 := e2 + Check(run, PayrollRunIdMissing);
    NextCheck(e3, PayrollRunIdMissing, period, PayrollPeriodIdMissing, fault);
    assert e3 + Check(period, PayrollPeriodIdMissing)
           == e1 + (Check(company, CompanyIdMissing) + Check(run, PayrollRunIdMissing) + Check(period, PayrollPeriodIdMissing));
  }

  lemma {:induction false} ScopeSteps(e4: seq<ShapeError>, kind: bool, hash: bool, expiry: bool, form: bool,
                                      fault: ShapeError -> bool)
    requires Found(e4, PayrollPeriodIdMissing, fault)
    requires kind == !fault(ScopeTypeMissing) && hash == !fault(IntegrityHashMissing)
    requires expiry == !fault(ScopeExpired) && form == !fault(ScopeMalformed)
    ensures Found(e4 + Check(kind, ScopeTypeMissing) + Check(hash, IntegrityHashMissing) + Check(expiry, ScopeExpired)
                  + Check(form, ScopeMalformed), ScopeMalformed, fault)
  {
    hide Check, Found;
    NextCheck(e4, PayrollPeriodIdMissing, kind, ScopeTypeMissing, fault);
    var e5 := e4 + Check(kind, ScopeTypeMissing);
    NextCheck(e5, ScopeTypeMissing, hash, IntegrityHashMissing, fault);
    var e6 := e5 + Check(hash, IntegrityHashMissing);
    NextCheck(e6, IntegrityHashMissing, expiry, ScopeExpired, fault);
    NextCheck(e6 + Check(expiry, ScopeExpired), ScopeExpired, form, ScopeMalformed, fault);
  }

  /** The errors outside the lists, in the order of the checks. */
  lemma {:induction false} HeaderExactly(pkg: Json, allowBlankHash: bool, now: real)
    ensures Found(HeaderErrors(pkg, allowBlankHash, now), ScopeMalformed, HeaderFaults(pkg, allowBlankHash, now))
  {
    hide Get, Truthy, Check, Found, ScopeWellFormed, Serves, Expired, IdentityErrors, PayrollErrors;
    var scope, fault := Get(pkg, "disclosureScope"), HeaderFaults(pkg, allowBlankHash, now);
    ScopeFaults(scope, now);
    IdentityExactly(pkg, allowBlankHash, now);
    var kind, hash := Truthy(Get(scope, "type")), allowBlankHash || Truthy(Get(pkg, "integrityHash"));
    var expiry, form := !Expired(scope, now), ScopeWellFormed(scope);
    assert kind == !fault(ScopeTypeMissing) && hash == !fault(IntegrityHashMissing) && expiry == !fault(ScopeExpired)
           && form == !fault(ScopeMalformed);
    ScopeSteps(IdentityErrors(pkg) + PayrollErrors(Get(pkg, "payroll")), kind, hash, expiry, form, fault);
  }

  /** What is wrong with the i-th proof reference, for a package with these keys. */
  predicate ProofFault(proofs: seq<Json>, keys: seq<Json>, e: ShapeError) {
    match e
    case ProofIncomplete(i) =>
      i < |proofs| && !(Truthy(Get(proofs[i], "id")) && Truthy(Get(proofs[i], "proofHash"))
                        && Truthy(Get(proofs[i], "publicInputHash")) && Truthy(Get(proofs[i], "circuitId")))
    case VerificationKeyMissing(i) =>
      i < |proofs| && forall k :: 0 <= k < |keys| ==> Get(keys[k], "id") != Get(proofs[i], "verificationKeyId")
    case _ => false
  }

  predicate CommitmentFault(commitments: seq<Json>, e: ShapeError) {
    e.CommitmentIncomplete? && e.index < |commitments|
    && !(Truthy(Get(commitments[e.index], "id")) && Truthy(Get(commitments[e.index], "employeeId"))
         && Truthy(Get(commitments[e.index], "commitmentHash")))
  }

  predicate PackageFault(pkg: Json, allowBlankHash: bool, now: real, e: ShapeError) {
    || HeaderFault(pkg, allowBlankHash, now, e)
    || ProofFault(Items(Get(pkg, "proofReferences")), Items(Get(pkg, "verificationKeys")), e)
    || CommitmentFault(Items(Get(pkg, "commitments")), e)
    || (e == NoProofs && Items(Get(pkg, "proofReferences")) == [])
  }

  lemma {:induction false} KeyMissing(keys: seq<Json>, id: Json)
    ensures id !in KeyIds(keys) <==> forall k :: 0 <= k < |keys| ==> Get(keys[k], "id") != id
  {
    if k :| 0 <= k < |keys| && Get(keys[k], "id") == id {
      assert keys[k] in keys;
    }
  }

  lemma {:induction false} CheckAppended(errors: seq<ShapeError>, ok: bool, e: ShapeError)
    requires InOrder(errors) && forall x :: x in errors ==> Precedes(x, e)
    ensures InOrder(errors + Check(ok, e))
    ensures forall x :: x in errors + Check(ok, e) <==> x in errors || (x == e && !ok)
  {
  }

  lemma {:induction false} ProofFaultHere(proofs: seq<Json>, keys: seq<Json>, i: nat)
    requires i < |proofs|
    ensures ProofFault(proofs, keys, ProofIncomplete(i)) == !ProofComplete(proofs[i])
    ensures ProofFault(proofs, keys, VerificationKeyMissing(i)) == (Get(proofs[i], "verificationKeyId") !in KeyIds(keys))
  {
    hide Get, Truthy, KeyIds;
    KeyMissing(keys, Get(proofs[i], "verificationKeyId"));
  }

  predicate AboutProof(e: ShapeError, n: nat) {
    (e.ProofIncomplete? || e.VerificationKeyMissing?) && e.index < n
  }

  lemma {:induction false} ProofErrorsOrdered(proofs: seq<Json>, keyIds: set<Json>, n: nat)
    requires n <= |proofs|
    ensures var errors := ProofErrors(proofs, keyIds, n);
            InOrder(errors) && forall e :: e in errors ==> AboutProof(e, n)
  {
    hide Get, InOrder, ProofComplete, Check;
    if n > 0 {
      ProofErrorsOrdered(proofs, keyIds, n - 1);
      var earlier, complete := ProofErrors(proofs, keyIds, n - 1), ProofComplete(proofs[n - 1]);
      CheckAppended(earlier, complete, ProofIncomplete(n - 1));
      CheckAppended(earlier + Check(complete, ProofIncomplete(n - 1)), Get(proofs[n - 1], "verificationKeyId") in keyIds,
                    VerificationKeyMissing(n - 1));
    } else {
      NoErrors();
    }
  }

  lemma {:induction false} ProofErrorsExactly(proofs: seq<Json>, keys: seq<Json>, n: nat, e: ShapeError)
    requires n <= |proofs|
    ensures e in ProofErrors(proofs, KeyIds(keys), n) <==> ProofFault(proofs, keys, e) && AboutProof(e, n)
  {
    hide Get, KeyIds, ProofComplete;
    if n > 0 {
      ProofErrorsExactly(proofs, keys, n - 1, e);
      ProofFaultHere(proofs, keys, n - 1);
      hide ProofFault;
    }
  }

  lemma {:induction false} NoErrors()
    ensures InOrder([])
  {
  }

  predicate AboutCommitment(e: ShapeError, n: nat) {
    e.CommitmentIncomplete? && e.index < n
  }

  lemma {:induction false} CommitmentErrorsOrdered(commitments: seq<Json>, n: nat)
    requires n <= |commitments|
    ensures var errors := CommitmentErrors(commitments, n);
            InOrder(errors) && forall e :: e in errors ==> AboutCommitment(e, n)
  {
    hide Get, InOrder, CommitmentComplete, Check;
    if n > 0 {
      CommitmentErrorsOrdered(commitments, n - 1);
      CheckAppended(CommitmentErrors(commitments, n - 1), CommitmentComplete(commitments[n - 1]), CommitmentIncomplete(n - 1));
    } else {
      NoErrors();
    }
  }

  lemma {:induction false} CommitmentErrorsExactly(commitments: seq<Json>, n: nat, e: ShapeError)
    requires n <= |commitments|
    ensures e in CommitmentErrors(commitments, n) <==> CommitmentFault(commitments, e) && AboutCommitment(e, n)
  {
    hide Get, Truthy;
    if n > 0 {
      CommitmentErrorsExactly(commitments, n - 1, e);
    }
  }

  lemma {:induction false} InOrderConcat(a: seq<ShapeError>, b: seq<ShapeError>)
    requires InOrder(a) && InOrder(b) && forall x, y :: x in a && y in b ==> Place(x).0 < Place(y).0
    ensures InOrder(a + b)
  {
    hide Place;
  }

  /** The shape errors of a package are its faults, each once and in the order of the checks. */
  lemma {:induction false} ShapeErrorsExactly(pkg: Json, allowBlankHash: bool, now: real, e: ShapeError)
    ensures var errors := ShapeErrors(pkg, allowBlankHash, now);
            InOrder(errors) && (e in errors <==> PackageFault(pkg, allowBlankHash, now, e))
  {
    hide Get, HeaderErrors, ProofErrors, CommitmentErrors, KeyIds, HeaderFault, InOrder, Truthy, Check, Items, UpTo, Precedes;
    var proofs, keys, commitments := Items(Get(pkg, "proofReferences")), Items(Get(pkg, "verificationKeys")), Items(Get(pkg, "commitments"));
    HeaderOrdered(pkg, allowBlankHash, now, e);
    ProofErrorsOrdered(proofs, KeyIds(keys), |proofs|);
    ProofErrorsExactly(proofs, keys, |proofs|, e);
    CommitmentErrorsOrdered(commitments, |commitments|);
    CommitmentErrorsExactly(commitments, |commitments|, e);
    var header, proof := HeaderErrors(pkg, allowBlankHash, now), ProofErrors(proofs, KeyIds(keys), |proofs|);
    var commitment := CommitmentErrors(commitments, |commitments|);
    ErrorsJoined(header, proof, commitment, |proofs| > 0);
  }

  lemma {:induction false} HeaderOrdered(pkg: Json, allowBlankHash: bool, now: real, e: ShapeError)
    ensures var errors := HeaderErrors(pkg, allowBlankHash, now);
            && InOrder(errors) && (forall x :: x in errors ==> Place(x).0 <= 8)
            && (e in errors <==> HeaderFault(pkg, allowBlankHash, now, e))
  {
    hide Get, HeaderErrors, Truthy, Serves;
    HeaderExactly(pkg, allowBlankHash, now);
  }

  lemma {:induction false} ErrorsJoined(header: seq<ShapeError>, proof: seq<ShapeError>, commitment: seq<ShapeError>,
                                        proved: bool)
    requires InOrder(header) && InOrder(proof) && InOrder(commitment)
    requires (forall x :: x in header ==> Place(x).0 <= 8) && (forall x :: x in proof ==> Place(x).0 == 9)
    requires forall x :: x in commitment ==> Place(x).0 == 10
    ensures var errors := header + proof + commitment + Check(proved, NoProofs);
            InOrder(errors) && forall x :: x in errors <==> x in header || x in proof || x in commitment || (x == NoProofs && !proved)
  {
    hide InOrder, Check;
    InOrderConcat(header, proof);
    InOrderConcat(header + proof, commitment);
    CheckAppended(header + proof + commitment, proved, NoProofs);
  }

  /** Verification adds one error, for a hash that is not the digest of the canonical text. */
  lemma {:induction false} VerifyExactly(platform: Platform, pkg: Json, now: real, e: ShapeError)
    ensures var errors := Verify(platform, pkg, now);
            && InOrder(errors)
            && (e in errors <==>
                  || PackageFault(pkg, false, now, e)
                  || (e == HashMismatch && Get(pkg, "integrityHash") != Str(platform.digest(platform.HashedText(pkg)))))
  {
    hide Get, ShapeErrors, PackageFault, InOrder, HeaderFault;
    forall x ensures x in ShapeErrors(pkg, false, now) ==> Place(x).0 < 12 {
      ShapeErrorsExactly(pkg, false, now, x);
      FaultPlaces(pkg, false, now, x);
    }
    ShapeErrorsExactly(pkg, false, now, e);
    CheckAppended(ShapeErrors(pkg, false, now), Str(IntegrityHash(platform, pkg)) == Get(pkg, "integrityHash"), HashMismatch);
  }

  lemma {:induction false} FaultPlaces(pkg: Json, allowBlankHash: bool, now: real, e: ShapeError)
    ensures PackageFault(pkg, allowBlankHash, now, e) ==> Place(e).0 < 12
  {
    hide Get, Truthy;
  }

  /** What counts as missing in a required field: nothing, `null`, `false`, zero and the empty text. */
  lemma {:induction false} TruthyExactly(v: Json)
    ensures Truthy(v) <==> v != Undefined && v != Null && v != Bool(false) && v != Num(0.0) && v != Str("")
  {
  }

  /** A package is created unless it would have a fault while its hash is blank; then the faults are reported. */
  lemma {:induction false} CreateExactly(platform: Platform, input: PackageInput, created: real, e: ShapeError)
    ensures var blank, r := Obj(Signed(input, "")), Create(platform, input, created);
            && (r.Err? ==> InOrder(r.error) && (e in r.error <==> PackageFault(blank, true, created, e)))
            && (r.Ok? <==> forall x :: !PackageFault(blank, true, created, x))
  {
    hide PackageFault, ShapeErrors, IntegrityHash, InOrder;
    var blank := Obj(Signed(input, ""));
    ShapeErrorsExactly(blank, true, created, e);
    forall x ensures x in ShapeErrors(blank, true, created) <==> PackageFault(blank, true, created, x) {
      ShapeErrorsExactly(blank, true, created, x);
    }
    EmptyOrMember(ShapeErrors(blank, true, created));
  }

  /** What a created package holds besides its commitments. */
  lemma {:induction false} CreatedHolds(platform: Platform, input: PackageInput, created: real)
    ensures Create(platform, input, created).Ok? ==>
              var pkg := Create(platform, input, created).value;
              && Get(pkg, "schemaVersion") == Str("1.0") && Get(pkg, "packageId") == Str(input.packageId)
              && Get(pkg, "payroll") == input.payroll && Get(pkg, "disclosureScope") == input.scope
              && Get(pkg, "proofReferences") == Arr(input.proofs) && Get(pkg, "verificationKeys") == Arr(input.keys)
              && Get(pkg, "artifactManifestHash") == input.manifestHash && Get(pkg, "metadata") == input.metadata
              && Get(pkg, "integrityHash") == Str(platform.digest(platform.HashedText(pkg)))
  {
    hide Lookup, ApplyDisclosureScope, ShapeErrors, DropHash;
    var hash := IntegrityHash(platform, Unsigned(input));
    ReadPackage(input, hash);
    ReadRest(input, hash);
  }

  lemma {:induction false} ReadRest(input: PackageInput, hash: string)
    ensures var fields := Signed(input, hash);
            Lookup(fields, "artifactManifestHash") == input.manifestHash && Lookup(fields, "metadata") == input.metadata
  {
    hide Lookup, ApplyDisclosureScope;
    var fields := Signed(input, hash);
    FirstRead(fields, "artifactManifestHash", 7);
    FirstRead(fields, "metadata", 8);
  }
}
