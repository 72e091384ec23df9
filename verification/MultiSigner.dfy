/** The multi-signer approval protocol: the coordinator, and all runs of its operations. */
module MultiSigner {
  import opened Prelude
  import opened Text

  datatype Role = PayrollAdmin | TreasuryOperator | ComplianceReviewer | EmergencyApprover

  datatype SignerState = Pending | Signed | Rejected | Revoked

  datatype Signer = Signer(address: string, role: Role, state: SignerState, signedAt: Option<int>, rejectedAt: Option<int>)

  datatype Policy = Unanimous | Threshold(threshold: Option<int>) | Weighted(weights: Option<map<Role, real>>)

  datatype Request = Request(operationId: string, policy: Policy, signers: seq<Signer>, createdAt: int, expiresAt: int)

  /** Stored requests, and the nonces used under each `requestId:address` key. */
  datatype State = State(requests: map<string, Request>, history: map<string, set<string>>)

  datatype Error = NotFound | RoleNotRequired | RoleTaken | Expired | SignerNotFound | AlreadyDecided | DuplicateNonce

  /** A call on the coordinator; `checked` and `recorded` are its two successive clock readings. */
  datatype Op =
    | Create(id: string, operationId: string, policy: Policy, roles: seq<Role>, now: int, expiryMs: int)
    | AddSigner(id: string, address: string, role: Role)
    | Sign(id: string, nonce: string, role: Role, address: string, checked: int, recorded: int)
    | Reject(id: string, address: string, checked: int, recorded: int)
    | Revoke(id: string, address: string)

  function HistoryKey(id: string, address: string): string {
    id + ":" + address
  }

  /** An absent (zero) expiry never passes. */
  predicate IsExpired(r: Request, now: int) {
    r.expiresAt != 0 && now > r.expiresAt
  }

  predicate Fits(x: Signer, address: Option<string>, role: Option<Role>) {
    (address.Some? ==> x.address == address.value) && (role.Some? ==> x.role == role.value)
  }

  /** Index of the first signer with the given address and role, where either may be left open. */
  function FindSigner(signers: seq<Signer>, address: Option<string>, role: Option<Role>,
                      from: nat := 0): (r: Option<nat>)
    requires from <= |signers|
    ensures r.Some? ==> from <= r.value < |signers| && Fits(signers[r.value], address, role)
    ensures r.Some? ==> forall j :: from <= j < r.value ==> !Fits(signers[j], address, role)
    ensures r.None? ==> forall j :: from <= j < |signers| ==> !Fits(signers[j], address, role)
    decreases |signers| - from
  {
    if from == |signers| then None
    else if Fits(signers[from], address, role) then Some(from)
    else FindSigner(signers, address, role, from + 1)
  }

  function SetSigner(s: State, id: string, i: nat, signer: Signer): State
    requires id in s.requests && i < |s.requests[id].signers|
  {
    s.(requests := s.requests[id := s.requests[id].(signers := s.requests[id].signers[i := signer])])
  }

  function UsedNonces(s: State, key: string): set<string> {
    if key in s.history then s.history[key] else {}
  }

  function NewSigners(roles: seq<Role>): (r: seq<Signer>)
    ensures |r| == |roles| && forall i :: 0 <= i < |roles| ==> r[i] == Signer("", roles[i], Pending, None, None)
  {
    seq(|roles|, i requires 0 <= i < |roles| => Signer("", roles[i], Pending, None, None))
  }

  function Apply(s: State, op: Op): Result<State, Error> {
    if op.Create? then
      Ok(s.(requests := s.requests[op.id := Request(op.operationId, op.policy, NewSigners(op.roles), op.now, op.now + op.expiryMs)]))
    else if op.id !in s.requests then Err(NotFound)
    else
      var request := s.requests[op.id];
      match op
      case AddSigner(id, address, role) =>
        (match FindSigner(request.signers, None, Some(role))
         case None => Err(RoleNotRequired)
         case Some(i) =>
           var signer := request.signers[i];
           if signer.address != "" && signer.address != address then Err(RoleTaken)
           else Ok(SetSigner(s, id, i, signer.(address := address))))
      case Sign(id, nonce, role, address, checked, recorded) =>
        if IsExpired(request, checked) then Err(Expired)
        else
          (match FindSigner(request.signers, Some(address), Some(role))
           case None => Err(SignerNotFound)
           case Some(i) =>
             var signer, key := request.signers[i], HistoryKey(id, address);
             if signer.state != Pending then Err(AlreadyDecided)
             else if nonce in UsedNonces(s, key) then Err(DuplicateNonce)
             else
               Ok(SetSigner(s, id, i, signer.(state := Signed, signedAt := Some(recorded)))
                  .(history := s.history[key := UsedNonces(s, key) + {nonce}])))
      case Reject(id, address, checked, recorded) =>
        if IsExpired(request, checked) then Err(Expired)
        else
          (match FindSigner(request.signers, Some(address), None)
           case None => Err(SignerNotFound)
           case Some(i) =>
             var signer := request.signers[i];
             if signer.state != Pending then Err(AlreadyDecided)
             else Ok(SetSigner(s, id, i, signer.(state := Rejected, rejectedAt := Some(recorded)))))
      case Revoke(id, address) =>
        (match FindSigner(request.signers, Some(address), None)
         case None => Err(SignerNotFound)
         case Some(i) => Ok(SetSigner(s, id, i, request.signers[i].(state := Revoked))))
  }

  /** A refused call changes nothing. */
  function After(s: State, op: Op): State {
    match Apply(s, op) case Ok(t) => t case Err(_) => s
  }

  /** What a refused call reports. */
  function Refusal(s: State, op: Op): Option<Error> {
    match Apply(s, op) case Ok(_) => None case Err(e) => Some(e)
  }

  function Run(s: State, ops: seq<Op>): State {
    if ops == [] then s else After(Run(s, ops[..|ops| - 1]), ops[|ops| - 1])
  }

  const INITIAL := State(map[], map[])

  class MultiSignerCoordinator {
    const maxExpiryMs: int
    var requests: map<string, Request>
    var signerHistory: map<string, set<string>>

    ghost function View(): State
      reads this
    {
      State(requests, signerHistory)
    }

    constructor (expiry: int)
      ensures View() == INITIAL && maxExpiryMs == expiry
    {
      maxExpiryMs := expiry;
      requests, signerHistory := map[], map[];
    }

    method CreateAuthorizationRequest(id: string, operationId: string, policy: Policy, roles: seq<Role>, now: int,
                                      expiryMs: Option<int>)
      modifies this
      ensures View() == After(old(View()), Create(id, operationId, policy, roles, now, if expiryMs.Some? then expiryMs.value else maxExpiryMs))
    {
      var expiresAt := now + if expiryMs.Some? then expiryMs.value else maxExpiryMs;
      requests := requests[id := Request(operationId, policy, NewSigners(roles), now, expiresAt)];
    }

    method Assign(id: string, i: nat, signer: Signer)
      requires id in requests && i < |requests[id].signers|
      modifies this`requests
      ensures View() == SetSigner(old(View()), id, i, signer)
    {
      requests := requests[id := requests[id].(signers := requests[id].signers[i := signer])];
    }

    method AddSigner(id: string, address: string, role: Role) returns (error: Option<Error>)
      modifies this
      ensures View() == After(old(View()), Op.AddSigner(id, address, role))
      ensures error == Refusal(old(View()), Op.AddSigner(id, address, role))
    {
      if id !in requests {
        return Some(NotFound);
      }
      match FindSigner(requests[id].signers, None, Some(role)) {
        case None => return Some(RoleNotRequired);
        case Some(i) =>
          var signer := requests[id].signers[i];
          if signer.address != "" && signer.address != address {
            return Some(RoleTaken);
          }
          Assign(id, i, signer.(address := address));
          return None;
      }
    }

    method RecordSignature(id: string, nonce: string, role: Role, address: string, checked: int, recorded: int)
      returns (error: Option<Error>)
      modifies this
      ensures View() == After(old(View()), Sign(id, nonce, role, address, checked, recorded))
      ensures error == Refusal(old(View()), Sign(id, nonce, role, address, checked, recorded))
    {
      if id !in requests {
        return Some(NotFound);
      }
      if IsExpired(requests[id], checked) {
        return Some(Expired);
      }
      match FindSigner(requests[id].signers, Some(address), Some(role)) {
        case None => return Some(SignerNotFound);
        case Some(i) =>
          var signer, key := requests[id].signers[i], HistoryKey(id, address);
          if signer.state != Pending {
            return Some(AlreadyDecided);
          }
          if key in signerHistory && nonce in signerHistory[key] {
            return Some(DuplicateNonce);
          }
          if key !in signerHistory {
            signerHistory := signerHistory[key := {}];
          }
          signerHistory := signerHistory[key := signerHistory[key] + {nonce}];
          Assign(id, i, signer.(state := Signed, signedAt := Some(recorded)));
          return None;
      }
    }

    method RecordRejection(id: string, address: string, checked: int, recorded: int) returns (error: Option<Error>)
      modifies this
      ensures View() == After(old(View()), Reject(id, address, checked, recorded))
      ensures error == Refusal(old(View()), Reject(id, address, checked, recorded))
    {
      if id !in requests {
        return Some(NotFound);
      }
      if IsExpired(requests[id], checked) {
        return Some(Expired);
      }
      match FindSigner(requests[id].signers, Some(address), None) {
        case None => return Some(SignerNotFound);
        case Some(i) =>
          var signer := requests[id].signers[i];
          if signer.state != Pending {
            return Some(AlreadyDecided);
          }
          Assign(id, i, signer.(state := Rejected, rejectedAt := Some(recorded)));
          return None;
      }
    }

    method RevokeSignature(id: string, address: string) returns (error: Option<Error>)
      modifies this
      ensures View() == After(old(View()), Revoke(id, address))
      ensures error == Refusal(old(View()), Revoke(id, address))
    {
      if id !in requests {
        return Some(NotFound);
      }
      match FindSigner(requests[id].signers, Some(address), None) {
        case None => return Some(SignerNotFound);
        case Some(i) =>
          Assign(id, i, requests[id].signers[i].(state := Revoked));
          return None;
      }
    }
  }

  // ----- status -----

  predicate IsSigned(x: Signer) {
    x.state == Signed
  }

  predicate NotRejected(x: Signer) {
    x.state != Rejected
  }

  function WeightOf(weights: map<Role, real>, x: Signer): real {
    if x.role in weights then weights[x.role] else 0.0
  }

  function TotalWeight(weights: map<Role, real>, signers: seq<Signer>): real {
    if signers == [] then 0.0 else TotalWeight(weights, signers[..|signers| - 1]) + WeightOf(weights, signers[|signers| - 1])
  }

  /** The weight of the signed slots. */
  function SignedWeight(weights: map<Role, real>, signers: seq<Signer>): real {
    if signers == [] then 0.0
    else SignedWeight(weights, signers[..|signers| - 1]) +
         if IsSigned(signers[|signers| - 1]) then WeightOf(weights, signers[|signers| - 1]) else 0.0
  }

  /** `evaluatePolicy`. */
  predicate EvaluatePolicy(r: Request) {
    match r.policy
    case Unanimous => Count(IsSigned, r.signers) == Count(NotRejected, r.signers)
    case Threshold(n) => n.Some? && n.value != 0 && Count(IsSigned, r.signers) >= n.value
    case Weighted(w) => w.Some? && SignedWeight(w.value, r.signers) >= TotalWeight(w.value, r.signers) / 2.0
  }

  datatype Status = Status(isApproved: bool, isPending: bool, isExpired: bool, signedCount: nat, requiredCount: int, rejectionCount: nat)

  /** `getAuthorizationStatus`, without the display percentage. */
  function GetAuthorizationStatus(s: State, id: string, now: int): Result<Status, Error> {
    if id !in s.requests then Err(NotFound)
    else
      var r := s.requests[id];
      var expired, approved := IsExpired(r, now), EvaluatePolicy(r);
      Ok(Status(approved && !expired, !approved && !expired, expired, Count(IsSigned, r.signers),
                if r.policy.Threshold? && r.policy.threshold.Some? && r.policy.threshold.value != 0 then r.policy.threshold.value
                else |r.signers|,
                Count((x: Signer) => x.state == Rejected, r.signers)))
  }

  predicate Approved(s: State, id: string, now: int) {
    GetAuthorizationStatus(s, id, now).Ok? && GetAuthorizationStatus(s, id, now).value.isApproved
  }

  // ----- single steps -----

  /** How a slot may evolve over any number of calls. */
  predicate CanBecome(a: Signer, b: Signer) {
    && a.role == b.role
    && (a.address != "" ==> b.address == a.address)
    && (a.state == b.state || a.state == Pending || b.state == Revoked)
  }

  /** Slots of a request that stays the same request. */
  ghost predicate Evolves(r: Request, t: Request) {
    && t.policy == r.policy && t.expiresAt == r.expiresAt && t.operationId == r.operationId && |t.signers| == |r.signers|
    && forall i :: 0 <= i < |r.signers| ==> CanBecome(r.signers[i], t.signers[i])
  }

  lemma {:induction false} StepEvolves(s: State, op: Op, id: string)
    requires id in s.requests && !(op.Create? && op.id == id)
    ensures id in After(s, op).requests && Evolves(s.requests[id], After(s, op).requests[id])
  {
  }

  /** A slot newly signed in a step was pending, and the request had not expired at the reading that was checked. */
  lemma {:induction false} SignedInTime(s: State, op: Op, id: string, i: nat)
    requires id in s.requests && i < |s.requests[id].signers| && !(op.Create? && op.id == id)
    requires s.requests[id].signers[i].state != Signed && After(s, op).requests[id].signers[i].state == Signed
    ensures op.Sign? && op.id == id && !IsExpired(s.requests[id], op.checked)
    ensures s.requests[id].signers[i].state == Pending && s.requests[id].signers[i].address == op.address
    ensures After(s, op).requests[id].signers[i].signedAt == Some(op.recorded)
  {
  }

  /** Without a revocation of the request, signed and rejected slots stay as they are. */
  lemma {:induction false} DecisionsStay(s: State, op: Op, id: string, i: nat)
    requires id in s.requests && i < |s.requests[id].signers|
    requires !(op.Create? && op.id == id) && !(op.Revoke? && op.id == id)
    requires s.requests[id].signers[i].state in {Signed, Rejected, Revoked}
    ensures After(s, op).requests[id].signers[i].state == s.requests[id].signers[i].state
  {
  }

  lemma {:induction false} HistoryGrows(s: State, op: Op, key: string)
    ensures UsedNonces(s, key) <= UsedNonces(After(s, op), key)
  {
  }

  lemma {:induction false} AcceptedIsRemembered(s: State, op: Op)
    requires op.Sign? && Apply(s, op).Ok?
    ensures op.nonce !in UsedNonces(s, HistoryKey(op.id, op.address))
    ensures op.nonce in UsedNonces(After(s, op), HistoryKey(op.id, op.address))
  {
  }

  // ----- what a single call does -----

  /** The slots a call is about: by role, by address and role, or by address. */
  predicate Concerns(op: Op, x: Signer) {
    match op
    case Create(_, _, _, _, _, _) => false
    case AddSigner(_, _, role) => x.role == role
    case Sign(_, _, role, address, _, _) => x.address == address && x.role == role
    case Reject(_, address, _, _) => x.address == address
    case Revoke(_, address) => x.address == address
  }

  /** Slot `i` is the first one the call is about. */
  predicate FirstFor(op: Op, signers: seq<Signer>, i: nat) {
    i < |signers| && Concerns(op, signers[i]) && forall j :: 0 <= j < i ==> !Concerns(op, signers[j])
  }

  predicate PastExpiry(op: Op, r: Request) {
    (op.Sign? || op.Reject?) && r.expiresAt != 0 && op.checked > r.expiresAt
  }

  lemma {:induction false} FindIsFirst(op: Op, signers: seq<Signer>, address: Option<string>, role: Option<Role>,
                                       i: nat)
    requires forall x: Signer :: Concerns(op, x) <==> Fits(x, address, role)
    ensures FirstFor(op, signers, i) ==> FindSigner(signers, address, role) == Some(i)
    ensures (forall x :: x in signers ==> !Concerns(op, x)) <==> FindSigner(signers, address, role) == None
  {
    hide Concerns, Fits;
    var found := FindSigner(signers, address, role);
    if found.Some? {
      assert signers[found.value] in signers;
    }
  }

  /** Which calls are refused, and why, the slot in question being the first one a call is about. */
  lemma {:induction false} RefusedExactly(s: State, op: Op, i: nat)
    requires !op.Create? && (op.id in s.requests && (exists x :: x in s.requests[op.id].signers && Concerns(op, x)) ==> FirstFor(op, s.requests[op.id].signers, i))
    ensures var e, known := Refusal(s, op), op.id in s.requests;
            && (e == Some(NotFound) <==> !known)
            && (known ==>
                  var r := s.requests[op.id];
                  var nobody := forall x :: x in r.signers ==> !Concerns(op, x);
                  && (e == Some(Expired) <==> PastExpiry(op, r))
                  && (e == Some(RoleNotRequired) <==> op.AddSigner? && nobody)
                  && (e == Some(SignerNotFound) <==> !op.AddSigner? && !PastExpiry(op, r) && nobody)
                  && (e == Some(RoleTaken) <==>
                        op.AddSigner? && !nobody && r.signers[i].address != "" && r.signers[i].address != op.address)
                  && (e == Some(AlreadyDecided) <==>
                        (op.Sign? || op.Reject?) && !PastExpiry(op, r) && !nobody && r.signers[i].state != Pending)
                  && (e == Some(DuplicateNonce) <==>
                        op.Sign? && !PastExpiry(op, r) && !nobody && r.signers[i].state == Pending
                        && op.id + ":" + op.address in s.history && op.nonce in s.history[op.id + ":" + op.address]))
  {
    if op.id in s.requests {
      var signers := s.requests[op.id].signers;
      match op {
        case AddSigner(_, _, role) => FindIsFirst(op, signers, None, Some(role), i);
        case Sign(_, _, role, address, _, _) => FindIsFirst(op, signers, Some(address), Some(role), i);
        case Reject(_, address, _, _) => FindIsFirst(op, signers, Some(address), None, i);
        case Revoke(_, address) => FindIsFirst(op, signers, Some(address), None, i);
      }
      hide FindSigner, Concerns;
    }
  }

  /** What an accepted call changes: the slot in question, the nonces after a signature, and nothing else. */
  lemma {:induction false} EffectExactly(s: State, op: Op, i: nat)
    requires !op.Create? && Refusal(s, op).None? && FirstFor(op, s.requests[op.id].signers, i)
    ensures var r, t := s.requests[op.id], After(s, op);
            var slot := r.signers[i];
            && t.requests == s.requests[op.id := r.(signers := r.signers[i :=
                 match op
                 case Create(_, _, _, _, _, _) => slot
                 case AddSigner(_, address, _) => Signer(address, slot.role, slot.state, slot.signedAt, slot.rejectedAt)
                 case Sign(_, _, _, _, _, recorded) => Signer(slot.address, slot.role, Signed, Some(recorded), slot.rejectedAt)
                 case Reject(_, _, _, recorded) => Signer(slot.address, slot.role, Rejected, slot.signedAt, Some(recorded))
                 case Revoke(_, _) => Signer(slot.address, slot.role, Revoked, slot.signedAt, slot.rejectedAt)])]
            && (!op.Sign? ==> t.history == s.history)
            && (op.Sign? ==>
                  var key := op.id + ":" + op.address;
                  t.history == s.history[key := (if key in s.history then s.history[key] else {}) + {op.nonce}])
  {
    var signers := s.requests[op.id].signers;
    match op {
      case AddSigner(_, _, role) => FindIsFirst(op, signers, None, Some(role), i);
      case Sign(_, _, role, address, _, _) => FindIsFirst(op, signers, Some(address), Some(role), i);
      case Reject(_, address, _, _) => FindIsFirst(op, signers, Some(address), None, i);
      case Revoke(_, address) => FindIsFirst(op, signers, Some(address), None, i);
    }
  }

  /** A new request: one pending, unassigned slot for each role, and an expiry after the given span. */
  lemma {:induction false} CreatedExactly(s: State, op: Op, i: nat)
    requires op.Create? && i < |op.roles|
    ensures var t := After(s, op);
            && t.history == s.history && op.id in t.requests && t.requests == s.requests[op.id := t.requests[op.id]]
            && var r := t.requests[op.id];
               && r.operationId == op.operationId && r.policy == op.policy && r.createdAt == op.now && r.expiresAt == op.now + op.expiryMs
               && |r.signers| == |op.roles| && r.signers[i] == Signer("", op.roles[i], Pending, None, None)
  {
  }

  // ----- runs -----

  predicate Recreates(op: Op, id: string) {
    op.Create? && op.id == id
  }

  predicate Revokes(op: Op, id: string) {
    op.Revoke? && op.id == id
  }

  /** Over every run, slots only move from pending to a decision and from anything to revoked, which absorbs. */
  lemma {:induction false} RunEvolves(s: State, ops: seq<Op>, id: string)
    requires id in s.requests && forall k :: 0 <= k < |ops| ==> !Recreates(ops[k], id)
    ensures id in Run(s, ops).requests && Evolves(s.requests[id], Run(s, ops).requests[id])
  {
    hide Apply;
    if ops != [] {
      var init := ops[..|ops| - 1];
      RunEvolves(s, init, id);
      StepEvolves(Run(s, init), ops[|ops| - 1], id);
    }
  }

  /** Under a clock that has passed the expiry, no call of any run signs a slot. */
  lemma {:induction false} NothingSignedAfterExpiry(s: State, ops: seq<Op>, id: string, i: nat)
    requires id in s.requests && i < |s.requests[id].signers| && s.requests[id].expiresAt != 0
    requires forall k :: 0 <= k < |ops| ==> !Recreates(ops[k], id)
    requires forall k :: 0 <= k < |ops| && ops[k].Sign? ==> ops[k].checked > s.requests[id].expiresAt
    requires s.requests[id].signers[i].state != Signed
    ensures id in Run(s, ops).requests && i < |Run(s, ops).requests[id].signers|
    ensures Run(s, ops).requests[id].signers[i].state != Signed
  {
    hide Apply;
    RunEvolves(s, ops, id);
    if ops != [] {
      var init, last := ops[..|ops| - 1], ops[|ops| - 1];
      RunEvolves(s, init, id);
      NothingSignedAfterExpiry(s, init, id, i);
      if Run(s, ops).requests[id].signers[i].state == Signed {
        SignedInTime(Run(s, init), last, id, i);
        assert false;
      }
    }
  }

  /** A nonce accepted once for a request and an address is never accepted again, whatever happens in between. */
  lemma {:induction false} NoReplay(s: State, first: Op, between: seq<Op>, again: Op)
    requires first.Sign? && Apply(s, first).Ok?
    requires again.Sign? && again.id == first.id && again.address == first.address && again.nonce == first.nonce
    ensures Apply(Run(After(s, first), between), again).Err?
  {
    AcceptedIsRemembered(s, first);
    NoncesStay(After(s, first), between, HistoryKey(first.id, first.address));
    if Apply(Run(After(s, first), between), again).Ok? {
      AcceptedIsRemembered(Run(After(s, first), between), again);
    }
  }

  lemma {:induction false} NoncesStay(s: State, ops: seq<Op>, key: string)
    ensures UsedNonces(s, key) <= UsedNonces(Run(s, ops), key)
  {
    hide Apply;
    if ops != [] {
      NoncesStay(s, ops[..|ops| - 1], key);
      HistoryGrows(Run(s, ops[..|ops| - 1]), ops[|ops| - 1], key);
    }
  }

  /** Keys of requests whose ids hold no colon are distinct for distinct pairs. */
  lemma {:induction false} HistoryKeyInjective(id1: string, a1: string, id2: string, a2: string)
    requires Free(id1, ':') && Free(id2, ':') && HistoryKey(id1, a1) == HistoryKey(id2, a2)
    ensures id1 == id2 && a1 == a2
  {
    assert HistoryKey(id1, a1) == id1 + (":" + a1) && HistoryKey(id2, a2) == id2 + (":" + a2);
    IndexOfAfterFree(id1, ":" + a1, ':');
    IndexOfAfterFree(id2, ":" + a2, ':');
    assert HistoryKey(id1, a1)[..|id1|] == id1 && HistoryKey(id2, a2)[..|id2|] == id2;
    assert HistoryKey(id1, a1)[|id1| + 1..] == a1 && HistoryKey(id2, a2)[|id2| + 1..] == a2;
  }

  predicate NamesSomeone(op: Op) {
    match op
    case Create(_, _, _, _, _, _) => true
    case _ => op.address != ""
  }

  /** With non-empty addresses, only assigned slots are ever decided. */
  ghost predicate DecidedAreAssigned(s: State) {
    forall id, i :: id in s.requests && 0 <= i < |s.requests[id].signers| && s.requests[id].signers[i].state != Pending ==>
      s.requests[id].signers[i].address != ""
  }

  lemma {:induction false} StepKeepsAssigned(s: State, op: Op)
    requires DecidedAreAssigned(s) && NamesSomeone(op)
    ensures DecidedAreAssigned(After(s, op))
  {
  }

  lemma {:induction false} RunKeepsAssigned(s: State, ops: seq<Op>)
    requires DecidedAreAssigned(s) && forall k :: 0 <= k < |ops| ==> NamesSomeone(ops[k])
    ensures DecidedAreAssigned(Run(s, ops))
  {
    hide Apply, DecidedAreAssigned;
    if ops != [] {
      RunKeepsAssigned(s, ops[..|ops| - 1]);
      StepKeepsAssigned(Run(s, ops[..|ops| - 1]), ops[|ops| - 1]);
    }
  }

  // ----- approval -----

  /** Pointwise: decided slots keep their decision, and roles do not change. */
  ghost predicate Settles(a: seq<Signer>, b: seq<Signer>) {
    && |a| == |b|
    && forall i :: 0 <= i < |a| ==> a[i].role == b[i].role && (a[i].state != Pending ==> b[i].state == a[i].state)
  }

  lemma {:induction false} SignedCountGrows(a: seq<Signer>, b: seq<Signer>)
    requires Settles(a, b)
    ensures Count(IsSigned, a) <= Count(IsSigned, b)
  {
    if a != [] {
      SignedCountGrows(a[..|a| - 1], b[..|b| - 1]);
    }
  }

  lemma {:induction false} SignedWeightGrows(w: map<Role, real>, a: seq<Signer>, b: seq<Signer>)
    requires Settles(a, b) && forall r :: r in w ==> w[r] >= 0.0
    ensures SignedWeight(w, a) <= SignedWeight(w, b) && TotalWeight(w, a) == TotalWeight(w, b)
  {
    if a != [] {
      SignedWeightGrows(w, a[..|a| - 1], b[..|b| - 1]);
    }
  }

  lemma {:induction false} SignedAmongNotRejected(signers: seq<Signer>)
    ensures Count(IsSigned, signers) <= Count(NotRejected, signers)
    ensures Count(IsSigned, signers) == Count(NotRejected, signers) <==>
            forall i :: 0 <= i < |signers| && signers[i].state != Rejected ==> signers[i].state == Signed
  {
    if signers != [] {
      SignedAmongNotRejected(signers[..|signers| - 1]);
    }
  }

  /** Unanimous approval holds exactly when every slot that was not rejected is signed. */
  lemma {:induction false} UnanimousMeans(s: State, id: string, now: int)
    requires id in s.requests && s.requests[id].policy == Unanimous
    ensures Approved(s, id, now) <==>
            && !(s.requests[id].expiresAt != 0 && now > s.requests[id].expiresAt)
            && forall i :: 0 <= i < |s.requests[id].signers| && s.requests[id].signers[i].state != Rejected ==>
                 s.requests[id].signers[i].state == Signed
  {
    SignedAmongNotRejected(s.requests[id].signers);
  }

  /** The places of the slots in a state. */
  function InState(signers: seq<Signer>, state: SignerState): set<int> {
    set i | 0 <= i < |signers| && signers[i].state == state
  }

  lemma {:induction false} SignedCount(signers: seq<Signer>)
    ensures Count(IsSigned, signers) == |InState(signers, Signed)|
  {
    CountIsCard(IsSigned, signers);
    assert Places(IsSigned, signers) == InState(signers, Signed);
  }

  /** Approval by threshold holds exactly when enough slots are signed; an absent or zero threshold approves nothing. */
  lemma {:induction false} ThresholdMeans(s: State, id: string, now: int)
    requires id in s.requests && s.requests[id].policy.Threshold?
    ensures var r := s.requests[id];
            var n := r.policy.threshold;
            Approved(s, id, now) <==>
            !(r.expiresAt != 0 && now > r.expiresAt) && n.Some? && n.value != 0 && |InState(r.signers, Signed)| >= n.value
  {
    SignedCount(s.requests[id].signers);
  }

  function RoleWeight(weights: map<Role, real>, role: Role): real {
    if role in weights then weights[role] else 0.0
  }

  /** The slots of a role, and the signed ones among them. */
  function SlotsOf(signers: seq<Signer>, role: Role): set<int> {
    set i | 0 <= i < |signers| && signers[i].role == role
  }

  function SignedOf(signers: seq<Signer>, role: Role): set<int> {
    set i | 0 <= i < |signers| && signers[i].role == role && signers[i].state == Signed
  }

  function Share(weights: map<Role, real>, role: Role, slots: nat): real {
    slots as real * RoleWeight(weights, role)
  }

  /** The weight of so many slots of each role. */
  function ByRole(weights: map<Role, real>, slots: Role -> nat): real {
    Share(weights, PayrollAdmin, slots(PayrollAdmin)) + Share(weights, TreasuryOperator, slots(TreasuryOperator))
    + Share(weights, ComplianceReviewer, slots(ComplianceReviewer)) + Share(weights, EmergencyApprover, slots(EmergencyApprover))
  }

  lemma {:induction false} OneMoreShare(weights: map<Role, real>, role: Role, slots: nat)
    ensures Share(weights, role, 0) == 0.0
    ensures Share(weights, role, slots + 1) == Share(weights, role, slots) + RoleWeight(weights, role)
  {
  }

  function HasRole(role: Role): Signer -> bool {
    (x: Signer) => x.role == role
  }

  function SignedAs(role: Role): Signer -> bool {
    (x: Signer) => x.role == role && x.state == Signed
  }

  lemma {:induction false} SharesGrow(weights: map<Role, real>, signers: seq<Signer>, role: Role)
    ensures signers == [] ==>
              Share(weights, role, Count(HasRole(role), signers)) == 0.0 == Share(weights, role, Count(SignedAs(role), signers))
    ensures signers != [] ==>
              var init, last := signers[..|signers| - 1], signers[|signers| - 1];
              && Share(weights, role, Count(HasRole(role), signers))
                 == Share(weights, role, Count(HasRole(role), init)) + (if last.role == role then RoleWeight(weights, role) else 0.0)
              && Share(weights, role, Count(SignedAs(role), signers))
                 == Share(weights, role, Count(SignedAs(role), init))
                    + (if last.role == role && last.state == Signed then RoleWeight(weights, role) else 0.0)
  {
    hide Share, RoleWeight;
    OneMoreShare(weights, role, 0);
    if signers != [] {
      var init := signers[..|signers| - 1];
      OneMoreShare(weights, role, Count(HasRole(role), init));
      OneMoreShare(weights, role, Count(SignedAs(role), init));
    }
  }

  lemma {:induction false} WeightsByCount(weights: map<Role, real>, signers: seq<Signer>)
    ensures TotalWeight(weights, signers) == ByRole(weights, role => Count(HasRole(role), signers))
    ensures SignedWeight(weights, signers) == ByRole(weights, role => Count(SignedAs(role), signers))
  {
    hide Share, Count, HasRole, SignedAs;
    SharesGrow(weights, signers, PayrollAdmin);
    SharesGrow(weights, signers, TreasuryOperator);
    SharesGrow(weights, signers, ComplianceReviewer);
    SharesGrow(weights, signers, EmergencyApprover);
    if signers != [] {
      WeightsByCount(weights, signers[..|signers| - 1]);
    }
  }

  /** The two weights the policy compares, role by role. */
  lemma {:induction false} WeightsByRole(weights: map<Role, real>, signers: seq<Signer>)
    ensures TotalWeight(weights, signers) == ByRole(weights, role => |SlotsOf(signers, role)|)
    ensures SignedWeight(weights, signers) == ByRole(weights, role => |SignedOf(signers, role)|)
  {
    hide Share, TotalWeight, SignedWeight;
    WeightsByCount(weights, signers);
    forall role: Role
      ensures Count(HasRole(role), signers) == |SlotsOf(signers, role)| && Count(SignedAs(role), signers) == |SignedOf(signers, role)|
    {
      CountIsCard(HasRole(role), signers);
      CountIsCard(SignedAs(role), signers);
      assert Places(HasRole(role), signers) == SlotsOf(signers, role) && Places(SignedAs(role), signers) == SignedOf(signers, role);
    }
  }

  /** Approval by weight holds exactly when the signed slots carry at least half of the weight of all slots. */
  lemma {:induction false} WeightedMeans(s: State, id: string, now: int)
    requires id in s.requests && s.requests[id].policy.Weighted?
    ensures var r := s.requests[id];
            Approved(s, id, now) <==>
            && !(r.expiresAt != 0 && now > r.expiresAt) && r.policy.weights.Some?
            && var w := r.policy.weights.value;
               2.0 * ByRole(w, role => |SignedOf(r.signers, role)|) >= ByRole(w, role => |SlotsOf(r.signers, role)|)
  {
    hide ByRole;
    var r := s.requests[id];
    if r.policy.weights.Some? {
      WeightsByRole(r.policy.weights.value, r.signers);
    }
  }

  /** The other figures of a status. */
  lemma {:induction false} StatusMeans(s: State, id: string, now: int)
    ensures GetAuthorizationStatus(s, id, now).Err? <==> id !in s.requests
    ensures id !in s.requests ==> GetAuthorizationStatus(s, id, now) == Err(NotFound)
    ensures id in s.requests ==>
              var r, status := s.requests[id], GetAuthorizationStatus(s, id, now).value;
              && (status.isExpired <==> r.expiresAt != 0 && now > r.expiresAt)
              && (status.isApproved <==> Approved(s, id, now))
              && (status.isApproved || status.isPending || status.isExpired)
              && !(status.isApproved && status.isPending) && (status.isExpired ==> !status.isApproved && !status.isPending)
              && status.signedCount == |InState(r.signers, Signed)| && status.rejectionCount == |InState(r.signers, Rejected)|
              && status.requiredCount ==
                 match r.policy
                 case Threshold(Some(n)) => if n == 0 then |r.signers| else n
                 case _ => |r.signers|
  {
    if id in s.requests {
      var signers := s.requests[id].signers;
      SignedCount(signers);
      CountIsCard((x: Signer) => x.state == Rejected, signers);
      assert Places((x: Signer) => x.state == Rejected, signers) == InState(signers, Rejected);
    }
  }

  predicate FairPolicy(p: Policy) {
    p.Weighted? && p.weights.Some? ==> forall r :: r in p.weights.value ==> p.weights.value[r] >= 0.0
  }

  lemma {:induction false} PolicyPersists(r: Request, t: Request)
    requires EvaluatePolicy(r) && FairPolicy(r.policy) && t.policy == r.policy && Settles(r.signers, t.signers)
    ensures EvaluatePolicy(t)
  {
    match r.policy {
      case Unanimous =>
        SignedAmongNotRejected(r.signers);
        SignedAmongNotRejected(t.signers);
      case Threshold(_) => SignedCountGrows(r.signers, t.signers);
      case Weighted(w) => SignedWeightGrows(w.value, r.signers, t.signers);
    }
  }

  lemma {:induction false} RunSettles(s: State, ops: seq<Op>, id: string)
    requires id in s.requests
    requires forall k :: 0 <= k < |ops| ==> !Recreates(ops[k], id) && !Revokes(ops[k], id)
    ensures id in Run(s, ops).requests && Settles(s.requests[id].signers, Run(s, ops).requests[id].signers)
  {
    hide Apply;
    if ops != [] {
      var init, last := ops[..|ops| - 1], ops[|ops| - 1];
      RunSettles(s, init, id);
      var m := Run(s, init);
      StepEvolves(m, last, id);
      forall i | 0 <= i < |m.requests[id].signers| && m.requests[id].signers[i].state != Pending
        ensures After(m, last).requests[id].signers[i].state == m.requests[id].signers[i].state
      {
        DecisionsStay(m, last, id, i);
      }
    }
  }

  /** Once granted, approval is lost only by a revocation on the request or by expiry, under every policy. */
  lemma {:induction false} ApprovalPersists(s: State, ops: seq<Op>, id: string, earlier: int, later: int)
    requires Approved(s, id, earlier) && FairPolicy(s.requests[id].policy)
    requires forall k :: 0 <= k < |ops| ==> !Recreates(ops[k], id) && !Revokes(ops[k], id)
    ensures Approved(Run(s, ops), id, later) <==> !IsExpired(s.requests[id], later)
  {
    RunEvolves(s, ops, id);
    RunSettles(s, ops, id);
    PolicyPersists(s.requests[id], Run(s, ops).requests[id]);
  }

  // ----- edges of the protocol -----

  lemma {:induction false} RunOfThree(s: State, a: Op, b: Op, c: Op)
    ensures Run(s, [a, b, c]) == After(After(After(s, a), b), c)
  {
    hide Apply;
    assert [a, b, c][..2] == [a, b] && [a, b][..1] == [a] && [a][..0] == [];
    assert Run(s, [a]) == After(s, a);
    assert Run(s, [a, b]) == After(After(s, a), b);
  }

  function SoloRun(id: string, operationId: string, role: Role, address: string, at: int, expiryMs: int): seq<Op> {
    [Create(id, operationId, Unanimous, [role], at, expiryMs), AddSigner(id, address, role), Reject(id, address, at, at)]
  }

  /** A run after which the only signer has rejected, and the request counts as unanimously approved until it expires. */
  lemma {:induction false} AllRejectedIsApproved(id: string, operationId: string, role: Role, address: string,
                                                 at: int, expiryMs: int, now: int)
    requires expiryMs >= 0
    ensures var s := Run(INITIAL, SoloRun(id, operationId, role, address, at, expiryMs));
            && id in s.requests && s.requests[id].expiresAt == at + expiryMs
            && s.requests[id].signers == [Signer(address, role, Rejected, None, Some(at))]
            && (Approved(s, id, now) <==> !IsExpired(s.requests[id], now))
  {
    var ops := SoloRun(id, operationId, role, address, at, expiryMs);
    RunOfThree(INITIAL, ops[0], ops[1], ops[2]);
    hide Run;
    var s1, s2 := After(INITIAL, ops[0]), After(After(INITIAL, ops[0]), ops[1]);
    assert s1.requests[id].signers == [Signer("", role, Pending, None, None)];
    assert s2.requests[id].signers == [Signer(address, role, Pending, None, None)];
    UnanimousMeans(After(s2, ops[2]), id, now);
  }

  /** The recorded time is a second reading: it exceeds the expiry exactly when the clock passes it in between. */
  lemma {:induction false} RecordedAfterExpiry(s: State, op: Op, i: nat)
    requires op.Sign? && op.id in s.requests && i < |s.requests[op.id].signers| && s.requests[op.id].expiresAt != 0
    requires s.requests[op.id].signers[i].state != Signed && After(s, op).requests[op.id].signers[i].state == Signed
    ensures op.checked <= s.requests[op.id].expiresAt
    ensures After(s, op).requests[op.id].signers[i].signedAt.value > s.requests[op.id].expiresAt <==>
            op.checked <= s.requests[op.id].expiresAt < op.recorded
  {
    SignedInTime(s, op, op.id, i);
  }
}
