/** Proof artifacts: manifest checks, loading through an untrusted cache and loader, and the in-memory cache. */
module ProofArtifacts {
  import opened Prelude
  import opened Text

  newtype Byte = x: int | 0 <= x < 256

  datatype Kind = Wasm | Zkey | VerificationKey

  datatype Descriptor = Descriptor(kind: Kind, source: string, sha256: string, sizeBytes: Option<int>)

  datatype Compatibility = Compatibility(sdkVersion: string, circuitVersion: string, contractVerifierVersion: string, verificationKeyVersion: string)

  datatype Mode = Disabled | Memory | Persistent

  datatype CachePolicy = CachePolicy(mode: Mode, ttlSeconds: Option<int>, allowStaleFallback: bool)

  datatype Manifest = Manifest(schemaVersion: string, manifestVersion: string, circuitId: string, artifacts: seq<Descriptor>,
                               compatibility: Compatibility, cachePolicy: Option<CachePolicy>)

  datatype Entry = Entry(descriptor: Descriptor, bytes: seq<Byte>, cachedAt: int)

  datatype Artifact = Artifact(descriptor: Descriptor, bytes: seq<Byte>, loadedFromCache: bool, stale: bool)

  /** `Foreign` stands for whatever the loader or the cache throws. */
  datatype Error = InvalidManifest | MissingArtifact(kind: Kind) | IncompatibleVersion(field: string) | HashMismatch | Foreign(code: int)

  /** What the cache, the loader and the clock answer while one artifact is loaded. */
  datatype World = World(cached: Result<Option<Entry>, Error>, loaded: Result<seq<Byte>, Error>, stored: Option<Error>,
                         checkedAt: int, storedAt: int)

  /** The result, and the entry handed to the cache. */
  datatype Outcome = Outcome(result: Result<Artifact, Error>, written: Option<Entry>)

  // ----- checks on the manifest -----

  const HEX := "0123456789abcdefABCDEF"

  predicate IsSha256(text: string) {
    |text| == 64 && forall i :: 0 <= i < 64 ==> text[i] in HEX
  }

  predicate HasKind(artifacts: seq<Descriptor>, kind: Kind) {
    exists d :: d in artifacts && d.kind == kind
  }

  function ValidateManifest(m: Manifest): Option<Error> {
    if m.schemaVersion != "1.0" || m.manifestVersion == "" || m.circuitId == "" then Some(InvalidManifest)
    else if !HasKind(m.artifacts, Wasm) then Some(MissingArtifact(Wasm))
    else if !HasKind(m.artifacts, Zkey) then Some(MissingArtifact(Zkey))
    else if !HasKind(m.artifacts, VerificationKey) then Some(MissingArtifact(VerificationKey))
    else if exists d :: d in m.artifacts && !IsSha256(d.sha256) then Some(InvalidManifest)
    else None
  }

  function ValidateCompatibility(m: Manifest, runtime: Compatibility): (r: Option<Error>)
    ensures r.None? <==> m.compatibility == runtime
  {
    var expected := m.compatibility;
    if expected.sdkVersion != runtime.sdkVersion then Some(IncompatibleVersion("sdkVersion"))
    else if expected.circuitVersion != runtime.circuitVersion then Some(IncompatibleVersion("circuitVersion"))
    else if expected.contractVerifierVersion != runtime.contractVerifierVersion then Some(IncompatibleVersion("contractVerifierVersion"))
    else if expected.verificationKeyVersion != runtime.verificationKeyVersion then Some(IncompatibleVersion("verificationKeyVersion"))
    else None
  }

  // ----- loading one artifact -----

  /** The artifact is the one the descriptor names. */
  predicate Matches(hash: seq<Byte> -> string, bytes: seq<Byte>, d: Descriptor) {
    hash(bytes) == Lower(d.sha256) && (d.sizeBytes.Some? ==> d.sizeBytes.value == |bytes|)
  }

  function VerifyHash(hash: seq<Byte> -> string, bytes: seq<Byte>, d: Descriptor): (r: Option<Error>)
    ensures r.None? <==> Matches(hash, bytes, d)
    ensures r.Some? ==> r.value == HashMismatch
  {
    if hash(bytes) != Lower(d.sha256) then Some(HashMismatch)
    else if d.sizeBytes.Some? && d.sizeBytes.value != |bytes| then Some(HashMismatch)
    else None
  }

  predicate IsExpired(entry: Entry, ttlSeconds: Option<int>, now: int) {
    ttlSeconds.Some? && entry.cachedAt + ttlSeconds.value <= now
  }

  function PolicyOf(m: Manifest): CachePolicy {
    if m.cachePolicy.Some? then m.cachePolicy.value else CachePolicy(Disabled, None, false)
  }

  function KindName(kind: Kind): string {
    match kind case Wasm => "wasm" case Zkey => "zkey" case VerificationKey => "verificationKey"
  }

  function CacheKey(m: Manifest, d: Descriptor): string {
    "proof-artifact:" + m.circuitId + ":" + m.manifestVersion + ":" + KindName(d.kind) + ":" + d.sha256
  }

  /** A failed load falls back on the expired entry when the policy allows it; a failed write counts as a failed load. */
  function LoadArtifact(hash: seq<Byte> -> string, m: Manifest, d: Descriptor, hasCache: bool, w: World): Outcome {
    var policy := PolicyOf(m);
    var cached := if hasCache then w.cached else Ok(None);
    if cached.Err? then Outcome(Err(cached.error), None)
    else if cached.value.Some? && !IsExpired(cached.value.value, policy.ttlSeconds, w.checkedAt) then
      match VerifyHash(hash, cached.value.value.bytes, d)
      case Some(e) => Outcome(Err(e), None)
      case None => Outcome(Ok(Artifact(d, cached.value.value.bytes, true, false)), None)
    else
      var verified := if w.loaded.Err? then Some(w.loaded.error) else VerifyHash(hash, w.loaded.value, d);
      var written := if verified.None? && policy.mode != Disabled && hasCache then Some(Entry(d, w.loaded.value, w.storedAt)) else None;
      var failure := if written.Some? then w.stored else verified;
      if failure.None? then Outcome(Ok(Artifact(d, w.loaded.value, false, false)), written)
      else if cached.value.Some? && policy.allowStaleFallback then
        match VerifyHash(hash, cached.value.value.bytes, d)
        case Some(e) => Outcome(Err(e), written)
        case None => Outcome(Ok(Artifact(d, cached.value.value.bytes, true, true)), written)
      else Outcome(Err(failure.value), written)
  }

  /** Whatever cache and loader answer, what is returned and what is written match the descriptor. */
  lemma {:induction false} LoadedMatches(hash: seq<Byte> -> string, m: Manifest, d: Descriptor, hasCache: bool,
                                         w: World)
    ensures var o := LoadArtifact(hash, m, d, hasCache, w);
            && (o.result.Ok? ==> o.result.value.descriptor == d && Matches(hash, o.result.value.bytes, d))
            && (o.written.Some? ==> o.written.value.descriptor == d && Matches(hash, o.written.value.bytes, d))
  {
  }

  /** The cache holds an entry that is still usable. */
  predicate Fresh(m: Manifest, hasCache: bool, w: World) {
    && hasCache && w.cached.Ok? && w.cached.value.Some?
    && (m.cachePolicy.Some? && m.cachePolicy.value.ttlSeconds.Some? ==>
          w.checkedAt < w.cached.value.value.cachedAt + m.cachePolicy.value.ttlSeconds.value)
  }

  /** The policy asks for loads to be stored; without one nothing is stored, and no expired entry is used. */
  predicate Caches(m: Manifest) {
    m.cachePolicy.Some? && m.cachePolicy.value.mode != Disabled
  }

  predicate FallsBack(m: Manifest) {
    m.cachePolicy.Some? && m.cachePolicy.value.allowStaleFallback
  }

  /** A fresh load succeeds, together with the cache write the policy asks for. */
  predicate LoadSucceeds(hash: seq<Byte> -> string, m: Manifest, d: Descriptor, hasCache: bool, w: World) {
    w.loaded.Ok? && Matches(hash, w.loaded.value, d) && (Caches(m) && hasCache ==> w.stored.None?)
  }

  /** Exactly when an artifact is delivered, and from where; a fresh entry that fails its check is never replaced by a load. */
  lemma {:induction false} DeliveredExactly(hash: seq<Byte> -> string, m: Manifest, d: Descriptor, hasCache: bool,
                                            w: World)
    ensures var o := LoadArtifact(hash, m, d, hasCache, w).result;
            && (o.Ok? <==>
                && (hasCache ==> w.cached.Ok?)
                && if Fresh(m, hasCache, w) then Matches(hash, w.cached.value.value.bytes, d)
                   else LoadSucceeds(hash, m, d, hasCache, w)
                        || (hasCache && w.cached.value.Some? && FallsBack(m) && Matches(hash, w.cached.value.value.bytes, d)))
            && (o.Ok? ==> (o.value.loadedFromCache <==> Fresh(m, hasCache, w) || !LoadSucceeds(hash, m, d, hasCache, w)))
            && (o.Ok? && o.value.loadedFromCache ==> o.value.bytes == w.cached.value.value.bytes)
  {
  }

  /** `stale` marks only an expired cached entry, after a failed load, with the fallback allowed. */
  lemma {:induction false} StaleExactly(hash: seq<Byte> -> string, m: Manifest, d: Descriptor, hasCache: bool, w: World)
    requires LoadArtifact(hash, m, d, hasCache, w).result.Ok?
    ensures LoadArtifact(hash, m, d, hasCache, w).result.value.stale <==>
            && hasCache && w.cached.value.Some? && !Fresh(m, hasCache, w) && FallsBack(m) && !LoadSucceeds(hash, m, d, hasCache, w)
  {
  }

  /** What is stored and when: a load that matches, where the policy asks for it and no usable entry was found. */
  lemma {:induction false} WrittenExactly(hash: seq<Byte> -> string, m: Manifest, d: Descriptor, hasCache: bool,
                                          w: World)
    ensures LoadArtifact(hash, m, d, hasCache, w).written ==
            if hasCache && w.cached.Ok? && !Fresh(m, hasCache, w) && Caches(m) && w.loaded.Ok? && Matches(hash, w.loaded.value, d)
            then Some(Entry(d, w.loaded.value, w.storedAt)) else None
  {
  }

  /** Why an artifact is not delivered: the cache fails, what would be returned does not match, or loader or store fail. */
  lemma {:induction false} FailureExactly(hash: seq<Byte> -> string, m: Manifest, d: Descriptor, hasCache: bool,
                                          w: World)
    requires LoadArtifact(hash, m, d, hasCache, w).result.Err?
    ensures LoadArtifact(hash, m, d, hasCache, w).result.error ==
            if hasCache && w.cached.Err? then w.cached.error
            else if Fresh(m, hasCache, w) || (hasCache && w.cached.value.Some? && FallsBack(m)) then HashMismatch
            else if w.loaded.Err? then w.loaded.error
            else if !Matches(hash, w.loaded.value, d) then HashMismatch
            else w.stored.value
    ensures !(hasCache && w.cached.Err?) && !Fresh(m, hasCache, w) && w.loaded.Ok? && Matches(hash, w.loaded.value, d) ==> w.stored.Some?
  {
  }

  /** Sixty-four hexadecimal digits, in either case. */
  predicate HexDigest(text: string) {
    |text| == 64 && forall i :: 0 <= i < 64 ==> '0' <= text[i] <= '9' || 'a' <= text[i] <= 'f' || 'A' <= text[i] <= 'F'
  }

  lemma {:induction false} HexDigits(c: char)
    ensures c in HEX <==> '0' <= c <= '9' || 'a' <= c <= 'f' || 'A' <= c <= 'F'
  {
    assert HEX[0] == '0' && HEX[1] == '1' && HEX[2] == '2' && HEX[3] == '3' && HEX[4] == '4' && HEX[5] == '5' && HEX[6] == '6'
           && HEX[7] == '7' && HEX[8] == '8' && HEX[9] == '9' && HEX[10] == 'a' && HEX[11] == 'b' && HEX[12] == 'c' && HEX[13] == 'd'
           && HEX[14] == 'e' && HEX[15] == 'f' && HEX[16] == 'A' && HEX[17] == 'B' && HEX[18] == 'C' && HEX[19] == 'D' && HEX[20] == 'E'
           && HEX[21] == 'F';
  }

  lemma {:induction false} DigestShape(text: string)
    ensures IsSha256(text) <==> HexDigest(text)
  {
    hide HEX;
    if |text| == 64 {
      forall i | 0 <= i < 64 ensures text[i] in HEX <==> '0' <= text[i] <= '9' || 'a' <= text[i] <= 'f' || 'A' <= text[i] <= 'F' {
        HexDigits(text[i]);
      }
    }
  }

  /** The version that is reported as incompatible is the first of the four that differs. */
  lemma {:induction false} MismatchExactly(m: Manifest, runtime: Compatibility)
    ensures var r, c := ValidateCompatibility(m, runtime), m.compatibility;
            && (r == Some(IncompatibleVersion("sdkVersion")) <==> c.sdkVersion != runtime.sdkVersion)
            && (r == Some(IncompatibleVersion("circuitVersion")) <==>
                  c.sdkVersion == runtime.sdkVersion && c.circuitVersion != runtime.circuitVersion)
            && (r == Some(IncompatibleVersion("contractVerifierVersion")) <==>
                  c.sdkVersion == runtime.sdkVersion && c.circuitVersion == runtime.circuitVersion
                  && c.contractVerifierVersion != runtime.contractVerifierVersion)
            && (r == Some(IncompatibleVersion("verificationKeyVersion")) <==>
                  c.sdkVersion == runtime.sdkVersion && c.circuitVersion == runtime.circuitVersion
                  && c.contractVerifierVersion == runtime.contractVerifierVersion
                  && c.verificationKeyVersion != runtime.verificationKeyVersion)
  {
    assert |"sdkVersion"| == 10 && |"circuitVersion"| == 14 && |"contractVerifierVersion"| == 23 && |"verificationKeyVersion"| == 22;
  }

  /** The manifest lists an artifact of the kind. */
  predicate Listed(m: Manifest, kind: Kind) {
    exists i :: 0 <= i < |m.artifacts| && m.artifacts[i].kind == kind
  }

  /** Which manifests are accepted, and which fault of the others is reported. */
  lemma {:induction false} ManifestExactly(m: Manifest)
    ensures var named := m.schemaVersion == "1.0" && m.manifestVersion != "" && m.circuitId != "";
            var hashed := forall i :: 0 <= i < |m.artifacts| ==> HexDigest(m.artifacts[i].sha256);
            && (ValidateManifest(m).None? <==> named && hashed && forall kind: Kind :: Listed(m, kind))
            && (forall kind: Kind :: ValidateManifest(m) == Some(MissingArtifact(kind)) ==>
                  named && !Listed(m, kind))
            && (ValidateManifest(m) == Some(InvalidManifest) ==> !named || !hashed)
            && (ValidateManifest(m).Some? ==> ValidateManifest(m).value.InvalidManifest? || ValidateManifest(m).value.MissingArtifact?)
  {
    forall kind: Kind ensures HasKind(m.artifacts, kind) <==> Listed(m, kind) {
      if i :| 0 <= i < |m.artifacts| && m.artifacts[i].kind == kind {
        assert m.artifacts[i] in m.artifacts;
      }
    }
    assert HasKind(m.artifacts, Wasm) && HasKind(m.artifacts, Zkey) && HasKind(m.artifacts, VerificationKey) <==>
           forall kind: Kind :: HasKind(m.artifacts, kind);
    forall text: string ensures IsSha256(text) <==> HexDigest(text) {
      DigestShape(text);
    }
    hide IsSha256, HexDigest;
    if i :| 0 <= i < |m.artifacts| && !IsSha256(m.artifacts[i].sha256) {
      assert m.artifacts[i] in m.artifacts;
    }
  }

  lemma {:induction false} EndsApart(prefix: string, a: string, b: string, s: string, t: string)
    requires |s| == |t| && prefix + a + (":" + s) == prefix + b + (":" + t)
    ensures a == b && s == t
  {
    var x, y := prefix + a + (":" + s), prefix + b + (":" + t);
    assert x[|prefix|..|x| - |s| - 1] == a && y[|prefix|..|y| - |t| - 1] == b;
    assert x[|x| - |s|..] == s && y[|y| - |t|..] == t;
  }

  lemma {:induction false} KindNamesDiffer(a: Kind, b: Kind)
    requires KindName(a) == KindName(b)
    ensures a == b
  {
    assert |KindName(Wasm)| == 4 && |KindName(Zkey)| == 4 && |KindName(VerificationKey)| == 15;
    assert KindName(Wasm)[0] == 'w' && KindName(Zkey)[0] == 'z';
  }

  /** Within one manifest two descriptors share a cache entry exactly when they name the same kind and hash. */
  lemma {:induction false} KeysTellApart(m: Manifest, d: Descriptor, e: Descriptor)
    requires |d.sha256| == |e.sha256|
    ensures CacheKey(m, d) == CacheKey(m, e) <==> d.kind == e.kind && d.sha256 == e.sha256
  {
    var prefix := "proof-artifact:" + m.circuitId + ":" + m.manifestVersion + ":";
    var x, y := CacheKey(m, d), CacheKey(m, e);
    assert x == prefix + KindName(d.kind) + (":" + d.sha256) && y == prefix + KindName(e.kind) + (":" + e.sha256);
    hide CacheKey, KindName;
    if x == y {
      EndsApart(prefix, KindName(d.kind), KindName(e.kind), d.sha256, e.sha256);
      KindNamesDiffer(d.kind, e.kind);
    }
  }

  // ----- loading the whole set -----

  /** Folding the loaded artifacts by kind: a later one replaces an earlier one of its kind. */
  function ByKind(loaded: seq<Artifact>): map<Kind, Artifact> {
    if loaded == [] then map[]
    else ByKind(loaded[..|loaded| - 1])[loaded[|loaded| - 1].descriptor.kind := loaded[|loaded| - 1]]
  }

  /** The last artifact of a kind. */
  predicate IsLast(loaded: seq<Artifact>, i: nat, kind: Kind) {
    && i < |loaded| && loaded[i].descriptor.kind == kind
    && forall j :: i < j < |loaded| ==> loaded[j].descriptor.kind != kind
  }

  lemma {:induction false} ByKindLast(loaded: seq<Artifact>, kind: Kind)
    ensures kind in ByKind(loaded) <==> exists i :: 0 <= i < |loaded| && loaded[i].descriptor.kind == kind
    ensures kind in ByKind(loaded) ==> exists i: nat :: IsLast(loaded, i, kind) && ByKind(loaded)[kind] == loaded[i]
  {
    if loaded != [] {
      var init, last := loaded[..|loaded| - 1], |loaded| - 1;
      ByKindLast(init, kind);
      if loaded[last].descriptor.kind == kind {
        assert IsLast(loaded, last, kind);
      } else if kind in ByKind(init) {
        var i: nat :| IsLast(init, i, kind) && ByKind(init)[kind] == init[i];
        LastStays(loaded, i, kind);
      }
    }
  }

  lemma {:induction false} LastStays(loaded: seq<Artifact>, i: nat, kind: Kind)
    requires loaded != [] && IsLast(loaded[..|loaded| - 1], i, kind) && loaded[|loaded| - 1].descriptor.kind != kind
    ensures IsLast(loaded, i, kind) && loaded[i] == loaded[..|loaded| - 1][i]
  {
    var init := loaded[..|loaded| - 1];
    forall j | i < j < |loaded| ensures loaded[j].descriptor.kind != kind {
      assert j < |init| ==> loaded[j] == init[j];
    }
  }

  /** All loads, in manifest order; the first failure by position stands for the rejection. */
  function LoadEach(hash: seq<Byte> -> string, m: Manifest, hasCache: bool, artifacts: seq<Descriptor>,
                    worlds: seq<World>): (r: Result<seq<Artifact>, Error>)
    requires |worlds| == |artifacts|
    ensures r.Ok? ==> |r.value| == |artifacts|
    ensures r.Ok? ==> forall i :: 0 <= i < |artifacts| ==> LoadArtifact(hash, m, artifacts[i], hasCache, worlds[i]).result == Ok(r.value[i])
    ensures r.Err? ==> exists i :: 0 <= i < |artifacts| && LoadArtifact(hash, m, artifacts[i], hasCache, worlds[i]).result == Err(r.error)
  {
    if artifacts == [] then Ok([])
    else
      var first := LoadArtifact(hash, m, artifacts[0], hasCache, worlds[0]).result;
      if first.Err? then Err(first.error)
      else
        var rest := LoadEach(hash, m, hasCache, artifacts[1..], worlds[1..]);
        if rest.Err? then
          var k :| 0 <= k < |artifacts| - 1 && LoadArtifact(hash, m, artifacts[1..][k], hasCache, worlds[1..][k]).result == Err(rest.error);
          assert LoadArtifact(hash, m, artifacts[k + 1], hasCache, worlds[k + 1]).result == Err(rest.error);
          rest
        else Ok([first.value] + rest.value)
  }

  function LoadArtifacts(hash: seq<Byte> -> string, m: Manifest, runtime: Compatibility, hasCache: bool,
                         worlds: seq<World>):
    Result<map<Kind, Artifact>, Error>
    requires |worlds| == |m.artifacts|
  {
    var invalid, incompatible := ValidateManifest(m), ValidateCompatibility(m, runtime);
    if invalid.Some? then Err(invalid.value)
    else if incompatible.Some? then Err(incompatible.value)
    else
      var loaded := LoadEach(hash, m, hasCache, m.artifacts, worlds);
      if loaded.Err? then Err(loaded.error) else Ok(ByKind(loaded.value))
  }

  /** A returned set holds all three kinds, each the artifact of the manifest's last descriptor of that kind, and matching it. */
  lemma {:induction false} ReturnedSetMatches(hash: seq<Byte> -> string, m: Manifest, runtime: Compatibility,
                                              hasCache: bool, worlds: seq<World>, kind: Kind)
    requires |worlds| == |m.artifacts|
    ensures var r := LoadArtifacts(hash, m, runtime, hasCache, worlds);
            r.Ok? ==>
              && runtime == m.compatibility
              && kind in r.value && Matches(hash, r.value[kind].bytes, r.value[kind].descriptor)
              && IsSha256(r.value[kind].descriptor.sha256)
              && exists i :: 0 <= i < |m.artifacts| && r.value[kind].descriptor == m.artifacts[i] && m.artifacts[i].kind == kind
                             && forall j :: i < j < |m.artifacts| ==> m.artifacts[j].kind != kind
  {
    hide LoadArtifact, Matches;
    if LoadArtifacts(hash, m, runtime, hasCache, worlds).Ok? {
      var loaded := LoadEach(hash, m, hasCache, m.artifacts, worlds).value;
      forall i | 0 <= i < |loaded|
        ensures loaded[i].descriptor == m.artifacts[i] && Matches(hash, loaded[i].bytes, m.artifacts[i])
      {
        LoadedMatches(hash, m, m.artifacts[i], hasCache, worlds[i]);
      }
      assert HasKind(m.artifacts, kind) by {
        match kind { case Wasm => case Zkey => case VerificationKey => }
      }
      var d :| d in m.artifacts && d.kind == kind;
      var at :| 0 <= at < |m.artifacts| && m.artifacts[at] == d;
      assert loaded[at].descriptor.kind == kind;
      ByKindLast(loaded, kind);
      var i: nat :| IsLast(loaded, i, kind) && ByKind(loaded)[kind] == loaded[i];
      assert m.artifacts[i] in m.artifacts;
      forall j | i < j < |m.artifacts| ensures m.artifacts[j].kind != kind {
        assert loaded[j].descriptor == m.artifacts[j];
      }
    }
  }

  // ----- the in-memory cache, under any interleaving of loads -----

  function Lookup(entries: map<string, Entry>, key: string): Option<Entry> {
    if key in entries then Some(entries[key]) else None
  }

  function Store(entries: map<string, Entry>, key: string, written: Option<Entry>): map<string, Entry> {
    if written.Some? then entries[key := written.value] else entries
  }

  class MemoryProofArtifactCache {
    var entries: map<string, Entry>

    constructor ()
      ensures entries == map[]
    {
      entries := map[];
    }

    /** `loadArtifact` over this cache, which never fails; the loader's answer and the clock readings are given. */
    method LoadThrough(hash: seq<Byte> -> string, m: Manifest, d: Descriptor, loaded: Result<seq<Byte>, Error>,
                       checkedAt: int, storedAt: int)
      returns (result: Result<Artifact, Error>)
      modifies this
      ensures var w := World(Ok(Lookup(old(entries), CacheKey(m, d))), loaded, None, checkedAt, storedAt);
              && result == LoadArtifact(hash, m, d, true, w).result
              && entries == Store(old(entries), CacheKey(m, d), LoadArtifact(hash, m, d, true, w).written)
    {
      var policy, key := PolicyOf(m), CacheKey(m, d);
      var cached := Lookup(entries, key);
      if cached.Some? && !IsExpired(cached.value, policy.ttlSeconds, checkedAt) {
        var mismatch := VerifyHash(hash, cached.value.bytes, d);
        return if mismatch.Some? then Err(mismatch.value) else Ok(Artifact(d, cached.value.bytes, true, false));
      }
      var failure := if loaded.Err? then Some(loaded.error) else VerifyHash(hash, loaded.value, d);
      if failure.None? {
        if policy.mode != Disabled {
          entries := entries[key := Entry(d, loaded.value, storedAt)];
        }
        return Ok(Artifact(d, loaded.value, false, false));
      }
      if cached.Some? && policy.allowStaleFallback {
        var mismatch := VerifyHash(hash, cached.value.bytes, d);
        return if mismatch.Some? then Err(mismatch.value) else Ok(Artifact(d, cached.value.bytes, true, true));
      }
      return Err(failure.value);
    }
  }

  /** The part of one load that reaches the shared map: its write, at any time after whatever it read. */
  datatype Step = Step(manifest: Manifest, index: nat, world: World)
  {
    predicate Valid() {
      ValidateManifest(manifest).None? && index < |manifest.artifacts|
    }
  }

  function After(hash: seq<Byte> -> string, entries: map<string, Entry>, step: Step): map<string, Entry>
    requires step.Valid()
  {
    var d := step.manifest.artifacts[step.index];
    Store(entries, CacheKey(step.manifest, d), LoadArtifact(hash, step.manifest, d, true, step.world).written)
  }

  function Run(hash: seq<Byte> -> string, steps: seq<Step>): map<string, Entry>
    requires forall k :: 0 <= k < |steps| ==> steps[k].Valid()
  {
    if steps == [] then map[] else After(hash, Run(hash, steps[..|steps| - 1]), steps[|steps| - 1])
  }

  /** The last 64 characters of a key are the hash its entry has. */
  predicate Stamped(hash: seq<Byte> -> string, key: string, entry: Entry) {
    |key| >= 64 && hash(entry.bytes) == Lower(key[|key| - 64..])
  }

  ghost predicate Consistent(hash: seq<Byte> -> string, entries: map<string, Entry>) {
    forall key :: key in entries ==> Stamped(hash, key, entries[key])
  }

  lemma {:induction false} KeyEndsInHash(m: Manifest, d: Descriptor)
    requires IsSha256(d.sha256)
    ensures var key := CacheKey(m, d); |key| >= 64 && key[|key| - 64..] == d.sha256
  {
    var prefix := "proof-artifact:" + m.circuitId + ":" + m.manifestVersion + ":" + KindName(d.kind) + ":";
    assert CacheKey(m, d) == prefix + d.sha256;
  }

  lemma {:induction false} WrittenIsStamped(hash: seq<Byte> -> string, step: Step)
    requires step.Valid()
    requires LoadArtifact(hash, step.manifest, step.manifest.artifacts[step.index], true, step.world).written.Some?
    ensures var d := step.manifest.artifacts[step.index];
            Stamped(hash, CacheKey(step.manifest, d), LoadArtifact(hash, step.manifest, d, true, step.world).written.value)
  {
    hide LoadArtifact, CacheKey, ValidateManifest;
    var d := step.manifest.artifacts[step.index];
    ValidHashes(step.manifest, step.index);
    KeyEndsInHash(step.manifest, d);
    LoadedMatches(hash, step.manifest, d, true, step.world);
  }

  lemma {:induction false} StepConsistent(hash: seq<Byte> -> string, entries: map<string, Entry>, step: Step)
    requires Consistent(hash, entries) && step.Valid()
    ensures Consistent(hash, After(hash, entries, step))
  {
    hide LoadArtifact, CacheKey, ValidateManifest, Stamped;
    if LoadArtifact(hash, step.manifest, step.manifest.artifacts[step.index], true, step.world).written.Some? {
      WrittenIsStamped(hash, step);
    }
  }

  /** Writes of interleaved loads, whatever they read before, leave only entries that hash to what their key says. */
  lemma {:induction false} RunConsistent(hash: seq<Byte> -> string, steps: seq<Step>)
    requires forall k :: 0 <= k < |steps| ==> steps[k].Valid()
    ensures Consistent(hash, Run(hash, steps))
  {
    hide After, Consistent;
    if steps != [] {
      RunConsistent(hash, steps[..|steps| - 1]);
      StepConsistent(hash, Run(hash, steps[..|steps| - 1]), steps[|steps| - 1]);
    } else {
      EmptyConsistent(hash);
    }
  }

  lemma {:induction false} EmptyConsistent(hash: seq<Byte> -> string)
    ensures Consistent(hash, map[])
  {
  }

  lemma {:induction false} ValidHashes(m: Manifest, i: nat)
    requires ValidateManifest(m).None? && i < |m.artifacts|
    ensures IsSha256(m.artifacts[i].sha256)
  {
    assert m.artifacts[i] in m.artifacts;
  }

  /**
   * Over a cache that only such loads have written, a usable entry always has the hash asked for, even when
   * distinct circuits and versions share a key: the load fails only over the declared size.
   */
  lemma {:induction false} HitFailsOnlyOnSize(hash: seq<Byte> -> string, steps: seq<Step>, m: Manifest, i: nat,
                                              w: World)
    requires forall k :: 0 <= k < |steps| ==> steps[k].Valid()
    requires ValidateManifest(m).None? && i < |m.artifacts|
    requires w.cached == Ok(Lookup(Run(hash, steps), CacheKey(m, m.artifacts[i]))) && Fresh(m, true, w)
    ensures var d := m.artifacts[i];
            LoadArtifact(hash, m, d, true, w).result.Ok? <==> d.sizeBytes.Some? ==> d.sizeBytes.value == |w.cached.value.value.bytes|
  {
    hide LoadArtifact, CacheKey, ValidateManifest, Run;
    RunConsistent(hash, steps);
    ValidHashes(m, i);
    KeyEndsInHash(m, m.artifacts[i]);
    DeliveredExactly(hash, m, m.artifacts[i], true, w);
  }
}
