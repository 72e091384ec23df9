/** The asset registry: a primary map by identifier and a secondary index by case-folded symbol. */
module AssetRegistry {
  import opened Prelude
  import opened Text
  import opened OrderedMaps
  import opened Assets

  datatype Registry = Registry(byId: OrderedMap<AssetMetadata>, bySymbol: map<string, string>)

  datatype Op = Register(asset: AssetMetadata) | Remove(id: string)

  const EMPTY := Registry(Empty<AssetMetadata>(), map[])

  /** The display format defaults to decimal. */
  function Normalised(asset: AssetMetadata): AssetMetadata {
    if asset.displayFormat.Some? then asset else asset.(displayFormat := Some(Decimal))
  }

  function AddTo(r: Registry, asset: AssetMetadata): Registry {
    Registry(r.byId.Put(asset.id, Normalised(asset)), r.bySymbol[Lower(asset.symbol) := asset.id])
  }

  function AddAll(assets: seq<AssetMetadata>): Registry {
    if assets == [] then EMPTY else AddTo(AddAll(assets[..|assets| - 1]), assets[|assets| - 1])
  }

  function After(r: Registry, op: Op): Registry {
    match op
    case Register(asset) =>
      AddTo(if asset.id in r.byId.vals then r.(bySymbol := r.bySymbol - {Lower(r.byId.vals[asset.id].symbol)}) else r, asset)
    case Remove(id) =>
      if id !in r.byId.vals then r else Registry(r.byId.Without(id), r.bySymbol - {Lower(r.byId.vals[id].symbol)})
  }

  function Run(r: Registry, ops: seq<Op>): Registry {
    if ops == [] then r else After(Run(r, ops[..|ops| - 1]), ops[|ops| - 1])
  }

  function Lookup(r: Registry, idOrSymbol: string): Option<AssetMetadata> {
    if idOrSymbol in r.byId.vals then Some(r.byId.vals[idOrSymbol])
    else if Lower(idOrSymbol) in r.bySymbol then
      var id := r.bySymbol[Lower(idOrSymbol)];
      if id in r.byId.vals then Some(r.byId.vals[id]) else None
    else None
  }

  function Registrations(inputs: seq<AssetMetadata>): (r: seq<Op>)
    ensures |r| == |inputs|
  {
    seq(|inputs|, i requires 0 <= i < |inputs| => Register(inputs[i]))
  }

  class AssetRegistryClass {
    var byId: OrderedMap<AssetMetadata>
    var bySymbol: map<string, string>

    ghost function View(): Registry
      reads this
    {
      Registry(byId, bySymbol)
    }

    constructor (initial: seq<AssetMetadata>)
      ensures View() == AddAll(initial)
    {
      byId, bySymbol := Empty(), map[];
      new;
      for i := 0 to |initial|
        invariant View() == AddAll(initial[..i])
      {
        assert initial[..i + 1][..i] == initial[..i];
        Add(initial[i]);
      }
      assert initial[..|initial|] == initial;
    }

    method Add(asset: AssetMetadata)
      modifies this
      ensures View() == AddTo(old(View()), asset)
    {
      var entry := Normalised(asset);
      byId := byId.Put(entry.id, entry);
      bySymbol := bySymbol[Lower(entry.symbol) := entry.id];
    }

    method Register(input: AssetMetadata) returns (asset: AssetMetadata)
      modifies this
      ensures View() == After(old(View()), Op.Register(input)) && asset == Normalised(input)
    {
      if input.id in byId.vals {
        bySymbol := bySymbol - {Lower(byId.vals[input.id].symbol)};
      }
      asset := Normalised(input);
      Add(asset);
    }

    method RegisterMany(inputs: seq<AssetMetadata>)
      modifies this
      ensures View() == Run(old(View()), Registrations(inputs))
    {
      var ops := Registrations(inputs);
      for i := 0 to |inputs|
        invariant View() == Run(old(View()), ops[..i])
      {
        assert ops[..i + 1][..i] == ops[..i];
        var _ := Register(inputs[i]);
      }
      assert ops[..|inputs|] == ops;
    }

    method Get(idOrSymbol: string) returns (found: Option<AssetMetadata>)
      ensures found == Lookup(View(), idOrSymbol)
    {
      if idOrSymbol in byId.vals {
        return Some(byId.vals[idOrSymbol]);
      }
      if Lower(idOrSymbol) in bySymbol {
        var id := bySymbol[Lower(idOrSymbol)];
        return if id in byId.vals then Some(byId.vals[id]) else None;
      }
      return None;
    }

    method Remove(id: string) returns (removed: bool)
      modifies this
      ensures View() == After(old(View()), Op.Remove(id)) && (removed <==> id in old(byId.vals))
    {
      if id !in byId.vals {
        return false;
      }
      var existing := byId.vals[id];
      byId := byId.Without(id);
      bySymbol := bySymbol - {Lower(existing.symbol)};
      return true;
    }
  }

  // ----- what is live -----

  predicate About(op: Op, id: string) {
    match op
    case Register(asset) => asset.id == id
    case Remove(other) => other == id
  }

  /** The asset is stored as it was given, its decimals included; only an absent display format becomes decimal. */
  predicate StoredAs(stored: AssetMetadata, given: AssetMetadata) {
    && stored.id == given.id && stored.symbol == given.symbol && stored.assetLabel == given.assetLabel
    && stored.decimals == given.decimals
    && stored.displayFormat == Some(if given.displayFormat == Some(Integer) then Integer else Decimal)
  }

  lemma {:induction false} NormalisedAs(asset: AssetMetadata)
    ensures StoredAs(Normalised(asset), asset)
  {
    if asset.displayFormat.Some? {
      assert asset.displayFormat.value.Decimal? || asset.displayFormat.value.Integer?;
    }
  }

  /** The last operation on an identifier decides whether it is live, and as what. */
  lemma {:induction false} LiveExactly(r: Registry, ops: seq<Op>, id: string, k: nat)
    requires k < |ops| && About(ops[k], id) && forall j :: k < j < |ops| ==> !About(ops[j], id)
    ensures id in Run(r, ops).byId.vals <==> ops[k].Register?
    ensures ops[k].Register? ==> StoredAs(Run(r, ops).byId.vals[id], ops[k].asset)
  {
    hide Lower, StoredAs, Normalised;
    if k < |ops| - 1 {
      LiveExactly(r, ops[..|ops| - 1], id, k);
    } else if ops[k].Register? {
      NormalisedAs(ops[k].asset);
    }
  }

  /** Without an operation on it, an identifier stays as the initial list left it: as its last entry there. */
  lemma {:induction false} UntouchedExactly(initial: seq<AssetMetadata>, ops: seq<Op>, id: string)
    requires forall j :: 0 <= j < |ops| ==> !About(ops[j], id)
    ensures var last := LastWithId(initial, id);
            && (id in Run(AddAll(initial), ops).byId.vals <==> last.Some?)
            && (last.Some? ==> StoredAs(Run(AddAll(initial), ops).byId.vals[id], initial[last.value]))
            && (last.Some? ==> forall j :: last.value < j < |initial| ==> initial[j].id != id)
  {
    hide Lower, StoredAs, Normalised;
    if ops == [] {
      AddAllById(initial, id);
      LastIsLast(initial, id);
      if LastWithId(initial, id).Some? {
        NormalisedAs(initial[LastWithId(initial, id).value]);
      }
    } else {
      UntouchedExactly(initial, ops[..|ops| - 1], id);
    }
  }

  lemma {:induction false} LastIsLast(assets: seq<AssetMetadata>, id: string)
    ensures LastWithId(assets, id).Some? ==> forall j :: LastWithId(assets, id).value < j < |assets| ==> assets[j].id != id
  {
    if assets != [] && assets[|assets| - 1].id != id {
      LastIsLast(assets[..|assets| - 1], id);
    }
  }

  // ----- the symbol index never dangles -----

  predicate PointsAt(r: Registry, symbol: string, id: string) {
    id in r.byId.vals && Lower(r.byId.vals[id].symbol) == symbol
  }

  /** Every index entry points to a live asset that has that symbol. */
  ghost predicate Sound(r: Registry) {
    && r.byId.Valid()
    && (forall id :: id in r.byId.vals ==> r.byId.vals[id].id == id)
    && forall s :: s in r.bySymbol ==> PointsAt(r, s, r.bySymbol[s])
  }

  lemma {:induction false} AddSound(r: Registry, asset: AssetMetadata)
    requires Sound(r)
    requires asset.id in r.byId.vals ==> Lower(r.byId.vals[asset.id].symbol) !in r.bySymbol
    ensures Sound(AddTo(r, asset))
  {
    hide Lower;
    r.byId.PutValid(asset.id, Normalised(asset));
    var t := AddTo(r, asset);
    forall s | s in t.bySymbol ensures PointsAt(t, s, t.bySymbol[s]) {
      assert s in r.bySymbol ==> PointsAt(r, s, r.bySymbol[s]);
    }
  }

  lemma {:induction false} StepSound(r: Registry, op: Op)
    requires Sound(r)
    ensures Sound(After(r, op))
  {
    hide Lower;
    match op {
      case Register(asset) =>
        hide AddTo;
        AddSound(if asset.id in r.byId.vals then r.(bySymbol := r.bySymbol - {Lower(r.byId.vals[asset.id].symbol)}) else r, asset);
      case Remove(id) => WithoutValid(r.byId, id);
    }
  }

  /** The last entry of a list with an identifier, and the last with a folded symbol. */
  function LastWithId(assets: seq<AssetMetadata>, id: string): (r: Option<nat>)
    ensures r.Some? ==> r.value < |assets| && assets[r.value].id == id
    ensures r.None? ==> forall j :: 0 <= j < |assets| ==> assets[j].id != id
  {
    if assets == [] then None
    else if assets[|assets| - 1].id == id then Some(|assets| - 1)
    else LastWithId(assets[..|assets| - 1], id)
  }

  function LastWithSymbol(assets: seq<AssetMetadata>, symbol: string): (r: Option<nat>)
    ensures r.Some? ==> r.value < |assets| && Lower(assets[r.value].symbol) == symbol
    ensures r.Some? ==> forall j :: r.value < j < |assets| ==> Lower(assets[j].symbol) != symbol
    ensures r.None? ==> forall j :: 0 <= j < |assets| ==> Lower(assets[j].symbol) != symbol
  {
    if assets == [] then None
    else if Lower(assets[|assets| - 1].symbol) == symbol then Some(|assets| - 1)
    else LastWithSymbol(assets[..|assets| - 1], symbol)
  }

  /** The initial maps hold the last entry of each identifier and of each symbol. */
  lemma {:induction false} AddAllById(assets: seq<AssetMetadata>, id: string)
    ensures var last := LastWithId(assets, id);
            && (id in AddAll(assets).byId.vals <==> last.Some?)
            && (last.Some? ==> AddAll(assets).byId.vals[id] == Normalised(assets[last.value]))
  {
    hide Lower;
    if assets != [] {
      AddAllById(assets[..|assets| - 1], id);
    }
  }

  lemma {:induction false} AddAllBySymbol(assets: seq<AssetMetadata>, symbol: string)
    ensures var last := LastWithSymbol(assets, symbol);
            && (symbol in AddAll(assets).bySymbol <==> last.Some?)
            && (last.Some? ==> AddAll(assets).bySymbol[symbol] == assets[last.value].id)
  {
    hide Lower;
    if assets != [] {
      AddAllBySymbol(assets[..|assets| - 1], symbol);
    }
  }

  lemma {:induction false} AddAllValid(assets: seq<AssetMetadata>)
    ensures AddAll(assets).byId.Valid()
  {
    hide Lower;
    if assets != [] {
      var last := assets[|assets| - 1];
      AddAllValid(assets[..|assets| - 1]);
      AddAll(assets[..|assets| - 1]).byId.PutValid(last.id, Normalised(last));
    }
  }

  /** Whenever the folded symbol of an entry does not recur later, it is still the symbol of the last entry with its identifier. */
  ghost predicate WellIndexed(assets: seq<AssetMetadata>) {
    forall i :: 0 <= i < |assets| && LastWithSymbol(assets, Lower(assets[i].symbol)) == Some(i) ==> KeepsSymbol(assets, i)
  }

  predicate KeepsSymbol(assets: seq<AssetMetadata>, i: nat)
    requires i < |assets|
  {
    Lower(assets[LastWithId(assets, assets[i].id).value].symbol) == Lower(assets[i].symbol)
  }

  lemma {:induction false} EntryPoints(assets: seq<AssetMetadata>, i: nat)
    requires i < |assets|
    ensures PointsAt(AddAll(assets), Lower(assets[i].symbol), assets[i].id) <==> KeepsSymbol(assets, i)
  {
    hide Lower;
    AddAllById(assets, assets[i].id);
  }

  /** An initial list is indexed soundly exactly when it is well indexed, whatever it repeats. */
  lemma {:induction false} InitialSoundExactly(assets: seq<AssetMetadata>)
    ensures Sound(AddAll(assets)) <==> WellIndexed(assets)
  {
    hide Lower, AddAll, LastWithId, LastWithSymbol, PointsAt, KeepsSymbol;
    var r := AddAll(assets);
    AddAllValid(assets);
    forall id | id in r.byId.vals ensures r.byId.vals[id].id == id {
      AddAllById(assets, id);
    }
    forall i | 0 <= i < |assets| && LastWithSymbol(assets, Lower(assets[i].symbol)) == Some(i)
      ensures Sound(r) ==> KeepsSymbol(assets, i)
    {
      AddAllBySymbol(assets, Lower(assets[i].symbol));
      EntryPoints(assets, i);
    }
    forall s | s in r.bySymbol ensures WellIndexed(assets) ==> PointsAt(r, s, r.bySymbol[s]) {
      AddAllBySymbol(assets, s);
      EntryPoints(assets, LastWithSymbol(assets, s).value);
    }
  }

  /** Distinct identifiers are enough. */
  lemma {:induction false} DistinctIdsIndexed(assets: seq<AssetMetadata>)
    requires forall i, j :: 0 <= i < j < |assets| ==> assets[i].id != assets[j].id
    ensures WellIndexed(assets)
  {
    hide Lower;
    forall i | 0 <= i < |assets| ensures KeepsSymbol(assets, i) {
      var last := LastWithId(assets, assets[i].id).value;
      assert assets[last].id == assets[i].id;
    }
  }

  lemma {:induction false} RunSound(initial: seq<AssetMetadata>, ops: seq<Op>)
    requires WellIndexed(initial)
    ensures Sound(Run(AddAll(initial), ops))
  {
    hide After, Sound, AddAll;
    if ops == [] {
      InitialSoundExactly(initial);
    } else {
      RunSound(initial, ops[..|ops| - 1]);
      StepSound(Run(AddAll(initial), ops[..|ops| - 1]), ops[|ops| - 1]);
    }
  }

  /** No index entry ever dangles, over all runs, exactly for well indexed initial lists. */
  lemma {:induction false} AlwaysSound(initial: seq<AssetMetadata>)
    ensures (forall ops: seq<Op> :: Sound(Run(AddAll(initial), ops))) <==> WellIndexed(initial)
  {
    hide After, Sound, AddAll;
    InitialSoundExactly(initial);
    if WellIndexed(initial) {
      forall ops: seq<Op> ensures Sound(Run(AddAll(initial), ops)) {
        RunSound(initial, ops);
      }
    } else {
      var none: seq<Op> := [];
      assert Run(AddAll(initial), none) == AddAll(initial);
      assert !Sound(Run(AddAll(initial), none));
    }
  }

  /** Hence a lookup only ever finds what was asked for, whether symbols are shared or not. */
  lemma {:induction false} FindsOnlyMatches(initial: seq<AssetMetadata>, ops: seq<Op>, idOrSymbol: string)
    requires WellIndexed(initial)
    ensures var found := Lookup(Run(AddAll(initial), ops), idOrSymbol);
            found.Some? ==> found.value.id == idOrSymbol || Lower(found.value.symbol) == Lower(idOrSymbol)
    ensures idOrSymbol in Run(AddAll(initial), ops).byId.vals ==> Lookup(Run(AddAll(initial), ops), idOrSymbol).value.id == idOrSymbol
  {
    RunSound(initial, ops);
    var r := Run(AddAll(initial), ops);
    hide Run, AddAll;
    if idOrSymbol !in r.byId.vals && Lower(idOrSymbol) in r.bySymbol {
      assert PointsAt(r, Lower(idOrSymbol), r.bySymbol[Lower(idOrSymbol)]);
    }
  }

  // ----- the reference: no index, a scan over the live assets -----

  function Scan(assets: seq<AssetMetadata>, symbol: string): (r: Option<AssetMetadata>)
    ensures r.Some? ==> r.value in assets && Lower(r.value.symbol) == symbol
    ensures r.None? ==> forall a :: a in assets ==> Lower(a.symbol) != symbol
  {
    if assets == [] then None else if Lower(assets[0].symbol) == symbol then Some(assets[0]) else Scan(assets[1..], symbol)
  }

  function ScanLookup(r: Registry, idOrSymbol: string): Option<AssetMetadata>
    requires forall k :: k in r.byId.keys ==> k in r.byId.vals
  {
    if idOrSymbol in r.byId.vals then Some(r.byId.vals[idOrSymbol]) else Scan(r.byId.Values(), Lower(idOrSymbol))
  }

  /** No two live assets share a case-folded symbol. */
  ghost predicate NoShared(r: Registry) {
    forall a, b :: a in r.byId.vals && b in r.byId.vals && Lower(r.byId.vals[a].symbol) == Lower(r.byId.vals[b].symbol) ==> a == b
  }

  /** Every live asset is found in the index. */
  ghost predicate Complete(r: Registry) {
    forall id :: id in r.byId.vals ==> Lower(r.byId.vals[id].symbol) in r.bySymbol && r.bySymbol[Lower(r.byId.vals[id].symbol)] == id
  }

  lemma {:induction false} StepComplete(r: Registry, op: Op)
    requires Sound(r) && Complete(r) && NoShared(After(r, op))
    ensures Complete(After(r, op))
  {
    hide Lower;
    var t := After(r, op);
    forall id | id in t.byId.vals
      ensures Lower(t.byId.vals[id].symbol) in t.bySymbol && t.bySymbol[Lower(t.byId.vals[id].symbol)] == id
    {
      if op.Register? && id != op.asset.id {
        assert op.asset.id in t.byId.vals && t.byId.vals[id] == r.byId.vals[id];
        assert Lower(t.byId.vals[id].symbol) != Lower(t.byId.vals[op.asset.id].symbol);
      }
    }
  }

  lemma {:induction false} InitialComplete(assets: seq<AssetMetadata>)
    requires WellIndexed(assets) && NoShared(AddAll(assets))
    ensures Complete(AddAll(assets))
  {
    hide Lower, AddAll;
    var r := AddAll(assets);
    InitialSoundExactly(assets);
    forall id | id in r.byId.vals
      ensures Lower(r.byId.vals[id].symbol) in r.bySymbol && r.bySymbol[Lower(r.byId.vals[id].symbol)] == id
    {
      var symbol := Lower(r.byId.vals[id].symbol);
      AddAllById(assets, id);
      AddAllBySymbol(assets, symbol);
      assert PointsAt(r, symbol, r.bySymbol[symbol]);
    }
  }

  lemma {:induction false} RunComplete(initial: seq<AssetMetadata>, ops: seq<Op>)
    requires WellIndexed(initial)
    requires forall k :: 0 <= k <= |ops| ==> NoShared(Run(AddAll(initial), ops[..k]))
    ensures Complete(Run(AddAll(initial), ops))
  {
    hide After, Sound, Complete, NoShared, AddAll;
    if ops == [] {
      assert ops[..0] == ops;
      InitialComplete(initial);
    } else {
      var init := ops[..|ops| - 1];
      forall k | 0 <= k <= |init| ensures NoShared(Run(AddAll(initial), init[..k])) {
        assert init[..k] == ops[..k];
      }
      RunComplete(initial, init);
      RunSound(initial, init);
      assert ops[..|ops|] == ops;
      StepComplete(Run(AddAll(initial), init), ops[|ops| - 1]);
    }
  }

  /** When no two live assets ever share a symbol, a lookup agrees with the identifier lookup followed by a linear scan. */
  lemma {:induction false} LookupIsScan(initial: seq<AssetMetadata>, ops: seq<Op>, idOrSymbol: string)
    requires WellIndexed(initial)
    requires forall k :: 0 <= k <= |ops| ==> NoShared(Run(AddAll(initial), ops[..k]))
    ensures var r := Run(AddAll(initial), ops);
            r.byId.Valid() && Lookup(r, idOrSymbol) == ScanLookup(r, idOrSymbol)
  {
    RunSound(initial, ops);
    RunComplete(initial, ops);
    var r := Run(AddAll(initial), ops);
    hide Run, AddAll;
    CompleteIsScan(r, idOrSymbol);
  }

  lemma {:induction false} CompleteIsScan(r: Registry, idOrSymbol: string)
    requires Sound(r) && Complete(r)
    ensures Lookup(r, idOrSymbol) == ScanLookup(r, idOrSymbol)
  {
    if idOrSymbol !in r.byId.vals {
      var symbol, assets := Lower(idOrSymbol), r.byId.Values();
      assert forall i :: 0 <= i < |r.byId.keys| ==> r.byId.keys[i] in r.byId.vals && assets[i] == r.byId.vals[r.byId.keys[i]];
      var found := Scan(assets, symbol);
      if found.Some? {
        var i :| 0 <= i < |assets| && assets[i] == found.value;
        assert r.byId.keys[i] in r.byId.vals;
      }
      if symbol in r.bySymbol {
        LiveIsListed(r, r.bySymbol[symbol]);
        assert PointsAt(r, symbol, r.bySymbol[symbol]);
      }
    }
  }

  lemma {:induction false} LiveIsListed(r: Registry, id: string)
    requires r.byId.Valid() && id in r.byId.vals
    ensures r.byId.vals[id] in r.byId.Values()
  {
    var i :| 0 <= i < |r.byId.keys| && r.byId.keys[i] == id;
    assert r.byId.Values()[i] == r.byId.vals[id];
  }

  lemma {:induction false} AddAllAppend(assets: seq<AssetMetadata>, last: AssetMetadata)
    ensures AddAll(assets + [last]) == AddTo(AddAll(assets), last)
  {
    assert (assets + [last])[..|assets|] == assets;
  }

  lemma {:induction false} RunAppend(r: Registry, ops: seq<Op>, last: Op)
    ensures Run(r, ops + [last]) == After(Run(r, ops), last)
  {
    assert (ops + [last])[..|ops|] == ops;
  }

  function Sample(id: string, symbol: string, decimals: nat): AssetMetadata {
    AssetMetadata(id, symbol, "", decimals, Some(Decimal))
  }

  /** With a shared symbol, removing one asset hides the other from lookups by symbol. */
  lemma {:induction false} SharedSymbolHides(decimals: nat)
    ensures var r := Run(AddAll([Sample("A", "X", decimals)]), [Register(Sample("B", "X", decimals)), Remove("A")]);
            && Lookup(r, "X") == None
            && r.byId.Valid() && ScanLookup(r, "X") == Some(Sample("B", "X", decimals))
  {
    var a, b := Sample("A", "X", decimals), Sample("B", "X", decimals);
    AddAllAppend([], a);
    assert [] + [a] == [a];
    var r0 := AddTo(EMPTY, a);
    RunAppend(r0, [], Register(b));
    RunAppend(r0, [Register(b)], Remove("A"));
    assert [] + [Register(b)] == [Register(b)] && [Register(b)] + [Remove("A")] == [Register(b), Remove("A")];
    hide Run, AddAll;
    var r1 := After(r0, Register(b));
    var r2 := After(r1, Remove("A"));
    assert r1.byId.keys == ["A", "B"];
    assert r2.byId.keys == ["B"] by {
      assert ["A", "B"][1..] == ["B"] && ["B"][1..] == [];
    }
    assert r2.byId.vals == map["B" := b];
    assert Lower("X") !in r2.bySymbol;
    assert r2.byId.Values() == [b];
  }

  lemma {:induction false} ReplacedInPlace(a: AssetMetadata, b: AssetMetadata)
    requires a.id == b.id
    ensures var r := AddTo(AddTo(EMPTY, a), b);
            && (Sound(r) <==> Lower(a.symbol) == Lower(b.symbol))
            && (a.symbol != a.id ==> Lookup(r, a.symbol) == Some(Normalised(b)))
  {
    hide Lower;
    var r := AddTo(AddTo(EMPTY, a), b);
    assert r.byId.keys == [a.id] && r.byId.vals == map[a.id := Normalised(b)];
    assert PointsAt(r, Lower(a.symbol), a.id) <==> Lower(a.symbol) == Lower(b.symbol);
    assert Lower(a.symbol) in r.bySymbol && r.bySymbol[Lower(a.symbol)] == a.id;
    forall s | s in r.bySymbol && Lower(a.symbol) == Lower(b.symbol) ensures PointsAt(r, s, r.bySymbol[s]) {
      assert s == Lower(b.symbol);
    }
    assert r.byId.Valid();
  }

  /** Two entries of one identifier are indexed soundly exactly when they share the symbol; else the first symbol is stale. */
  lemma {:induction false} RepeatedInitialId(a: AssetMetadata, b: AssetMetadata)
    requires a.id == b.id
    ensures Sound(AddAll([a] + [b])) <==> Lower(a.symbol) == Lower(b.symbol)
    ensures a.symbol != a.id ==> Lookup(AddAll([a] + [b]), a.symbol) == Some(Normalised(b))
  {
    hide Lower, Sound, Lookup, AddTo;
    AddAllAppend([], a);
    AddAllAppend([a], b);
    assert [] + [a] == [a];
    ReplacedInPlace(a, b);
  }
}
