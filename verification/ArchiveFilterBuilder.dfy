/** The archive query builder and its serialisation to text parameters. */
module ArchiveFilterBuilder {
  import opened Prelude
  import opened Digits
  import opened Text

  datatype Status = Completed | Failed

  function StatusText(s: Status): string {
    if s == Completed then "completed" else "failed"
  }

  /** Builder state, and equally the snapshot a query closes over. */
  datatype Snapshot = Snapshot(
    employeeIds: seq<string>, assets: seq<string>,
    periodStart: Option<string>, periodEnd: Option<string>,
    status: Option<Status>, minAmount: Option<int>, maxAmount: Option<int>,
    pageSize: Option<int>, cursor: Option<string>)

  const EMPTY := Snapshot([], [], None, None, None, None, None, None, None)

  datatype ValidationError = NegativeMinimum | MaximumBelowMinimum

  /** A call on the builder. */
  datatype Call =
    | ForPeriod(start: string, end: string)
    | ForEmployee(id: string)
    | ForEmployees(ids: seq<string>)
    | WithAsset(asset: string)
    | WithAssets(assets: seq<string>)
    | WithStatus(status: Status)
    | WithMinAmount(amount: int)
    | WithMaxAmount(amount: int)
    | WithPagination(pageSize: Option<int>, cursor: Option<string>)
    | Reset

  /** `set.add(x)` on a set that remembers insertion order. */
  function Add(xs: seq<string>, x: string): seq<string> {
    if x in xs then xs else xs + [x]
  }

  function AddAll(xs: seq<string>, ys: seq<string>): seq<string> {
    if ys == [] then xs else Add(AddAll(xs, ys[..|ys| - 1]), ys[|ys| - 1])
  }

  /** The effect of a call; a refused call changes nothing. */
  function Apply(s: Snapshot, c: Call): Result<Snapshot, ValidationError> {
    match c
    case ForPeriod(start, end) => Ok(s.(periodStart := Some(start), periodEnd := Some(end)))
    case ForEmployee(id) => Ok(s.(employeeIds := Add(s.employeeIds, id)))
    case ForEmployees(ids) => Ok(s.(employeeIds := AddAll(s.employeeIds, ids)))
    case WithAsset(asset) => Ok(s.(assets := Add(s.assets, asset)))
    case WithAssets(assets) => Ok(s.(assets := AddAll(s.assets, assets)))
    case WithStatus(status) => Ok(s.(status := Some(status)))
    case WithMinAmount(amount) => if amount < 0 then Err(NegativeMinimum) else Ok(s.(minAmount := Some(amount)))
    case WithMaxAmount(amount) =>
      if s.minAmount.Some? && amount < s.minAmount.value then Err(MaximumBelowMinimum)
      else Ok(s.(maxAmount := Some(amount)))
    case WithPagination(pageSize, cursor) => Ok(s.(pageSize := pageSize, cursor := cursor))
    case Reset => Ok(EMPTY)
  }

  function After(s: Snapshot, c: Call): Snapshot {
    match Apply(s, c) case Ok(t) => t case Err(_) => s
  }

  function Run(s: Snapshot, calls: seq<Call>): Snapshot {
    if calls == [] then s else After(Run(s, calls[..|calls| - 1]), calls[|calls| - 1])
  }

  class Builder {
    var employeeIds: seq<string>
    var assets: seq<string>
    var periodStart: Option<string>
    var periodEnd: Option<string>
    var status: Option<Status>
    var minAmount: Option<int>
    var maxAmount: Option<int>
    var pageSize: Option<int>
    var cursor: Option<string>

    ghost function View(): Snapshot
      reads this
    {
      Snapshot(employeeIds, assets, periodStart, periodEnd, status, minAmount, maxAmount, pageSize, cursor)
    }

    constructor ()
      ensures View() == EMPTY
    {
      employeeIds, assets := [], [];
      periodStart, periodEnd, status, minAmount, maxAmount, pageSize, cursor := None, None, None, None, None, None, None;
    }

    method ForPeriod(start: string, end: string)
      modifies this
      ensures View() == After(old(View()), Call.ForPeriod(start, end))
    {
      periodStart := Some(start);
      periodEnd := Some(end);
    }

    method ForEmployee(id: string)
      modifies this
      ensures View() == After(old(View()), Call.ForEmployee(id))
    {
      employeeIds := Add(employeeIds, id);
    }

    method ForEmployees(ids: seq<string>)
      modifies this
      ensures View() == After(old(View()), Call.ForEmployees(ids))
    {
      for i := 0 to |ids|
        invariant View() == old(View()).(employeeIds := AddAll(old(employeeIds), ids[..i]))
      {
        assert ids[..i + 1][..i] == ids[..i];
        employeeIds := Add(employeeIds, ids[i]);
      }
      assert ids[..|ids|] == ids;
    }

    method WithAsset(asset: string)
      modifies this
      ensures View() == After(old(View()), Call.WithAsset(asset))
    {
      assets := Add(assets, asset);
    }

    method WithAssets(more: seq<string>)
      modifies this
      ensures View() == After(old(View()), Call.WithAssets(more))
    {
      for i := 0 to |more|
        invariant View() == old(View()).(assets := AddAll(old(assets), more[..i]))
      {
        assert more[..i + 1][..i] == more[..i];
        assets := Add(assets, more[i]);
      }
      assert more[..|more|] == more;
    }

    method WithStatus(s: Status)
      modifies this
      ensures View() == After(old(View()), Call.WithStatus(s))
    {
      status := Some(s);
    }

    method WithMinAmount(amount: int) returns (error: Option<ValidationError>)
      modifies this
      ensures View() == After(old(View()), Call.WithMinAmount(amount))
      ensures error == if amount < 0 then Some(NegativeMinimum) else None
    {
      if amount < 0 {
        return Some(NegativeMinimum);
      }
      minAmount := Some(amount);
      return None;
    }

    method WithMaxAmount(amount: int) returns (error: Option<ValidationError>)
      modifies this
      ensures View() == After(old(View()), Call.WithMaxAmount(amount))
      ensures error == if old(minAmount).Some? && amount < old(minAmount).value then Some(MaximumBelowMinimum) else None
    {
      if minAmount.Some? && amount < minAmount.value {
        return Some(MaximumBelowMinimum);
      }
      maxAmount := Some(amount);
      return None;
    }

    method Paginate(size: Option<int>, from: Option<string>)
      modifies this
      ensures View() == After(old(View()), Call.WithPagination(size, from))
    {
      pageSize, cursor := size, from;
    }

    method Reset()
      modifies this
      ensures View() == EMPTY
    {
      employeeIds, assets := [], [];
      periodStart, periodEnd, status, minAmount, maxAmount, pageSize, cursor := None, None, None, None, None, None, None;
    }

    /** The snapshot is a value: later calls on the builder cannot reach it. */
    method Build() returns (s: Snapshot)
      ensures s == View()
    {
      s := Snapshot(employeeIds, assets, periodStart, periodEnd, status, minAmount, maxAmount, pageSize, cursor);
    }
  }

  // ----- text parameters -----

  /** The names of the parameters. */
  datatype Key =
    | EmployeeIdsKey | AssetsKey | PeriodStartKey | PeriodEndKey | StatusKey | MinAmountKey | MaxAmountKey
    | PageSizeKey | CursorKey

  type Params = map<Key, string>

  /** What each parameter holds; only what was set appears. */
  function ParamOf(s: Snapshot, k: Key): Option<string> {
    match k
    case EmployeeIdsKey => if s.employeeIds != [] then Some(Join(s.employeeIds, ',')) else None
    case AssetsKey => if s.assets != [] then Some(Join(s.assets, ',')) else None
    case PeriodStartKey => s.periodStart
    case PeriodEndKey => s.periodEnd
    case StatusKey => if s.status.Some? then Some(StatusText(s.status.value)) else None
    case MinAmountKey => if s.minAmount.Some? then Some(IntText(s.minAmount.value)) else None
    case MaxAmountKey => if s.maxAmount.Some? then Some(IntText(s.maxAmount.value)) else None
    case PageSizeKey => if s.pageSize.Some? then Some(IntText(s.pageSize.value)) else None
    case CursorKey => s.cursor
  }

  function ParamsOf(s: Snapshot): Params {
    map k: Key | ParamOf(s, k).Some? :: ParamOf(s, k).value
  }

  /** The order in which the parameters are filled in. */
  function Place(k: Key): nat {
    match k
    case EmployeeIdsKey => 0 case AssetsKey => 1 case PeriodStartKey => 2 case PeriodEndKey => 3 case StatusKey => 4
    case MinAmountKey => 5 case MaxAmountKey => 6 case PageSizeKey => 7 case CursorKey => 8
  }

  /** The first `n` parameters have been filled in, and no others. */
  ghost predicate Filled(s: Snapshot, p: Params, n: nat) {
    forall k: Key :: Param(p, k) == if Place(k) < n then ParamOf(s, k) else None
  }

  method Fill(s: Snapshot, p: Params, k: Key, text: Option<string>) returns (q: Params)
    requires Filled(s, p, Place(k)) && text == ParamOf(s, k)
    ensures Filled(s, q, Place(k) + 1)
  {
    q := if text.Some? then p[k := text.value] else p;
  }

  method FillLists(s: Snapshot) returns (params: Params)
    ensures Filled(s, params, Place(StatusKey))
  {
    params := map[];
    assert Filled(s, params, 0);
    hide Filled;
    params := Fill(s, params, EmployeeIdsKey, if |s.employeeIds| > 0 then Some(Join(s.employeeIds, ',')) else None);
    params := Fill(s, params, AssetsKey, if |s.assets| > 0 then Some(Join(s.assets, ',')) else None);
    params := Fill(s, params, PeriodStartKey, s.periodStart);
    params := Fill(s, params, PeriodEndKey, s.periodEnd);
  }

  /** `toParams`, which fills a record field by field. */
  method ToParams(s: Snapshot) returns (params: Params)
    ensures params == ParamsOf(s)
  {
    hide Filled;
    params := FillLists(s);
    params := Fill(s, params, StatusKey, if s.status.Some? then Some(StatusText(s.status.value)) else None);
    params := Fill(s, params, MinAmountKey, if s.minAmount.Some? then Some(IntText(s.minAmount.value)) else None);
    params := Fill(s, params, MaxAmountKey, if s.maxAmount.Some? then Some(IntText(s.maxAmount.value)) else None);
    params := Fill(s, params, PageSizeKey, if s.pageSize.Some? then Some(IntText(s.pageSize.value)) else None);
    params := Fill(s, params, CursorKey, s.cursor);
    AllFilled(s, params);
  }

  lemma {:induction false} AllFilled(s: Snapshot, p: Params)
    requires Filled(s, p, 9)
    ensures p == ParamsOf(s)
  {
    forall k: Key ensures k in p <==> k in ParamsOf(s) {
      assert Param(p, k) == ParamOf(s, k);
    }
    forall k | k in p ensures p[k] == ParamsOf(s)[k] {
      assert Param(p, k) == ParamOf(s, k);
    }
  }

  /** `params[key]`. */
  function Param(p: Params, k: Key): Option<string> {
    if k in p then Some(p[k]) else None
  }

  // ----- runs of the builder -----

  /** Identifiers that survive the comma-separated form. */
  predicate CleanId(id: string) {
    id != "" && Free(id, ',')
  }

  predicate CleanIds(ids: seq<string>) {
    forall i :: 0 <= i < |ids| ==> CleanId(ids[i])
  }

  predicate CleanCall(c: Call) {
    match c
    case ForEmployee(id) => CleanId(id)
    case ForEmployees(ids) => CleanIds(ids)
    case WithAsset(asset) => CleanId(asset)
    case WithAssets(assets) => CleanIds(assets)
    case _ => true
  }

  lemma {:induction false} AddAllClean(xs: seq<string>, ys: seq<string>)
    requires CleanIds(xs) && CleanIds(ys)
    ensures CleanIds(AddAll(xs, ys))
  {
    if ys != [] {
      AddAllClean(xs, ys[..|ys| - 1]);
    }
  }

  /** What every run of clean calls keeps. */
  lemma {:induction false} RunKeepsClean(s: Snapshot, calls: seq<Call>)
    requires CleanIds(s.employeeIds) && CleanIds(s.assets) && (s.minAmount.Some? ==> s.minAmount.value >= 0)
    requires forall i :: 0 <= i < |calls| ==> CleanCall(calls[i])
    ensures var t := Run(s, calls);
            CleanIds(t.employeeIds) && CleanIds(t.assets) && (t.minAmount.Some? ==> t.minAmount.value >= 0)
  {
    if calls != [] {
      RunKeepsClean(s, calls[..|calls| - 1]);
      var t, c := Run(s, calls[..|calls| - 1]), calls[|calls| - 1];
      if c.ForEmployees? {
        AddAllClean(t.employeeIds, c.ids);
      } else if c.WithAssets? {
        AddAllClean(t.assets, c.assets);
      }
    }
  }

  /** Setting the maximum first and the minimum second is accepted with an empty range. */
  lemma {:induction false} BoundsMayCross()
    ensures var s := After(After(EMPTY, WithMaxAmount(5)), WithMinAmount(10));
            s.minAmount == Some(10) && s.maxAmount == Some(5)
  {
  }

  // ----- what a run of calls leaves behind -----

  /** Only the calls after a reset matter. */
  lemma {:induction false} ResetForgets(s: Snapshot, before: seq<Call>, after: seq<Call>)
    ensures Run(s, before + [Reset] + after) == Run(EMPTY, after)
  {
    hide Apply;
    var calls := before + [Reset] + after;
    if after == [] {
      assert calls[..|calls| - 1] == before && calls[|calls| - 1] == Reset;
      ResetEmpties(Run(s, before));
    } else {
      ResetForgets(s, before, after[..|after| - 1]);
      assert calls[..|calls| - 1] == before + [Reset] + after[..|after| - 1];
    }
  }

  lemma {:induction false} ResetEmpties(s: Snapshot)
    ensures After(s, Reset) == EMPTY
  {
  }

  /** Two calls on the same part of the state, of which the later one decides. */
  predicate Overrides(later: Call, earlier: Call) {
    || later.Reset?
    || (earlier.ForPeriod? && later.ForPeriod?)
    || (earlier.WithStatus? && later.WithStatus?)
    || (earlier.WithPagination? && later.WithPagination?)
    || (earlier.WithMinAmount? && later.WithMinAmount? && later.amount >= 0)
    || (earlier.WithMaxAmount? && later.WithMaxAmount?)
  }

  /** The part of the state a call sets is what the call says; a refused amount leaves it alone. */
  predicate Holds(t: Snapshot, s: Snapshot, c: Call) {
    match c
    case ForPeriod(start, end) => t.periodStart == Some(start) && t.periodEnd == Some(end)
    case WithStatus(status) => t.status == Some(status)
    case WithPagination(pageSize, cursor) => t.pageSize == pageSize && t.cursor == cursor
    case WithMinAmount(amount) => t.minAmount == if amount >= 0 then Some(amount) else s.minAmount
    case WithMaxAmount(amount) =>
      t.maxAmount == if s.minAmount.None? || s.minAmount.value <= amount then Some(amount) else s.maxAmount
    case Reset => t == Snapshot([], [], None, None, None, None, None, None, None)
    case _ => true
  }

  /** Over every run, the last call on a part of the state decides it. */
  lemma {:induction false} LastCallDecides(s: Snapshot, calls: seq<Call>, k: nat)
    requires k < |calls| && !calls[k].Reset?
    requires forall j :: k < j < |calls| ==> !Overrides(calls[j], calls[k])
    ensures Holds(Run(s, calls), Run(s, calls[..k]), calls[k])
  {
    var init := calls[..|calls| - 1];
    if k < |init| {
      LastCallDecides(s, init, k);
      assert init[..k] == calls[..k];
    }
  }

  predicate NamesEmployee(c: Call, id: string) {
    (c.ForEmployee? && c.id == id) || (c.ForEmployees? && id in c.ids)
  }

  predicate NamesAsset(c: Call, asset: string) {
    (c.WithAsset? && c.asset == asset) || (c.WithAssets? && asset in c.assets)
  }

  lemma {:induction false} AddAllMembers(xs: seq<string>, ys: seq<string>, x: string)
    ensures x in AddAll(xs, ys) <==> x in xs || x in ys
  {
    if ys != [] {
      AddAllMembers(xs, ys[..|ys| - 1], x);
      assert ys == ys[..|ys| - 1] + [ys[|ys| - 1]];
    }
  }

  lemma {:induction false} AddAllDistinct(xs: seq<string>, ys: seq<string>)
    requires Distinct(xs)
    ensures Distinct(AddAll(xs, ys))
  {
    if ys != [] {
      AddAllDistinct(xs, ys[..|ys| - 1]);
    }
  }

  /** A call that names something, with no reset after it. */
  ghost predicate StillNamed(calls: seq<Call>, names: Call -> bool) {
    exists k :: 0 <= k < |calls| && names(calls[k]) && NoReset(calls[k + 1..])
  }

  predicate NoReset(calls: seq<Call>) {
    forall j :: 0 <= j < |calls| ==> !calls[j].Reset?
  }

  lemma {:induction false} NamedByLast(calls: seq<Call>, names: Call -> bool)
    requires calls != [] && !names(Reset)
    ensures var init, last := calls[..|calls| - 1], calls[|calls| - 1];
            StillNamed(calls, names) <==> names(last) || (!last.Reset? && StillNamed(init, names))
  {
    var init, last := calls[..|calls| - 1], calls[|calls| - 1];
    assert calls[|init| + 1..] == [];
    if k :| 0 <= k < |calls| && names(calls[k]) && NoReset(calls[k + 1..]) {
      if k < |init| {
        assert calls[k + 1..] == init[k + 1..] + [last];
        assert calls[k + 1..][|init| - k - 1] == last && names(init[k]);
        var tail := init[k + 1..];
        forall j | 0 <= j < |tail| ensures !tail[j].Reset? {
          assert calls[k + 1..][j] == tail[j];
        }
      }
    }
    if names(last) {
      assert names(calls[|init|]) && NoReset(calls[|init| + 1..]);
    } else if !last.Reset? && StillNamed(init, names) {
      var k :| 0 <= k < |init| && names(init[k]) && NoReset(init[k + 1..]);
      assert calls[k + 1..] == init[k + 1..] + [last];
      assert names(calls[k]) && NoReset(calls[k + 1..]);
    }
  }

  function NamingEmployee(id: string): Call -> bool {
    (c: Call) => NamesEmployee(c, id)
  }

  function NamingAsset(asset: string): Call -> bool {
    (c: Call) => NamesAsset(c, asset)
  }

  lemma {:induction false} NamedAfter(t: Snapshot, c: Call, x: string)
    requires Distinct(t.employeeIds) && Distinct(t.assets)
    ensures var u := After(t, c);
            && (x in u.employeeIds <==> NamesEmployee(c, x) || (!c.Reset? && x in t.employeeIds))
            && (x in u.assets <==> NamesAsset(c, x) || (!c.Reset? && x in t.assets))
            && Distinct(u.employeeIds) && Distinct(u.assets)
  {
    hide AddAll, Distinct;
    if c.ForEmployees? {
      AddAllMembers(t.employeeIds, c.ids, x);
      AddAllDistinct(t.employeeIds, c.ids);
    } else if c.WithAssets? {
      AddAllMembers(t.assets, c.assets, x);
      AddAllDistinct(t.assets, c.assets);
    } else if c.ForEmployee? {
      AddDistinct(t.employeeIds, c.id);
    } else if c.WithAsset? {
      AddDistinct(t.assets, c.asset);
    } else if c.Reset? {
      NoneDistinct();
    }
  }

  lemma {:induction false} AddDistinct(xs: seq<string>, x: string)
    requires Distinct(xs)
    ensures Distinct(Add(xs, x))
  {
  }

  lemma {:induction false} NoneDistinct()
    ensures Distinct<string>([])
  {
  }

  /** The identifiers and assets of a run: those named since the last reset, each once. */
  lemma {:induction false} NamedExactly(calls: seq<Call>, x: string)
    ensures var t := Run(EMPTY, calls);
            && (x in t.employeeIds <==> StillNamed(calls, NamingEmployee(x)))
            && (x in t.assets <==> StillNamed(calls, NamingAsset(x)))
            && Distinct(t.employeeIds) && Distinct(t.assets)
  {
    hide After, Distinct, StillNamed;
    if calls != [] {
      NamedExactly(calls[..|calls| - 1], x);
      NamedAfter(Run(EMPTY, calls[..|calls| - 1]), calls[|calls| - 1], x);
      NamedByLast(calls, NamingEmployee(x));
      NamedByLast(calls, NamingAsset(x));
    } else {
      NoneDistinct();
      NothingNamed(NamingEmployee(x));
      NothingNamed(NamingAsset(x));
    }
  }

  lemma {:induction false} NothingNamed(names: Call -> bool)
    ensures !StillNamed([], names)
  {
  }

  /** Some `x` stands before every `y`. */
  ghost predicate OccursBefore(all: seq<string>, x: string, y: string) {
    exists i :: 0 <= i < |all| && all[i] == x && y !in all[..i + 1]
  }

  lemma {:induction false} OccursEarlier(all: seq<string>, more: seq<string>, x: string, y: string)
    ensures OccursBefore(all, x, y) ==> OccursBefore(all + more, x, y)
    ensures x in all && y !in all ==> OccursBefore(all + more, x, y)
  {
    if i :| 0 <= i < |all| && all[i] == x && y !in all[..i + 1] {
      assert (all + more)[i] == x && (all + more)[..i + 1] == all[..i + 1];
    }
    if x in all && y !in all {
      var i :| 0 <= i < |all| && all[i] == x;
      assert (all + more)[i] == x && (all + more)[..i + 1] == all[..i + 1];
    }
  }

  /** New identifiers are appended in the order in which they first occur. */
  lemma {:induction false} AddAllOrder(xs: seq<string>, ys: seq<string>, a: nat, b: nat)
    requires Distinct(xs) && a < b < |AddAll(xs, ys)|
    ensures OccursBefore(xs + ys, AddAll(xs, ys)[a], AddAll(xs, ys)[b])
  {
    var r := AddAll(xs, ys);
    AddAllDistinct(xs, ys);
    if ys == [] {
      assert r[b] !in xs[..a + 1];
      assert xs + ys == xs;
    } else {
      var init, last := ys[..|ys| - 1], ys[|ys| - 1];
      var earlier := AddAll(xs, init);
      assert xs + ys == (xs + init) + [last];
      OccursEarlier(xs + init, [last], r[a], r[b]);
      if b < |earlier| {
        AddAllOrder(xs, init, a, b);
      } else {
        AddAllMembers(xs, init, r[a]);
        AddAllMembers(xs, init, last);
      }
    }
  }
}
