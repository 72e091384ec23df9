/** Archived payroll queries: reparsing the parameters, filtering, paging, streaming and summarising. */
module ArchiveQuery {
  import opened Prelude
  import opened Digits
  import opened Text
  import opened Pagination
  import opened OrderedMaps
  import B = ArchiveFilterBuilder

  datatype ArchivedRecord = ArchivedRecord(id: string, amount: int, timestamp: real, status: B.Status, asset: Option<string>)

  /** `Date.parse` in milliseconds, absent for a malformed date. */
  type DateParser = string -> Option<real>

  // ----- reparsing -----

  /** `new Set(text.split(",").filter(Boolean))`. */
  function IdSet(text: string): set<string> {
    set id | id in Split(text, ',') && id != ""
  }

  /** `BigInt(text)` on decimal integers; other texts throw. */
  function BigIntOf(text: string): Option<int> {
    if text == "" then Some(0)
    else if text[0] == '-' then (if |text| > 1 && AllDigits(text[1..]) then Some(0 - Val(text[1..])) else None)
    else if AllDigits(text) then Some(Val(text))
    else None
  }

  /** The filter values computed once from the parameters; the date bounds are in milliseconds, absent when invalid. */
  datatype Filters = Filters(
    status: Option<string>, employees: Option<set<string>>, assets: Option<set<string>>,
    start: Option<Option<real>>, end: Option<Option<real>>, min: Option<int>, max: Option<int>)

  datatype QueryError = InvalidBigInt | PeriodOutOfOrder

  function MapSome<T, U>(o: Option<T>, f: T -> U): Option<U> {
    if o.Some? then Some(f(o.value)) else None
  }

  function ReadFilters(p: B.Params, dates: DateParser): Result<Filters, QueryError> {
    var min, max := B.Param(p, B.MinAmountKey), B.Param(p, B.MaxAmountKey);
    if min.Some? && BigIntOf(min.value).None? then Err(InvalidBigInt)
    else if max.Some? && BigIntOf(max.value).None? then Err(InvalidBigInt)
    else
      Ok(Filters(
           B.Param(p, B.StatusKey),
           MapSome(B.Param(p, B.EmployeeIdsKey), IdSet), MapSome(B.Param(p, B.AssetsKey), IdSet),
           MapSome(B.Param(p, B.PeriodStartKey), dates), MapSome(B.Param(p, B.PeriodEndKey), dates),
           if min.Some? then BigIntOf(min.value) else None, if max.Some? then BigIntOf(max.value) else None))
  }

  predicate Passes(f: Filters, r: ArchivedRecord) {
    && (f.status.Some? ==> B.StatusText(r.status) == f.status.value)
    && (f.employees.Some? ==> r.id in f.employees.value)
    && (f.assets.Some? ==> r.asset.Some? && r.asset.value in f.assets.value)
    && (f.start.Some? ==> f.start.value.Some? && r.timestamp >= f.start.value.value / 1000.0)
    && (f.end.Some? ==> f.end.value.Some? && r.timestamp <= f.end.value.value / 1000.0)
    && (f.min.Some? ==> r.amount >= f.min.value)
    && (f.max.Some? ==> r.amount <= f.max.value)
  }

  /** `applyArchiveQuery`. */
  function ApplyArchiveQuery(records: seq<ArchivedRecord>, p: B.Params, dates: DateParser)
    : Result<seq<ArchivedRecord>, QueryError>
  {
    match ReadFilters(p, dates)
    case Err(e) => Err(e)
    case Ok(f) => if f == Filters(None, None, None, None, None, None, None) then Ok(records)
                  else Ok(Filter(r => Passes(f, r), records))
  }

  // ----- the reference: filtering by the builder state itself -----

  predicate Selected(s: B.Snapshot, dates: DateParser, r: ArchivedRecord) {
    && (s.status.Some? ==> r.status == s.status.value)
    && (s.employeeIds != [] ==> r.id in s.employeeIds)
    && (s.assets != [] ==> r.asset.Some? && r.asset.value in s.assets)
    && (s.periodStart.Some? ==>
          dates(s.periodStart.value).Some? && r.timestamp >= dates(s.periodStart.value).value / 1000.0)
    && (s.periodEnd.Some? ==>
          dates(s.periodEnd.value).Some? && r.timestamp <= dates(s.periodEnd.value).value / 1000.0)
    && (s.minAmount.Some? ==> r.amount >= s.minAmount.value)
    && (s.maxAmount.Some? ==> r.amount <= s.maxAmount.value)
  }

  function Select(s: B.Snapshot, dates: DateParser, records: seq<ArchivedRecord>): seq<ArchivedRecord> {
    Filter(r => Selected(s, dates, r), records)
  }

  lemma {:induction false} ReadIdsAreClean(text: string)
    ensures forall id :: id in IdSet(text) ==> B.CleanId(id)
  {
    var parts := Split(text, ',');
    forall id | id in parts && id != "" ensures B.CleanId(id) {
      var k :| 0 <= k < |parts| && parts[k] == id;
    }
  }

  /** Joining with commas and splitting again restores the set exactly when every identifier is clean. */
  lemma {:induction false} IdsSurvive(ids: seq<string>)
    requires ids != []
    ensures IdSet(Join(ids, ',')) == (set id | id in ids) <==> B.CleanIds(ids)
  {
    var back := IdSet(Join(ids, ','));
    if B.CleanIds(ids) {
      SplitJoin(ids, ',');
      assert forall id :: id in ids ==> id != "";
    } else {
      var i :| 0 <= i < |ids| && !B.CleanId(ids[i]);
      assert ids[i] in (set id | id in ids);
      ReadIdsAreClean(Join(ids, ','));
    }
  }

  lemma {:induction false} BigIntSurvives(n: int)
    ensures BigIntOf(IntText(n)) == Some(n)
  {
    if n < 0 {
      ValNatText(-n);
      assert IntText(n)[1..] == NatText(-n);
    } else {
      ValNatText(n);
      assert NatText(n)[0] != '-';
    }
  }

  /** The decimal integers are exactly the texts that read as one; the empty text reads as zero. */
  lemma {:induction false} BigIntExactly(text: string)
    ensures BigIntOf(text).Some? <==> AllDigits(text) || (|text| > 1 && text[0] == '-' && AllDigits(text[1..]))
    ensures AllDigits(text) ==> BigIntOf(text) == Some(Val(text))
    ensures |text| > 1 && text[0] == '-' && AllDigits(text[1..]) ==> BigIntOf(text) == Some(0 - Val(text[1..]))
  {
    if text != "" && text[0] == '-' {
      assert !IsDigit(text[0]);
    }
  }

  lemma {:induction false} StatusSurvives(a: B.Status, b: B.Status)
    ensures B.StatusText(a) == B.StatusText(b) <==> a == b
    ensures B.StatusText(B.Completed) == "completed" && B.StatusText(B.Failed) == "failed"
  {
    assert |"completed"| != |"failed"|;
  }

  lemma {:induction false} ReadBack(s: B.Snapshot, dates: DateParser)
    requires B.CleanIds(s.employeeIds) && B.CleanIds(s.assets)
    ensures ReadFilters(B.ParamsOf(s), dates).Ok?
    ensures var f := ReadFilters(B.ParamsOf(s), dates).value;
            && f.status == MapSome(s.status, B.StatusText)
            && f.employees == (if s.employeeIds != [] then Some(set id | id in s.employeeIds) else None)
            && f.assets == (if s.assets != [] then Some(set id | id in s.assets) else None)
            && f.start == MapSome(s.periodStart, dates) && f.end == MapSome(s.periodEnd, dates)
            && f.min == s.minAmount && f.max == s.maxAmount
  {
    hide Join, IntText, BigIntOf, IdSet;
    if s.minAmount.Some? {
      BigIntSurvives(s.minAmount.value);
    }
    if s.maxAmount.Some? {
      BigIntSurvives(s.maxAmount.value);
    }
    if s.employeeIds != [] {
      IdsSurvive(s.employeeIds);
    }
    if s.assets != [] {
      IdsSurvive(s.assets);
    }
  }

  lemma {:induction false} PassesIsSelected(s: B.Snapshot, dates: DateParser, r: ArchivedRecord)
    requires B.CleanIds(s.employeeIds) && B.CleanIds(s.assets)
    ensures Passes(ReadFilters(B.ParamsOf(s), dates).value, r) <==> Selected(s, dates, r)
  {
    ReadBack(s, dates);
    if s.status.Some? {
      StatusSurvives(r.status, s.status.value);
    }
  }

  lemma {:induction false} FilterCong<T>(p: T -> bool, q: T -> bool, s: seq<T>)
    requires forall i :: 0 <= i < |s| ==> p(s[i]) == q(s[i])
    ensures Filter(p, s) == Filter(q, s)
  {
    if s != [] {
      FilterCong(p, q, s[1..]);
    }
  }

  lemma {:induction false} FilterAll<T>(p: T -> bool, s: seq<T>)
    requires forall i :: 0 <= i < |s| ==> p(s[i])
    ensures Filter(p, s) == s
  {
    if s != [] {
      FilterAll(p, s[1..]);
    }
  }

  /** Serialising a snapshot, reparsing it and filtering is filtering by the snapshot. */
  lemma {:induction false} QueryMeansSnapshot(s: B.Snapshot, dates: DateParser, records: seq<ArchivedRecord>)
    requires B.CleanIds(s.employeeIds) && B.CleanIds(s.assets)
    ensures ApplyArchiveQuery(records, B.ParamsOf(s), dates) == Ok(Select(s, dates, records))
  {
    ReadBack(s, dates);
    var f := ReadFilters(B.ParamsOf(s), dates).value;
    forall i | 0 <= i < |records| ensures Passes(f, records[i]) == Selected(s, dates, records[i]) {
      PassesIsSelected(s, dates, records[i]);
    }
    FilterCong(r => Passes(f, r), r => Selected(s, dates, r), records);
    if f == Filters(None, None, None, None, None, None, None) {
      FilterAll(r => Passes(f, r), records);
    }
  }

  /** For every run of clean builder calls, the built query filters by the state at `build`. */
  lemma {:induction false} QueryOfAnyRun(calls: seq<B.Call>, dates: DateParser, records: seq<ArchivedRecord>)
    requires forall i :: 0 <= i < |calls| ==> B.CleanCall(calls[i])
    ensures var s := B.Run(B.EMPTY, calls);
            ApplyArchiveQuery(records, B.ParamsOf(s), dates) == Ok(Select(s, dates, records))
  {
    B.RunKeepsClean(B.EMPTY, calls);
    QueryMeansSnapshot(B.Run(B.EMPTY, calls), dates, records);
  }

  // ----- pages and streams -----

  function ValidatePeriodOrdering(p: B.Params, dates: DateParser): Option<QueryError> {
    var start, end := B.Param(p, B.PeriodStartKey), B.Param(p, B.PeriodEndKey);
    if start.Some? && end.Some? && dates(start.value).Some? && dates(end.value).Some?
       && dates(start.value).value > dates(end.value).value
    then Some(PeriodOutOfOrder) else None
  }

  function OrElse<T>(a: Option<T>, b: Option<T>): Option<T> {
    if a.Some? then a else b
  }

  /** Pagination embedded in the query, overridden by what the call site sets. */
  function MergedOptions(p: B.Params, o: PaginationOptions): PaginationOptions {
    var size := B.Param(p, B.PageSizeKey);
    o.(pageSize := OrElse(o.pageSize, if size.Some? then BigIntOf(size.value) else None),
       cursor := OrElse(o.cursor, B.Param(p, B.CursorKey)))
  }

  /** `getArchivedPayrollPage`. */
  function GetArchivedPayrollPage(codec: Codec, records: seq<ArchivedRecord>, p: B.Params, dates: DateParser,
                                  o: PaginationOptions): Result<PageResult<ArchivedRecord>, QueryError>
  {
    if ValidatePeriodOrdering(p, dates).Some? then Err(PeriodOutOfOrder)
    else
      match ApplyArchiveQuery(records, p, dates)
      case Err(e) => Err(e)
      case Ok(filtered) => Ok(Paginate(codec, filtered, MergedOptions(p, o)))
  }

  /** A page of a built query is the page of the records its snapshot selects, at its own size and cursor. */
  lemma {:induction false} PageOfSnapshot(codec: Codec, s: B.Snapshot, dates: DateParser,
                                          records: seq<ArchivedRecord>, o: PaginationOptions)
    requires B.CleanIds(s.employeeIds) && B.CleanIds(s.assets)
    ensures var page := GetArchivedPayrollPage(codec, records, B.ParamsOf(s), dates, o);
            && (page.Err? <==>
                  && s.periodStart.Some? && s.periodEnd.Some?
                  && dates(s.periodStart.value).Some? && dates(s.periodEnd.value).Some?
                  && dates(s.periodStart.value).value > dates(s.periodEnd.value).value)
            && (page.Err? ==> page.error == PeriodOutOfOrder)
            && (page.Ok? ==>
                  page.value == Paginate(codec, Select(s, dates, records),
                                         o.(pageSize := if o.pageSize.Some? then o.pageSize else s.pageSize,
                                            cursor := if o.cursor.Some? then o.cursor else s.cursor)))
  {
    hide Paginate, Select, ApplyArchiveQuery, BigIntOf, IntText, Join;
    QueryMeansSnapshot(s, dates, records);
    if s.pageSize.Some? {
      BigIntSurvives(s.pageSize.value);
    }
  }

  /** `archiveIterator`: the streamed pages concatenate to the filtered records. */
  method ArchiveIterator(codec: Codec, records: seq<ArchivedRecord>, p: B.Params, dates: DateParser,
                         pageSize: Option<int>)
    returns (pages: Result<seq<PageResult<ArchivedRecord>>, QueryError>)
    requires codec.Faithful()
    ensures pages.Err? <==> ApplyArchiveQuery(records, p, dates).Err?
    ensures pages.Err? ==> pages.error == InvalidBigInt
    ensures pages.Ok? ==>
              && Flatten(pages.value) == ApplyArchiveQuery(records, p, dates).value
              && Covers(codec, ApplyArchiveQuery(records, p, dates).value, 0, ResolvePageSize(pageSize), Forward, pages.value)
  {
    var filtered := ApplyArchiveQuery(records, p, dates);
    if filtered.Err? {
      return Err(filtered.error);
    }
    var size := ResolvePageSize(pageSize);
    var stream := PaginateIterator(codec, filtered.value, PaginationOptions(None, None, Some(size), None));
    assert filtered.value[0..] == filtered.value;
    return Ok(stream);
  }

  // ----- the summary report -----

  datatype BreakdownEntry = BreakdownEntry(totalCount: nat, completedCount: nat, failedCount: nat)

  datatype SummaryReport = SummaryReport(periodStart: string, periodEnd: string, totalCount: nat, completedCount: nat,
                                         failedCount: nat, assetBreakdown: OrderedMap<BreakdownEntry>)

  function BreakdownKey(r: ArchivedRecord): string {
    if r.asset.Some? && r.asset.value != "" then r.asset.value else "unknown"
  }

  predicate IsCompleted(r: ArchivedRecord) {
    r.status == B.Completed
  }

  function Counted(e: BreakdownEntry, completed: bool): BreakdownEntry {
    BreakdownEntry(e.totalCount + 1, e.completedCount + (if completed then 1 else 0), e.failedCount + (if completed then 0 else 1))
  }

  /** The counters of one key over a list of records. */
  function EntryFor(records: seq<ArchivedRecord>, key: string): BreakdownEntry {
    BreakdownEntry(Count((r: ArchivedRecord) => BreakdownKey(r) == key, records),
                   Count((r: ArchivedRecord) => BreakdownKey(r) == key && IsCompleted(r), records),
                   Count((r: ArchivedRecord) => BreakdownKey(r) == key && !IsCompleted(r), records))
  }

  /** Column sums over the breakdown. */
  function SumEntries(keys: seq<string>, m: map<string, BreakdownEntry>): BreakdownEntry
    requires forall k :: k in keys ==> k in m
  {
    if keys == [] then BreakdownEntry(0, 0, 0)
    else
      var rest, e := SumEntries(keys[1..], m), m[keys[0]];
      BreakdownEntry(rest.totalCount + e.totalCount, rest.completedCount + e.completedCount, rest.failedCount + e.failedCount)
  }

  lemma {:induction false} SumUnchanged(keys: seq<string>, m: map<string, BreakdownEntry>, k: string, e: BreakdownEntry)
    requires (forall x :: x in keys ==> x in m) && k !in keys
    ensures SumEntries(keys, m[k := e]) == SumEntries(keys, m)
  {
    if keys != [] {
      SumUnchanged(keys[1..], m, k, e);
    }
  }

  /** Counting one record under an existing key adds one to the sums. */
  lemma {:induction false} SumBumped(keys: seq<string>, m: map<string, BreakdownEntry>, k: string, completed: bool)
    requires (forall x :: x in keys ==> x in m) && k in keys
    requires forall i, j :: 0 <= i < j < |keys| ==> keys[i] != keys[j]
    ensures SumEntries(keys, m[k := Counted(m[k], completed)]) == Counted(SumEntries(keys, m), completed)
  {
    if keys[0] == k {
      SumUnchanged(keys[1..], m, k, Counted(m[k], completed));
    } else {
      SumBumped(keys[1..], m, k, completed);
    }
  }

  /** Listing a fresh key with zero counters adds nothing to the sums. */
  lemma {:induction false} SumExtended(keys: seq<string>, m: map<string, BreakdownEntry>, k: string)
    requires (forall x :: x in keys ==> x in m) && k !in keys
    ensures SumEntries(keys + [k], m[k := BreakdownEntry(0, 0, 0)]) == SumEntries(keys, m)
  {
    var m' := m[k := BreakdownEntry(0, 0, 0)];
    if keys == [] {
      assert [] + [k] == [k];
      assert SumEntries([k][1..], m') == BreakdownEntry(0, 0, 0);
    } else {
      SumExtended(keys[1..], m, k);
      assert (keys + [k])[1..] == keys[1..] + [k];
      assert keys[0] in keys;
    }
  }

  /** The counters of records whose key is not inherited from the object prototype. */
  function OwnTotals(records: seq<ArchivedRecord>, inherited: set<string>): BreakdownEntry {
    BreakdownEntry(Count((r: ArchivedRecord) => BreakdownKey(r) !in inherited, records),
                   Count((r: ArchivedRecord) => BreakdownKey(r) !in inherited && IsCompleted(r), records),
                   Count((r: ArchivedRecord) => BreakdownKey(r) !in inherited && !IsCompleted(r), records))
  }

  /** The breakdown holds one entry for each own key that occurs, with that key's counters. */
  ghost predicate IsBreakdown(b: OrderedMap<BreakdownEntry>, records: seq<ArchivedRecord>, inherited: set<string>) {
    && b.Valid()
    && (forall k :: k in b.vals ==> k !in inherited && b.vals[k] == EntryFor(records, k))
    && (forall i :: 0 <= i < |records| && BreakdownKey(records[i]) !in inherited ==> BreakdownKey(records[i]) in b.vals)
    && SumEntries(b.keys, b.vals) == OwnTotals(records, inherited)
  }

  lemma {:induction false} EntryForAppend(records: seq<ArchivedRecord>, r: ArchivedRecord, key: string)
    ensures EntryFor(records + [r], key) ==
            if BreakdownKey(r) == key then Counted(EntryFor(records, key), IsCompleted(r)) else EntryFor(records, key)
  {
    CountAppend((x: ArchivedRecord) => BreakdownKey(x) == key, records, r);
    CountAppend((x: ArchivedRecord) => BreakdownKey(x) == key && IsCompleted(x), records, r);
    CountAppend((x: ArchivedRecord) => BreakdownKey(x) == key && !IsCompleted(x), records, r);
  }

  lemma {:induction false} OwnTotalsAppend(records: seq<ArchivedRecord>, r: ArchivedRecord, inherited: set<string>)
    ensures OwnTotals(records + [r], inherited) ==
            if BreakdownKey(r) !in inherited then Counted(OwnTotals(records, inherited), IsCompleted(r))
            else OwnTotals(records, inherited)
  {
    CountAppend((x: ArchivedRecord) => BreakdownKey(x) !in inherited, records, r);
    CountAppend((x: ArchivedRecord) => BreakdownKey(x) !in inherited && IsCompleted(x), records, r);
    CountAppend((x: ArchivedRecord) => BreakdownKey(x) !in inherited && !IsCompleted(x), records, r);
  }

  lemma {:induction false} FreshKeyCountsNothing(records: seq<ArchivedRecord>, key: string)
    requires forall i :: 0 <= i < |records| ==> BreakdownKey(records[i]) != key
    ensures EntryFor(records, key) == BreakdownEntry(0, 0, 0)
  {
    CountZero((x: ArchivedRecord) => BreakdownKey(x) == key, records);
    CountZero((x: ArchivedRecord) => BreakdownKey(x) == key && IsCompleted(x), records);
    CountZero((x: ArchivedRecord) => BreakdownKey(x) == key && !IsCompleted(x), records);
  }

  /** A zero entry for a key that has not occurred keeps the breakdown right. */
  lemma {:induction false} FreshEntry(b: OrderedMap<BreakdownEntry>, seen: seq<ArchivedRecord>, key: string,
                                      inherited: set<string>)
    requires IsBreakdown(b, seen, inherited) && key !in inherited && !b.Has(key)
    ensures IsBreakdown(b.Put(key, BreakdownEntry(0, 0, 0)), seen, inherited)
  {
    hide EntryFor, OwnTotals, Count, SumEntries;
    FreshKeyCountsNothing(seen, key);
    SumExtended(b.keys, b.vals, key);
  }

  lemma {:induction false} BumpedEntry(b: OrderedMap<BreakdownEntry>, seen: seq<ArchivedRecord>, r: ArchivedRecord,
                                       inherited: set<string>)
    requires IsBreakdown(b, seen, inherited)
    requires BreakdownKey(r) !in inherited ==> b.Has(BreakdownKey(r))
    ensures var key := BreakdownKey(r);
            IsBreakdown(if key in inherited then b else b.Put(key, Counted(b.vals[key], IsCompleted(r))), seen + [r], inherited)
  {
    var key := BreakdownKey(r);
    OwnTotalsAppend(seen, r, inherited);
    forall k ensures EntryFor(seen + [r], k) == if key == k then Counted(EntryFor(seen, k), IsCompleted(r)) else EntryFor(seen, k) {
      EntryForAppend(seen, r, k);
    }
    hide EntryFor, OwnTotals, Count, SumEntries;
    if key !in inherited {
      SumBumped(b.keys, b.vals, key, IsCompleted(r));
    }
  }

  /** Counting one more record in the breakdown. */
  method CountRecord(b: OrderedMap<BreakdownEntry>, ghost seen: seq<ArchivedRecord>, r: ArchivedRecord,
                     inherited: set<string>)
    returns (c: OrderedMap<BreakdownEntry>)
    requires IsBreakdown(b, seen, inherited)
    ensures IsBreakdown(c, seen + [r], inherited)
  {
    hide IsBreakdown;
    var key := BreakdownKey(r);
    c := b;
    if key !in inherited && !c.Has(key) {
      FreshEntry(c, seen, key, inherited);
      c := c.Put(key, BreakdownEntry(0, 0, 0));
    }
    BumpedEntry(c, seen, r, inherited);
    if key !in inherited {
      c := c.Put(key, Counted(c.vals[key], IsCompleted(r)));
    }
  }

  /**
   * `buildArchiveSummaryReport`. A key that every object inherits reads as already present, so its records
   * get no entry of their own.
   */
  method BuildArchiveSummaryReport(records: seq<ArchivedRecord>, p: B.Params, dates: DateParser, inherited: set<string>)
    returns (r: Result<SummaryReport, QueryError>)
    ensures r.Err? <==> ValidatePeriodOrdering(p, dates).Some? || ApplyArchiveQuery(records, p, dates).Err?
    ensures r.Err? ==> r.error == if ValidatePeriodOrdering(p, dates).Some? then PeriodOutOfOrder else InvalidBigInt
    ensures r.Ok? ==>
              var filtered := ApplyArchiveQuery(records, p, dates).value;
              && r.value.totalCount == |filtered|
              && r.value.completedCount == |set i | 0 <= i < |filtered| && filtered[i].status == B.Completed|
              && r.value.completedCount + r.value.failedCount == r.value.totalCount
              && IsBreakdown(r.value.assetBreakdown, filtered, inherited)
              && r.value.periodStart == (match B.Param(p, B.PeriodStartKey) case Some(t) => t case None => "")
              && r.value.periodEnd == (match B.Param(p, B.PeriodEndKey) case Some(t) => t case None => "")
  {
    if ValidatePeriodOrdering(p, dates).Some? {
      return Err(PeriodOutOfOrder);
    }
    var applied := ApplyArchiveQuery(records, p, dates);
    if applied.Err? {
      return Err(applied.error);
    }
    var filtered := applied.value;
    var totalCount, completedCount, failedCount := 0, 0, 0;
    var breakdown := Empty<BreakdownEntry>();
    for i := 0 to |filtered|
      invariant totalCount == i && completedCount + failedCount == i
      invariant completedCount == Count(IsCompleted, filtered[..i])
      invariant IsBreakdown(breakdown, filtered[..i], inherited)
    {
      hide IsBreakdown;
      assert filtered[..i + 1] == filtered[..i] + [filtered[i]];
      CountAppend(IsCompleted, filtered[..i], filtered[i]);
      totalCount := totalCount + 1;
      if IsCompleted(filtered[i]) {
        completedCount := completedCount + 1;
      } else {
        failedCount := failedCount + 1;
      }
      breakdown := CountRecord(breakdown, filtered[..i], filtered[i], inherited);
    }
    assert filtered[..|filtered|] == filtered;
    CountIsCard(IsCompleted, filtered);
    assert Places(IsCompleted, filtered) == set i | 0 <= i < |filtered| && filtered[i].status == B.Completed;
    return Ok(SummaryReport(match B.Param(p, B.PeriodStartKey) case Some(t) => t case None => "",
                            match B.Param(p, B.PeriodEndKey) case Some(t) => t case None => "",
                            totalCount, completedCount, failedCount, breakdown));
  }

  /** The records of an asset; an absent or empty asset is filed under "unknown". */
  predicate FiledUnder(r: ArchivedRecord, key: string) {
    if r.asset.None? || r.asset.value == "" then key == "unknown" else key == r.asset.value
  }

  lemma {:induction false} CountedPlaces(records: seq<ArchivedRecord>, p: ArchivedRecord -> bool, places: set<int>)
    requires forall i :: i in places <==> 0 <= i < |records| && p(records[i])
    ensures Count(p, records) == |places|
  {
    CountIsCard(p, records);
    assert Places(p, records) == places;
  }

  /** A breakdown has an entry for each own key under which a record is filed, counting those records by outcome. */
  lemma {:induction false} BreakdownExactly(b: OrderedMap<BreakdownEntry>, records: seq<ArchivedRecord>,
                                            inherited: set<string>, key: string)
    requires IsBreakdown(b, records, inherited)
    ensures key in b.vals ==>
              var e := b.vals[key];
              && e.totalCount == |set i | 0 <= i < |records| && FiledUnder(records[i], key)|
              && e.completedCount == |set i | 0 <= i < |records| && FiledUnder(records[i], key) && records[i].status == B.Completed|
              && e.failedCount == |set i | 0 <= i < |records| && FiledUnder(records[i], key) && records[i].status == B.Failed|
    ensures key !in inherited && (exists i :: 0 <= i < |records| && FiledUnder(records[i], key)) ==> key in b.vals
    ensures key in inherited ==> key !in b.vals
  {
    hide Count;
    CountedPlaces(records, (r: ArchivedRecord) => BreakdownKey(r) == key, set i | 0 <= i < |records| && FiledUnder(records[i], key));
    CountedPlaces(records, (r: ArchivedRecord) => BreakdownKey(r) == key && IsCompleted(r),
                  set i | 0 <= i < |records| && FiledUnder(records[i], key) && records[i].status == B.Completed);
    CountedPlaces(records, (r: ArchivedRecord) => BreakdownKey(r) == key && !IsCompleted(r),
                  set i | 0 <= i < |records| && FiledUnder(records[i], key) && records[i].status == B.Failed);
  }

  /** The per-asset counts sum to the report's totals exactly when no record's asset names an inherited property. */
  lemma {:induction false} BreakdownSums(b: OrderedMap<BreakdownEntry>, records: seq<ArchivedRecord>,
                                         inherited: set<string>)
    requires IsBreakdown(b, records, inherited)
    ensures SumEntries(b.keys, b.vals) ==
            BreakdownEntry(|records|, Count(IsCompleted, records), Count((r: ArchivedRecord) => !IsCompleted(r), records)) <==>
            forall i :: 0 <= i < |records| ==> BreakdownKey(records[i]) !in inherited
  {
    CountBound((r: ArchivedRecord) => BreakdownKey(r) !in inherited, records);
    if forall i :: 0 <= i < |records| ==> BreakdownKey(records[i]) !in inherited {
      CountCong((r: ArchivedRecord) => BreakdownKey(r) !in inherited && IsCompleted(r), IsCompleted, records);
      CountCong((r: ArchivedRecord) => BreakdownKey(r) !in inherited && !IsCompleted(r), (r: ArchivedRecord) => !IsCompleted(r), records);
      CountComplement(records);
    }
  }

  lemma {:induction false} CountCong<T>(p: T -> bool, q: T -> bool, s: seq<T>)
    requires forall i :: 0 <= i < |s| ==> p(s[i]) == q(s[i])
    ensures Count(p, s) == Count(q, s)
  {
    if s != [] {
      CountCong(p, q, s[..|s| - 1]);
    }
  }

  lemma {:induction false} CountComplement(records: seq<ArchivedRecord>)
    ensures Count(IsCompleted, records) + Count((r: ArchivedRecord) => !IsCompleted(r), records) == |records|
  {
    if records != [] {
      CountComplement(records[..|records| - 1]);
    }
  }
}
