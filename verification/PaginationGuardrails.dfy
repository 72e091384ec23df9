/** Guarded traversal of an arbitrary, possibly hostile page source. */
module PaginationGuardrails {
  import opened Prelude

  const DEFAULT_MAX_PAGES := 100.0
  const ABSOLUTE_MAX_PAGES := 10000.0
  const DEFAULT_MAX_RECORDS := 10000.0
  const MIN_PAGE_SIZE := 1
  const MAX_PAGE_SIZE := 100

  datatype GuardrailOptions = GuardrailOptions(maxPageSize: Option<real>, maxPages: Option<real>, maxRecords: Option<real>)

  datatype Guardrails = Guardrails(maxPageSize: nat, maxPages: nat, maxRecords: nat)

  datatype RangeError = BadMaxPages | MaxPagesTooLarge | BadMaxRecords

  predicate PositiveInteger(x: real) {
    x.Floor as real == x && x >= 1.0
  }

  function OrElse(x: Option<real>, fallback: real): real {
    if x.Some? then x.value else fallback
  }

  /** Every page size is clamped; page and record budgets are refused when they are not positive integers in range. */
  function ResolveGuardrails(o: GuardrailOptions): (r: Result<Guardrails, RangeError>)
    ensures r.Ok? <==>
            && PositiveInteger(OrElse(o.maxPages, DEFAULT_MAX_PAGES))
            && OrElse(o.maxPages, DEFAULT_MAX_PAGES) <= ABSOLUTE_MAX_PAGES
            && PositiveInteger(OrElse(o.maxRecords, DEFAULT_MAX_RECORDS))
    ensures r.Ok? ==> MIN_PAGE_SIZE <= r.value.maxPageSize <= MAX_PAGE_SIZE && 1 <= r.value.maxPages <= 10000 && 1 <= r.value.maxRecords
    ensures r.Ok? ==> r.value.maxPages as real == OrElse(o.maxPages, 100.0) && r.value.maxRecords as real == OrElse(o.maxRecords, 10000.0)
  {
    var pages, records := OrElse(o.maxPages, DEFAULT_MAX_PAGES), OrElse(o.maxRecords, DEFAULT_MAX_RECORDS);
    if !PositiveInteger(pages) then Err(BadMaxPages)
    else if pages > ABSOLUTE_MAX_PAGES then Err(MaxPagesTooLarge)
    else if !PositiveInteger(records) then Err(BadMaxRecords)
    else
      var size := if o.maxPageSize.None? then MAX_PAGE_SIZE
                  else Max(MIN_PAGE_SIZE, Min(MAX_PAGE_SIZE, o.maxPageSize.value.Floor));
      Ok(Guardrails(size, pages.Floor, records.Floor))
  }

  /** The budgets granted are those asked for; a page size is kept when in range, and otherwise moved to the nearer end. */
  lemma {:induction false} GuardrailsExactly(o: GuardrailOptions)
    ensures var r := ResolveGuardrails(o);
            var pages := if o.maxPages.Some? then o.maxPages.value else 100.0;
            var records := if o.maxRecords.Some? then o.maxRecords.value else 10000.0;
            && (r == Err(BadMaxPages) <==> pages < 1.0 || pages.Floor as real != pages)
            && (r == Err(MaxPagesTooLarge) <==> pages.Floor as real == pages && pages > 10000.0)
            && (r == Err(BadMaxRecords) <==>
                  1.0 <= pages <= 10000.0 && pages.Floor as real == pages && (records < 1.0 || records.Floor as real != records))
            && (r.Ok? ==>
                  && r.value.maxPages as real == pages && r.value.maxRecords as real == records
                  && (o.maxPageSize.None? || o.maxPageSize.value >= 100.0 ==> r.value.maxPageSize == 100)
                  && (o.maxPageSize.Some? && o.maxPageSize.value < 1.0 ==> r.value.maxPageSize == 1)
                  && (o.maxPageSize.Some? && 1.0 <= o.maxPageSize.value < 100.0 ==>
                        r.value.maxPageSize as real <= o.maxPageSize.value < r.value.maxPageSize as real + 1.0))
  {
  }

  // ----- sources -----

  datatype Page<T> = Page(items: seq<T>, nextCursor: Option<string>)

  /** What one fetch gives: a rejection, a value that is not a page, or a page. */
  datatype Response<T> = Rejects | NotAPage | Returned(page: Page<T>)

  /** An arbitrary source: its answer may depend on how often it was called, not only on the cursor. */
  type Source<!T> = (nat, Option<string>) -> Response<T>

  /** What the abort signal reads just before and just after the k-th fetch. */
  datatype Signal = Signal(before: nat -> bool, after: nat -> bool)

  predicate WellFormed<T>(r: Response<T>) {
    r.Returned? && (r.page.nextCursor.Some? ==> r.page.nextCursor.value != "")
  }

  datatype Outcome =
    | Done | Aborted | SourceRejected | InvalidPage | RecordBudgetExceeded | RepeatedCursor | PageBudgetExceeded

  // ----- the unguarded traversal, as the reference -----

  /** The cursor of the k-th fetch when following the source without limits; `None` once the chain has ended. */
  ghost function Chain<T>(source: Source<T>, k: nat): Option<Option<string>> {
    if k == 0 then Some(None)
    else
      match Chain(source, k - 1)
      case None => None
      case Some(c) =>
        var r := source(k - 1, c);
        if WellFormed(r) && r.page.nextCursor.Some? then Some(r.page.nextCursor) else None
  }

  /** The records of the first `n` fetches along the chain. */
  ghost function Records<T>(source: Source<T>, n: nat): seq<T> {
    if n == 0 then []
    else Records(source, n - 1) +
         match Chain(source, n - 1)
         case Some(c) => (match source(n - 1, c) case Returned(page) => page.items case _ => [])
         case None => []
  }

  ghost predicate Acyclic<T>(source: Source<T>, n: nat) {
    forall i, j :: 0 <= i < j < n ==> Chain(source, i) != Chain(source, j)
  }

  /** The chain ends by itself after exactly `n` fetches. */
  ghost predicate EndsAfter<T>(source: Source<T>, n: nat) {
    n >= 1 && Chain(source, n - 1).Some? &&
    var r := source(n - 1, Chain(source, n - 1).value);
    WellFormed(r) && r.page.nextCursor.None?
  }

  /** A finite acyclic source within both budgets, not aborted while it is read. */
  ghost predicate Finishes<T>(source: Source<T>, signal: Signal, limits: Guardrails, n: nat) {
    && EndsAfter(source, n) && n <= limits.maxPages && Acyclic(source, n)
    && |Records(source, n)| <= limits.maxRecords
    && forall j :: 0 <= j < n ==> !signal.before(j) && !signal.after(j)
  }

  lemma {:induction false} ChainStops<T>(source: Source<T>, k: nat, n: nat)
    requires k <= n && Chain(source, n).Some?
    ensures Chain(source, k).Some?
    decreases n
  {
    if k < n {
      ChainStops(source, k, n - 1);
    }
  }

  lemma {:induction false} RecordsGrow<T>(source: Source<T>, k: nat, n: nat)
    requires k <= n
    ensures |Records(source, k)| <= |Records(source, n)|
    decreases n
  {
    if k < n {
      RecordsGrow(source, k, n - 1);
    }
  }

  /** A finishing source is still running at every earlier fetch. */
  lemma {:induction false} FinishReaches<T>(source: Source<T>, signal: Signal, limits: Guardrails, n: nat, k: nat)
    requires Finishes(source, signal, limits, n) && Chain(source, k).Some?
    ensures k < n && WellFormed(source(k, Chain(source, k).value))
    ensures !signal.before(k) && !signal.after(k)
    ensures |Records(source, k + 1)| <= limits.maxRecords
    ensures k + 1 < n <==> source(k, Chain(source, k).value).page.nextCursor.Some?
  {
    if k >= n {
      ChainStops(source, n, k);
      assert false;
    }
    RecordsGrow(source, k + 1, n);
    if k + 1 < n {
      ChainStops(source, k + 1, n - 1);
    }
  }

  lemma {:induction false} OneFetch<T>(source: Source<T>, k: nat)
    requires Chain(source, k).Some?
    ensures var r := source(k, Chain(source, k).value);
            && Records(source, k + 1) == Records(source, k) + (if r.Returned? then r.page.items else [])
            && Chain(source, k + 1) == (if WellFormed(r) && r.page.nextCursor.Some? then Some(r.page.nextCursor) else None)
            && (EndsAfter(source, k + 1) <==> WellFormed(r) && r.page.nextCursor.None?)
  {
  }

  lemma {:induction false} FailsAt<T>(source: Source<T>, signal: Signal, limits: Guardrails, k: nat)
    requires Chain(source, k).Some?
    requires signal.before(k) || signal.after(k) || !WellFormed(source(k, Chain(source, k).value))
             || |Records(source, k + 1)| > limits.maxRecords
    ensures forall n :: !Finishes(source, signal, limits, n)
  {
    forall n ensures !Finishes(source, signal, limits, n) {
      if Finishes(source, signal, limits, n) {
        FinishReaches(source, signal, limits, n, k);
      }
    }
  }

  lemma {:induction false} FailsByRepeat<T>(source: Source<T>, signal: Signal, limits: Guardrails, at: nat, k: nat)
    requires at < k && Chain(source, at) == Chain(source, k) && Chain(source, k).Some?
    ensures forall n :: !Finishes(source, signal, limits, n)
  {
    forall n ensures !Finishes(source, signal, limits, n) {
      if Finishes(source, signal, limits, n) {
        FinishReaches(source, signal, limits, n, k);
      }
    }
  }

  lemma {:induction false} FailsByPages<T>(source: Source<T>, signal: Signal, limits: Guardrails)
    requires Chain(source, limits.maxPages).Some?
    ensures forall n :: !Finishes(source, signal, limits, n)
  {
    forall n ensures !Finishes(source, signal, limits, n) {
      if Finishes(source, signal, limits, n) {
        FinishReaches(source, signal, limits, n, limits.maxPages);
      }
    }
  }

  lemma {:induction false} FinishIsUnique<T>(source: Source<T>, signal: Signal, limits: Guardrails, m: nat)
    requires Finishes(source, signal, limits, m)
    ensures forall n :: Finishes(source, signal, limits, n) ==> n == m
  {
    forall n: nat | Finishes(source, signal, limits, n) ensures n == m {
      FinishReaches(source, signal, limits, n, m - 1);
      FinishReaches(source, signal, limits, m, n - 1);
    }
  }

  // ----- the guarded traversal -----

  /** Yields the items of one page until the record budget stops it. */
  method YieldItems<T>(items: seq<T>, before: seq<T>, maxRecords: nat) returns (yielded: seq<T>, exceeded: bool)
    requires |before| <= maxRecords
    ensures exceeded <==> |before| + |items| > maxRecords
    ensures yielded == if exceeded then before + items[..maxRecords - |before|] else before + items
  {
    yielded := before;
    var i := 0;
    while i < |items|
      invariant 0 <= i <= |items| && yielded == before + items[..i] && |yielded| <= maxRecords
    {
      if |yielded| >= maxRecords {
        return yielded, true;
      }
      yielded := yielded + [items[i]];
      i := i + 1;
    }
    assert items[..i] == items;
    return yielded, false;
  }

  /** The requested cursors are those of the unguarded traversal, and none is requested twice. */
  ghost predicate Follows<T>(source: Source<T>, fetched: seq<Option<string>>) {
    && (forall k :: 0 <= k < |fetched| ==> Chain(source, k) == Some(fetched[k]))
    && (forall i, j :: 0 <= i < j < |fetched| ==> fetched[i] != fetched[j])
  }

  ghost predicate Remembers(seen: set<string>, fetched: seq<Option<string>>) {
    forall c :: c in seen <==> Some(c) in fetched
  }

  lemma {:induction false} FollowsNext<T>(source: Source<T>, fetched: seq<Option<string>>, cursor: Option<string>)
    requires Follows(source, fetched) && Chain(source, |fetched|) == Some(cursor) && cursor !in fetched
    ensures Follows(source, fetched + [cursor])
  {
    hide Chain;
  }

  lemma {:induction false} RemembersNext(seen: set<string>, fetched: seq<Option<string>>, cursor: Option<string>)
    requires Remembers(seen, fetched)
    ensures Remembers(if cursor.Some? then seen + {cursor.value} else seen, fetched + [cursor])
    ensures forall next: Option<string> :: next.Some? ==>
              (next in fetched + [cursor] <==> next == cursor || next.value in seen)
  {
    var grown := if cursor.Some? then seen + {cursor.value} else seen;
    forall c ensures c in grown <==> Some(c) in fetched + [cursor] {
      assert Some(c) in fetched + [cursor] <==> Some(c) in fetched || Some(c) == cursor;
    }
  }

  lemma {:induction false} FinishesHere<T>(source: Source<T>, signal: Signal, limits: Guardrails,
                                           fetched: seq<Option<string>>)
    requires Follows(source, fetched) && EndsAfter(source, |fetched|) && |fetched| <= limits.maxPages
    requires |Records(source, |fetched|)| <= limits.maxRecords
    requires forall j :: 0 <= j < |fetched| ==> !signal.before(j) && !signal.after(j)
    ensures Finishes(source, signal, limits, |fetched|)
  {
    hide Chain;
    forall i, j | 0 <= i < j < |fetched| ensures Chain(source, i) != Chain(source, j) {
      assert fetched[i] != fetched[j];
    }
  }

  /** Why the page at `k` was not surfaced, after `n` fetches: an abort before or during its fetch, or a bad answer. */
  ghost predicate CutShort<T>(source: Source<T>, signal: Signal, k: nat, n: nat, outcome: Outcome) {
    && Chain(source, k).Some?
    && var r := source(k, Chain(source, k).value);
    match outcome
    case Aborted => if n == k then signal.before(k) else n == k + 1 && signal.after(k) && !r.Rejects?
    case SourceRejected => n == k + 1 && r.Rejects?
    case InvalidPage => n == k + 1 && !WellFormed(r) && !r.Rejects? && !signal.after(k)
    case _ => false
  }

  /** What each way of stopping means. An aborted or failed fetch surfaces exactly the pages before it. */
  ghost predicate Explains<T>(source: Source<T>, signal: Signal, limits: Guardrails, fetched: seq<Option<string>>,
                              yielded: seq<T>, outcome: Outcome) {
    var n := |fetched|;
    && yielded <= Records(source, n) && |yielded| <= limits.maxRecords
    && (outcome == Done ==> yielded == Records(source, n) && Finishes(source, signal, limits, n))
    && (outcome != Done ==> forall m :: !Finishes(source, signal, limits, m))
    && (outcome in {Aborted, SourceRejected, InvalidPage} ==>
          exists k: nat :: CutShort(source, signal, k, n, outcome) && yielded == Records(source, k))
    && (outcome == RecordBudgetExceeded ==> |yielded| == limits.maxRecords && yielded != Records(source, n))
    && (outcome == RepeatedCursor ==>
          yielded == Records(source, n) && Chain(source, n).Some? && Chain(source, n).value in fetched)
    && (outcome == PageBudgetExceeded ==>
          yielded == Records(source, n) && n == limits.maxPages && Chain(source, n).Some?)
  }

  /** Fetch `k` runs its course: not aborted, a page within the budget, and a cursor not met before. */
  ghost predicate Passes<T>(source: Source<T>, signal: Signal, limits: Guardrails, k: nat) {
    && Opens(source, signal, limits, k) && Fits(source, limits, k)
    && Chain(source, k + 1).Some? && !Repeats(source, k)
  }

  /** The answer to fetch `k` is a page, and no abort comes before or during the fetch. */
  ghost predicate Opens<T>(source: Source<T>, signal: Signal, limits: Guardrails, k: nat) {
    && k < limits.maxPages && !signal.before(k) && !signal.after(k)
    && Chain(source, k).Some?
    && source(k, Chain(source, k).value).Returned? && source(k, Chain(source, k).value).page.nextCursor != Some("")
  }

  ghost predicate Fits<T>(source: Source<T>, limits: Guardrails, k: nat) {
    |Records(source, k + 1)| <= limits.maxRecords
  }

  /** The cursor that fetch `k` gives was requested before. */
  ghost predicate Repeats<T>(source: Source<T>, k: nat) {
    exists i :: 0 <= i <= k && Chain(source, i) == Chain(source, k + 1)
  }

  /** The traversal stops at fetch `k`, after every earlier one ran its course: why, after how many fetches, and what was yielded. */
  ghost predicate StopsAt<T>(source: Source<T>, signal: Signal, limits: Guardrails, k: nat, n: nat, yielded: seq<T>,
                             outcome: Outcome) {
    && k <= limits.maxPages && Chain(source, k).Some? && (forall j :: 0 <= j < k ==> Passes(source, signal, limits, j))
    && var r := source(k, Chain(source, k).value);
    match outcome
    case PageBudgetExceeded => n == k == limits.maxPages && yielded == Records(source, k)
    case Aborted =>
      k < limits.maxPages && yielded == Records(source, k)
      && if signal.before(k) then n == k else n == k + 1 && signal.after(k) && !r.Rejects?
    case SourceRejected =>
      k < limits.maxPages && yielded == Records(source, k) && n == k + 1 && !signal.before(k) && r.Rejects?
    case InvalidPage =>
      k < limits.maxPages && yielded == Records(source, k) && n == k + 1 && !signal.before(k) && !signal.after(k)
      && (r.NotAPage? || (r.Returned? && r.page.nextCursor == Some("")))
    case RecordBudgetExceeded =>
      && Opens(source, signal, limits, k) && !Fits(source, limits, k) && n == k + 1
      && yielded == Records(source, k + 1)[..limits.maxRecords]
    case Done =>
      && Opens(source, signal, limits, k) && Fits(source, limits, k) && n == k + 1 && yielded == Records(source, k + 1)
      && r.page.nextCursor.None?
    case RepeatedCursor =>
      && Opens(source, signal, limits, k) && Fits(source, limits, k) && n == k + 1 && yielded == Records(source, k + 1)
      && r.page.nextCursor.Some? && Repeats(source, k)
  }

  lemma {:induction false} StopIsFirst<T>(source: Source<T>, signal: Signal, limits: Guardrails, k: nat, n: nat,
                                          yielded: seq<T>, outcome: Outcome)
    requires StopsAt(source, signal, limits, k, n, yielded, outcome)
    ensures k < limits.maxPages ==> !Passes(source, signal, limits, k)
  {
    hide Records, Repeats, Fits;
  }

  /** A source, a signal and limits determine where the traversal stops, why, and what it has yielded by then. */
  lemma {:induction false} TraversalIsDetermined<T>(source: Source<T>, signal: Signal, limits: Guardrails, k: nat,
                                                    n: nat, yielded: seq<T>, outcome: Outcome,
                                 k': nat, n': nat, yielded': seq<T>, outcome': Outcome)
    requires StopsAt(source, signal, limits, k, n, yielded, outcome) && StopsAt(source, signal, limits, k', n', yielded', outcome')
    ensures n == n' && yielded == yielded' && outcome == outcome'
  {
    hide Records, Repeats, Fits, Passes, Chain;
    StopIsFirst(source, signal, limits, k, n, yielded, outcome);
    StopIsFirst(source, signal, limits, k', n', yielded', outcome');
    assert k == k';
  }

  lemma {:induction false} StopsEarly<T>(source: Source<T>, signal: Signal, limits: Guardrails, k: nat,
                                         fetched: seq<Option<string>>,
                      yielded: seq<T>, outcome: Outcome)
    requires CutShort(source, signal, k, |fetched|, outcome)
    requires yielded == Records(source, k) && |yielded| <= limits.maxRecords
    ensures Explains(source, signal, limits, fetched, yielded, outcome)
  {
    hide Chain, Records, Finishes;
    FailsAt(source, signal, limits, k);
    OneFetch(source, k);
  }

  lemma {:induction false} StopsOnRecords<T>(source: Source<T>, signal: Signal, limits: Guardrails, k: nat,
                                             fetched: seq<Option<string>>,
                          before: seq<T>, items: seq<T>)
    requires |fetched| == k + 1 && before == Records(source, k) && Chain(source, k).Some?
    requires Records(source, k + 1) == before + items && |before| <= limits.maxRecords < |before| + |items|
    ensures Explains(source, signal, limits, fetched, before + items[..limits.maxRecords - |before|], RecordBudgetExceeded)
  {
    FailsAt(source, signal, limits, k);
  }

  /** The three ways to stop that leave nothing of the fetched pages behind. */
  lemma {:induction false} StopsExplained<T>(source: Source<T>, signal: Signal, limits: Guardrails,
                                             fetched: seq<Option<string>>, outcome: Outcome)
    requires |Records(source, |fetched|)| <= limits.maxRecords
    requires match outcome
             case Done => Finishes(source, signal, limits, |fetched|)
             case RepeatedCursor => Chain(source, |fetched|).Some? && Chain(source, |fetched|).value in fetched
             case PageBudgetExceeded => |fetched| == limits.maxPages && Chain(source, |fetched|).Some?
             case _ => false
    requires outcome != Done ==> forall m :: !Finishes(source, signal, limits, m)
    ensures Explains(source, signal, limits, fetched, Records(source, |fetched|), outcome)
  {
    hide Finishes, Chain, Records;
  }

  lemma {:induction false} RepeatsExactly<T>(source: Source<T>, fetched: seq<Option<string>>, k: nat,
                                             next: Option<string>)
    requires Follows(source, fetched) && |fetched| == k + 1 && Chain(source, k + 1) == Some(next)
    ensures Repeats(source, k) <==> next in fetched
  {
    hide Chain;
    if next in fetched {
      var i :| 0 <= i < |fetched| && fetched[i] == next;
      assert Chain(source, i) == Chain(source, k + 1);
    }
  }

  ghost predicate AllPass<T>(source: Source<T>, signal: Signal, limits: Guardrails, k: nat) {
    Chain(source, k).Some? && forall j :: 0 <= j < k ==> Passes(source, signal, limits, j)
  }

  lemma {:induction false} StopsShort<T>(source: Source<T>, signal: Signal, limits: Guardrails, k: nat, n: nat,
                                         outcome: Outcome)
    requires k < limits.maxPages && AllPass(source, signal, limits, k) && CutShort(source, signal, k, n, outcome)
    requires n == k + 1 ==> !signal.before(k)
    ensures StopsAt(source, signal, limits, k, n, Records(source, k), outcome)
  {
    hide Passes, Chain, Records;
  }

  lemma {:induction false} StopsAfterPage<T>(source: Source<T>, signal: Signal, limits: Guardrails, k: nat,
                                             outcome: Outcome)
    requires AllPass(source, signal, limits, k) && Opens(source, signal, limits, k)
    requires var next := source(k, Chain(source, k).value).page.nextCursor;
             match outcome
             case RecordBudgetExceeded => !Fits(source, limits, k)
             case Done => Fits(source, limits, k) && next.None?
             case RepeatedCursor => Fits(source, limits, k) && next.Some? && Repeats(source, k)
             case _ => false
    ensures var all := Records(source, k + 1);
            StopsAt(source, signal, limits, k, k + 1,
                    if outcome == RecordBudgetExceeded then all[..limits.maxRecords] else all, outcome)
  {
    hide Passes, Chain, Records, Repeats;
  }

  lemma {:induction false} StopsAtBudget<T>(source: Source<T>, signal: Signal, limits: Guardrails)
    requires AllPass(source, signal, limits, limits.maxPages)
    ensures StopsAt(source, signal, limits, limits.maxPages, limits.maxPages, Records(source, limits.maxPages), PageBudgetExceeded)
  {
    hide Passes, Chain, Records;
  }

  lemma {:induction false} OneMorePasses<T>(source: Source<T>, signal: Signal, limits: Guardrails, k: nat,
                                            fetched: seq<Option<string>>, next: Option<string>)
    requires AllPass(source, signal, limits, k) && Opens(source, signal, limits, k) && Fits(source, limits, k)
    requires Follows(source, fetched) && |fetched| == k + 1 && Chain(source, k + 1) == Some(next) && next !in fetched
    ensures AllPass(source, signal, limits, k + 1)
  {
    hide Chain, Records, Follows, Repeats;
    RepeatsExactly(source, fetched, k, next);
  }

  /** Reads `source` page by page, in source order; `fetched` lists the cursors requested. */
  method IterateGuardedPages<T>(source: Source<T>, signal: Signal, limits: Guardrails)
    returns (yielded: seq<T>, outcome: Outcome, fetched: seq<Option<string>>)
    requires limits.maxPages >= 1
    ensures |fetched| <= limits.maxPages && Follows(source, fetched)
    ensures Explains(source, signal, limits, fetched, yielded, outcome)
    ensures exists k: nat :: StopsAt(source, signal, limits, k, |fetched|, yielded, outcome)
  {
    hide Chain, Records, EndsAfter, Follows, Remembers, Finishes, Acyclic, Explains, StopsAt, AllPass, Repeats;
    var seenCursors: set<string> := {};
    var cursor: Option<string> := None;
    yielded, fetched := [], [];
    EmptyTraversal(source);
    NothingPassed(source, signal, limits);
    var pageNumber := 0;
    while pageNumber < limits.maxPages
      invariant pageNumber == |fetched| <= limits.maxPages
      invariant Chain(source, pageNumber) == Some(cursor) && cursor !in fetched
      invariant Follows(source, fetched) && Remembers(seenCursors, fetched)
      invariant yielded == Records(source, pageNumber) && |yielded| <= limits.maxRecords
      invariant forall j :: 0 <= j < pageNumber ==> !signal.before(j) && !signal.after(j)
      invariant AllPass(source, signal, limits, pageNumber)
    {
      if signal.before(pageNumber) {
        StopsEarly(source, signal, limits, pageNumber, fetched, yielded, Aborted);
        StopsShort(source, signal, limits, pageNumber, pageNumber, Aborted);
        return yielded, Aborted, fetched;
      }
      var response := source(pageNumber, cursor);
      FollowsNext(source, fetched, cursor);
      RemembersNext(seenCursors, fetched, cursor);
      OneFetch(source, pageNumber);
      fetched := fetched + [cursor];
      if signal.after(pageNumber) || !WellFormed(response) {
        outcome := if response.Rejects? then SourceRejected else if signal.after(pageNumber) then Aborted else InvalidPage;
        StopsEarly(source, signal, limits, pageNumber, fetched, yielded, outcome);
        StopsShort(source, signal, limits, pageNumber, pageNumber + 1, outcome);
        return;
      }
      var page := response.page;
      var exceeded;
      ghost var before := yielded;
      yielded, exceeded := YieldItems(page.items, yielded, limits.maxRecords);
      if exceeded {
        StopsOnRecords(source, signal, limits, pageNumber, fetched, before, page.items);
        StopsAfterPage(source, signal, limits, pageNumber, RecordBudgetExceeded);
        assert yielded == Records(source, pageNumber + 1)[..limits.maxRecords];
        return yielded, RecordBudgetExceeded, fetched;
      }
      if page.nextCursor.None? {
        FinishesHere(source, signal, limits, fetched);
        StopsExplained(source, signal, limits, fetched, Done);
        StopsAfterPage(source, signal, limits, pageNumber, Done);
        return yielded, Done, fetched;
      }
      if page.nextCursor == cursor || page.nextCursor.value in seenCursors {
        RepeatMeansCycle(source, signal, limits, fetched, page.nextCursor);
        StopsExplained(source, signal, limits, fetched, RepeatedCursor);
        RepeatsExactly(source, fetched, pageNumber, page.nextCursor);
        StopsAfterPage(source, signal, limits, pageNumber, RepeatedCursor);
        return yielded, RepeatedCursor, fetched;
      }
      OneMorePasses(source, signal, limits, pageNumber, fetched, page.nextCursor);
      if cursor.Some? {
        seenCursors := seenCursors + {cursor.value};
      }
      cursor := page.nextCursor;
      pageNumber := pageNumber + 1;
    }
    FailsByPages(source, signal, limits);
    StopsExplained(source, signal, limits, fetched, PageBudgetExceeded);
    StopsAtBudget(source, signal, limits);
    return yielded, PageBudgetExceeded, fetched;
  }

  lemma {:induction false} NothingPassed<T>(source: Source<T>, signal: Signal, limits: Guardrails)
    ensures AllPass(source, signal, limits, 0)
  {
  }

  lemma {:induction false} EmptyTraversal<T>(source: Source<T>)
    ensures Follows(source, []) && Remembers({}, [])
    ensures Chain(source, 0) == Some(None) && Records(source, 0) == []
  {
  }

  lemma {:induction false} RepeatMeansCycle<T>(source: Source<T>, signal: Signal, limits: Guardrails,
                                               fetched: seq<Option<string>>,
                            next: Option<string>)
    requires Follows(source, fetched) && next in fetched && Chain(source, |fetched|) == Some(next)
    ensures forall n :: !Finishes(source, signal, limits, n)
  {
    hide Chain;
    var at :| 0 <= at < |fetched| && fetched[at] == next;
    FailsByRepeat(source, signal, limits, at, |fetched|);
  }

  /** Collecting gives all records of a finishing source, and nothing of any other. */
  method CollectGuardedPages<T>(source: Source<T>, signal: Signal, limits: Guardrails)
    returns (r: Result<seq<T>, Outcome>)
    requires limits.maxPages >= 1
    ensures forall n :: Finishes(source, signal, limits, n) ==> r == Ok(Records(source, n))
    ensures r.Ok? ==> exists n :: Finishes(source, signal, limits, n)
    ensures r.Err? ==> exists k: nat, n: nat, yielded: seq<T> :: r.error != Done && StopsAt(source, signal, limits, k, n, yielded, r.error)
  {
    hide StopsAt;
    var records, outcome, fetched := IterateGuardedPages(source, signal, limits);
    if outcome == Done {
      FinishIsUnique(source, signal, limits, |fetched|);
    }
    r := if outcome == Done then Ok(records) else Err(outcome);
  }
}
