/** Cursor and offset pagination over an in-memory list. */
module Pagination {
  import opened Prelude

  const DEFAULT_PAGE_SIZE := 20
  const MAX_PAGE_SIZE := 100
  const MIN_PAGE_SIZE := 1

  datatype Direction = Forward | Backward

  datatype CursorPayload = CursorPayload(index: int, direction: Direction)

  /** `encodeCursor` and `decodeCursor`: base64 of JSON, of which only the round trip matters. */
  datatype Codec = Codec(encode: CursorPayload -> string, decode: string -> Option<CursorPayload>)
  {
    ghost predicate Faithful() {
      forall p :: encode(p) != "" && decode(encode(p)) == Some(p)
    }
  }

  datatype PaginationOptions = PaginationOptions(cursor: Option<string>, page: Option<int>, pageSize: Option<int>,
                                                 direction: Option<Direction>)

  datatype Meta = Meta(total: nat, count: nat, pageSize: nat, page: nat, hasNextPage: bool, hasPrevPage: bool,
                       nextCursor: Option<string>, prevCursor: Option<string>)

  datatype PageResult<T> = PageResult(data: seq<T>, meta: Meta)

  function ResolvePageSize(requested: Option<int>): (size: nat)
    ensures MIN_PAGE_SIZE <= size <= MAX_PAGE_SIZE
  {
    if requested.None? then DEFAULT_PAGE_SIZE
    else if requested.value < MIN_PAGE_SIZE then MIN_PAGE_SIZE
    else if requested.value > MAX_PAGE_SIZE then MAX_PAGE_SIZE
    else requested.value
  }

  function DirectionOf(o: PaginationOptions): Direction {
    if o.direction.Some? then o.direction.value else Forward
  }

  /** Where the page starts: from a non-empty cursor, else from a page number, else from an end of the list. */
  function StartIndex(codec: Codec, total: nat, o: PaginationOptions): (start: nat)
    ensures start <= total
  {
    var pageSize := ResolvePageSize(o.pageSize);
    var raw :=
      if o.cursor.Some? && o.cursor.value != "" then
        match codec.decode(o.cursor.value)
        case Some(p) => p.index
        case None => 0
      else if o.page.Some? then (Max(1, o.page.value) - 1) * pageSize
      else if DirectionOf(o) == Backward then Max(0, total - pageSize)
      else 0;
    Max(0, Min(raw, total))
  }

  function PageAt<T>(codec: Codec, records: seq<T>, start: nat, pageSize: nat,
                     direction: Direction): (page: PageResult<T>)
    requires start <= |records| && pageSize >= 1
    ensures page.meta.nextCursor.Some? <==> page.meta.hasNextPage
    ensures page.meta.count == |page.data| <= pageSize
  {
    var total := |records|;
    var end := Min(start + pageSize, total);
    var slice := records[start..end];
    PageResult(
      slice,
      Meta(total, |slice|, pageSize, start / pageSize + 1, end < total, start > 0,
           if end < total then Some(codec.encode(CursorPayload(end, direction))) else None,
           if start > 0 then Some(codec.encode(CursorPayload(Max(0, start - pageSize), direction))) else None))
  }

  function Paginate<T>(codec: Codec, records: seq<T>, o: PaginationOptions): PageResult<T> {
    PageAt(codec, records, StartIndex(codec, |records|, o), ResolvePageSize(o.pageSize), DirectionOf(o))
  }

  /** A requested size is kept when it lies between 1 and 100, and otherwise moved to the nearer end; the default is 20. */
  lemma {:induction false} PageSizeExactly(n: int)
    ensures ResolvePageSize(None) == 20
    ensures ResolvePageSize(Some(n)) == if 1 <= n <= 100 then n else if n < 1 then 1 else 100
  {
  }

  /**
   * Where a page starts: at the index a readable cursor holds; else after the pages before the requested one; else,
   * backwards, so as to end the list; always within the list.
   */
  lemma {:induction false} StartExactly(codec: Codec, total: nat, o: PaginationOptions, index: int)
    ensures var start, size := StartIndex(codec, total, o), ResolvePageSize(o.pageSize);
            var paged := o.cursor.None? || o.cursor == Some("");
            && (!paged && codec.decode(o.cursor.value).None? ==> start == 0)
            && (!paged && codec.decode(o.cursor.value).Some? && codec.decode(o.cursor.value).value.index == index ==>
                  start == if index < 0 then 0 else if index > total then total else index)
            && (paged && o.page.Some? && o.page.value >= 1 ==>
                  start == if (o.page.value - 1) * size <= total then (o.page.value - 1) * size else total)
            && (paged && o.page.Some? && o.page.value < 1 ==> start == 0)
            && (paged && o.page.None? ==> start == if o.direction == Some(Backward) && total > size then total - size else 0)
  {
    var size := ResolvePageSize(o.pageSize);
    if o.page.Some? && o.page.value >= 1 {
      assert (o.page.value - 1) * size >= 0;
    }
  }

  /** What a page holds: the slice at its start, its number, and whether and where the list goes on at either side. */
  lemma {:induction false} PageExactly<T>(codec: Codec, records: seq<T>, o: PaginationOptions)
    requires codec.Faithful()
    ensures var page, size := Paginate(codec, records, o), ResolvePageSize(o.pageSize);
            var start, meta, total := StartIndex(codec, |records|, o), page.meta, |records|;
            && |page.data| == (if start + size <= total then size else total - start)
            && page.data == records[start..start + |page.data|]
            && meta.total == total && meta.count == |page.data| && meta.pageSize == size
            && meta.page >= 1 && (meta.page - 1) * size <= start < (meta.page - 1) * size + size
            && (meta.hasNextPage <==> start + |page.data| < total) && (meta.hasPrevPage <==> start > 0)
            && (meta.nextCursor.Some? <==> meta.hasNextPage) && (meta.prevCursor.Some? <==> meta.hasPrevPage)
            && (meta.hasNextPage ==>
                  codec.decode(meta.nextCursor.value) == Some(CursorPayload(start + |page.data|, DirectionOf(o))))
            && (meta.hasPrevPage ==>
                  codec.decode(meta.prevCursor.value) == Some(CursorPayload(if start >= size then start - size else 0, DirectionOf(o))))
            && DirectionOf(o) == (if o.direction == Some(Backward) then Backward else Forward)
  {
    hide StartIndex, ResolvePageSize;
    var start, size := StartIndex(codec, |records|, o), ResolvePageSize(o.pageSize);
    PageNumber(start, size);
  }

  lemma {:induction false} PageNumber(start: nat, size: nat)
    requires size >= 1
    ensures start / size >= 0 && (start / size) * size <= start < (start / size) * size + size
  {
    assert start == (start / size) * size + start % size;
  }

  /** A cursor the codec produced leads to its index, whatever page number is also given. */
  lemma {:induction false} CursorLeadsTo(codec: Codec, total: nat, o: PaginationOptions, index: nat,
                                         direction: Direction)
    requires codec.Faithful() && index <= total
    ensures StartIndex(codec, total, o.(cursor := Some(codec.encode(CursorPayload(index, direction))))) == index
  {
  }

  lemma {:induction false} PageFromCursor<T>(codec: Codec, records: seq<T>, o: PaginationOptions, index: nat,
                                             direction: Direction)
    requires codec.Faithful() && index <= |records|
    ensures Paginate(codec, records, o.(cursor := Some(codec.encode(CursorPayload(index, direction)))))
            == PageAt(codec, records, index, ResolvePageSize(o.pageSize), DirectionOf(o))
  {
    CursorLeadsTo(codec, |records|, o, index, direction);
  }

  /** Following the next cursor and then the previous one returns the same page, with all its metadata. */
  lemma {:induction false} NextThenPrevious<T>(codec: Codec, records: seq<T>, o: PaginationOptions)
    requires codec.Faithful() && Paginate(codec, records, o).meta.hasNextPage
    ensures var page := Paginate(codec, records, o);
            && page.meta.nextCursor.Some?
            && var next := Paginate(codec, records, o.(cursor := page.meta.nextCursor));
            && next.meta.prevCursor.Some?
            && Paginate(codec, records, o.(cursor := next.meta.prevCursor)) == page
  {
    var total, size, d := |records|, ResolvePageSize(o.pageSize), DirectionOf(o);
    var start := StartIndex(codec, total, o);
    CursorLeadsTo(codec, total, o, start + size, d);
    CursorLeadsTo(codec, total, o, start, d);
  }

  /** The other way round it works exactly from a non-empty page that starts at least one page size in. */
  lemma {:induction false} PreviousThenNext<T>(codec: Codec, records: seq<T>, o: PaginationOptions)
    requires codec.Faithful() && Paginate(codec, records, o).meta.hasPrevPage
    ensures var page := Paginate(codec, records, o);
            var start := StartIndex(codec, |records|, o);
            && page.meta.prevCursor.Some?
            && var prev := Paginate(codec, records, o.(cursor := page.meta.prevCursor));
            (prev.meta.nextCursor.Some? && Paginate(codec, records, o.(cursor := prev.meta.nextCursor)) == page) <==>
            page.meta.pageSize <= start < |records|
  {
    var total, size, d := |records|, ResolvePageSize(o.pageSize), DirectionOf(o);
    var start := StartIndex(codec, total, o);
    var back := Max(0, start - size);
    CursorLeadsTo(codec, total, o, back, d);
    if back + size < total {
      CursorLeadsTo(codec, total, o, back + size, d);
      if start < size {
        // the page found starts at `size`, which lies on another numbered page
        SamePageSameStart(start, size, size);
      }
    }
  }

  lemma {:induction false} SamePageSameStart(start: nat, other: nat, size: nat)
    requires start < size <= other
    ensures start / size != other / size
  {
  }

  // ----- streaming -----

  function Flatten<T>(pages: seq<PageResult<T>>): seq<T> {
    if pages == [] then [] else Flatten(pages[..|pages| - 1]) + pages[|pages| - 1].data
  }

  lemma {:induction false} FlattenAppend<T>(pages: seq<PageResult<T>>, page: PageResult<T>)
    ensures Flatten(pages + [page]) == Flatten(pages) + page.data
  {
    assert (pages + [page])[..|pages|] == pages;
  }

  /** Where the k-th page of a stream starts. */
  function Nth(start: nat, size: nat, k: nat): (at: nat)
    ensures at >= start
  {
    assert k * size >= 0;
    start + k * size
  }

  lemma {:induction false} NthStep(start: nat, size: nat, k: nat)
    ensures Nth(start, size, 0) == start && Nth(start, size, k + 1) == Nth(start, size, k) + size
  {
  }

  /** Contiguous pages from `start` up to the one at `at`, each with the metadata of its place, all but the last one full. */
  ghost predicate Stream<T>(codec: Codec, records: seq<T>, start: nat, size: nat, d: Direction,
                            pages: seq<PageResult<T>>, at: nat)
    requires start <= |records| && size >= 1
  {
    && |pages| >= 1 && at == Nth(start, size, |pages| - 1) <= |records|
    && (forall k :: 0 <= k < |pages| ==>
          Nth(start, size, k) <= |records| && pages[k] == PageAt(codec, records, Nth(start, size, k), size, d))
    && (forall k :: 0 <= k < |pages| - 1 ==> |pages[k].data| == size && pages[k].meta.hasNextPage)
    && Flatten(pages) == records[start..Min(at + size, |records|)]
  }

  /** A stream that has reached the end of the list. */
  ghost predicate Covers<T>(codec: Codec, records: seq<T>, start: nat, size: nat, d: Direction,
                            pages: seq<PageResult<T>>)
    requires start <= |records| && size >= 1
  {
    && |pages| >= 1
    && Stream(codec, records, start, size, d, pages, Nth(start, size, |pages| - 1))
    && !pages[|pages| - 1].meta.hasNextPage
    && Flatten(pages) == records[start..]
  }

  lemma {:induction false} SliceJoin<T>(s: seq<T>, a: nat, b: nat, c: nat)
    requires a <= b <= c <= |s|
    ensures s[a..b] + s[b..c] == s[a..c]
  {
  }

  lemma {:induction false} PageFacts<T>(codec: Codec, records: seq<T>, start: nat, size: nat, d: Direction)
    requires start <= |records| && size >= 1
    ensures var page := PageAt(codec, records, start, size, d);
            && page.data == records[start..Min(start + size, |records|)]
            && (page.meta.hasNextPage <==> start + size < |records|)
            && (page.meta.hasNextPage ==>
                  page.meta.nextCursor == Some(codec.encode(CursorPayload(start + size, d))) && |page.data| == size)
  {
  }

  lemma {:induction false} FlattenOne<T>(page: PageResult<T>)
    ensures Flatten([page]) == page.data
  {
    FlattenAppend([], page);
    assert [] + [page] == [page];
  }

  lemma {:induction false} StreamStarts<T>(codec: Codec, records: seq<T>, start: nat, size: nat, d: Direction)
    requires start <= |records| && size >= 1
    ensures Stream(codec, records, start, size, d, [PageAt(codec, records, start, size, d)], start)
  {
    hide Nth, PageAt, Flatten;
    PageFacts(codec, records, start, size, d);
    NthStep(start, size, 0);
    FlattenOne(PageAt(codec, records, start, size, d));
  }

  lemma {:induction false} StreamGrows<T>(codec: Codec, records: seq<T>, start: nat, size: nat, d: Direction,
                                          pages: seq<PageResult<T>>, at: nat)
    requires start <= |records| && size >= 1
    requires Stream(codec, records, start, size, d, pages, at) && at + size < |records|
    ensures Stream(codec, records, start, size, d, pages + [PageAt(codec, records, at + size, size, d)], at + size)
  {
    hide Nth, Flatten, PageAt;
    PageFacts(codec, records, at, size, d);
    PageFacts(codec, records, at + size, size, d);
    var page := PageAt(codec, records, at + size, size, d);
    NthStep(start, size, |pages| - 1);
    FlattenAppend(pages, page);
    SliceJoin(records, start, at + size, Min(at + 2 * size, |records|));
  }

  lemma {:induction false} StreamEnds<T>(codec: Codec, records: seq<T>, start: nat, size: nat, d: Direction,
                                         pages: seq<PageResult<T>>, at: nat)
    requires start <= |records| && size >= 1
    requires Stream(codec, records, start, size, d, pages, at) && at + size >= |records|
    ensures Covers(codec, records, start, size, d, pages)
  {
    hide Nth, Flatten, PageAt;
    PageFacts(codec, records, at, size, d);
    assert records[start..|records|] == records[start..];
  }

  /** `paginateIterator`: the do-while over cursors yields every record from the start index on exactly once. */
  method PaginateIterator<T>(codec: Codec, records: seq<T>, options: PaginationOptions)
    returns (pages: seq<PageResult<T>>)
    requires codec.Faithful() && options.cursor.None?
    ensures Covers(codec, records, StartIndex(codec, |records|, options), ResolvePageSize(options.pageSize),
                   DirectionOf(options), pages)
  {
    ghost var start, size, d :=
      StartIndex(codec, |records|, options), ResolvePageSize(options.pageSize), DirectionOf(options);
    ghost var at := start;
    var result := Paginate(codec, records, options);
    hide Nth, Stream, Covers, PageAt, StartIndex, ResolvePageSize, Codec.Faithful, Paginate, DirectionOf;
    StreamStarts(codec, records, start, size, d);
    pages := [result];
    var cursor := result.meta.nextCursor;
    while cursor.Some?
      invariant start <= at <= |records| && Stream(codec, records, start, size, d, pages, at)
      invariant cursor == PageAt(codec, records, at, size, d).meta.nextCursor
      decreases |records| - at
    {
      PageFacts(codec, records, at, size, d);
      StreamGrows(codec, records, start, size, d, pages, at);
      PageFromCursor(codec, records, options, at + size, d);
      result := Paginate(codec, records, options.(cursor := cursor));
      pages := pages + [result];
      cursor := result.meta.nextCursor;
      at := at + size;
    }
    PageFacts(codec, records, at, size, d);
    StreamEnds(codec, records, start, size, d, pages, at);
  }

  /** Without a page number, and forwards or on a list of at most one page, the stream covers the whole list. */
  lemma {:induction false} StreamsEverything(codec: Codec, total: nat, o: PaginationOptions)
    requires o.cursor.None?
    ensures StartIndex(codec, total, o) == 0 <==>
            total == 0 || if o.page.Some? then o.page.value <= 1
                          else DirectionOf(o) == Forward || total <= ResolvePageSize(o.pageSize)
  {
    if o.page.Some? && o.page.value > 1 {
      var k, size := o.page.value - 1, ResolvePageSize(o.pageSize);
      assert k * size >= size by { assert (k - 1) * size >= 0; }
    }
  }
}
