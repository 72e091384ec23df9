/** Strict batch pagination: `getBatchPage` and `iterateBatches`. */
module BatchPagination {
  import opened Prelude

  datatype BatchPage<T> = BatchPage(items: seq<T>, index: nat, offset: nat, count: nat, totalItems: nat,
                                    totalPages: nat, hasNext: bool)

  datatype ValidationError = BadPageSize | BadBatchIndex

  /** `Math.ceil(n / size)`. */
  function CeilDiv(n: nat, size: nat): (k: nat)
    requires size > 0
    ensures k * size >= n
    ensures n > 0 ==> k >= 1 && (k - 1) * size < n
  {
    var k := (n + size - 1) / size;
    assert n + size - 1 == k * size + (n + size - 1) % size;
    assert (k - 1) * size == k * size - size;
    k
  }

  function TotalPages(totalItems: nat, pageSize: nat): nat
    requires totalItems > 0 ==> pageSize > 0
  {
    if totalItems == 0 then 1 else CeilDiv(totalItems, pageSize)
  }

  function GetBatchPage<T>(items: seq<T>, pageSize: Option<int>,
                           batchIndex: int): Result<BatchPage<T>, ValidationError> {
    if pageSize.Some? && pageSize.value <= 0 then Err(BadPageSize)
    else if batchIndex < 0 then Err(BadBatchIndex)
    else
      var totalItems := |items|;
      var size: nat := if pageSize.Some? then pageSize.value else totalItems;
      var totalPages := TotalPages(totalItems, size);
      var offset := Min(Offset(batchIndex, size), totalItems);
      var pageItems := items[offset..Min(offset + size, totalItems)];
      Ok(BatchPage(pageItems, batchIndex, offset, |pageItems|, totalItems, totalPages, batchIndex + 1 < totalPages))
  }

  function Offset(index: nat, size: nat): nat {
    assert index * size >= 0;
    index * size
  }

  function Flatten<T>(pages: seq<BatchPage<T>>): seq<T> {
    if pages == [] then [] else Flatten(pages[..|pages| - 1]) + pages[|pages| - 1].items
  }

  lemma {:induction false} FlattenAppend<T>(pages: seq<BatchPage<T>>, page: BatchPage<T>)
    ensures Flatten(pages + [page]) == Flatten(pages) + page.items
  {
    assert (pages + [page])[..|pages|] == pages;
  }

  lemma {:induction false} Step(k: nat, size: nat)
    ensures Offset(0, size) == 0 && Offset(k + 1, size) == Offset(k, size) + size
  {
  }

  lemma {:induction false} Monotone(a: nat, b: nat, size: nat)
    requires a <= b
    ensures Offset(a, size) <= Offset(b, size)
  {
    assert (b - a) * size >= 0;
    assert b * size == a * size + (b - a) * size;
  }

  /** Batch offsets stay inside the list, and only the last batch reaches its end. */
  lemma {:induction false} OffsetsInside(n: nat, size: nat, index: nat)
    requires n > 0 && size > 0 && index < TotalPages(n, size)
    ensures Offset(index, size) < n
    ensures index + 1 < TotalPages(n, size) <==> Offset(index, size) + size < n
  {
    var last := TotalPages(n, size) - 1;
    Step(index, size);
    Step(last, size);
    Monotone(index, last, size);
    if index < last {
      Monotone(index + 1, last, size);
    }
  }

  /** The batches before `index`, each as `getBatchPage` gives it, together holding the items before its offset. */
  ghost predicate Batches<T>(items: seq<T>, pageSize: Option<int>, size: nat, pages: seq<BatchPage<T>>) {
    && (forall k :: 0 <= k < |pages| ==> GetBatchPage(items, pageSize, k) == Ok(pages[k]))
    && Flatten(pages) == items[..Min(Offset(|pages|, size), |items|)]
  }

  /** The items of batch `k`. */
  lemma {:induction false} BatchItems<T>(items: seq<T>, pageSize: Option<int>, size: nat, k: nat)
    requires pageSize.Some? ==> pageSize.value > 0
    requires items != [] ==> size == if pageSize.Some? then pageSize.value else |items|
    ensures var offset := Min(Offset(k, size), |items|);
            GetBatchPage(items, pageSize, k).Ok? && GetBatchPage(items, pageSize, k).value.items == items[offset..Min(offset + size, |items|)]
  {
    hide Offset, TotalPages;
  }

  lemma {:induction false} PositiveSize<T>(items: seq<T>, pageSize: Option<int>, k: nat)
    ensures GetBatchPage(items, pageSize, k).Ok? ==> pageSize.Some? ==> pageSize.value > 0
  {
    hide Offset, TotalPages;
  }

  lemma {:induction false} PrefixGrows<T>(items: seq<T>, size: nat, k: nat)
    requires items != [] ==> Offset(k, size) < |items|
    ensures var offset := Min(Offset(k, size), |items|);
            items[..offset] + items[offset..Min(offset + size, |items|)] == items[..Min(Offset(k + 1, size), |items|)]
  {
    hide Offset;
    Step(k, size);
  }

  lemma {:induction false} FlattenGrows<T>(items: seq<T>, pageSize: Option<int>, size: nat, pages: seq<BatchPage<T>>,
                                           page: BatchPage<T>)
    requires Flatten(pages) == items[..Min(Offset(|pages|, size), |items|)] && GetBatchPage(items, pageSize, |pages|) == Ok(page)
    requires items != [] ==> size == if pageSize.Some? then pageSize.value else |items|
    requires items != [] ==> Offset(|pages|, size) < |items|
    ensures Flatten(pages + [page]) == items[..Min(Offset(|pages| + 1, size), |items|)]
  {
    hide Flatten, Offset, GetBatchPage;
    PositiveSize(items, pageSize, |pages|);
    BatchItems(items, pageSize, size, |pages|);
    PrefixGrows(items, size, |pages|);
    FlattenAppend(pages, page);
  }

  lemma {:induction false} BatchesGrow<T>(items: seq<T>, pageSize: Option<int>, size: nat, pages: seq<BatchPage<T>>,
                                          page: BatchPage<T>)
    requires Batches(items, pageSize, size, pages) && GetBatchPage(items, pageSize, |pages|) == Ok(page)
    requires items != [] ==> size == if pageSize.Some? then pageSize.value else |items|
    requires items != [] ==> Offset(|pages|, size) < |items|
    ensures Batches(items, pageSize, size, pages + [page])
  {
    hide Flatten, Offset, GetBatchPage;
    FlattenGrows(items, pageSize, size, pages, page);
  }

  /** Which requests are refused, and every field of the batch that answers the others. */
  lemma {:induction false} BatchExactly<T>(items: seq<T>, pageSize: Option<int>, batchIndex: int)
    ensures var r, n := GetBatchPage(items, pageSize, batchIndex), |items|;
            && (r == Err(BadPageSize) <==> pageSize.Some? && pageSize.value < 1)
            && (r == Err(BadBatchIndex) <==> (pageSize.Some? ==> pageSize.value >= 1) && batchIndex < 0)
            && (r.Ok? ==>
                  var page, size := r.value, if pageSize.Some? then pageSize.value else n;
                  && page.index == batchIndex && page.totalItems == n && page.count == |page.items|
                  && page.offset == (if batchIndex * size <= n then batchIndex * size else n)
                  && page.items == items[page.offset..if page.offset + size <= n then page.offset + size else n]
                  && page.totalPages >= 1 && (n == 0 ==> page.totalPages == 1)
                  && (n > 0 ==> (page.totalPages - 1) * size < n <= page.totalPages * size)
                  && (page.hasNext <==> batchIndex + 1 < page.totalPages))
  {
    hide Offset, CeilDiv, TotalPages;
    if GetBatchPage(items, pageSize, batchIndex).Ok? {
      var size: nat := if pageSize.Some? then pageSize.value else |items|;
      OffsetIs(batchIndex, size);
      PagesAre(|items|, size);
    }
  }

  lemma {:induction false} OffsetIs(index: nat, size: nat)
    ensures Offset(index, size) == index * size
  {
  }

  lemma {:induction false} PagesAre(n: nat, size: nat)
    requires n > 0 ==> size > 0
    ensures n == 0 ==> TotalPages(n, size) == 1
    ensures n > 0 ==> TotalPages(n, size) >= 1 && (TotalPages(n, size) - 1) * size < n <= TotalPages(n, size) * size
  {
  }

  /** What the batches say of themselves: the successor flag, full batches before the last, a non-empty last one. */
  lemma {:induction false} BatchShapes<T>(items: seq<T>, pageSize: Option<int>, k: nat)
    requires pageSize.Some? ==> pageSize.value > 0
    requires k < TotalPages(|items|, if pageSize.Some? then pageSize.value else |items|)
    ensures var page := GetBatchPage(items, pageSize, k).value;
            var size := if pageSize.Some? then pageSize.value else |items|;
            && (page.hasNext <==> k + 1 < TotalPages(|items|, size))
            && (page.hasNext ==> page.count == size)
            && (items != [] ==> 1 <= page.count <= size)
  {
    if items != [] {
      OffsetsInside(|items|, if pageSize.Some? then pageSize.value else |items|, k);
    }
  }

  /** `iterateBatches` covers the list once, in order; each batch is the one `getBatchPage` gives for its index. */
  method IterateBatches<T>(items: seq<T>, pageSize: Option<int>)
    returns (r: Result<seq<BatchPage<T>>, ValidationError>)
    ensures r.Err? <==> pageSize.Some? && pageSize.value <= 0
    ensures r.Err? ==> r.error == BadPageSize
    ensures r.Ok? ==> Flatten(r.value) == items
    ensures r.Ok? ==> |r.value| == GetBatchPage(items, pageSize, 0).value.totalPages >= 1
    ensures r.Ok? ==> forall k :: 0 <= k < |r.value| ==> GetBatchPage(items, pageSize, k) == Ok(r.value[k])
  {
    if pageSize.Some? && pageSize.value <= 0 {
      return Err(BadPageSize);
    }
    var totalItems := |items|;
    var size: nat := if pageSize.Some? then pageSize.value else if totalItems > 0 then totalItems else 1;
    var totalPages := TotalPages(totalItems, size);
    var pages := [];
    Step(0, size);
    for index := 0 to totalPages
      invariant |pages| == index && Batches(items, pageSize, size, pages)
    {
      if totalItems > 0 {
        OffsetsInside(totalItems, size, index);
      } else {
        Step(0, size);
      }
      var offset := Offset(index, size);
      var pageItems := items[offset..Min(offset + size, totalItems)];
      var page := BatchPage(pageItems, index, offset, |pageItems|, totalItems, totalPages, index + 1 < totalPages);
      BatchesGrow(items, pageSize, size, pages, page);
      pages := pages + [page];
    }
    if totalItems > 0 {
      OffsetsInside(totalItems, size, totalPages - 1);
      Step(totalPages - 1, size);
    }
    assert items[..totalItems] == items;
    return Ok(pages);
  }

  /** An index past the last batch gives an empty batch, never an error. */
  lemma {:induction false} PastTheEnd<T>(items: seq<T>, pageSize: Option<int>, batchIndex: nat)
    requires pageSize.Some? ==> pageSize.value > 0
    requires batchIndex >= GetBatchPage(items, pageSize, 0).value.totalPages
    ensures GetBatchPage(items, pageSize, batchIndex).Ok?
    ensures var page := GetBatchPage(items, pageSize, batchIndex).value;
            page.items == [] && !page.hasNext && page.offset == |items|
  {
    if |items| > 0 {
      var size := if pageSize.Some? then pageSize.value else |items|;
      var last := TotalPages(|items|, size) - 1;
      OffsetsInside(|items|, size, last);
      Step(last, size);
      Monotone(last + 1, batchIndex, size);
    }
  }
}
