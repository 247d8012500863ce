/** Paging through a list, and the export that visits every page. */
module LogPages {
  import opened Options

  const PAGE_SIZE_DEFAULT: int := 10
  const PAGE_SIZE_MAX: int := 50

  datatype Page<T> = Page(
    rows: seq<T>,
    total: nat,
    page: int,
    pageSize: int,
    totalPages: int,
    hasPrevious: bool,
    hasNext: bool,
    previousPage: int,
    nextPage: int)

  function Max(a: int, b: int): int { if a < b then b else a }
  function Min(a: int, b: int): int { if a < b then a else b }

  /** `parseInt(x || d) || d`, the number being absent when it does not parse. */
  function OrDefault(requested: Option<int>, default: int): int {
    if requested.Some? && requested.value != 0 then requested.value else default
  }

  /** `slice`, which clamps its ends to the list. */
  function Slice<T>(rows: seq<T>, from: nat, to: nat): seq<T>
    requires from <= to
  {
    rows[Min(from, |rows|)..Min(to, |rows|)]
  }

  function CeilingDiv(a: nat, b: int): (r: int)
    requires b > 0
    ensures r >= 0
  {
    (a + b - 1) / b
  }

  /** Where a page begins in the list. */
  function Offset(page: int, size: int): (offset: nat)
    requires page >= 1 && size >= 1
  {
    OffsetNotNegative(page, size);
    (page - 1) * size
  }

  lemma OffsetNotNegative(page: int, size: int)
    requires page >= 1 && size >= 1
    ensures (page - 1) * size >= 0
  {
  }

  /** One page of the list that filtering and sorting left. */
  function ListLogs<T>(filtered: seq<T>, requestedPage: Option<int>, requestedSize: Option<int>): Page<T> {
    var pageSize := Min(Max(OrDefault(requestedSize, PAGE_SIZE_DEFAULT), 1), PAGE_SIZE_MAX);
    var page := Max(OrDefault(requestedPage, 1), 1);
    var totalPages := Max(CeilingDiv(|filtered|, pageSize), 1);
    var safePage := Min(page, totalPages);
    var offset := Offset(safePage, pageSize);
    Page(Slice(filtered, offset, offset + pageSize), |filtered|, safePage, pageSize, totalPages,
         safePage > 1, safePage < totalPages,
         if safePage > 1 then safePage - 1 else safePage,
         if safePage < totalPages then safePage + 1 else safePage)
  }

  /** The number of pages is the least that holds the list. */
  lemma TotalPagesExact(n: nat, size: int)
    requires size > 0
    ensures var pages := Max(CeilingDiv(n, size), 1);
            pages >= 1 && n <= pages * size && (pages > 1 ==> (pages - 1) * size < n)
  {
    var q := CeilingDiv(n, size);
    var m := n + size - 1;
    assert m == q * size + m % size;
    assert (q - 1) * size == q * size - size;
  }

  /** What a request for a number comes to: the number itself if it lies from 1 to
      the most allowed, the nearest of these if not, the default if none is given. */
  function Granted(requested: Option<int>, default: int, most: int): int {
    match requested
    case None => default
    case Some(n) => if n == 0 then default else if n < 1 then 1 else if n > most then most else n
  }

  /** For every requested page and size, given or not: the page shown is the one
      asked for as far as it exists, in pages of the size asked for up to 50, and its
      rows are the list's own from its offset on, it is full unless it is the
      last, and the flags and neighbours say whether there is a page before and
      after. */
  lemma PageInRange<T>(filtered: seq<T>, requestedPage: Option<int>, requestedSize: Option<int>)
    ensures var p := ListLogs(filtered, requestedPage, requestedSize);
            && 1 <= p.pageSize <= PAGE_SIZE_MAX
            && 1 <= p.page <= p.totalPages
            && var offset := Offset(p.page, p.pageSize);
               && offset + |p.rows| <= |filtered|
               && p.rows == filtered[offset..offset + |p.rows|]
               && (p.hasNext ==> |p.rows| == p.pageSize && offset + |p.rows| < |filtered|)
               && (!p.hasNext ==> offset + |p.rows| == |filtered|)
               && (p.hasPrevious <==> p.page > 1)
               && 1 <= p.previousPage <= p.page <= p.nextPage <= p.totalPages
               && (p.hasPrevious ==> p.previousPage == p.page - 1)
               && (p.hasNext <==> p.nextPage == p.page + 1)
               && (filtered != [] ==> p.rows != [])
               && p.total == |filtered|
               && offset == (p.page - 1) * p.pageSize
    ensures var p := ListLogs(filtered, requestedPage, requestedSize);
            && p.pageSize == Granted(requestedSize, 10, 50)
            && p.page == Granted(requestedPage, 1, p.totalPages)
            && |filtered| <= p.totalPages * p.pageSize
            && (p.totalPages > 1 ==> (p.totalPages - 1) * p.pageSize < |filtered|)
  {
    TotalPagesExact(|filtered|, ListLogs(filtered, requestedPage, requestedSize).pageSize);
    hide CeilingDiv, Slice;
    var p := ListLogs(filtered, requestedPage, requestedSize);
    PageBounds(|filtered|, p.pageSize, p.page);
    SliceIsRange(filtered, Offset(p.page, p.pageSize), p.pageSize);
  }

  lemma SliceIsRange<T>(rows: seq<T>, from: nat, size: nat)
    requires from <= |rows|
    ensures var r := Slice(rows, from, from + size);
            && |r| == Min(size, |rows| - from)
            && r == rows[from..from + |r|]
  {
  }

  /** Where page number `page` of n rows begins and how far it reaches. */
  lemma PageBounds(n: nat, size: int, page: int)
    requires size >= 1 && 1 <= page <= Max(CeilingDiv(n, size), 1)
    ensures var offset, pages := Offset(page, size), Max(CeilingDiv(n, size), 1);
            && offset <= n
            && (page < pages ==> offset + size < n)
            && (page == pages ==> n <= offset + size)
            && (n > 0 ==> offset < n)
  {
    var pages := Max(CeilingDiv(n, size), 1);
    TotalPagesExact(n, size);
    hide CeilingDiv;
    MulMonotone(page - 1, pages - 1, size);
    if page < pages {
      MulMonotone(page, pages - 1, size);
    }
    assert page * size == (page - 1) * size + size;
  }

  lemma MulMonotone(a: int, b: int, c: int)
    requires a <= b && c >= 0
    ensures a * c <= b * c
  {
  }

  /** The rows of the first k pages, then page k + 1. */
  lemma ExportStep<T>(filtered: seq<T>, k: nat)
    requires k < Max(CeilingDiv(|filtered|, PAGE_SIZE_MAX), 1)
    ensures var p := ListLogs(filtered, Some(k + 1), Some(PAGE_SIZE_MAX));
            && p.totalPages == Max(CeilingDiv(|filtered|, PAGE_SIZE_MAX), 1)
            && Slice(filtered, 0, k * 50) + p.rows == Slice(filtered, 0, (k + 1) * 50)
  {
    PageBounds(|filtered|, PAGE_SIZE_MAX, k + 1);
    hide CeilingDiv;
    var p := ListLogs(filtered, Some(k + 1), Some(PAGE_SIZE_MAX));
    assert p.page == k + 1 && p.pageSize == 50;
    assert p.rows == Slice(filtered, k * 50, k * 50 + 50);
  }

  /** A listing that shows page n of this list, in pages of the largest size. */
  ghost predicate Pages<T>(listing: int -> Page<T>, filtered: seq<T>) {
    forall n :: listing(n) == ListLogs(filtered, Some(n), Some(PAGE_SIZE_MAX))
  }

  /** Visiting page after page until the last collects every row of the list once
      and in order, each page being listed anew. */
  method ExportRows<T>(listing: int -> Page<T>, ghost filtered: seq<T>) returns (allRows: seq<T>)
    requires Pages(listing, filtered)
    ensures allRows == filtered
  {
    hide CeilingDiv, ListLogs;
    ExportStep(filtered, 0);
    var currentPage := listing(1);
    allRows := [];
    var pageNumber := 1;
    while pageNumber <= currentPage.totalPages
      invariant 1 <= pageNumber <= currentPage.totalPages + 1
      invariant currentPage.totalPages == Max(CeilingDiv(|filtered|, PAGE_SIZE_MAX), 1)
      invariant allRows == Slice(filtered, 0, (pageNumber - 1) * 50)
      decreases currentPage.totalPages - pageNumber
    {
      ExportStep(filtered, pageNumber - 1);
      currentPage := listing(pageNumber);
      allRows := allRows + currentPage.rows;
      pageNumber := pageNumber + 1;
    }
    TotalPagesExact(|filtered|, PAGE_SIZE_MAX);
    assert allRows == filtered[..|filtered|];
  }
}
