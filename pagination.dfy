/** Pagination: the query record, the two paged-result records with their
    derived page count, and ToPagedResultAsync over a sequence (search filter,
    optional sort by a column, count, then one page). */
module Pagination {
  import opened Primitives
  import Linq

  // ---------------------------------------------------------------------------
  // PaginationQuery
  // ---------------------------------------------------------------------------

  datatype PaginationQuery = PaginationQuery(
    pageNumber: Int32,
    pageSize: Int32,
    searchTerm: Option<string>,
    sortColumn: Option<string>,
    sortDirection: Option<string>)

  /** `new PaginationQuery()`: page 1 of 10, no search term, no sort column,
      direction "asc". */
  const DefaultQuery: PaginationQuery := PaginationQuery(1, 10, None, None, Some("asc"))

  // ---------------------------------------------------------------------------
  // The page count both result records derive from TotalCount and PageSize.
  // ---------------------------------------------------------------------------

  /** The least integer not below a / b. */
  function CeilQuotient(a: int, b: int): (q: int)
    requires b != 0
    ensures b > 0 ==> q * b >= a && (q - 1) * b < a
    ensures b < 0 ==> q * b <= a && (q - 1) * b > a
  {
    if b > 0 then
      var f := (-a) / b;
      assert -a == b * f + (-a) % b;
      assert -f * b >= a && (-f - 1) * b < a;
      -f
    else
      var f := a / (-b);
      assert a == (-b) * f + a % (-b);
      assert -f * b <= a && (-f - 1) * b > a;
      -f
  }

  /** Multiplying by a non-negative factor keeps the order. */
  lemma MulMonotone(x: int, y: int, c: int)
    requires x <= y && c >= 0
    ensures x * c <= y * c
  {
    assert y * c == x * c + (y - x) * c;
  }

  /** Two ceilings of the same quotient are equal. */
  lemma CeilingUnique(p: int, q: int, a: int, b: int)
    requires b > 0
    requires p * b >= a && (p - 1) * b < a
    requires q * b >= a && (q - 1) * b < a
    ensures p == q
  {
    if p < q {
      MulMonotone(p, q - 1, b);
    } else if q < p {
      MulMonotone(q, p - 1, b);
    }
  }

  /** `(int)Math.Ceiling((double)TotalCount / PageSize)`. For Int32 operands
      the rounded quotient never crosses an integer, so the ceiling is exact;
      the cast saturates (.NET 9): a zero page size gives NaN (0) or an
      infinity (the bound of its sign). */
  function PagesFor(totalCount: Int32, pageSize: Int32): (pages: Int32)
    ensures pageSize > 0 && totalCount >= 0 ==>
      pages >= 0 && pages * pageSize >= totalCount && (pages - 1) * pageSize < totalCount
    ensures pageSize != 0 ==> pages == Saturate32(CeilQuotient(totalCount, pageSize))
    ensures pageSize == 0 ==>
      pages == if totalCount > 0 then MaxInt32 else if totalCount < 0 then MinInt32 else 0
  {
    if pageSize == 0 then
      if totalCount > 0 then MaxInt32 else if totalCount < 0 then MinInt32 else 0
    else
      var q := CeilQuotient(totalCount, pageSize);
      if pageSize > 0 && totalCount >= 0 then
        CeilQuotientBounds(totalCount, pageSize);
        Saturate32(q)
      else
        Saturate32(q)
  }

  /** For a non-negative dividend and a positive divisor the ceiling lies
      between 0 and the dividend, so it needs no saturation. */
  lemma CeilQuotientBounds(a: int, b: int)
    requires a >= 0 && b > 0
    ensures 0 <= CeilQuotient(a, b) <= a
  {
    var q := CeilQuotient(a, b);
    if q < 0 {
      MulMonotone(q, -1, b);
    }
    if q > a {
      MulMonotone(a, q - 1, b);
      MulMonotone(1, b, a);
    }
  }

  /** The page count is the integer ceiling (TotalCount + PageSize - 1) /
      PageSize, and nothing means no pages. */
  lemma PagesForIsCeiling(totalCount: Int32, pageSize: Int32)
    requires pageSize > 0 && totalCount >= 0
    ensures PagesFor(totalCount, pageSize) == (totalCount + pageSize - 1) / pageSize
    ensures totalCount == 0 ==> PagesFor(totalCount, pageSize) == 0
  {
    var p := PagesFor(totalCount, pageSize);
    var d := (totalCount + pageSize - 1) / pageSize;
    CeilByDivision(totalCount, pageSize);
    CeilingUnique(p, d, totalCount, pageSize);
  }

  /** (a + b - 1) / b is a ceiling of a / b. */
  lemma CeilByDivision(a: int, b: int)
    requires b > 0
    ensures var d := (a + b - 1) / b; d * b >= a && (d - 1) * b < a
  {
    var n := a + b - 1;
    var d := n / b;
    var m := n % b;
    assert n == d * b + m && 0 <= m < b;
    assert (d - 1) * b == d * b - b;
  }

  /** Twenty-five rows in pages of ten are three pages. */
  lemma TwentyFiveRowsMakeThreePages()
    ensures PagesFor(25, 10) == 3
  {
    PagesForIsCeiling(25, 10);
  }

  // ---------------------------------------------------------------------------
  // PagedResult (database side) and PagedResultResponse (API side): the same
  // record, TotalPages computed from the other fields, never stored.
  // ---------------------------------------------------------------------------

  datatype PagedResult<T> = PagedResult(
    items: Option<seq<T>>,
    totalCount: Int32,
    currentPage: Int32,
    pageSize: Int32)
  {
    /** The four-argument constructor. */
    static function New(items: seq<T>, totalCount: Int32, currentPage: Int32, pageSize: Int32): (r: PagedResult<T>)
      ensures r.items == Some(items) && r.totalCount == totalCount
      ensures r.currentPage == currentPage && r.pageSize == pageSize
    {
      PagedResult(Some(items), totalCount, currentPage, pageSize)
    }

    /** The parameterless constructor: no items and zeros, so TotalPages is
        the cast of 0 / 0 (NaN), which is 0. */
    static function Empty(): (r: PagedResult<T>)
      ensures r.items.None? && r.totalCount == 0 && r.currentPage == 0 && r.pageSize == 0
      ensures r.TotalPages() == 0
    {
      PagedResult(None, 0, 0, 0)
    }

    function TotalPages(): (pages: Int32)
    {
      PagesFor(totalCount, pageSize)
    }
  }

  datatype PagedResultResponse<T> = PagedResultResponse(
    items: Option<seq<T>>,
    totalCount: Int32,
    currentPage: Int32,
    pageSize: Int32)
  {
    /** The four-argument constructor. */
    static function New(items: seq<T>, totalCount: Int32, currentPage: Int32, pageSize: Int32): (r: PagedResultResponse<T>)
      ensures r.items == Some(items) && r.totalCount == totalCount
      ensures r.currentPage == currentPage && r.pageSize == pageSize
    {
      PagedResultResponse(Some(items), totalCount, currentPage, pageSize)
    }

    /** The parameterless constructor: no items and zeros, so TotalPages is
        the cast of 0 / 0 (NaN), which is 0. */
    static function Empty(): (r: PagedResultResponse<T>)
      ensures r.items.None? && r.totalCount == 0 && r.currentPage == 0 && r.pageSize == 0
      ensures r.TotalPages() == 0
    {
      PagedResultResponse(None, 0, 0, 0)
    }

    function TotalPages(): (pages: Int32)
    {
      PagesFor(totalCount, pageSize)
    }
  }

  /** TotalPages of a PagedResult is derived: it depends on TotalCount and
      PageSize only, follows any assignment to them, and is their ceiling
      quotient. */
  lemma PagedResultTotalPages<T>(r: PagedResult<T>, totalCount: Int32, pageSize: Int32)
    requires pageSize > 0 && totalCount >= 0
    ensures
      var u := r.(totalCount := totalCount, pageSize := pageSize);
      u.TotalPages() * pageSize >= totalCount &&
      (totalCount > 0 ==> (u.TotalPages() - 1) * pageSize < totalCount) &&
      (totalCount == 0 ==> u.TotalPages() == 0)
  {
    PagesForIsCeiling(totalCount, pageSize);
  }

  /** The same for PagedResultResponse. */
  lemma PagedResultResponseTotalPages<T>(r: PagedResultResponse<T>, totalCount: Int32, pageSize: Int32)
    requires pageSize > 0 && totalCount >= 0
    ensures
      var u := r.(totalCount := totalCount, pageSize := pageSize);
      u.TotalPages() * pageSize >= totalCount &&
      (totalCount > 0 ==> (u.TotalPages() - 1) * pageSize < totalCount) &&
      (totalCount == 0 ==> u.TotalPages() == 0)
  {
    PagesForIsCeiling(totalCount, pageSize);
  }

  // ---------------------------------------------------------------------------
  // ToPagedResultAsync
  // ---------------------------------------------------------------------------

  /** The lambda `x => x.ToString().Contains(term)`. */
  function SearchPredicate<T>(show: T -> string, term: string): T -> bool
  {
    x => Contains(show(x), term)
  }

  /** The search step: no filter for a null or blank term, otherwise exactly
      the elements whose string form contains the term, in source order. */
  function ApplySearch<T>(source: seq<T>, searchTerm: Option<string>, show: T -> string): (r: seq<T>)
    ensures IsNullOrWhiteSpace(searchTerm) ==> r == source
    ensures forall x | x in r :: x in source
    ensures !IsNullOrWhiteSpace(searchTerm) ==>
      forall i | 0 <= i < |r| :: Contains(show(r[i]), searchTerm.value)
    ensures !IsNullOrWhiteSpace(searchTerm) ==>
      forall x | x in source ::
        multiset(r)[x] == if Contains(show(x), searchTerm.value) then multiset(source)[x] else 0
  {
    if IsNullOrWhiteSpace(searchTerm) then source
    else Linq.Where(source, SearchPredicate(show, searchTerm.value))
  }

  /** The search keeps relative order: it distributes over concatenation. */
  lemma ApplySearchConcat<T>(a: seq<T>, b: seq<T>, searchTerm: Option<string>, show: T -> string)
    ensures ApplySearch(a + b, searchTerm, show) == ApplySearch(a, searchTerm, show) + ApplySearch(b, searchTerm, show)
  {
    if !IsNullOrWhiteSpace(searchTerm) {
      Linq.WhereConcat(a, b, SearchPredicate(show, searchTerm.value));
    }
  }

  /** `SortDirection?.ToLower() == "desc"`. */
  predicate IsDescending(sortDirection: Option<string>)
  {
    sortDirection.Some? && ToLower(sortDirection.value) == "desc"
  }

  /** A sort direction sorts descending exactly when it is "desc" in some
      mix of letter cases. */
  lemma DescInAnyCase(s: string)
    ensures IsDescending(Some(s)) <==>
      |s| == 4 && s[0] in "dD" && s[1] in "eE" && s[2] in "sS" && s[3] in "cC"
  {
    if IsDescending(Some(s)) {
      var low := ToLower(s);
      assert low == "desc";
      assert ToLowerChar(s[0]) == 'd' && ToLowerChar(s[1]) == 'e';
      assert ToLowerChar(s[2]) == 's' && ToLowerChar(s[3]) == 'c';
    }
    if |s| == 4 && s[0] in "dD" && s[1] in "eE" && s[2] in "sS" && s[3] in "cC" {
      assert ToLower(s) == "desc";
    }
  }

  /** Sample directions: three spellings of "desc" sort descending; null,
      "asc" and "descending" do not. */
  lemma DescendingDirections()
    ensures IsDescending(Some("desc")) && IsDescending(Some("DESC")) && IsDescending(Some("Desc"))
    ensures !IsDescending(None) && !IsDescending(Some("asc")) && !IsDescending(Some("descending"))
  {
    assert ToLower("DESC") == "desc";
    assert ToLower("Desc") == "desc";
    assert ToLower("asc") == "asc";
    assert |ToLower("descending")| == 10;
  }

  /** The lambda `x => EF.Property<object>(x, column)`, as an integer rank. */
  function ColumnKey<T>(sortKey: (string, T) -> int, column: string): T -> int
  {
    x => sortKey(column, x)
  }

  /** The sort step: unchanged for a null or empty column; otherwise a
      permutation ordered by the column's key, non-increasing for "desc" in any
      case and non-decreasing for every other direction, null included. */
  function ApplySort<T>(s: seq<T>, sortColumn: Option<string>, sortDirection: Option<string>,
                        sortKey: (string, T) -> int): (r: seq<T>)
    ensures IsNullOrEmpty(sortColumn) ==> r == s
    ensures |r| == |s| && multiset(r) == multiset(s)
    ensures !IsNullOrEmpty(sortColumn) && IsDescending(sortDirection) ==>
      forall i, j | 0 <= i < j < |r| :: sortKey(sortColumn.value, r[i]) >= sortKey(sortColumn.value, r[j])
    ensures !IsNullOrEmpty(sortColumn) && !IsDescending(sortDirection) ==>
      forall i, j | 0 <= i < j < |r| :: sortKey(sortColumn.value, r[i]) <= sortKey(sortColumn.value, r[j])
  {
    if IsNullOrEmpty(sortColumn) then s
    else
      var r := Linq.SortBy(s, ColumnKey(sortKey, sortColumn.value), IsDescending(sortDirection));
      assert forall i, j | 0 <= i < j < |r| ::
        Linq.InOrder(IsDescending(sortDirection), ColumnKey(sortKey, sortColumn.value)(r[i]),
                     ColumnKey(sortKey, sortColumn.value)(r[j]));
      r
  }

  /** `(PageNumber - 1) * PageSize` in unchecked Int32 arithmetic. */
  function SkipCount(pageNumber: Int32, pageSize: Int32): (skip: Int32)
  {
    Wrap32(Wrap32(pageNumber - 1) * pageSize)
  }

  /** `.Skip((PageNumber - 1) * PageSize).Take(PageSize)`: a contiguous run of
      at most PageSize elements. */
  function PageSlice<T>(s: seq<T>, pageNumber: Int32, pageSize: Int32): (r: seq<T>)
    ensures |r| <= if pageSize > 0 then pageSize else 0
    ensures exists start :: IsRunOf(r, s, start)
  {
    var rest := Linq.Skip(s, SkipCount(pageNumber, pageSize));
    var r := Linq.Take(rest, pageSize);
    var start := |s| - |rest|;
    assert IsRunOf(r, s, start);
    r
  }

  /** r is the run of s that begins at start. */
  ghost predicate IsRunOf<T>(r: seq<T>, s: seq<T>, start: int)
  {
    0 <= start <= |s| - |r| && r == s[start..start + |r|]
  }

  function Min(a: int, b: int): int { if a <= b then a else b }
  function Max(a: int, b: int): int { if a >= b then a else b }

  /** `(PageNumber - 1) * PageSize` for positive operands, never negative. */
  function PageStart(pageNumber: Int32, pageSize: Int32): (start: nat)
    requires pageNumber >= 1 && pageSize >= 1
    ensures start == (pageNumber - 1) * pageSize
  {
    MulMonotone(0, pageNumber - 1, pageSize);
    (pageNumber - 1) * pageSize
  }

  /** For page numbers and sizes of at least 1, and an offset that fits in an
      Int32, the page starts at (PageNumber - 1) * PageSize and holds
      min(PageSize, max(0, count - offset)) elements. */
  lemma PageSliceIsPage<T>(s: seq<T>, pageNumber: Int32, pageSize: Int32)
    requires pageNumber >= 1 && pageSize >= 1
    requires (pageNumber - 1) * pageSize <= MaxInt32
    ensures
      var start := PageStart(pageNumber, pageSize);
      var r := PageSlice(s, pageNumber, pageSize);
      |r| == Min(pageSize, Max(0, |s| - start)) &&
      r == s[Min(start, |s|)..Min(start + pageSize, |s|)]
  {
    var start := PageStart(pageNumber, pageSize);
    assert SkipCount(pageNumber, pageSize) == start;
  }

  /** The offset wraps: page 1073741825 of size 2 has offset 2^31, which wraps
      to Int32.MinValue, and Skip of a negative count skips nothing, so that
      page holds the first two elements again. */
  lemma HugePageNumberWrapsToFirstPage<T>(s: seq<T>)
    ensures PageSlice(s, 1073741825, 2) == s[..Min(2, |s|)]
  {
    assert SkipCount(1073741825, 2) == MinInt32;
  }

  /** Counting more than Int32.MaxValue elements throws. */
  datatype PagingError = CountOverflow

  /** ToPagedResultAsync. The search, the sort and the count come before the
      slice, the count being that of the whole filtered sequence; the query's
      page number and size are echoed. */
  function ToPagedResult<T>(source: seq<T>, query: PaginationQuery, show: T -> string,
                            sortKey: (string, T) -> int): (r: Result<PagedResult<T>, PagingError>)
    ensures
      var filtered := ApplySearch(source, query.searchTerm, show);
      var ordered := ApplySort(filtered, query.sortColumn, query.sortDirection, sortKey);
      && (r.Failure? <==> |filtered| > MaxInt32)
      && (r.Success? ==>
            && r.value.items == Some(PageSlice(ordered, query.pageNumber, query.pageSize))
            && r.value.totalCount == |filtered|
            && r.value.currentPage == query.pageNumber
            && r.value.pageSize == query.pageSize)
  {
    var filtered := ApplySearch(source, query.searchTerm, show);
    var ordered := ApplySort(filtered, query.sortColumn, query.sortDirection, sortKey);
    var totalCount := |ordered|;
    if totalCount > MaxInt32 then Failure(CountOverflow)
    else
      var items := PageSlice(ordered, query.pageNumber, query.pageSize);
      Success(PagedResult.New(items, totalCount, query.pageNumber, query.pageSize))
  }

  /** The default query neither filters nor sorts: it returns the first ten
      elements, the full count, and the ceiling of count / 10 pages. */
  lemma DefaultQueryFirstPage<T>(source: seq<T>, show: T -> string, sortKey: (string, T) -> int)
    requires |source| <= MaxInt32
    ensures
      var r := ToPagedResult(source, DefaultQuery, show, sortKey);
      && r.Success?
      && r.value.items == Some(source[..Min(10, |source|)])
      && r.value.totalCount == |source|
      && r.value.TotalPages() == (|source| + 9) / 10
  {
    PageSliceIsPage(source, 1, 10);
    PagesForIsCeiling(|source|, 10);
  }

  /** With the default query, twenty-five rows give a first page of ten and
      three pages in all. */
  lemma TwentyFiveRowsFirstPage<T>(source: seq<T>, show: T -> string, sortKey: (string, T) -> int)
    requires |source| == 25
    ensures
      var r := ToPagedResult(source, DefaultQuery, show, sortKey);
      r.Success? && |r.value.items.value| == 10 && r.value.TotalPages() == 3
  {
    DefaultQueryFirstPage(source, show, sortKey);
  }
}
