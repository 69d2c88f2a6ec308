/**
 * The server-rendered listing page: the `page` query parameter, the slice of
 * posts asked of the content store, the page count and the navigation flags.
 * The requested page is not clamped to the page count here.
 */
module BlogPage {
  import opened Wrappers
  import JsText
  import Pagination
  import Seqs

  const PageSize: int := 10

  /** A query parameter as the framework hands it over: absent, given once, or repeated. */
  datatype SearchParam = Absent | Single(value: string) | Repeated(values: seq<string>)

  /** `Array.isArray(p) ? p[0] : p`: the parameter's first value, if any. */
  function FirstValue(p: SearchParam): Option<string> {
    match p
    case Absent => None
    case Single(v) => Some(v)
    case Repeated(vs) => if vs == [] then None else Some(vs[0])
  }

  /**
   * `Math.max(1, Number.parseInt(String(pageRaw || '1'), 10) || 1)`. An
   * absent or empty parameter reads as "1"; NaN and 0 are falsy and become 1.
   */
  function NormalizePage(pageParam: SearchParam): (page: int)
    ensures page >= 1
    ensures FirstValue(pageParam) == None ==> page == 1
    ensures page != 1 ==>
              FirstValue(pageParam).Some? && JsText.ParseInt(FirstValue(pageParam).value) == Some(page)
    ensures var raw := FirstValue(pageParam);
            raw.Some? && JsText.ParseInt(raw.value).Some? && JsText.ParseInt(raw.value).value >= 1 ==>
              page == JsText.ParseInt(raw.value).value
  {
    var raw := FirstValue(pageParam);
    var text := if raw.None? || raw.value == "" then "1" else raw.value;
    var parsed := JsText.ParseInt(text);
    var orOne := if parsed.None? || parsed.value == 0 then 1 else parsed.value;
    JsText.ParseIntExamples();
    Seqs.Max(1, orOne)
  }

  /** `totalCount > 0 ? Math.ceil(totalCount / pageSize) : 1`. */
  function TotalPages(totalCount: int): (r: int)
    ensures r >= 1
    ensures totalCount <= 0 ==> r == 1
    ensures totalCount > 0 ==> (r - 1) * PageSize < totalCount <= r * PageSize
  {
    if totalCount > 0 then (totalCount + PageSize - 1) / PageSize else 1
  }

  /** The values the page renders from. */
  datatype Listing<T> = Listing(
    page: int,
    start: int,
    end: int,
    posts: seq<T>,
    totalCount: int,
    totalPages: int,
    hasPrev: bool,
    hasNext: bool,
    pageItems: seq<Pagination.Item>)

  /**
   * The listing for a `page` parameter, given what the store holds for the
   * filter: the matching posts newest first, or `None` when the joint fetch
   * failed and every result falls back to empty. The store is asked for the
   * range `[start...end]` of the matching posts, which cuts the list as
   * `Seqs.Slice` does. The requested page is kept as read, even past the
   * last page.
   */
  function ServerListing<T>(pageParam: SearchParam, matching: Option<seq<T>>): (v: Listing<T>)
    ensures v.page == NormalizePage(pageParam)
    ensures v.page >= 1 && v.start == (v.page - 1) * PageSize && v.start >= 0 && v.end - v.start == PageSize
    ensures v.totalCount == (if matching.Some? then |matching.value| else 0)
    ensures v.posts == Seqs.Slice(if matching.Some? then matching.value else [], v.start, v.end)
    ensures v.totalPages == TotalPages(v.totalCount)
    ensures v.totalPages >= 1
    ensures v.totalCount > 0 ==> (v.totalPages - 1) * PageSize < v.totalCount <= v.totalPages * PageSize
    ensures v.hasPrev <==> v.page > 1
    ensures v.hasNext <==> v.page < v.totalPages
    ensures |v.posts| <= PageSize
    ensures v.page <= v.totalPages && v.totalCount > 0 ==> v.posts != []
    ensures v.page > v.totalPages ==> v.posts == [] && !v.hasNext
    ensures v.pageItems == Pagination.PageItems(v.page, v.totalPages, 1)
    ensures Pagination.NumbersWithin(v.pageItems, 1, v.totalPages)
    ensures Pagination.Num(v.page) in v.pageItems <==> v.page <= v.totalPages
  {
    var page := NormalizePage(pageParam);
    var start := (page - 1) * PageSize;
    var end := start + PageSize;
    var all := if matching.Some? then matching.value else [];
    var posts := Seqs.Slice(all, start, end);
    var totalCount := |all|;
    var totalPages := TotalPages(totalCount);
    var items := Pagination.PageItems(page, totalPages, 1);
    Pagination.PageItemsOrdered(page, totalPages, 1);
    Pagination.PageItemsCurrentShownIff(page, totalPages, 1);
    Listing(page, start, end, posts, totalCount, totalPages, page > 1, page < totalPages, items)
  }
}
