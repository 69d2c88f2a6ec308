/**
 * The client-side listing page: it receives every post, filters them by the
 * `category` query parameter, clamps the `page` parameter to the page count,
 * cuts the page's block of ten posts, and builds the links of the bar.
 */
module BlogPageClient {
  import opened Wrappers
  import JsText
  import Pagination
  import Seqs
  import opened Content

  const PageSize: int := 10

  /**
   * `toPositiveInt`: parse the parameter (an absent one reads as "1"); NaN or
   * a value below 1 gives 1, any other value is kept.
   */
  function ToPositiveInt(value: Option<string>): (r: int)
    ensures r >= 1
    ensures value == None ==> r == 1
    ensures r != 1 ==> value.Some? && JsText.ParseInt(value.value) == Some(r)
    ensures value.Some? && JsText.ParseInt(value.value).Some? && JsText.ParseInt(value.value).value >= 1 ==>
              r == JsText.ParseInt(value.value).value
  {
    var parsed := JsText.ParseInt(value.GetOr("1"));
    JsText.ParseIntExamples();
    if parsed.None? || parsed.value < 1 then 1 else parsed.value
  }

  // ---------------------------------------------------------------------
  // Category filter

  /** `post.categories?.some((category) => category.slug?.current === slug)`. */
  predicate InCategory(post: PostListItem, slug: string) {
    post.categories.Some? && exists c :: c in post.categories.value && c.slug == Some(slug)
  }

  /** `posts.filter(...)` for one slug: the posts in that category, in their order, each as often as given. */
  function KeepInCategory(posts: seq<PostListItem>, slug: string): (r: seq<PostListItem>)
    ensures Seqs.IsSubsequence(r, posts)
    ensures forall p :: multiset(r)[p] == if InCategory(p, slug) then multiset(posts)[p] else 0
  {
    if posts == [] then []
    else
      var rest := KeepInCategory(posts[1..], slug);
      assert posts == [posts[0]] + posts[1..];
      if InCategory(posts[0], slug) then [posts[0]] + rest else rest
  }

  /** `filteredPosts`: every post without a category parameter, else the posts in that category. */
  function FilterPosts(posts: seq<PostListItem>, categoryParam: Option<string>): (r: seq<PostListItem>)
    ensures categoryParam.None? || categoryParam.value == "" ==> r == posts
    ensures categoryParam.Some? && categoryParam.value != "" ==>
              && Seqs.IsSubsequence(r, posts)
              && forall p :: multiset(r)[p] == if InCategory(p, categoryParam.value) then multiset(posts)[p] else 0
  {
    if categoryParam.None? || categoryParam.value == "" then posts
    else KeepInCategory(posts, categoryParam.value)
  }

  /** Filtering a second time by the same parameter changes nothing. */
  lemma {:induction false} KeepInCategoryIdempotent(posts: seq<PostListItem>, slug: string)
    ensures KeepInCategory(KeepInCategory(posts, slug), slug) == KeepInCategory(posts, slug)
  {
    if posts != [] {
      KeepInCategoryIdempotent(posts[1..], slug);
    }
  }

  // ---------------------------------------------------------------------
  // Page count, clamp and slice

  /** `Math.max(1, Math.ceil(count / PAGE_SIZE))`. */
  function TotalPagesFor(count: nat): (r: int)
    ensures r >= 1
    ensures count == 0 ==> r == 1
    ensures count > 0 ==> (r - 1) * PageSize < count <= r * PageSize
  {
    Seqs.Max(1, (count + PageSize - 1) / PageSize)
  }

  /** The block of posts shown on page `page`. */
  function PageBlock<T>(s: seq<T>, page: nat): seq<T>
    requires page >= 1
  {
    Seqs.Slice(s, (page - 1) * PageSize, (page - 1) * PageSize + PageSize)
  }

  /** The values the page renders from. */
  datatype ClientListing = ClientListing(
    filteredPosts: seq<PostListItem>,
    requestedPage: int,
    totalPages: int,
    page: int,
    pageItems: seq<Pagination.Item>,
    start: int,
    pagedPosts: seq<PostListItem>,
    hasPrev: bool,
    hasNext: bool)

  /** The listing for the `category` and `page` query parameters. */
  function Listing(posts: seq<PostListItem>, categoryParam: Option<string>, pageParam: Option<string>): (v: ClientListing)
    ensures v.filteredPosts == FilterPosts(posts, categoryParam)
    ensures v.requestedPage == ToPositiveInt(pageParam)
    ensures v.totalPages == TotalPagesFor(|v.filteredPosts|)
    ensures 1 <= v.page <= v.totalPages
    ensures v.page == Seqs.Min(v.requestedPage, v.totalPages)
    ensures |v.filteredPosts| > 0 ==>
              (v.totalPages - 1) * PageSize < |v.filteredPosts| <= v.totalPages * PageSize
    ensures v.start == (v.page - 1) * PageSize && 0 <= v.start <= |v.filteredPosts|
    ensures v.pagedPosts == v.filteredPosts[v.start..Seqs.Min(|v.filteredPosts|, v.start + PageSize)]
    ensures |v.pagedPosts| <= PageSize
    ensures v.pagedPosts != [] <==> v.filteredPosts != []
    ensures v.hasPrev <==> v.page > 1
    ensures v.hasNext <==> v.page < v.totalPages
    ensures v.pageItems == Pagination.PageItems(v.page, v.totalPages, 1)
    ensures Pagination.NumbersWithin(v.pageItems, 1, v.totalPages)
    ensures Pagination.Num(v.page) in v.pageItems
  {
    var filtered := FilterPosts(posts, categoryParam);
    var requested := ToPositiveInt(pageParam);
    var totalPages := TotalPagesFor(|filtered|);
    var page := Seqs.Min(requested, totalPages);
    var items := Pagination.PageItems(page, totalPages, 1);
    var start := (page - 1) * PageSize;
    var paged := Seqs.Slice(filtered, start, start + PageSize);
    Pagination.PageItemsOrdered(page, totalPages, 1);
    Pagination.PageItemsShowCurrent(page, totalPages, 1);
    ClampedBlock(filtered, page, start);
    ClientListing(filtered, requested, totalPages, page, items, start, paged, page > 1, page < totalPages)
  }

  /** A page within the page count starts inside the list, so its block is never empty unless the list is. */
  lemma ClampedBlock<T>(s: seq<T>, page: int, start: int)
    requires 1 <= page <= TotalPagesFor(|s|) && start == (page - 1) * PageSize
    ensures 0 <= start <= |s|
    ensures Seqs.Slice(s, start, start + PageSize) == s[start..Seqs.Min(|s|, start + PageSize)]
    ensures |Seqs.Slice(s, start, start + PageSize)| <= PageSize
    ensures Seqs.Slice(s, start, start + PageSize) != [] <==> s != []
  {
    if |s| > 0 {
      assert start <= (TotalPagesFor(|s|) - 1) * PageSize;
    }
  }

  /** The posts of pages 1 to `pages`, one block after another. */
  function Pages<T>(s: seq<T>, pages: nat): seq<T> {
    if pages == 0 then [] else Pages(s, pages - 1) + PageBlock(s, pages)
  }

  lemma {:induction false} PagesPrefix<T>(s: seq<T>, pages: nat)
    ensures Pages(s, pages) == s[..Seqs.Min(pages * PageSize, |s|)]
  {
    if pages > 0 {
      PagesPrefix(s, pages - 1);
      var lo := Seqs.Min((pages - 1) * PageSize, |s|);
      var hi := Seqs.Min(pages * PageSize, |s|);
      assert s[..hi] == s[..lo] + s[lo..hi];
    }
  }

  /** The pages of the bar, read in order, show every filtered post exactly once. */
  lemma PagesCoverPosts<T>(s: seq<T>)
    ensures Pages(s, TotalPagesFor(|s|)) == s
  {
    PagesPrefix(s, TotalPagesFor(|s|));
    assert s[..|s|] == s;
  }

  // ---------------------------------------------------------------------
  // Links

  /** `URLSearchParams.get(name)`: the value of the first pair named `name`. */
  function Get(entries: seq<(string, string)>, name: string): (r: Option<string>)
    ensures r.None? <==> forall i :: 0 <= i < |entries| ==> entries[i].0 != name
    ensures r.Some? ==> exists i :: 0 <= i < |entries| && entries[i] == (name, r.value)
                                    && forall j :: 0 <= j < i ==> entries[j].0 != name
  {
    if entries == [] then None
    else if entries[0].0 == name then Some(entries[0].1)
    else
      var r := Get(entries[1..], name);
      assert forall i :: 1 <= i < |entries| ==> entries[i] == entries[1..][i - 1];
      r
  }

  function RemoveNamed(entries: seq<(string, string)>, name: string): (r: seq<(string, string)>)
    ensures Get(r, name) == None
    ensures forall n :: n != name ==> Get(r, n) == Get(entries, n)
  {
    if entries == [] then []
    else if entries[0].0 == name then RemoveNamed(entries[1..], name)
    else [entries[0]] + RemoveNamed(entries[1..], name)
  }

  /**
   * `URLSearchParams.set(name, value)`: the first pair named `name` takes the
   * value and later pairs of that name go; with no such pair, one is appended.
   */
  function SetEntry(entries: seq<(string, string)>, name: string, value: string): (r: seq<(string, string)>)
    ensures Get(r, name) == Some(value)
    ensures forall n :: n != name ==> Get(r, n) == Get(entries, n)
    ensures Get(entries, name) == None ==> r == entries + [(name, value)]
  {
    if entries == [] then [(name, value)]
    else if entries[0].0 == name then [(name, value)] + RemoveNamed(entries[1..], name)
    else [entries[0]] + SetEntry(entries[1..], name, value)
  }

  /** A `URLSearchParams` object: name-value pairs in insertion order. */
  class SearchParams {
    var entries: seq<(string, string)>

    constructor ()
      ensures entries == []
    {
      entries := [];
    }

    method Set(name: string, value: string)
      modifies this
      ensures entries == SetEntry(old(entries), name, value)
    {
      entries := SetEntry(entries, name, value);
    }
  }

  /** A link to the listing: "/blog" when `query` is empty, else "/blog?" and the encoded query. */
  datatype BlogHref = BlogHref(query: seq<(string, string)>)

  /**
   * `buildBlogHref(category, page)`. The link carries the category when it is
   * non-empty and the page when it is past 1, category first; reading it back
   * gives the category and the page (1 for any page up to 1).
   */
  method BuildBlogHref(category: Option<string>, page: int) returns (href: BlogHref)
    ensures Get(href.query, "category") == (if category.Some? && category.value != "" then category else None)
    ensures Get(href.query, "page") == (if page > 1 then Some(JsText.DecimalString(page)) else None)
    ensures ToPositiveInt(Get(href.query, "page")) == Seqs.Max(page, 1)
    ensures href.query == [] <==> (category.None? || category.value == "") && page <= 1
    ensures |href.query| <= 2
    ensures |href.query| == 2 ==> href.query[0].0 == "category" && href.query[1].0 == "page"
  {
    var params := new SearchParams();
    if category.Some? && category.value != "" {
      params.Set("category", category.value);
    }
    if page > 1 {
      params.Set("page", JsText.DecimalString(page));
      JsText.ParseDecimalRoundTrip(page);
    }
    href := BlogHref(params.entries);
  }
}
