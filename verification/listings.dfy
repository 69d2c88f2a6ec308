/**
 * The two listing pages side by side: they read the `page` parameter and
 * count pages the same way, but only the client page clamps the request to
 * the page count.
 */
module Listings {
  import opened Wrappers
  import JsText
  import Content
  import BlogPage
  import BlogPageClient

  /** Both pages turn the same raw parameter into the same requested page. */
  lemma SamePageParsing(p: BlogPage.SearchParam)
    ensures BlogPage.NormalizePage(p) == BlogPageClient.ToPositiveInt(BlogPage.FirstValue(p))
  {
    var raw := BlogPage.FirstValue(p);
    if raw.Some? && raw.value == "" {
      JsText.ParseIntExamples();
    }
  }

  /** Both pages count the same number of pages for the same number of posts. */
  lemma SamePageCount(count: nat)
    ensures BlogPage.TotalPages(count) == BlogPageClient.TotalPagesFor(count)
  {
  }

  /**
   * A page past the end: with 25 posts and `page=99`, the server page keeps
   * page 99 and shows nothing, while the client page falls back to page 3.
   */
  lemma PastTheEnd(posts: seq<Content.PostListItem>)
    requires |posts| == 25
    ensures var v := BlogPage.ServerListing(BlogPage.Single("99"), Some(posts));
            v.page == 99 && v.totalPages == 3 && v.posts == [] && v.hasPrev && !v.hasNext
    ensures var v := BlogPageClient.Listing(posts, None, Some("99"));
            v.page == 3 && v.totalPages == 3 && v.pagedPosts == posts[20..] && v.hasPrev && !v.hasNext
  {
    ParseNinetyNine();
    var v := BlogPage.ServerListing(BlogPage.Single("99"), Some(posts));
    assert v.page == 99;
    assert v.totalPages == 3;
    var w := BlogPageClient.Listing(posts, None, Some("99"));
    assert w.requestedPage == 99;
  }

  lemma ParseNinetyNine()
    ensures JsText.ParseInt("99") == Some(99)
  {
    JsText.ParseDecimalRoundTrip(99);
    assert JsText.NaturalString(99) == JsText.NaturalString(9) + [JsText.DigitChar(9)];
    assert JsText.DecimalString(99) == "99";
  }
}
