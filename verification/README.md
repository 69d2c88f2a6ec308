# Blog listing and revalidation webhook — a Dafny model

This project models the core of a Next.js blog front end backed by a headless
content store:

- **The pagination bar** (`createPagination`). Both listing pages carry the same
  copy. It shows page 1, a window of pages around the current one, the last page,
  and a `'dots'` marker wherever pages are skipped.
- **The server-rendered listing page** (`src/app/blog/page.tsx`). It covers:
  - reading the `page` query parameter;
  - the slice `[$start...$end]` asked of the store;
  - the page count and the previous/next flags. The requested page is *not*
    clamped, so a page past the end shows no posts.
- **The server page's category sidebar order**. This is a stable sort whose
  comparator has three tiers:
  - first, titles on a curated list, in list order;
  - then the chapter number read from the title;
  - then the title itself.
- **The client-rendered listing page** (`src/app/blog/BlogPageClient.tsx`). It
  covers:
  - `toPositiveInt`;
  - the category filter;
  - clamping the page to the page count and cutting that page's block of ten
    posts;
  - `buildBlogHref` with its `URLSearchParams`.
- **The on-demand revalidation webhook** (`src/app/api/revalidate/route.ts`). It
  covers:
  - the secret check;
  - the two ways of presenting the secret: the `secret` query parameter or a
    bearer token;
  - the six-step slug chain;
  - the tag set, and one `revalidateTag` call per tag.

The modules:

- `Wrappers`: the `Option` type.
- `Seqs`: integer maximum and minimum, subsequences, and `slice`, which both
  listing pages use.
- `JsText`: the JavaScript text operations the pages rely on:
  - `parseInt` in radix 10;
  - `String(n)`;
  - white-space removal;
  - `startsWith`;
  - a stand-in for `localeCompare`.
- `Pagination`: `createPagination`. It is a method that pushes entries as the
  source does, proved equal to the value `PageItems`, whose properties are lemmas.
- `Content`: the records fetched from the store.
- `CategoryOrder`: the sidebar comparator and sort.
- `BlogPage`: the server page.
- `BlogPageClient`: the client page and its links.
- `Listings`: how the two pages agree and where they differ.
- `Revalidate`: the webhook. The handler is a method over a `TagCache` object,
  proved equal to the value `Decide`.

## Model

| member | source | states |
|---|---|---|
| JsText.StripWhitespace | src/app/blog/page.tsx:131 | `replace(/\s+/g, "")`: the result keeps every character that is not white space, in order and as often as it occurs, and drops every white-space character |
| JsText.ParseInt | src/app/blog/BlogPageClient.tsx:30 | `Number.parseInt(s, 10)`; its properties are carried by `ParseDigits`, `ParseDecimalRoundTrip`, `ParseIntExamples` and `ParseIntNaN` |
| JsText.DecimalString | src/app/blog/BlogPageClient.tsx:64 | `String(page)`: digits without a leading zero, after a "-" for a negative value; `ParseDecimalRoundTrip` reads it back |
| JsText.ParseDecimalRoundTrip | src/app/blog/BlogPageClient.tsx:64 | `parseInt(String(n), 10)` gives back `n` for every integer `n` |
| JsText.TrimStartSkipsWhitespace | src/app/blog/BlogPageClient.tsx:30 | before the sign, `parseInt` skips exactly a prefix of white space: what remains is a suffix of the input that does not start with white space |
| JsText.ParseDigits | src/app/blog/BlogPageClient.tsx:30 | a run of decimal digits reads as its value, and with a leading "-" as its negation |
| JsText.ParseDigit | src/app/blog/BlogPageClient.tsx:30 | a single digit reads as its value |
| JsText.ParseIntExamples | src/app/blog/BlogPageClient.tsx:30 | `parseInt` reads "1", "3", "0" and "-5" as 1, 3, 0 and -5 |
| JsText.ParseIntNaN | src/app/blog/BlogPageClient.tsx:30-31 | `parseInt` reads "abc" and "" as NaN |
| JsText.LocaleCompareZero | src/app/blog/page.tsx:148 | the code-point stand-in for `localeCompare` answers 0 exactly for equal titles |
| JsText.LocaleCompareAntisymmetric | src/app/blog/page.tsx:148 | swapping the titles flips the sign of the comparison |
| JsText.LocaleCompareTransitive | src/app/blog/page.tsx:148 | the title comparison is transitive |
| Pagination.Run | src/app/blog/page.tsx:56 | `Array.from({length}, (_, i) => i + 1)` shifted to start at `lo`: entry `i` is page `lo + i`, and the length is never negative |
| Pagination.PushRange | src/app/blog/page.tsx:67 | each `for` loop of pushes appends exactly the pages `lo..hi-1`, in order |
| Pagination.PageItems | src/app/blog/page.tsx:53-77 | the bar as a value; its properties are the `PageItems…` lemmas and `LongLayout` |
| Pagination.CreatePagination | src/app/blog/page.tsx:53-77 | the pushes build exactly the bar `PageItems` describes; the properties of that bar are the lemmas below |
| Pagination.LongLayout | src/app/blog/page.tsx:58-76 | a long bar is page 1, an optional left dots, the window `max(current-s,2)..min(current+s,total-1)`, an optional right dots, and the last page, entry by entry |
| Pagination.PageItemsShort | src/app/blog/page.tsx:55-57 | when `total` fits the budget `2s+5`, the bar is every page 1..total |
| Pagination.PageItemsEndpoints | src/app/blog/page.tsx:63-75 | for `total >= 1` the bar starts at page 1 and ends at the last page |
| Pagination.PageItemsOrdered | src/app/blog/page.tsx:53-77 | page numbers rise strictly, so none repeats, and all lie within 1..total |
| Pagination.PageItemsLength | src/app/blog/page.tsx:54 | the bar never holds more entries than the budget `2s+5` |
| Pagination.PageItemsGaps | src/app/blog/page.tsx:60-74 | neighbouring numbers are consecutive pages; a dots sits only between two numbers, in the second or next-to-last slot, and stands for at least one skipped page |
| Pagination.PageItemsShowCurrent | src/app/blog/BlogPageClient.tsx:35-59 | a current page within 1..total is always on the bar |
| Pagination.PageItemsCurrentShownIff | src/app/blog/page.tsx:53-77 | for `current >= 1`, the current page is on the bar if and only if it is at most the last page |
| Pagination.PageItemsBeyondLast | src/app/blog/page.tsx:58-75 | a long bar for a page at least `siblingCount` past the last (from page 21 of 20 with one sibling) shows only page 1, dots and the last page |
| Pagination.PageItemsExamples | src/app/blog/page.tsx:53-77 | concrete bars: page 10 of 20, page 99 of 20, page 3 of 7 |
| CategoryOrder.IndexOf | src/app/blog/page.tsx:128 | `indexOf`: -1 exactly when the title is absent; otherwise the first position holding it |
| CategoryOrder.OrderIndex | src/app/blog/page.tsx:127-128 | the curated position: -1 exactly when the title is not on the curated list, otherwise a position holding that title |
| CategoryOrder.ChapterIndex | src/app/blog/page.tsx:129-134 | either `MAX_SAFE_INTEGER` or a chapter position whose name is the title without white space and one leading 第; a non-empty title naming a chapter gets that chapter's position |
| CategoryOrder.Compare | src/app/blog/page.tsx:136-149 | the comparator as written; `CompareIsKeyOrder`, `CompareTransitive` and `CompareTotal` carry its properties |
| CategoryOrder.Rank | src/app/blog/page.tsx:137-142 | the first-tier key is below `MAX_SAFE_INTEGER` exactly for curated titles |
| CategoryOrder.CompareIsKeyOrder | src/app/blog/page.tsx:136-149 | the comparator is negative, zero or positive exactly as the key (curated rank, chapter index, title) orders two titles; with the code-point stand-in for `localeCompare`, zero only for equal titles |
| CategoryOrder.CompareTransitive | src/app/blog/page.tsx:136-149 | the comparator is transitive, so it is a valid sort order |
| CategoryOrder.CompareTotal | src/app/blog/page.tsx:136-149 | any two categories compare one way or the other |
| CategoryOrder.Insert | src/app/blog/page.tsx:136 | inserting into a sorted list keeps it sorted and adds exactly that category |
| CategoryOrder.SortCategories | src/app/blog/page.tsx:135-150 | `[...categories].sort(compare)` is a permutation of the input, in comparator order |
| CategoryOrder.SortedTiers | src/app/blog/page.tsx:137-148 | in a sorted sidebar, curated titles come before all others and in curated order; among the rest, chapter order, then title order |
| CategoryOrder.SortKeepsSorted | src/app/blog/page.tsx:135-150 | sorting a sidebar already in order leaves it unchanged (the sort is stable) |
| CategoryOrder.SortIdempotent | src/app/blog/page.tsx:135-150 | sorting twice gives the same order as sorting once |
| CategoryOrder.InsertWithTitle | src/app/blog/page.tsx:136 | an inserted category goes ahead of every category with the same title, and the others keep their order |
| CategoryOrder.SortStable | src/app/blog/page.tsx:135-150 | the sort is stable: for every title, the categories with that title come out in the order they came in |
| BlogPage.FirstValue | src/app/blog/page.tsx:90 | `Array.isArray(p) ? p[0] : p`; used by `NormalizePage` and `Listings.SamePageParsing` |
| BlogPage.NormalizePage | src/app/blog/page.tsx:90-91 | the page is at least 1; an absent parameter gives 1; any other page is exactly the parsed value; a parsed value of at least 1 is kept |
| BlogPage.TotalPages | src/app/blog/page.tsx:107 | at least 1; 1 for no posts; otherwise the least page count whose pages of 10 hold every post |
| BlogPage.ServerListing | src/app/blog/page.tsx:89-110 | the page is `NormalizePage` of the parameter, never clamped; the posts are the store's range `[start...end]` of the matching posts, at most 10, non-empty for a page in range; the page count is `TotalPages` of the count; the bar is `PageItems(page, totalPages, 1)`; a page past the end shows no posts and no next link, and is not on the bar |
| BlogPageClient.ToPositiveInt | src/app/blog/BlogPageClient.tsx:29-33 | the result is at least 1; an absent value gives 1; any other result is exactly the parsed value; a parsed value of at least 1 is kept |
| BlogPageClient.InCategory | src/app/blog/BlogPageClient.tsx:82 | `post.categories?.some(...)`; `KeepInCategory` states the filter in its terms |
| BlogPageClient.KeepInCategory | src/app/blog/BlogPageClient.tsx:81-83 | `filter`: the kept posts are a subsequence of the input, and each post is kept as often as it occurs exactly when one of its categories has the slug |
| BlogPageClient.FilterPosts | src/app/blog/BlogPageClient.tsx:79-84 | an absent or empty category keeps every post; otherwise exactly the posts in that category, in order |
| BlogPageClient.KeepInCategoryIdempotent | src/app/blog/BlogPageClient.tsx:81-83 | filtering a second time by the same slug changes nothing |
| BlogPageClient.TotalPagesFor | src/app/blog/BlogPageClient.tsx:86 | at least 1; 1 for no posts; otherwise the least page count whose pages of 10 hold every post |
| Seqs.Slice | src/app/blog/BlogPageClient.tsx:90 | `slice(start, end)`, and the store's range `[$start...$end]` of src/app/blog/page.tsx:26: the length is the part of `start..end` inside the list, and entry `i` is entry `start + i` of the list |
| BlogPageClient.Listing | src/app/blog/BlogPageClient.tsx:86-92 | the page count is `TotalPagesFor` of the filtered posts; the page is the requested page clamped to 1..totalPages; its block is the filtered posts from `(page-1)*10`, at most 10, and non-empty exactly when any post passed the filter; the bar is `PageItems(page, totalPages, 1)` and shows the page; the flags follow the page count |
| BlogPageClient.ClampedBlock | src/app/blog/BlogPageClient.tsx:87-90 | a page within the page count starts inside the list, so its block is non-empty exactly when the list is |
| BlogPageClient.PagesPrefix | src/app/blog/BlogPageClient.tsx:89-90 | the blocks of pages 1..k, one after another, are the first `10k` filtered posts |
| BlogPageClient.PagesCoverPosts | src/app/blog/BlogPageClient.tsx:86-90 | reading every page of the bar in order shows each filtered post exactly once |
| BlogPageClient.Get | src/app/blog/BlogPageClient.tsx:71-72 | `URLSearchParams.get`: `null` exactly when no pair has the name, otherwise the value of the first pair that has it |
| BlogPageClient.RemoveNamed | src/app/blog/BlogPageClient.tsx:63-64 | after removing a name, `get` finds nothing under it and every other name is unaffected |
| BlogPageClient.SetEntry | src/app/blog/BlogPageClient.tsx:63-64 | `URLSearchParams.set`: `get` then returns the new value, other names are unaffected, and a new name is appended at the end |
| BlogPageClient.SearchParams.constructor | src/app/blog/BlogPageClient.tsx:62 | `new URLSearchParams()` holds no pairs |
| BlogPageClient.SearchParams.Set | src/app/blog/BlogPageClient.tsx:63-64 | the object's pairs become the result of `set` on the old pairs |
| BlogPageClient.BuildBlogHref | src/app/blog/BlogPageClient.tsx:61-67 | the link carries the category exactly when it is non-empty and the page exactly when it is past 1, category first; reading the page back with `toPositiveInt` gives `max(page, 1)`; the bare "/blog" exactly when neither is carried |
| Listings.SamePageParsing | src/app/blog/page.tsx:90-91 | the server and client pages read any `page` parameter as the same requested page |
| Listings.SamePageCount | src/app/blog/page.tsx:107 | the server and client pages count the same number of pages |
| Listings.PastTheEnd | src/app/blog/page.tsx:91-109 | 25 posts with `page=99`: the server page stays on page 99 with no posts and no next link, while the client page shows page 3 and its last five posts |
| Listings.ParseNinetyNine | src/app/blog/page.tsx:91 | `parseInt("99", 10)` is 99 |
| Revalidate.SlugCandidates | src/app/api/revalidate/route.ts:39-45 | the six optional-chaining paths; each is `undefined` unless the payload is an object |
| Revalidate.FirstTruthy | src/app/api/revalidate/route.ts:39-46 | the `\|\|` chain: `undefined` exactly when every candidate is falsy; otherwise the first truthy candidate |
| Revalidate.FirstTruthyAt | src/app/api/revalidate/route.ts:39-46 | when candidate `k` is truthy and all before it are falsy, the chain yields candidate `k` |
| Revalidate.PostTag | src/app/api/revalidate/route.ts:48-49 | a post tag exists exactly when the chain ends on a non-empty string, and the tag is `post:` and that string |
| Revalidate.AddTag | src/app/api/revalidate/route.ts:35-49 | `Set.add`: the tag is then present; the set grows only by that tag, at the end, and only when it was missing; a set without repeats keeps none |
| Revalidate.RevalidatedTags | src/app/api/revalidate/route.ts:33-50 | the set in insertion order: `posts`, then `categories`, then the post tag exactly when there is one; no tag repeats |
| Revalidate.RevalidatedTagsOfPost | src/app/api/revalidate/route.ts:33-50 | the list is exactly the two broad tags, followed by the post tag when there is one |
| Revalidate.BearerToken | src/app/api/revalidate/route.ts:20 | a token exactly when the header starts with "Bearer ", and the header is "Bearer " followed by it |
| Revalidate.Unauthorized | src/app/api/revalidate/route.ts:4-6 | status 401 with a failure body |
| Revalidate.Decide | src/app/api/revalidate/route.ts:8-56 | 500 when the secret is unset or empty; otherwise 200 exactly when the query secret or the bearer token equals it, else 401 "Unauthorized"; a success reports the revalidated tags |
| Revalidate.TagCache.constructor | src/app/api/revalidate/route.ts:2 | a fresh cache has invalidated nothing |
| Revalidate.TagCache.RevalidateTag | src/app/api/revalidate/route.ts:53 | each call records its tag at the end of the invalidation log |
| Revalidate.CollectTags | src/app/api/revalidate/route.ts:33-50 | the adds to the `Set` produce exactly `RevalidatedTags` of the payload |
| Revalidate.RevalidateAll | src/app/api/revalidate/route.ts:52-54 | one `revalidateTag` per tag, in order: the log grows by exactly the tags |
| Revalidate.Post | src/app/api/revalidate/route.ts:8-57 | the handler answers as `Decide` does, and invalidates exactly the tags it reports, in order; a refusal invalidates nothing |
| Revalidate.TopLevelSlugExample | src/app/api/revalidate/route.ts:39-41 | a body `{"slug": "my-post"}` with the right bearer token revalidates `posts`, `categories` and `post:my-post` |
| Revalidate.DocumentSlugExample | src/app/api/revalidate/route.ts:44 | a slug found only at `document.slug.current` is used, here with the query secret |
| Revalidate.NoBodyExample | src/app/api/revalidate/route.ts:26-36 | a missing or unparseable body revalidates only the two broad tags |
| Revalidate.SlugObjectStopsChain | src/app/api/revalidate/route.ts:40-49 | a truthy non-string `slug` (an object without a usable `current`) ends the chain, so no post tag is added even when `body.slug` holds a string |
| Revalidate.QuerySecretAccepted | src/app/api/revalidate/route.ts:19-22 | the `secret` query parameter alone is accepted, without any header |
| Revalidate.BearerSchemeIsExact | src/app/api/revalidate/route.ts:20-23 | a header spelled "bearer " in lower case is refused |

## Left out

- The content store queries (GROQ, `client.fetch`, `Promise.all`) are left out.
  - The server page receives the posts matching the category filter as a list.
  - That list is `None` when the joint fetch failed. The source then logs the
    error and falls back to empty results.
  - Count and slice are taken from that one list.
  - The cache tags passed to `fetch` are not modelled.
- The category sidebar's input is a list of values. The source's
  `Array.isArray(categories)` guard and optional chaining on `null` entries are
  not modelled, because every entry is a record here.
- `selectedCategory` (`find` on the categories) only chooses a heading, and is
  not modelled.
- The rendered JSX, `formatDate`, images and the other pages are not modelled.
- JsText.LocaleCompare: orders strings by code point, lexicographically, instead
  of the runtime's collation tables. The sort needs only a total preorder from
  it, which the model proves as antisymmetry and transitivity. The stand-in is
  stricter than real collation: it answers 0 only for equal strings, while
  `localeCompare` also answers 0 for canonically equivalent ones (a precomposed
  é and an e followed by a combining accent). With real collation, "equal
  titles" in `CompareIsKeyOrder` and `SortStable` would read "titles that
  collate equal".
- CategoryOrder.SortCategories: computed by insertion sort. JavaScript's `sort`
  is stable, and for a total preorder a stable sort has exactly one possible
  result. `SortStable` proves the model's sort is stable too, so the result is
  the same, but the engine's algorithm is not modelled.
- JsText.ParseInt: reads exact integers.
  - Doubles, rounding of long digit strings and `Infinity` are not modelled.
  - `Number.isFinite` in `toPositiveInt` therefore reduces to the NaN test.
- Numbers in JSON are integers in this model.
- BlogPageClient.BuildBlogHref: returns the query pairs, not the encoded string.
  - Percent-encoding and `URLSearchParams.toString` are not modelled.
  - The link is "/blog" exactly when the pair list is empty.
- `useSearchParams` and `useMemo` are left out. The client page receives the
  `category` and `page` values directly.
- Revalidate.TagCache: the Next.js cache behind `revalidateTag` is a ghost log of
  invalidated tags. `process.env`, the request URL and header parsing become
  parameters of the request value. An unreadable JSON body is `None`.
- Revalidate.Decide: the code accepts the secret as a `secret` query parameter as
  well as a bearer token. The model follows the code.
