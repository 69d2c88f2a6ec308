/**
 * The records the listing pages receive from the content store. A `slug` is
 * the store's `slug?.current`: absent when the reference or its `current`
 * field is missing.
 */
module Content {
  import opened Wrappers

  datatype Category = Category(id: string, title: string, slug: Option<string>)

  /** A category with the number of posts that reference it. */
  datatype CategoryWithCount = CategoryWithCount(id: string, title: string, slug: Option<string>, count: int)

  /** A post in a listing; `categories` is absent when the post has none attached. */
  datatype PostListItem = PostListItem(
    id: string,
    title: string,
    slug: Option<string>,
    categories: Option<seq<Category>>)
}
