/** The records the blog front end passes around: the WordPress post as the
    REST API sends it, the `BlogPost` view model the pages render, the page
    envelope `BlogApiResponse` and the query parameters `BlogApiParams`. */
module BlogTypes {
  import opened Wrappers
  import opened JsNumber

  /** The fields of a WordPress post that the front end reads. A nested
      `{rendered}` object that is missing, or whose `rendered` is missing,
      is `None`. */
  datatype WordPressPost = WordPressPost(
    id: int,
    date: string,
    slug: string,
    link: string,
    title: Option<string>,
    content: Option<string>,
    excerpt: Option<string>,
    author: int,
    categories: Option<seq<int>>,
    tags: Option<seq<int>>,
    featuredMediaUrl: Option<string>)

  /** One element of the JSON array the posts endpoint returns: a post
      object, or a null entry that cannot be read. */
  datatype Record = Malformed | Post(wp: WordPressPost)

  /** The view model of a post. */
  datatype BlogPost = BlogPost(
    id: int,
    title: string,
    subtitle: string,
    content: string,
    excerpt: string,
    image: string,
    author: string,
    date: string,
    readTime: string,
    views: int,
    likes: int,
    isLiked: bool,
    slug: string,
    link: string,
    categories: seq<int>,
    tags: seq<int>)

  /** A page of posts with its pagination counts; the counts come from
      `parseInt`, so they can be NaN. */
  datatype BlogApiResponse = BlogApiResponse(posts: seq<BlogPost>, total: Num, totalPages: Num)

  datatype OrderBy = ByDate | ByModified | ByTitle | ByAuthor {
    function Name(): string {
      match this
      case ByDate => "date"
      case ByModified => "modified"
      case ByTitle => "title"
      case ByAuthor => "author"
    }
  }

  datatype Order = Asc | Desc {
    function Name(): string {
      match this
      case Asc => "asc"
      case Desc => "desc"
    }
  }

  /** `BlogApiParams`: every field optional. */
  datatype Params = Params(
    page: Option<int>,
    perPage: Option<int>,
    search: Option<string>,
    categories: Option<seq<int>>,
    tags: Option<seq<int>>,
    author: Option<int>,
    orderBy: Option<OrderBy>,
    order: Option<Order>)

  /** `{}`. */
  const NoParams := Params(None, None, None, None, None, None, None, None)

  /** `{ ...base, ...over }`: every field `over` sets wins, the others come from `base`. */
  function Merge(base: Params, over: Params): (r: Params)
    ensures r.page == (if over.page.Some? then over.page else base.page)
    ensures r.perPage == (if over.perPage.Some? then over.perPage else base.perPage)
    ensures r.search == (if over.search.Some? then over.search else base.search)
    ensures r.categories == (if over.categories.Some? then over.categories else base.categories)
    ensures r.tags == (if over.tags.Some? then over.tags else base.tags)
    ensures r.author == (if over.author.Some? then over.author else base.author)
    ensures r.orderBy == (if over.orderBy.Some? then over.orderBy else base.orderBy)
    ensures r.order == (if over.order.Some? then over.order else base.order)
  {
    Params(
      Pick(base.page, over.page), Pick(base.perPage, over.perPage),
      Pick(base.search, over.search), Pick(base.categories, over.categories),
      Pick(base.tags, over.tags), Pick(base.author, over.author),
      Pick(base.orderBy, over.orderBy), Pick(base.order, over.order))
  }

  function Pick<T>(base: Option<T>, over: Option<T>): Option<T> {
    if over.Some? then over else base
  }

  /** Spreading `{}` over anything changes nothing, and `{}` is neutral on the left too. */
  lemma MergeIdentity(p: Params)
    ensures Merge(p, NoParams) == p && Merge(NoParams, p) == p
  {
  }

  /** A category as `getCategories` returns it. */
  datatype Category = Category(id: int, name: string, slug: string)

  /** One element of the JSON array the categories endpoint returns. */
  datatype CategoryRecord = BadCategory | CategoryObject(category: Category)
}
