/** `BlogService`: derives `BlogPost` view models from WordPress records,
    caches author names, and answers every listing with a page of posts,
    falling back to sample data when the WordPress API fails.

    Each network exchange is an input: the reply the API gave. Each public
    operation is a function from the service state, its arguments and the
    replies to the new state and the result; none of them can fail. */
module BlogService {
  import opened Wrappers
  import opened JsString
  import opened JsNumber
  import opened BlogTypes
  import opened BlogQuery

  const WordsPerMinute := 200
  const SubtitleLength := 150
  const Ellipsis := "..."
  const ReadTimeSuffix := " min read"
  const UntitledPost := "Untitled Post"
  const FallbackAuthor := "Admin"
  const UnknownAuthor := "Unknown Author"
  const PlaceholderImage := "https://images.unsplash.com/photo-1549298916-b41d501d3772?w=800&h=600&fit=crop"
  /** `getMockPosts` never returns more than this many posts, and it is also
      the page size `getPosts` falls back to. */
  const MockPageSize := 6
  const MockImage := "https://png.pngtree.com/thumb_back/fh260/background/20240403/pngtree-assorted-pharmaceutical-medicine-pills-tablets-and-capsules-over-blue-background-image_15647957.jpg"
  const MockSubtitle := "This is a sample blog post subtitle that demonstrates the layout and structure."
  const MockContent := "<p>This is sample content for the blog post.</p>"
  const MockReadTime := "3 min read"

  /** A value `Math.random()` can return. */
  type RandomValue = r: real | 0.0 <= r < 1.0

  /** What the service takes from its surroundings besides the API: the
      locale date formatter, the current time as an ISO string, and a
      stream of `Math.random()` draws. */
  datatype Env = Env(formatDate: string -> string, now: string, random: nat -> RandomValue)

  /** The service's own state: the author-name cache and the sticky
      availability flag. */
  datatype Service = Service(authors: map<int, string>, available: bool)

  const InitialService := Service(map[], true)

  /** The two headers `getPosts` reads, `X-WP-Total` and `X-WP-TotalPages`. */
  datatype Headers = Headers(total: Option<string>, totalPages: Option<string>)

  /** What one `fetch` came back with: a response whose body `json()`
      parsed into the expected shape (`Some`) or could not (`None`), or a
      rejected `fetch`. */
  datatype Reply<T> = Response(status: int, body: Option<T>, headers: Headers) | NetworkError {
    /** `response.ok`. */
    predicate Ok() {
      Response? && 200 <= status <= 299
    }

    /** 401 or 403: the API refuses access. */
    predicate Denied() {
      Response? && (status == 401 || status == 403)
    }
  }

  /** The fields of a WordPress user that `getAuthorName` reads. */
  datatype User = User(name: Option<string>, displayName: Option<string>)

  /** A result together with the service state it leaves behind. */
  datatype Step<T> = Step(service: Service, value: T)

  /** `t` keeps every cache entry of `s` and never reopens the flag. */
  predicate Evolves(s: Service, t: Service) {
    && (forall id :: id in s.authors ==> id in t.authors && t.authors[id] == s.authors[id])
    && (!s.available ==> !t.available)
  }

  lemma EvolvesTransitive(s: Service, t: Service, u: Service)
    requires Evolves(s, t) && Evolves(t, u)
    ensures Evolves(s, u)
  {
  }

  // ---------------------------------------------------------------------
  // Pure derivations

  /** Words in the content once its tags are gone: `split(/\s+/)` of the
      trimmed text, which gives one (empty) piece for empty text. */
  function WordCount(content: string): (n: nat)
    ensures n >= 1
    ensures CleanHtml(content) == [] ==> n == 1
    ensures CleanHtml(content) != [] ==> n == Words(CleanHtml(content))
  {
    SplitCount(CleanHtml(content));
    |Split(CleanHtml(content))|
  }

  /** `calculateReadTime`: `"{N} min read"` with N the number of 200-word
      minutes, rounded up. */
  function CalculateReadTime(content: string): (r: string)
    ensures exists n: nat {:trigger IntToString(n)} :: r == IntToString(n) + ReadTimeSuffix && n >= 1 && (n - 1) * WordsPerMinute < WordCount(content) <= n * WordsPerMinute
  {
    var n := CeilDiv(WordCount(content), WordsPerMinute);
    IntToString(n) + ReadTimeSuffix
  }

  /** Reading the number back out of a read time gives the minute count. */
  lemma ReadTimeMinutes(content: string)
    ensures ParseInt(CalculateReadTime(content)) == Finite(CeilDiv(WordCount(content), WordsPerMinute))
  {
    var n := CeilDiv(WordCount(content), WordsPerMinute);
    ParseIntOfIntToString(n, ReadTimeSuffix);
  }

  /** The subtitle: the cleaned excerpt cut to 150 characters (possibly
      mid-word), then `"..."`. */
  function Subtitle(excerpt: string): (r: string)
    ensures |r| <= SubtitleLength + |Ellipsis|
    ensures |r| >= |Ellipsis| && r[|r| - |Ellipsis|..] == Ellipsis
    ensures r[..|r| - |Ellipsis|] <= CleanHtml(excerpt)
    ensures |CleanHtml(excerpt)| <= SubtitleLength ==> r[..|r| - |Ellipsis|] == CleanHtml(excerpt)
    ensures |CleanHtml(excerpt)| > SubtitleLength ==> |r| == SubtitleLength + |Ellipsis|
  {
    var cut := Take(CleanHtml(excerpt), SubtitleLength);
    assert (cut + Ellipsis)[..|cut|] == cut;
    cut + Ellipsis
  }

  /** `Math.floor(Math.random() * width) + low`. */
  function RandomIn(r: RandomValue, width: nat, low: int): (v: int)
    requires width > 0
    ensures low <= v < low + width
  {
    FloorBelow(r, width);
    (r * width as real).Floor + low
  }

  lemma FloorBelow(r: RandomValue, width: nat)
    requires width > 0
    ensures 0 <= (r * width as real).Floor < width
  {
    var w := width as real;
    assert w - r * w == (1.0 - r) * w;
    assert (1.0 - r) * w > 0.0;
    assert 0.0 <= r * w < w;
  }

  // ---------------------------------------------------------------------
  // Author names

  /** A reply refused with 401, the one status that clears the flag. */
  predicate Refused<T>(reply: Reply<T>) {
    reply.Response? && reply.status == 401
  }

  /** The name a lookup that misses the cache settles on: `name`, else
      `display_name`, else `'Unknown Author'` on a good reply, and
      `'Admin'` on every failure. */
  function LookedUp(reply: Reply<User>): string {
    if reply.Ok() && reply.body.Some? then
      OrElse(reply.body.value.name, OrElse(reply.body.value.displayName, UnknownAuthor))
    else FallbackAuthor
  }

  /** `getAuthorName`: a cached name is returned as it is, with no request;
      otherwise the reply to `GET /users/{id}` decides the name and it is
      cached, `'Admin'` on every failure. A 401 also clears the flag. */
  function GetAuthorName(s: Service, id: int, reply: Reply<User>): (r: Step<string>)
    ensures id in s.authors ==> r == Step(s, s.authors[id])
    ensures id !in s.authors ==> r.service.authors == s.authors[id := r.value]
    ensures id !in s.authors && !(reply.Ok() && reply.body.Some?) ==> r.value == FallbackAuthor
    ensures id !in s.authors && reply.Ok() && reply.body.Some? ==>
      var u := reply.body.value;
      && (u.name.Some? && u.name.value != [] ==> r.value == u.name.value)
      && ((u.name.None? || u.name.value == []) && u.displayName.Some? && u.displayName.value != [] ==> r.value == u.displayName.value)
      && ((u.name.None? || u.name.value == []) && (u.displayName.None? || u.displayName.value == []) ==> r.value == UnknownAuthor)
    ensures r.service.available == (s.available && !(id !in s.authors && reply.Response? && reply.status == 401))
  {
    if id in s.authors then Step(s, s.authors[id])
    else if reply.Ok() && reply.body.Some? then
      var user := reply.body.value;
      var name := OrElse(user.name, OrElse(user.displayName, UnknownAuthor));
      Step(s.(authors := s.authors[id := name]), name)
    else
      var available := s.available && !(reply.Response? && reply.status == 401);
      Step(Service(s.authors[id := FallbackAuthor], available), FallbackAuthor)
  }

  lemma GetAuthorNameEvolves(s: Service, id: int, reply: Reply<User>)
    ensures Evolves(s, GetAuthorName(s, id, reply).service)
    ensures id in GetAuthorName(s, id, reply).service.authors
    ensures GetAuthorName(s, id, reply).service.authors[id] == GetAuthorName(s, id, reply).value
    ensures GetAuthorName(s, id, reply).service.authors.Keys == s.authors.Keys + {id}
    ensures !(reply.Response? && reply.status == 401) ==> GetAuthorName(s, id, reply).service.available == s.available
    ensures id !in s.authors ==> GetAuthorName(s, id, reply).service.authors[id] == LookedUp(reply)
    ensures GetAuthorName(s, id, reply).service.available == (s.available && !(id !in s.authors && Refused(reply)))
  {
  }

  // ---------------------------------------------------------------------
  // transformPost

  /** What `transformPost` promises about a view model `p` made from `wp`:
      the fields it copies or derives, and the ranges of the random ones.
      The author is settled by the cache (see `TransformPost`). */
  ghost predicate DerivedFrom(p: BlogPost, wp: WordPressPost, env: Env) {
    && p.id == wp.id && p.slug == wp.slug && p.link == wp.link
    && p.title == OrElse(wp.title, UntitledPost)
    && p.content == OrElse(wp.content, "")
    && p.excerpt == OrElse(wp.excerpt, "")
    && p.subtitle == Subtitle(OrElse(wp.excerpt, ""))
    && p.image == OrElse(wp.featuredMediaUrl, PlaceholderImage)
    && p.date == env.formatDate(wp.date)
    && p.readTime == CalculateReadTime(OrElse(wp.content, ""))
    && 100 <= p.views <= 2099 && 1 <= p.likes <= 50 && !p.isLiked
    && p.categories == wp.categories.GetOr([]) && p.tags == wp.tags.GetOr([])
  }

  /** `transformPost`: the view model of one record, drawing its random
      counts from the `draw`-th pair of the random stream. */
  function TransformPost(s: Service, env: Env, users: int -> Reply<User>, wp: WordPressPost, draw: nat): (r: Step<BlogPost>)
    ensures Evolves(s, r.service)
    ensures DerivedFrom(r.value, wp, env)
    ensures wp.author in r.service.authors && r.value.author == r.service.authors[wp.author]
    ensures wp.author in s.authors ==> r.service == s && r.value.author == s.authors[wp.author]
    ensures r.service == GetAuthorName(s, wp.author, users(wp.author)).service
    ensures r.service.authors.Keys == s.authors.Keys + {wp.author}
    ensures !(users(wp.author).Response? && users(wp.author).status == 401) ==> r.service.available == s.available
    ensures wp.author !in s.authors ==> r.service.authors[wp.author] == LookedUp(users(wp.author))
    ensures r.service.available == (s.available && !(wp.author !in s.authors && Refused(users(wp.author))))
  {
    var author := GetAuthorName(s, wp.author, users(wp.author));
    GetAuthorNameEvolves(s, wp.author, users(wp.author));
    var excerpt := OrElse(wp.excerpt, "");
    var content := OrElse(wp.content, "");
    var post := BlogPost(
      id := wp.id,
      title := OrElse(wp.title, UntitledPost),
      subtitle := Subtitle(excerpt),
      content := content,
      excerpt := excerpt,
      image := OrElse(wp.featuredMediaUrl, PlaceholderImage),
      author := author.value,
      date := env.formatDate(wp.date),
      readTime := CalculateReadTime(content),
      views := RandomIn(env.random(2 * draw), 2000, 100),
      likes := RandomIn(env.random(2 * draw + 1), 50, 1),
      isLiked := false,
      slug := wp.slug,
      link := wp.link,
      categories := wp.categories.GetOr([]),
      tags := wp.tags.GetOr([]));
    Step(author.service, post)
  }

  /** The records that are post objects, in order. */
  function WellFormed(records: seq<Record>): (r: seq<WordPressPost>)
    ensures |r| <= |records|
  {
    if records == [] then []
    else match records[0]
      case Malformed => WellFormed(records[1..])
      case Post(wp) => [wp] + WellFormed(records[1..])
  }

  /** `posts` are the view models of `wps`, one by one. */
  ghost predicate AllDerived(posts: seq<BlogPost>, wps: seq<WordPressPost>, env: Env) {
    |posts| == |wps| && forall i :: 0 <= i < |posts| ==> DerivedFrom(posts[i], wps[i], env)
  }

  /** Every author of `wps` is in `authors`, and `posts` show that name. */
  predicate AuthorsShown(posts: seq<BlogPost>, wps: seq<WordPressPost>, authors: map<int, string>) {
    |posts| == |wps| && forall i :: 0 <= i < |posts| ==> wps[i].author in authors && posts[i].author == authors[wps[i].author]
  }

  lemma AllDerivedCons(p: BlogPost, posts: seq<BlogPost>, wp: WordPressPost, wps: seq<WordPressPost>, env: Env)
    requires DerivedFrom(p, wp, env) && AllDerived(posts, wps, env)
    ensures AllDerived([p] + posts, [wp] + wps, env)
  {
    var q, w := [p] + posts, [wp] + wps;
    assert q[0] == p && w[0] == wp;
    assert q[1..] == posts && w[1..] == wps;
    forall i | 1 <= i < |q| ensures DerivedFrom(q[i], w[i], env) {
      assert q[i] == q[1..][i - 1] && w[i] == w[1..][i - 1];
    }
  }

  lemma AuthorsShownCons(p: BlogPost, posts: seq<BlogPost>, wp: WordPressPost, wps: seq<WordPressPost>, s: Service, t: Service)
    requires wp.author in s.authors && p.author == s.authors[wp.author]
    requires AuthorsShown(posts, wps, t.authors) && Evolves(s, t)
    ensures AuthorsShown([p] + posts, [wp] + wps, t.authors)
  {
    forall i | 0 <= i < |posts| + 1
      ensures ([wp] + wps)[i].author in t.authors && ([p] + posts)[i].author == t.authors[([wp] + wps)[i].author]
    {
      if i > 0 {
        assert ([p] + posts)[i] == posts[i - 1] && ([wp] + wps)[i] == wps[i - 1];
      }
    }
  }

  /** The author ids of `wps`. */
  function AuthorIds(wps: seq<WordPressPost>): set<int> {
    set wp | wp in wps :: wp.author
  }

  lemma AuthorIdsCons(wp: WordPressPost, wps: seq<WordPressPost>)
    ensures AuthorIds([wp] + wps) == {wp.author} + AuthorIds(wps)
  {
    forall id | id in AuthorIds([wp] + wps) ensures id in {wp.author} + AuthorIds(wps) {
      var v :| v in [wp] + wps && v.author == id;
      if v != wp {
        assert v in wps;
      }
    }
    forall id | id in AuthorIds(wps) ensures id in AuthorIds([wp] + wps) {
      var v :| v in wps && v.author == id;
      assert v in [wp] + wps;
    }
    assert wp in [wp] + wps;
  }

  /** No author lookup for `wps` would be refused with 401. */
  predicate NoAuthorDenial(users: int -> Reply<User>, wps: seq<WordPressPost>) {
    forall wp :: wp in wps ==> !(users(wp.author).Response? && users(wp.author).status == 401)
  }

  /** One step of `TransformAll`: the cache keys and the flag after the
      head record, then after the rest. */
  lemma TransformCons(s: Service, head: Service, tail: Service, users: int -> Reply<User>, wp: WordPressPost, wps: seq<WordPressPost>)
    requires head.authors.Keys == s.authors.Keys + {wp.author}
    requires !(users(wp.author).Response? && users(wp.author).status == 401) ==> head.available == s.available
    requires tail.authors.Keys == head.authors.Keys + AuthorIds(wps)
    requires NoAuthorDenial(users, wps) ==> tail.available == head.available
    ensures tail.authors.Keys == s.authors.Keys + AuthorIds([wp] + wps)
    ensures NoAuthorDenial(users, [wp] + wps) ==> tail.available == s.available
  {
    AuthorIdsCons(wp, wps);
    if NoAuthorDenial(users, [wp] + wps) {
      assert wp in [wp] + wps;
      forall v | v in wps ensures !(users(v.author).Response? && users(v.author).status == 401) {
        assert v in [wp] + wps;
      }
    }
  }

  /** Every author of `wps` missing from `s` is cached in `t` under the
      name its lookup settles on. */
  ghost predicate NewNamesLookedUp(s: Service, t: Service, users: int -> Reply<User>, wps: seq<WordPressPost>)
    requires s.authors.Keys + AuthorIds(wps) <= t.authors.Keys
  {
    forall id :: id in AuthorIds(wps) && id !in s.authors ==> t.authors[id] == LookedUp(users(id))
  }

  /** Some author of `wps` missing from `s` is refused with 401. */
  ghost predicate NewAuthorRefused(s: Service, users: int -> Reply<User>, wps: seq<WordPressPost>) {
    exists id :: id in AuthorIds(wps) && id !in s.authors && Refused(users(id))
  }

  /** One step of `TransformAll` for the names and the flag: the head
      record's lookup, then those of the rest against the grown cache. */
  lemma ExactCons(s: Service, head: Service, tail: Service, users: int -> Reply<User>, wp: WordPressPost, wps: seq<WordPressPost>)
    requires head.authors.Keys == s.authors.Keys + {wp.author}
    requires wp.author !in s.authors ==> head.authors[wp.author] == LookedUp(users(wp.author))
    requires head.available == (s.available && !(wp.author !in s.authors && Refused(users(wp.author))))
    requires tail.authors.Keys == head.authors.Keys + AuthorIds(wps) && Evolves(head, tail)
    requires NewNamesLookedUp(head, tail, users, wps)
    requires tail.available == (head.available && !NewAuthorRefused(head, users, wps))
    ensures s.authors.Keys + AuthorIds([wp] + wps) <= tail.authors.Keys
    ensures NewNamesLookedUp(s, tail, users, [wp] + wps)
    ensures tail.available == (s.available && !NewAuthorRefused(s, users, [wp] + wps))
  {
    AuthorIdsCons(wp, wps);
    forall id | id in AuthorIds([wp] + wps) && id !in s.authors
      ensures tail.authors[id] == LookedUp(users(id))
    {
      if id != wp.author {
        assert id in AuthorIds(wps) && id !in head.authors;
      }
    }
    if NewAuthorRefused(s, users, [wp] + wps) {
      var id :| id in AuthorIds([wp] + wps) && id !in s.authors && Refused(users(id));
      if id != wp.author {
        assert id in AuthorIds(wps) && id !in head.authors;
      }
    }
    if NewAuthorRefused(head, users, wps) {
      var id :| id in AuthorIds(wps) && id !in head.authors && Refused(users(id));
      assert id in AuthorIds([wp] + wps) && id !in s.authors;
    }
  }

  /** The loop of `getPosts`: transform the records one by one, threading
      the author cache; a record that cannot be read is skipped and draws
      no random numbers. */
  function TransformAll(s: Service, env: Env, users: int -> Reply<User>, records: seq<Record>, draw: nat): (r: Step<seq<BlogPost>>)
    ensures Evolves(s, r.service)
    ensures AllDerived(r.value, WellFormed(records), env)
    ensures AuthorsShown(r.value, WellFormed(records), r.service.authors)
    ensures r.service.authors.Keys == s.authors.Keys + AuthorIds(WellFormed(records))
    ensures NoAuthorDenial(users, WellFormed(records)) ==> r.service.available == s.available
    ensures NewNamesLookedUp(s, r.service, users, WellFormed(records))
    ensures r.service.available == (s.available && !NewAuthorRefused(s, users, WellFormed(records)))
    decreases |records|
  {
    if records == [] then Step(s, [])
    else match records[0]
      case Malformed => TransformAll(s, env, users, records[1..], draw)
      case Post(wp) =>
        var head := TransformPost(s, env, users, wp, draw);
        var tail := TransformAll(head.service, env, users, records[1..], draw + 1);
        TransformCons(s, head.service, tail.service, users, wp, WellFormed(records[1..]));
        ExactCons(s, head.service, tail.service, users, wp, WellFormed(records[1..]));
        EvolvesTransitive(s, head.service, tail.service);
        AllDerivedCons(head.value, tail.value, wp, WellFormed(records[1..]), env);
        AuthorsShownCons(head.value, tail.value, wp, WellFormed(records[1..]), head.service, tail.service);
        Step(tail.service, [head.value] + tail.value)
  }

  // ---------------------------------------------------------------------
  // Sample data

  /** The `index`-th sample post. */
  function MockPost(env: Env, index: nat): BlogPost {
    BlogPost(
      id := index + 1,
      title := "Sample Blog Post " + IntToString(index + 1),
      subtitle := MockSubtitle,
      content := MockContent,
      excerpt := MockSubtitle,
      image := MockImage,
      author := FallbackAuthor,
      date := env.formatDate(env.now),
      readTime := MockReadTime,
      views := RandomIn(env.random(2 * index), 1000, 100),
      likes := RandomIn(env.random(2 * index + 1), 50, 1),
      isLiked := false,
      slug := "sample-post-" + IntToString(index + 1),
      link := "#",
      categories := [],
      tags := [])
  }

  /** `Array.from({ length: Math.min(limit, 6) })`; a negative length
      gives no posts. */
  function MockCount(limit: int): (n: nat)
    ensures n <= MockPageSize
    ensures limit >= MockPageSize ==> n == MockPageSize
    ensures 0 <= limit <= MockPageSize ==> n == limit
    ensures limit <= 0 ==> n == 0
  {
    if limit <= 0 then 0 else if limit < MockPageSize then limit else MockPageSize
  }

  /** `getMockPosts(limit)`. */
  function MockPosts(env: Env, limit: int): (r: seq<BlogPost>)
    ensures |r| == MockCount(limit)
    ensures forall i :: 0 <= i < |r| ==>
      && r[i].id == i + 1
      && r[i].slug == "sample-post-" + IntToString(i + 1)
      && r[i].author == FallbackAuthor
      && 100 <= r[i].views <= 1099 && 1 <= r[i].likes <= 50 && !r[i].isLiked
      && r[i].categories == [] && r[i].tags == []
  {
    seq(MockCount(limit), i requires 0 <= i => MockPost(env, i))
  }

  /** Sample posts have pairwise different ids and slugs. */
  lemma MockPostsDistinct(env: Env, limit: int)
    ensures forall i, j :: 0 <= i < j < |MockPosts(env, limit)| ==>
      MockPosts(env, limit)[i].id != MockPosts(env, limit)[j].id &&
      MockPosts(env, limit)[i].slug != MockPosts(env, limit)[j].slug
  {
    var r := MockPosts(env, limit);
    forall i, j | 0 <= i < j < |r| ensures r[i].id != r[j].id && r[i].slug != r[j].slug {
      var prefix := "sample-post-";
      assert r[i].slug[|prefix|..] == IntToString(i + 1);
      assert r[j].slug[|prefix|..] == IntToString(j + 1);
      IntToStringDistinct(i + 1, j + 1);
    }
  }

  /** `params.per_page || 6`. */
  function MockLimit(params: Params): (n: int)
    ensures params.perPage.None? || params.perPage == Some(0) ==> n == MockPageSize
    ensures params.perPage.Some? && params.perPage.value != 0 ==> n == params.perPage.value
  {
    if params.perPage.Some? && params.perPage.value != 0 then params.perPage.value else MockPageSize
  }

  /** The fallback page: sample posts, their count as total, one page. */
  function MockPage(env: Env, params: Params): (r: BlogApiResponse)
    ensures |r.posts| == MockCount(MockLimit(params))
    ensures r.total == Finite(|r.posts|) && r.totalPages == Finite(1)
  {
    var posts := MockPosts(env, MockLimit(params));
    BlogApiResponse(posts, Finite(|posts|), Finite(1))
  }

  // ---------------------------------------------------------------------
  // Public operations

  /** `parseInt(header || String(fallback))`: the header's number when it
      is present and not empty, otherwise the fallback count. */
  function HeaderCount(header: Option<string>, fallback: int): (r: Num)
    ensures header.Some? && header.value != [] ==> r == ParseInt(header.value)
    ensures header.None? || header.value == [] ==> r == Finite(fallback)
  {
    ParseIntOfIntToStringAlone(fallback);
    ParseInt(OrElse(header, IntToString(fallback)))
  }

  /** The page `getPosts` returns on success: the counts come from the
      `X-WP-Total` and `X-WP-TotalPages` headers, and default to the number
      of posts and to one page when a header is missing or empty. */
  function Envelope(posts: seq<BlogPost>, h: Headers): (r: BlogApiResponse)
    ensures r.posts == posts
    ensures h.total.None? || h.total.value == [] ==> r.total == Finite(|posts|)
    ensures h.total.Some? && h.total.value != [] ==> r.total == ParseInt(h.total.value)
    ensures h.totalPages.None? || h.totalPages.value == [] ==> r.totalPages == Finite(1)
    ensures h.totalPages.Some? && h.totalPages.value != [] ==> r.totalPages == ParseInt(h.totalPages.value)
  {
    BlogApiResponse(posts, HeaderCount(h.total, |posts|), HeaderCount(h.totalPages, 1))
  }

  /** The listing endpoint: the reply `GET /posts?{query}` gets, for each
      query (the name/value pairs of the `URLSearchParams`). */
  type Listing = seq<(string, string)> -> Reply<seq<Record>>

  /** `getPosts(params)`: it asks `listing` with `Query(params)`, and
      `users` answers the author lookups. */
  function GetPosts(s: Service, env: Env, users: int -> Reply<User>, params: Params, listing: Listing): (r: Step<BlogApiResponse>)
    ensures Evolves(s, r.service)
    ensures var reply := listing(Query(params));
      reply.Denied() ==> r == Step(s.(available := false), MockPage(env, params))
    ensures var reply := listing(Query(params));
      !reply.Ok() && !reply.Denied() ==> r == Step(s, MockPage(env, params))
    ensures var reply := listing(Query(params));
      reply.Ok() && reply.body.None? ==> r == Step(s, MockPage(env, params))
    ensures var reply := listing(Query(params));
      reply.Ok() && reply.body.Some? ==>
      && AllDerived(r.value.posts, WellFormed(reply.body.value), env)
      && AuthorsShown(r.value.posts, WellFormed(reply.body.value), r.service.authors)
      && r.value == Envelope(r.value.posts, reply.headers)
      && r.service.authors.Keys == s.authors.Keys + AuthorIds(WellFormed(reply.body.value))
      && (NoAuthorDenial(users, WellFormed(reply.body.value)) ==> r.service.available == s.available)
      && NewNamesLookedUp(s, r.service, users, WellFormed(reply.body.value))
      && r.service.available == (s.available && !NewAuthorRefused(s, users, WellFormed(reply.body.value)))
  {
    var reply := listing(Query(params));
    if !reply.Ok() then
      if reply.Denied() then Step(s.(available := false), MockPage(env, params))
      else Step(s, MockPage(env, params))
    else if reply.body.None? then Step(s, MockPage(env, params))
    else
      var posts := TransformAll(s, env, users, reply.body.value, 0);
      Step(posts.service, Envelope(posts.value, reply.headers))
  }

  /** `getPosts` sends one request, for `Query(params)`: two endpoints that
      answer that query alike give the same result, whatever they answer
      to any other query. */
  lemma GetPostsAsksOnlyItsQuery(s: Service, env: Env, users: int -> Reply<User>, params: Params, a: Listing, b: Listing)
    requires a(Query(params)) == b(Query(params))
    ensures GetPosts(s, env, users, params, a) == GetPosts(s, env, users, params, b)
  {
  }

  /** The parameters `searchPosts` passes to `getPosts`. */
  function SearchParams(query: string, page: Option<int>, perPage: Option<int>): (p: Params)
    ensures Lookup(Query(p), "search") == (if query == "" then None else Some(query))
    ensures Lookup(Query(p), "orderby") == Some("date") && Lookup(Query(p), "order") == Some("desc")
    ensures Lookup(Query(p), "page") == NumberSlot(Some(page.GetOr(1)))
    ensures Lookup(Query(p), "per_page") == NumberSlot(Some(perPage.GetOr(10)))
    ensures Lookup(Query(p), "categories") == None && Lookup(Query(p), "tags") == None && Lookup(Query(p), "author") == None
  {
    var p := Params(Some(page.GetOr(1)), Some(perPage.GetOr(10)), Some(query), None, None, None, Some(ByDate), Some(Desc));
    QueryFields(p);
    p
  }

  /** How many sample posts a failed search asks for: `perPage` (10 when
      not given), or 6 when that is 0. */
  function SearchLimit(perPage: Option<int>): int {
    if perPage.GetOr(10) == 0 then MockPageSize else perPage.GetOr(10)
  }

  /** `searchPosts(query, page = 1, perPage = 10)`. */
  function SearchPosts(s: Service, env: Env, users: int -> Reply<User>, query: string, page: Option<int>, perPage: Option<int>, listing: Listing): (r: Step<BlogApiResponse>)
    ensures Evolves(s, r.service)
    ensures var reply := listing(Query(SearchParams(query, page, perPage)));
      reply.Denied() ==> !r.service.available && |r.value.posts| == MockCount(SearchLimit(perPage))
    ensures var reply := listing(Query(SearchParams(query, page, perPage)));
      !reply.Ok() && !reply.Denied() ==> r.service == s && |r.value.posts| == MockCount(SearchLimit(perPage))
    ensures r == GetPosts(s, env, users, SearchParams(query, page, perPage), listing)
  {
    GetPosts(s, env, users, SearchParams(query, page, perPage), listing)
  }

  /** `getPostById(id)`, given the reply to `GET /posts/{id}`: `null`
      (`None`) on 404, on 401/403 and on every other failure. A refused
      lookup leaves the flag alone; only the author lookup of a post that
      was found can lower it. */
  function GetPostById(s: Service, env: Env, users: int -> Reply<User>, reply: Reply<Record>): (r: Step<Option<BlogPost>>)
    ensures Evolves(s, r.service)
    ensures !reply.Ok() ==> r == Step(s, None)
    ensures reply.Ok() && (reply.body.None? || reply.body.value.Malformed?) ==> r == Step(s, None)
    ensures reply.Ok() && reply.body.Some? && reply.body.value.Post? ==>
      var wp := reply.body.value.wp;
      && r.value.Some? && DerivedFrom(r.value.value, wp, env)
      && wp.author in r.service.authors && r.value.value.author == r.service.authors[wp.author]
      && (wp.author in s.authors ==> r.service == s)
      && r.service == GetAuthorName(s, wp.author, users(wp.author)).service
  {
    if !reply.Ok() || reply.body.None? then Step(s, None)
    else match reply.body.value
      case Malformed => Step(s, None)
      case Post(wp) =>
        var t := TransformPost(s, env, users, wp, 0);
        Step(t.service, Some(t.value))
  }

  /** `getPostBySlug(slug)`, given the reply to `GET /posts?slug={slug}`:
      the first match, or `null` when there is none or anything failed. */
  function GetPostBySlug(s: Service, env: Env, users: int -> Reply<User>, reply: Reply<seq<Record>>): (r: Step<Option<BlogPost>>)
    ensures Evolves(s, r.service)
    ensures !reply.Ok() ==> r == Step(s, None)
    ensures reply.Ok() && (reply.body.None? || reply.body.value == []) ==> r == Step(s, None)
    ensures reply.Ok() && reply.body.Some? && reply.body.value != [] && reply.body.value[0].Malformed? ==> r == Step(s, None)
    ensures reply.Ok() && reply.body.Some? && reply.body.value != [] && reply.body.value[0].Post? ==>
      var wp := reply.body.value[0].wp;
      && r.value.Some? && DerivedFrom(r.value.value, wp, env)
      && wp.author in r.service.authors && r.value.value.author == r.service.authors[wp.author]
      && (wp.author in s.authors ==> r.service == s)
      && r.service == GetAuthorName(s, wp.author, users(wp.author)).service
  {
    if !reply.Ok() || reply.body.None? || reply.body.value == [] then Step(s, None)
    else match reply.body.value[0]
      case Malformed => Step(s, None)
      case Post(wp) =>
        var t := TransformPost(s, env, users, wp, 0);
        Step(t.service, Some(t.value))
  }

  /** `getMockCategories()`. */
  const MockCategories: seq<Category> := [
    Category(1, "Technology", "technology"),
    Category(2, "Health", "health"),
    Category(3, "Science", "science"),
    Category(4, "News", "news")]

  /** `getCategories()`, given the reply to `GET /categories`. One
      unreadable entry makes the `map` throw, so the whole list falls back
      to the sample categories. The service state is not involved. */
  function GetCategories(reply: Reply<seq<CategoryRecord>>): (r: seq<Category>)
    ensures !reply.Ok() || reply.body.None? ==> r == MockCategories
    ensures reply.Ok() && reply.body.Some? && (exists i :: 0 <= i < |reply.body.value| && reply.body.value[i].BadCategory?) ==> r == MockCategories
    ensures reply.Ok() && reply.body.Some? && (forall i :: 0 <= i < |reply.body.value| ==> reply.body.value[i].CategoryObject?) ==>
      |r| == |reply.body.value| && forall i :: 0 <= i < |r| ==> r[i] == reply.body.value[i].category
  {
    if !reply.Ok() || reply.body.None? then MockCategories
    else
      var cats := reply.body.value;
      if forall i :: 0 <= i < |cats| ==> cats[i].CategoryObject? then
        seq(|cats|, i requires 0 <= i < |cats| && cats[i].CategoryObject? => cats[i].category)
      else MockCategories
  }

  /** `isAvailable()`. */
  function IsAvailable(s: Service): bool {
    s.available
  }

  // ---------------------------------------------------------------------
  // Properties across calls

  /** Once a listing is refused with 401 or 403 the flag is down, and any
      later call, whatever its reply, leaves it down. */
  lemma DenialIsSticky(s: Service, env: Env, users: int -> Reply<User>, p1: Params, p2: Params, first: Listing, second: Listing)
    requires first(Query(p1)).Denied()
    ensures !IsAvailable(GetPosts(s, env, users, p1, first).service)
    ensures !IsAvailable(GetPosts(GetPosts(s, env, users, p1, first).service, env, users, p2, second).service)
  {
    var t := GetPosts(s, env, users, p1, first).service;
    assert !t.available;
    assert Evolves(t, GetPosts(t, env, users, p2, second).service);
  }

  /** A 403 on the listing gives `min(per_page || 6, 6)` sample posts and
      marks the API unavailable. */
  lemma ForbiddenGivesSamples(s: Service, env: Env, users: int -> Reply<User>, params: Params, listing: Listing, headers: Headers, body: Option<seq<Record>>)
    requires listing(Query(params)) == Response(403, body, headers)
    ensures var r := GetPosts(s, env, users, params, listing);
      && !IsAvailable(r.service)
      && |r.value.posts| == MockCount(MockLimit(params))
      && (params.perPage.None? ==> |r.value.posts| == MockPageSize)
      && r.value.total == Finite(|r.value.posts|) && r.value.totalPages == Finite(1)
  {
  }

  /** The records of a reply in which every record can be read. */
  function Readable(wps: seq<WordPressPost>): (records: seq<Record>)
    ensures |records| == |wps|
    ensures forall i :: 0 <= i < |wps| ==> records[i] == Post(wps[i])
  {
    seq(|wps|, i requires 0 <= i < |wps| => Post(wps[i]))
  }

  /** When every record can be read, none is dropped. */
  lemma {:induction false} WellFormedOfReadable(wps: seq<WordPressPost>)
    ensures WellFormed(Readable(wps)) == wps
    decreases |wps|
  {
    if wps != [] {
      var records := Readable(wps);
      assert records[0] == Post(wps[0]) && records[1..] == Readable(wps[1..]);
      WellFormedOfReadable(wps[1..]);
      assert [wps[0]] + wps[1..] == wps;
    }
  }

  /** A successful listing of readable records: one post per record, in
      order, with its id and content unchanged; with no `X-WP-Total` the
      total is the number of posts, and with no `X-WP-TotalPages` there is
      one page. */
  lemma ReadableListing(s: Service, env: Env, users: int -> Reply<User>, params: Params, listing: Listing, wps: seq<WordPressPost>)
    requires listing(Query(params)) == Response(200, Some(Readable(wps)), Headers(None, None))
    ensures var r := GetPosts(s, env, users, params, listing).value;
      && |r.posts| == |wps| && r.total == Finite(|wps|) && r.totalPages == Finite(1)
      && forall i :: 0 <= i < |wps| ==> r.posts[i].id == wps[i].id && r.posts[i].content == OrElse(wps[i].content, "")
  {
    WellFormedOfReadable(wps);
    var r := GetPosts(s, env, users, params, listing).value;
    assert AllDerived(r.posts, wps, env);
    forall i | 0 <= i < |wps| ensures r.posts[i].id == wps[i].id && r.posts[i].content == OrElse(wps[i].content, "") {
      assert DerivedFrom(r.posts[i], wps[i], env);
    }
  }

  /** Filtering a reply in two parts gives the two filtered parts, in
      order: records that cannot be read are dropped wherever they are, and
      the others keep their order. */
  lemma {:induction false} WellFormedAppend(a: seq<Record>, b: seq<Record>)
    ensures WellFormed(a + b) == WellFormed(a) + WellFormed(b)
    decreases |a|
  {
    if a == [] {
      assert a + b == b;
    } else {
      assert (a + b)[0] == a[0] && (a + b)[1..] == a[1..] + b;
      WellFormedAppend(a[1..], b);
      match a[0]
      case Malformed =>
      case Post(wp) =>
        assert [wp] + (WellFormed(a[1..]) + WellFormed(b)) == ([wp] + WellFormed(a[1..])) + WellFormed(b);
    }
  }
}
