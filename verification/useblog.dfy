/** `useBlog`: the hook that keeps a page of posts for a component.

    Each operation is split at its `await`. The part before it is a
    function from the hook to the hook and the request it issues (`None`
    when it returns early). The part after it, `Settle`, applies the
    request's outcome to the hook as it is when the outcome arrives.
    Outcomes may arrive in any order, and the model leaves that order to
    the caller. */
module UseBlog {
  import opened Wrappers
  import opened JsNumber
  import opened BlogTypes
  import opened BlogService

  /** `UseBlogState`. */
  datatype BlogState = BlogState(posts: seq<BlogPost>, loading: bool, error: Option<string>, total: Num, totalPages: Num)

  const InitialState := BlogState([], false, None, Finite(0), Finite(0))

  /** One hook instance: its options, its state, the last fetch key
      (`None` for the empty string the ref starts with) and the mounted
      flag. */
  datatype Hook = Hook(initialParams: Params, autoFetch: bool, state: BlogState, lastKey: Option<Params>, mounted: bool)

  /** The hook as first rendered; the mounted ref starts out true. */
  function NewHook(initialParams: Params, autoFetch: bool): (h: Hook)
    ensures h.state == InitialState && h.lastKey.None? && h.mounted
    ensures h.initialParams == initialParams && h.autoFetch == autoFetch
  {
    Hook(initialParams, autoFetch, InitialState, None, true)
  }

  /** The service call an operation awaits. A listing remembers whether
      its result is appended; a search's result always replaces the posts. */
  datatype Call = ListCall(params: Params, append: bool) | SearchCall(query: string, page: int, perPage: int) {
    predicate Appends() {
      ListCall? && append
    }
  }

  /** What a thrown value turns into: an `Error`'s message, or
      `'Unknown error'` for anything else. */
  datatype Failure = ErrorValue(message: string) | NonError {
    function Text(): string {
      match this
      case ErrorValue(m) => m
      case NonError => "Unknown error"
    }
  }

  /** How an awaited call ended. */
  datatype Outcome = Resolved(response: BlogApiResponse) | Rejected(failure: Failure)

  /** The update every operation makes before awaiting. */
  function Begin(st: BlogState): (r: BlogState)
    ensures r.loading && r.error.None?
    ensures r.posts == st.posts && r.total == st.total && r.totalPages == st.totalPages
  {
    st.(loading := true, error := None)
  }

  /** `{ ...initialParams, ...params }`, and the key is its JSON text. */
  function Key(h: Hook, params: Params): Params {
    Merge(h.initialParams, params)
  }

  /** The duplicate test of `fetchPosts`: not appending, the same key as the
      last fetch, and posts already on screen. */
  predicate IsDuplicate(h: Hook, params: Params, append: bool) {
    !append && h.lastKey == Some(Key(h, params)) && |h.state.posts| > 0
  }

  /** `fetchPosts(params, append)` up to its `await`. */
  function Fetch(h: Hook, params: Params, append: bool): (r: (Hook, Option<Call>))
    ensures r.1.None? <==> !h.mounted || IsDuplicate(h, params, append)
    ensures r.1.None? ==> r.0 == h
    ensures r.1.Some? ==> r.1.value == ListCall(Merge(h.initialParams, params), append)
    ensures r.1.Some? ==> r.0 == h.(lastKey := Some(Merge(h.initialParams, params)), state := Begin(h.state))
  {
    if !h.mounted then (h, None)
    else if IsDuplicate(h, params, append) then (h, None)
    else
      var key := Key(h, params);
      (h.(lastKey := Some(key), state := Begin(h.state)), Some(ListCall(key, append)))
  }

  /** `searchPosts(query, page = 1, perPage = 10)` up to its `await`: no
      key, no duplicate test. */
  function Search(h: Hook, query: string, page: Option<int>, perPage: Option<int>): (r: (Hook, Option<Call>))
    ensures r.1.None? <==> !h.mounted
    ensures r.1.None? ==> r.0 == h
    ensures r.1.Some? ==> r.1.value == SearchCall(query, page.GetOr(1), perPage.GetOr(10))
    ensures r.1.Some? ==> r.0 == h.(state := Begin(h.state))
  {
    if !h.mounted then (h, None)
    else (h.(state := Begin(h.state)), Some(SearchCall(query, page.GetOr(1), perPage.GetOr(10))))
  }

  /** The part after the `await` of the call `call`, the same for
      `fetchPosts` and for `searchPosts`. An unmounted hook ignores the
      outcome. A result extends the posts of the hook as it is now when the
      call was an appending listing, and replaces them otherwise; a
      rejection only records the error. */
  function Settle(h: Hook, call: Call, outcome: Outcome): (r: Hook)
    ensures !h.mounted ==> r == h
    ensures r.initialParams == h.initialParams && r.autoFetch == h.autoFetch
    ensures r.lastKey == h.lastKey && r.mounted == h.mounted
    ensures h.mounted ==> !r.state.loading
    ensures h.mounted && outcome.Resolved? ==>
      && r.state.posts == (if call.Appends() then h.state.posts + outcome.response.posts else outcome.response.posts)
      && r.state.total == outcome.response.total && r.state.totalPages == outcome.response.totalPages
      && r.state.error == h.state.error
    ensures h.mounted && outcome.Rejected? ==>
      && r.state.error == Some(outcome.failure.Text())
      && r.state.posts == h.state.posts && r.state.total == h.state.total && r.state.totalPages == h.state.totalPages
  {
    if !h.mounted then h
    else match outcome
      case Resolved(response) =>
        var posts := if call.Appends() then h.state.posts + response.posts else response.posts;
        h.(state := h.state.(posts := posts, total := response.total, totalPages := response.totalPages, loading := false))
      case Rejected(failure) =>
        h.(state := h.state.(error := Some(failure.Text()), loading := false))
  }

  /** `refreshPosts()`: forget the key, even when unmounted, then
      `fetchPosts()`. */
  function Refresh(h: Hook): (r: (Hook, Option<Call>))
    ensures r.1.None? <==> !h.mounted
    ensures r.0.lastKey == (if h.mounted then Some(h.initialParams) else None)
    ensures r.1.Some? ==> r.1.value == ListCall(h.initialParams, false)
    ensures r.0.state == (if h.mounted then Begin(h.state) else h.state)
    ensures r.0.mounted == h.mounted && r.0.initialParams == h.initialParams && r.0.autoFetch == h.autoFetch
  {
    MergeIdentity(h.initialParams);
    Fetch(h.(lastKey := None), NoParams, false)
  }

  /** The mount effect: set the flag and, with `autoFetch`, `fetchPosts()`. */
  function Mount(h: Hook): (r: (Hook, Option<Call>))
    ensures r.0.mounted
    ensures r.1.None? <==> !h.autoFetch || IsDuplicate(h, NoParams, false)
    ensures r.1.Some? ==> r.1.value == ListCall(h.initialParams, false)
    ensures r.1.Some? ==> r.0 == h.(mounted := true, lastKey := Some(h.initialParams), state := Begin(h.state))
    ensures r.1.None? ==> r.0 == h.(mounted := true)
  {
    MergeIdentity(h.initialParams);
    var m := h.(mounted := true);
    if h.autoFetch then Fetch(m, NoParams, false) else (m, None)
  }

  /** The cleanup of either effect. */
  function Unmount(h: Hook): (r: Hook)
    ensures !r.mounted && r.state == h.state && r.lastKey == h.lastKey
    ensures r.initialParams == h.initialParams && r.autoFetch == h.autoFetch
  {
    h.(mounted := false)
  }

  // ---------------------------------------------------------------------
  // Properties

  /** A mounted hook's first fetch always goes out. */
  lemma FirstFetchIssued(initialParams: Params, autoFetch: bool, params: Params, append: bool)
    ensures Fetch(NewHook(initialParams, autoFetch), params, append).1 == Some(ListCall(Merge(initialParams, params), append))
  {
  }

  /** Once a fetch for some parameters has filled the posts, fetching the
      same merged parameters again without appending issues nothing and
      changes nothing. */
  lemma RepeatedFetchIsNoop(h: Hook, p: Params, q: Params, response: BlogApiResponse)
    requires h.mounted && Fetch(h, p, false).1.Some?
    requires |response.posts| > 0
    requires Merge(h.initialParams, q) == Merge(h.initialParams, p)
    ensures var h2 := Settle(Fetch(h, p, false).0, Fetch(h, p, false).1.value, Resolved(response));
      Fetch(h2, q, false) == (h2, None)
  {
  }

  /** Appending never counts as a duplicate. */
  lemma AppendIsNeverDuplicate(h: Hook, params: Params)
    requires h.mounted
    ensures Fetch(h, params, true).1 == Some(ListCall(Merge(h.initialParams, params), true))
  {
  }

  /** Fetching page 1, then appending page 2, shows page 1's posts
      followed by page 2's. */
  lemma PagesAppendInOrder(initialParams: Params, autoFetch: bool, first: Params, second: Params, r1: BlogApiResponse, r2: BlogApiResponse)
    ensures var (h1, c1) := Fetch(NewHook(initialParams, autoFetch), first, false);
      var h2 := Settle(h1, c1.value, Resolved(r1));
      var (h3, c2) := Fetch(h2, second, true);
      var h4 := Settle(h3, c2.value, Resolved(r2));
      && c1.Some? && c2.Some?
      && h4.state.posts == r1.posts + r2.posts
      && h4.state.total == r2.total && h4.state.totalPages == r2.totalPages
      && !h4.state.loading && h4.state.error.None?
  {
  }

  /** A rejected call leaves the posts and counts as they were before it. */
  lemma RejectionKeepsPosts(h: Hook, params: Params, append: bool, failure: Failure)
    requires Fetch(h, params, append).1.Some?
    ensures var h2 := Settle(Fetch(h, params, append).0, Fetch(h, params, append).1.value, Rejected(failure));
      && h2.state.posts == h.state.posts && h2.state.total == h.state.total && h2.state.totalPages == h.state.totalPages
      && h2.state.error == Some(failure.Text()) && !h2.state.loading
  {
  }

  /** An unmounted hook issues no fetch or search, and ignores outcomes;
      `refreshPosts` only forgets the key. */
  lemma UnmountedIsFrozen(h: Hook, params: Params, append: bool, query: string, page: Option<int>, perPage: Option<int>, call: Call, outcome: Outcome)
    requires !h.mounted
    ensures Fetch(h, params, append) == (h, None)
    ensures Search(h, query, page, perPage) == (h, None)
    ensures Settle(h, call, outcome) == h
    ensures Refresh(h) == (h.(lastKey := None), None)
  {
  }

  /** A search neither reads nor writes the fetch key: the fetch that
      follows is judged against the key from before the search. Its result
      replaces the posts on screen. */
  lemma SearchKeepsKey(h: Hook, query: string, page: Option<int>, perPage: Option<int>, outcome: Outcome)
    ensures var (h1, c) := Search(h, query, page, perPage);
      && h1.lastKey == h.lastKey
      && (c.Some? ==> Settle(h1, c.value, outcome).lastKey == h.lastKey)
      && (c.Some? && outcome.Resolved? ==> Settle(h1, c.value, outcome).state.posts == outcome.response.posts)
  {
  }

  /** After a refresh the initial fetch goes out even with posts on
      screen. */
  lemma RefreshIsNeverDuplicate(h: Hook)
    requires h.mounted && |h.state.posts| > 0 && h.lastKey == Some(h.initialParams)
    ensures Fetch(h, NoParams, false).1.None?
    ensures Refresh(h).1 == Some(ListCall(h.initialParams, false))
  {
    MergeIdentity(h.initialParams);
  }

  /** Two fetches in flight: whichever settles last decides the posts,
      even when it was issued first. */
  lemma LastSettledWins(h: Hook, p: Params, q: Params, older: BlogApiResponse, newer: BlogApiResponse)
    requires Fetch(h, p, false).1.Some?
    requires Fetch(Fetch(h, p, false).0, q, false).1.Some?
    ensures var (h1, c1) := Fetch(h, p, false);
      var (h2, c2) := Fetch(h1, q, false);
      Settle(Settle(h2, c2.value, Resolved(newer)), c1.value, Resolved(older)).state.posts == older.posts
  {
  }

  /** Through the service, a fetch never ends in an error: the service
      always resolves, so the error cleared at the start stays clear. */
  lemma ServiceFetchNeverErrs(h: Hook, params: Params, s: Service, env: Env, users: int -> Reply<User>, listing: Listing)
    requires Fetch(h, params, false).1.Some?
    ensures var h1 := Fetch(h, params, false).0;
      var response := GetPosts(s, env, users, Merge(h.initialParams, params), listing).value;
      var h2 := Settle(h1, Fetch(h, params, false).1.value, Resolved(response));
      && h2.state.error.None? && !h2.state.loading && h2.state.posts == response.posts
  {
  }
}
