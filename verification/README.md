# Pharma News blog core, modelled in Dafny

This project models the logic in the Pharma News blog front end.

**Blog service** (`src/service/blogService.ts`): it derives `BlogPost` view models from WordPress records:
- tags are stripped from the HTML;
- the read time is counted;
- the subtitle is cut to 150 characters.

It also:
- builds the `/posts` query;
- keeps an author-name cache and a sticky "API available" flag;
- answers every listing with a page of posts, substituting sample posts when the WordPress API fails or refuses access.

**`useBlog` hook** (`src/hooks/useBlog.ts`): the state machine behind post lists, with de-duplicated fetches, append vs replace, error recording and the unmounted guard.

**Footer contact form** (`src/components/Footer/index.tsx`): its validator, its input handler and the reset after a successful submit.

Every network exchange is an input: the `Reply` the API gave, which is a status with a parsed body or `None`, or a network error. Every public operation is therefore a total function from the service state, the arguments and the replies to the new state and the result. None of them can throw: every public operation of the service catches its failures and answers with a fallback (src/service/blogService.ts:177-187, 210-213, 238-241, 267-270).

The JavaScript built-ins the code relies on are written out in two modules:
- `JsString`: `trim`, `\s`, the `/<[^>]*>/g` replacement, `split(/\s+/)`, `substring`, and `||` on strings.
- `JsNumber`: `toString`, `parseInt`, `join(',')`.

Modules, one per file:
- `Wrappers`: `Option`.
- `JsString`, `JsNumber`: the built-ins above.
- `BlogTypes`: the records of `src/types/blog.ts` and the `{...a, ...b}` merge of query parameters.
- `BlogQuery`: the `URLSearchParams` that `getPosts` builds, and reading it back.
- `BlogService`: the service.
- `UseBlog`: the hook.
- `ContactForm`: the footer form.

The subtitle is at most 150 characters plus `'...'`, so at most 153 (src/service/blogService.ts:72).

## Model

| member | source | states |
|---|---|---|
| JsString.TrimStart | src/service/blogService.ts:92 | the result is a suffix of the input; everything dropped is white space; the result does not start with white space |
| JsString.TrimEnd | src/service/blogService.ts:92 | the result is a prefix of the input; everything dropped is white space; the result does not end with white space |
| JsString.Trim | src/service/blogService.ts:92 | the result neither starts nor ends with white space |
| JsString.TrimIsSlice | src/service/blogService.ts:92 | `trim` returns a contiguous slice, and all the text cut off on both sides is white space |
| JsString.BlankIffAllSpace | src/components/Footer/index.tsx:33 | `!x.trim()` holds exactly when every character of `x` is white space |
| JsString.TrimIdempotent | src/service/blogService.ts:92 | trimming twice equals trimming once |
| JsString.StripTags | src/service/blogService.ts:92 | `replace(/<[^>]*>/g, '')`: a match starts at a `<` with some `>` after it and ends at the first such `>`; a `<` with no `>` after it is kept; the result is never longer than the input |
| JsString.StripTagsChars | src/service/blogService.ts:92 | every character of the result occurs in the input |
| JsString.StripTagsSubsequence | src/service/blogService.ts:92 | the tag replacement only deletes characters: the result is a subsequence of the input |
| JsString.StripTagsNoTag | src/service/blogService.ts:92 | after `replace(/<[^>]*>/g, '')` no `<` is followed anywhere later by a `>` |
| JsString.StripTagsOfNoTag | src/service/blogService.ts:92 | on text with no `<…>` pair the replacement changes nothing |
| JsString.CleanHtml | src/service/blogService.ts:91-93 | `cleanHtml` output has no `<…>` pair and no white space at either end |
| JsString.CleanHtmlIdempotent | src/service/blogService.ts:91-93 | cleaning cleaned text changes nothing |
| JsString.Split | src/service/blogService.ts:14 | `split(/\s+/)` yields at least one piece, and no piece holds white space |
| JsString.SplitLosesOnlySpace | src/service/blogService.ts:14 | the pieces concatenated give the input with its white space removed |
| JsString.SplitOfTrimmedHasNoEmptyPiece | src/service/blogService.ts:14 | splitting non-empty trimmed text gives no empty piece |
| JsString.SplitCountsWords | src/service/blogService.ts:14 | splitting non-empty trimmed text gives exactly one piece per word, a word being a maximal run of non-space characters (counted by `Words`) |
| JsString.Take | src/service/blogService.ts:72 | `substring(0, n)` is the prefix of length `min(n, length)` |
| JsString.OrElse | src/service/blogService.ts:71-75 | `x \|\| d` is `x` when it is a non-empty string, and `d` when it is missing or empty |
| JsNumber.IntToString | src/service/blogService.ts:123 | `toString` of an integer is non-empty, starts with no white space and holds no comma |
| JsNumber.NatToStringValue | src/service/blogService.ts:123 | the decimal digits of a natural number read back as that number |
| JsNumber.ParseInt | src/service/blogService.ts:169-170 | `parseInt(s)` in base 10 or, after `0x`, 16: leading white space and one sign are skipped, the longest digit prefix is read, and no digit gives `NaN` |
| JsNumber.ParseIntOfIntToString | src/service/blogService.ts:169 | `parseInt` of an integer's text, followed by anything that cannot continue a number, gives back that integer |
| JsNumber.IntToStringDistinct | src/service/blogService.ts:110 | different integers have different texts |
| JsNumber.CeilDiv | src/service/blogService.ts:15 | `Math.ceil(a / b)`: the least `q` with `q * b >= a` |
| JsNumber.JoinInts | src/service/blogService.ts:126 | `join(',')` is empty exactly for the empty list |
| JsNumber.JoinIntsRoundTrip | src/service/blogService.ts:126 | splitting a joined id list at commas and parsing each piece gives back the ids, in order |
| BlogTypes.Merge | src/hooks/useBlog.ts:37 | `{ ...initialParams, ...params }`: every field the call sets wins, and the others come from the initial parameters |
| BlogTypes.MergeIdentity | src/hooks/useBlog.ts:34-37 | spreading `{}` on either side changes nothing |
| BlogQuery.PresentLookup | src/service/blogService.ts:120-130 | with distinct names, looking up a name in the appended pairs gives that name's slot |
| BlogQuery.Query | src/service/blogService.ts:120-130 | the `URLSearchParams` of `getPosts`: one name/value pair per truthy parameter, in the fixed order |
| BlogQuery.QueryLookup | src/service/blogService.ts:120-130 | each name is in the query exactly when its parameter is truthy, with that parameter's text |
| BlogQuery.QueryFields | src/service/blogService.ts:120-130 | name by name: `page`, `per_page`, `author` as decimal text when non-zero; `search` when non-empty; `categories`/`tags` comma-joined when non-empty; `orderby`/`order` when given |
| BlogQuery.QueryOrder | src/service/blogService.ts:120-130 | the names appear in the fixed order page, per_page, search, categories, tags, author, orderby, order, each at most once |
| BlogQuery.NumberSlotRoundTrip | src/service/blogService.ts:123 | a number parameter read back from the query is the parameter, or absent when it was 0 |
| BlogQuery.ListSlotRoundTrip | src/service/blogService.ts:126-127 | an id list read back from the query is the list, or absent when it was empty |
| BlogQuery.QueryRoundTrip | src/service/blogService.ts:120-130 | reading the query back gives exactly the truthy parameters |
| BlogService.EvolvesTransitive | src/service/blogService.ts:6-8 | cache growth and the flag going down compose over a run of calls |
| BlogService.WordCount | src/service/blogService.ts:13-14 | the word count is at least 1: exactly 1 for content with no text, otherwise the number of words of the cleaned text |
| BlogService.CalculateReadTime | src/service/blogService.ts:11-17 | the read time is `"{N} min read"` with N ≥ 1 and N the smallest count of 200-word minutes covering the words |
| BlogService.ReadTimeMinutes | src/service/blogService.ts:11-17 | `parseInt` of the read time gives `ceil(words / 200)` |
| BlogService.Subtitle | src/service/blogService.ts:72 | the subtitle ends in `"..."`, is at most 153 characters, and before the marker is a prefix of the cleaned excerpt: all of it when it is at most 150 characters, otherwise its first 150 |
| BlogService.RandomIn | src/service/blogService.ts:80-81 | `Math.floor(Math.random() * w) + low` lies in `[low, low + w)` |
| BlogService.GetAuthorName | src/service/blogService.ts:35-62 | a cached id returns its name with no state change. Otherwise the name is cached: `name`, else `display_name`, else `'Unknown Author'` on success, and `'Admin'` on any failure. Only a 401 clears the flag |
| BlogService.GetAuthorNameEvolves | src/service/blogService.ts:35-62 | an author lookup only adds to the cache, and afterwards the id maps to the returned name; the cache gains exactly that id; on a miss the cached name is `name`, else `display_name`, else `'Unknown Author'` on a good reply and `'Admin'` on any failure; the flag drops exactly when a miss is refused with 401 |
| BlogService.TransformPost | src/service/blogService.ts:66-88 | the view model copies id, slug, link, content, excerpt; a missing title is `'Untitled Post'`; the image defaults to the placeholder; categories and tags default to `[]`; `isLiked` is false; views lie in [100, 2099]; likes lie in [1, 50]; the author is the cached name; the service state afterwards is the one the author lookup leaves, so the cache gains exactly the author id, a new author is cached under the looked-up name, and the flag drops exactly when that lookup is refused with 401 |
| BlogService.WellFormed | src/service/blogService.ts:158-166 | the post records of a reply, in order, are never more than the records |
| BlogService.WellFormedAppend | src/service/blogService.ts:158-166 | filtering two parts of a reply one after the other gives the filtered parts in order: unreadable records are dropped wherever they are, and the others keep their order |
| BlogService.TransformAll | src/service/blogService.ts:157-166 | the loop yields one view model per readable record, in input order, each derived from its record, with every author in the cache and shown under its cached name. The cache gains exactly the author ids of the readable records. Each author not cached before is cached under the name its lookup settles on (`name`, `display_name`, `'Unknown Author'`, or `'Admin'` on failure). The flag drops exactly when one of those new authors' lookups is refused with 401 |
| BlogService.MockCount | src/service/blogService.ts:97 | `Math.min(limit, 6)` as an array length: 6 for 6 and more, `limit` in between, 0 when not positive |
| BlogService.MockPosts | src/service/blogService.ts:96-115 | `getMockPosts(limit)` has `min(limit, 6)` posts, the i-th with id i+1 and slug `sample-post-{i+1}`, author `'Admin'`, views in [100, 1099], likes in [1, 50] |
| BlogService.MockPostsDistinct | src/service/blogService.ts:96-115 | sample posts have pairwise different ids and slugs |
| BlogService.MockLimit | src/service/blogService.ts:144 | `per_page \|\| 6`: 6 when absent or 0, otherwise `per_page` |
| BlogService.MockPage | src/service/blogService.ts:144-149 | the fallback page has `min(per_page \|\| 6, 6)` posts, total equal to that count, one page |
| BlogService.HeaderCount | src/service/blogService.ts:169-170 | `parseInt(header || String(n))` is the header's number when the header is present and not empty, and `n` otherwise |
| BlogService.Envelope | src/service/blogService.ts:169-176 | total is `parseInt` of `X-WP-Total`, or the number of posts when the header is missing or empty; totalPages is `parseInt` of `X-WP-TotalPages`, or 1 |
| BlogService.GetPosts | src/service/blogService.ts:118-188 | the reply is the one to the query `Query(params)`. 401/403 lowers the flag and gives the fallback page. Every other failure, including a body that does not parse, gives the fallback page with the state unchanged. Success gives the transformed readable records with header-derived counts, the cache gains exactly their author ids, each new author is cached and shown under its looked-up name, and the flag drops exactly when a new author's lookup is refused with 401. The cache only grows and the flag never comes back |
| BlogService.SearchParams | src/service/blogService.ts:284-292 | a search sends `search` (when non-empty), page 1 and per_page 10 unless given, `orderby=date` and `order=desc`, and nothing else |
| BlogService.SearchPosts | src/service/blogService.ts:284-292 | the search is `getPosts` with the search parameters, so success gives the transformed posts; a failed search gives `min(perPage \|\| 6, 6)` sample posts, lowering the flag only on 401/403 |
| BlogService.GetPostById | src/service/blogService.ts:191-214 | null on every non-2xx status, on an unparsable body and on a record that cannot be transformed, with the state unchanged; otherwise the transform of the record, whose author is the name cached for its author id, with the service state the author lookup leaves; a cache hit leaves the state unchanged |
| BlogService.GetPostBySlug | src/service/blogService.ts:217-242 | null on every failure, on an empty result list and on an unreadable first record; otherwise the transform of the first record, whose author is the name cached for its author id, with the service state the author lookup leaves; a cache hit leaves the state unchanged |
| BlogService.IsAvailable | src/service/blogService.ts:295-297 | the current value of the availability flag |
| BlogService.GetCategories | src/service/blogService.ts:245-281 | the four sample categories on any failure, including one unreadable entry; otherwise the categories as sent, in order |
| BlogService.GetPostsAsksOnlyItsQuery | src/service/blogService.ts:120-138 | `getPosts` depends on the endpoint only through its reply to `Query(params)` |
| BlogService.DenialIsSticky | src/service/blogService.ts:140-150 | after a listing refused with 401/403 the API is unavailable, and stays so after any further listing |
| BlogService.ForbiddenGivesSamples | src/service/blogService.ts:140-150 | a 403 gives `min(per_page \|\| 6, 6)` sample posts (6 when per_page is absent), total = that count, one page, and marks the API unavailable |
| BlogService.WellFormedOfReadable | src/service/blogService.ts:158-166 | when every record can be read, none is dropped and the order is kept |
| BlogService.ReadableListing | src/service/blogService.ts:157-176 | readable records give one post each, in order, with ids and contents unchanged; with no count headers the total is the number of posts and there is one page |
| UseBlog.NewHook | src/hooks/useBlog.ts:22-32 | a new hook has no posts, is not loading, has no error, has total 0 and totalPages 0, has an empty key, is mounted, and keeps the given initial parameters and `autoFetch` |
| UseBlog.Begin | src/hooks/useBlog.ts:46 | starting a request sets loading, clears the error, and keeps posts and counts |
| UseBlog.Fetch | src/hooks/useBlog.ts:34-49 | `fetchPosts` issues nothing exactly when unmounted or when it is a non-append call with the last key and posts on screen. Otherwise it records the merged parameters as the key, starts loading and requests those parameters |
| UseBlog.Search | src/hooks/useBlog.ts:72-78 | `searchPosts` issues its search exactly when mounted, with page 1 and perPage 10 by default, and leaves the key alone |
| UseBlog.Settle | src/hooks/useBlog.ts:51-69 | an unmounted hook ignores an outcome. A result is appended to the current posts when its call was an appending listing and replaces them otherwise, so a search always replaces; it overwrites the counts. A rejection records the error message (or `'Unknown error'`) and keeps posts and counts. Loading ends either way |
| UseBlog.Refresh | src/hooks/useBlog.ts:100-103 | `refreshPosts` forgets the key even when unmounted, and when mounted always requests the initial parameters; the mount flag, the initial parameters and `autoFetch` are kept |
| UseBlog.Mount | src/hooks/useBlog.ts:105-110 | mounting sets the flag. A request for the initial parameters goes out exactly when `autoFetch` is set and it is not a duplicate; then the key is recorded and loading starts. Otherwise only the flag changes |
| UseBlog.Unmount | src/hooks/useBlog.ts:112-121 | unmounting clears the flag and keeps the state, the key, the initial parameters and `autoFetch` |
| UseBlog.FirstFetchIssued | src/hooks/useBlog.ts:40-44 | the first fetch of a new hook is always issued |
| UseBlog.RepeatedFetchIsNoop | src/hooks/useBlog.ts:40-42 | once a fetch has filled the posts, a non-append fetch with the same merged parameters issues nothing and changes nothing |
| UseBlog.AppendIsNeverDuplicate | src/hooks/useBlog.ts:40 | an append fetch on a mounted hook is always issued |
| UseBlog.PagesAppendInOrder | src/hooks/useBlog.ts:53-59 | fetching page 1 and then appending page 2 shows page 1's posts followed by page 2's, with page 2's counts |
| UseBlog.RejectionKeepsPosts | src/hooks/useBlog.ts:60-69 | a rejected fetch keeps posts and counts, records the error and ends loading |
| UseBlog.UnmountedIsFrozen | src/hooks/useBlog.ts:34-103 | an unmounted hook issues no fetch or search and ignores every outcome; `refreshPosts` only forgets the key |
| UseBlog.SearchKeepsKey | src/hooks/useBlog.ts:72-98 | a search and its outcome leave the fetch key as it was, and a search's result replaces the posts on screen |
| UseBlog.RefreshIsNeverDuplicate | src/hooks/useBlog.ts:100-103 | when a plain `fetchPosts()` would be a duplicate, `refreshPosts()` still issues the initial request |
| UseBlog.LastSettledWins | src/hooks/useBlog.ts:51-59 | of two fetches that both go out, the one that settles last sets the posts, even when it was issued first |
| UseBlog.ServiceFetchNeverErrs | src/hooks/useBlog.ts:48-59 | with the service's outcome, a fetch ends with no error, not loading, and the service's posts |
| ContactForm.FindDot | src/components/Footer/index.tsx:43 | the scan finds a dot for the `@` exactly when `\S+\.\S+` matches after it |
| ContactForm.EmailPattern | src/components/Footer/index.tsx:43 | `/\S+@\S+\.\S+/.test(s)`: some `@` has a non-space character before it and, after a non-empty non-space run, a `.` followed by a non-space character |
| ContactForm.MatchesEmail | src/components/Footer/index.tsx:43 | the scan succeeds exactly when `\S+@\S+\.\S+` matches somewhere in the text |
| ContactForm.EmailNotBlank | src/components/Footer/index.tsx:41-45 | an address that matches the pattern is never blank, so `'Email is required'` and a match never meet |
| ContactForm.EmailExample | src/components/Footer/index.tsx:43 | `a@b.c` matches and `a@b` does not |
| ContactForm.IsValid | src/components/Footer/index.tsx:52 | the form is valid when the validator reports no message |
| ContactForm.Validate | src/components/Footer/index.tsx:30-49 | each field gets its required message exactly when it is blank. The email gets `'Email is invalid'` exactly when it is not blank and has no match, and no message exactly when it matches |
| ContactForm.ValidIff | src/components/Footer/index.tsx:51-52 | the form is valid exactly when first name, last name and message are not blank and the email matches |
| ContactForm.EmptyFormInvalid | src/components/Footer/index.tsx:30-49 | the empty form gets all four required messages |
| ContactForm.HandleInputChange | src/components/Footer/index.tsx:55-69 | typing sets only the named field and clears only its message; every other field and message is unchanged |
| ContactForm.SubmitStart | src/components/Footer/index.tsx:71-76 | submitting stores the validator's messages, keeps the data, and enters the submitting state exactly when the form is valid |
| ContactForm.SubmitComplete | src/components/Footer/index.tsx:82-91 | after the delay the fields are empty and the button is released |
| ContactForm.SubmitOutcome | src/components/Footer/index.tsx:71-91 | a valid submission ends at the initial form; an invalid one keeps the data and shows at least one message |
| ContactForm.TypingClearsOnlyItsMessage | src/components/Footer/index.tsx:55-69 | after a failed submit, typing in one field clears that field's message only |

## Left out

- `fetch`, `response.json()` and HTTP headers are not modelled as I/O. Each call's outcome is an input (`Reply`). A body is either parsed into the expected shape or `None`, which covers JSON that does not parse and an array that is not one.
- Beyond a missing (`null`) record, a record whose fields have the wrong JavaScript types is not modelled, because the model's records are typed.
- `formatDate` (`Date` and `toLocaleDateString`) is an opaque function in `Env`. The current time of the sample posts is an input string, because both depend on the locale library and the clock.
- `Math.random` is a stream of reals in [0, 1) in `Env`. The model states only the ranges of `views` and `likes`, because their values are random. Floating-point rounding of `r * 2000` is not modelled.
- Strings are sequences of Unicode characters. JavaScript's `length` and `substring` count UTF-16 code units, so for text outside the Basic Multilingual Plane the 150-character cut differs.
- `URLSearchParams.toString()` percent-encoding and the base URL are not modelled. The query is the list of name/value pairs appended, which is what the API reads back.
- The de-duplication key is the merged parameter record, not its `JSON.stringify` text. Two merges with equal fields but different key order give different text in the source, so the source may issue a fetch the model treats as a duplicate.
- `parseInt` is modelled on integers. Precision loss above 2^53 and `-0` are not modelled, because JavaScript numbers are doubles.
- `IntToString` writes every integer in plain decimal digits. JavaScript's `toString` switches to exponent form from 1e21, so there `parseInt(n.toString())` no longer gives back `n`; `ParseIntOfIntToString` and `IntToStringDistinct` hold only because the model leaves that form out.
- A parameter field passed explicitly as `undefined` is treated as absent by `Merge`. The JavaScript spread copies an explicit `undefined` over the initial value (src/hooks/useBlog.ts:37, 49). No caller in the repository passes parameters to `fetchPosts` (src/pages/Blog/index.tsx:105, src/pages/BlogDetail/RecentPostsSection/index.tsx:11).
- Service operations are atomic in the model, so `Evolves` (a cached author name never changes) holds for a single call. In the program two calls can overlap, for example the mount effect run twice under React StrictMode (src/main.tsx:9), or two fetches in flight. Both can miss the cache for the same author, and the later `authorsCache.set` (src/service/blogService.ts:50, 61) then overwrites the earlier name. For overlapping calls the cache only gains keys; a value can be overwritten.
- React scheduling is not modelled: each operation is split at its `await`, and outcomes arrive in whatever order the caller chooses. The stale `state.posts.length` captured by the `useCallback` closure is read as the current state.
- `categoriesCache` is declared in the service but never read or written, so it is not modelled.
- `console` logging and `alert` are not modelled, because they are output only.
- `handleInputChange` with an input name other than the four fields is not modelled, because the form renders only those four inputs.
- The rejection branch of `handleSubmit` is not modelled, because the simulated delay cannot reject.
- The JSX rendering of the footer, the hook's consumers and the pages are not modelled, because they are UI only.
- The OAuth session provider and the token proxies are not part of this model.
