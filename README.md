# Simple dynamic site — a verified model of its post list, API client and service worker

The site shows blog posts, users and comments from the DummyJSON API, has a
contact form, and ships a service worker for offline use. This project models
the parts of it that hold logic, and proves what they promise:

- `Api` (`api.dfy`) models the paged-collection client of `js/api.js`. It covers
  the default `limit`/`skip`, the request URLs, and the rule that a response that
  is not ok throws a per-collection message with no retry. It also covers the
  `fetchAllComments`/`fetchAllUsers` loops, which gather a whole collection in
  pages of 100. The remote API is an oracle from URL to reply.
- `PostList` (`app.dfy`) models the post-list `state` record of `js/app.js`. It
  covers how `loadInitialPosts` and `loadMorePosts` update it, the comment list of
  a post card, and the author and reactions fallbacks.
- `HtmlEscape` (`escape.dfy`) models `escapeHtml`.
- `ContactForm` (`contact.dfy`) models `validateName`, `validateEmail` and the
  submit handler.
- `ServiceWorker` (`sw.dfy`) models the fetch handler's routing and strategies in
  `sw.js`. It also covers the write-back to `api-v1`, the install that fills
  `static-v1`, and the activate handler that deletes stale caches. The browser's
  cache storage is a class with the cache names in creation order, a map from
  each name to its requests and responses, and the site's origin as a constant.
- `Wrappers` (`wrappers.dfy`) defines `Option` and `Result`, and `Text`
  (`text.dfy`) defines the character and prefix helpers the others share.

Network results are inputs throughout: a reply oracle for the API, an outcome per
request for the service worker, and `Result` values for the aggregated users and
comments that `loadInitialPosts` awaits.

Two behaviours of the code are easy to misread, and the model follows the code.
`fetchPosts` defaults `limit` to 10 (js/api.js:7), while the post list asks for
pages of `state.postsLimit` = 8. A failed install is caught and logged
(sw.js:29-31), so the install goes on and `static-v1` keeps what it held
(nothing, on a first install).

## Model

| member | source | states |
|---|---|---|
| Api.FetchPage | js/api.js:6-56 | one request to the page URL of `fetchPosts`, `fetchComments` or `fetchUsers`: an ok reply yields its body, a non-ok reply the collection's own error message, a rejected fetch a network error |
| Api.Query | js/api.js:6-49 | an undefined `limit` or `skip` takes the collection's default (10 or 100, and 0); the exact default URLs are stated by `Api.DefaultPostsUrl`, `Api.DefaultCommentsUrl` and `Api.DefaultUsersUrl` |
| Api.PageUrl | js/api.js:9-49 | the URL `base + '/<collection>?limit=' + limit + '&skip=' + skip`; `Api.PageUrlRoundTrip` reads collection, limit and skip back from it and `Api.PageUrlInjective` makes it one-to-one |
| Api.PostCommentsUrl | js/api.js:74 | the URL of one post's comments; `Api.PostCommentsUrlInjective` and `Api.PostCommentsUrlIsNoPageUrl` characterise it |
| Api.Aggregate | js/api.js:32-70 | the aggregation loop run as a function with a bound on the requests; `Api.AggregateIsFirstPages`, `Api.AggregateOfFirstPages` and `Api.AggregateOfFailure` characterise its outcome in terms of the pages |
| Api.DefaultPostsUrl | js/api.js:6-9 | with `limit` and `skip` undefined, posts are requested with limit 10 and skip 0, at the exact URL |
| Api.DefaultCommentsUrl | js/api.js:19-22 | with `limit` and `skip` undefined, comments are requested with limit 100 and skip 0, at the exact URL |
| Api.DefaultUsersUrl | js/api.js:46-49 | with `limit` and `skip` undefined, users are requested with limit 100 and skip 0, at the exact URL |
| Api.PageUrlRoundTrip | js/api.js:3-9 | the collection, limit and skip can be read back from the page URL, so the URL carries exactly the requested parameters |
| Api.PageUrlInjective | js/api.js:22 | distinct page requests go to distinct URLs |
| Api.DecimalRoundTrip | js/api.js:9 | the decimal rendering of a number in a URL reads back as that number |
| Api.NatToDecimal | js/api.js:49 | a number renders as a non-empty string of digits, with no leading zero unless it is 0 |
| Api.FetchCommentsForPost | js/api.js:72-81 | the post-scoped request succeeds exactly on an ok reply, yields no comments when the body lacks `comments`, throws the message naming the post on a non-ok reply, and the network error on a rejected fetch |
| Api.PostCommentsUrlIsNoPageUrl | js/api.js:74 | the post-scoped URL never parses as a page URL |
| Api.PostCommentsUrlInjective | js/api.js:74 | the post-scoped URL determines the post id |
| Api.FetchAll | js/api.js:31-70 | the aggregation loop returns exactly what the aggregation from skip 0 with nothing gathered defines, whenever that stops within the given number of requests |
| Api.AggregateFuelIrrelevant | js/api.js:36-41 | once the aggregation stops within some number of requests, allowing more does not change its result |
| Api.AggregateIsFirstPages | js/api.js:36-41 | a successful aggregate is the concatenation in arrival order, with no deduplication, of the pages at skip 0, 100, 200 and so on, up to the first page after which the gathered count reaches that page's `total` |
| Api.AggregateOfFirstPages | js/api.js:36-41 | conversely, when every page before page k arrives with its array and falls short of its `total` and page k reaches it, the loop returns exactly the first k pages after k requests |
| Api.AggregateOfFailure | js/api.js:36-41 | when page k is the first that fails or lacks its array and no earlier page reached its `total`, the loop throws that page's error (the fetch error, or the missing array) after k requests |
| Api.AggregateStopsFrom | js/api.js:63-69 | from any page, the loop's result is the pages gathered so far up to the first page whose `total` is reached |
| Api.ServingFrom | js/api.js:63-69 | against a source of fixed total that returns min(100, total - skip) items, a loop resumed at page i ends with the whole collection after the remaining calls |
| Api.ServingAggregatesAll | js/api.js:36-42 | against such a source the loop makes exactly max(1, ceil(total / 100)) requests and returns exactly the collection |
| PostList.PostListState.constructor | js/app.js:1-10 | the initial state: no posts, empty indexes, skip 0, limit 8, total 0 |
| PostList.PostListState.LoadInitial | js/app.js:114-161 | if the users, the comments or the posts page failed, or the page lacks `posts`, nothing changes; otherwise users are indexed over the old index, all comments are stored, the total is the reported one or 0, the posts are replaced by the page, the skip advances by their number, their comments are indexed, the button is disabled once skip reaches total, and the loaded-post index invariant holds |
| PostList.PostListState.LoadMore | js/app.js:246-275 | the next page is requested at the current skip with limit 8; on success its posts (none when `posts` is missing) are appended, the skip grows by exactly their number and their comments are indexed; on failure posts, skip and index stay; entries of earlier posts, users, comments and total never change; the button ends up disabled exactly when skip has reached total |
| PostList.PostListState.IndexUsers | js/app.js:133-136 | the user index becomes the old index overridden by the index of the fetched users; no other field changes |
| PostList.PostListState.IndexComments | js/app.js:147-150 | the comment index becomes the old index overridden by each new post's filtered comments; no other field changes |
| PostList.UserIndex | js/app.js:133-136 | the index has exactly the ids of the users as keys, each mapped to a user with that id |
| PostList.UserIndexLastWins | js/app.js:135 | of users sharing an id, the last one is the one indexed |
| PostList.CommentsOf | js/app.js:149 | the filtered comments are exactly the comments of the post, and no more than all comments |
| PostList.CommentsOfAppend | js/app.js:258 | filtering distributes over concatenation, so the comments keep their original order |
| PostList.CommentsOfAllMatching | js/app.js:258 | a list made only of the post's comments is returned unchanged |
| PostList.CommentIndex | js/app.js:256-259 | every post of the page is indexed with its filtered comments, and only the page's post ids are written |
| PostList.IndexedExtend | js/app.js:256-262 | indexing a new page over the old index keeps the entries of the posts already loaded and leaves every loaded post, old and new, indexed with its filtered comments |
| PostList.PostListState.RenderComments | js/app.js:230-241 | the placeholder is returned when the post has no entry or an empty list, and otherwise the markup of each comment in order |
| PostList.CommentHtml | js/app.js:235-238 | the markup of one comment, author and body escaped; `PostList.CommentHtmlStart` proves it opens a comment `div` |
| PostList.CommentHtmlStart | js/app.js:238 | one comment's markup starts with `<div class="comment"><strong>` |
| PostList.CommentsHtml | js/app.js:233-240 | the markups of the comments concatenated in list order; `PostList.CommentsHtmlAppend` gives the step the render loop takes |
| PostList.CommentsHtmlAppend | js/app.js:234-239 | rendering one more comment appends exactly its markup |
| PostList.CommentsHtmlStart | js/app.js:238 | rendered comments, when there are any, start with `<div class="comment"><strong>` |
| PostList.PlaceholderIffNoComments | js/app.js:232 | rendered comments are never the placeholder, and never empty when there are comments, so the placeholder shows exactly when there are none |
| PostList.PlaceholderIsNoComment | js/app.js:232 | the placeholder does not start with the opening of a comment `div` |
| PostList.CommentAuthor | js/app.js:236-237 | a comment without a user shows "N/A"; with a user, that user's username |
| PostList.AuthorName | js/app.js:183 | the author shown is never empty, and anything but "Okänd" is the username of the user indexed under the post's `userId` |
| PostList.AuthorNameOfIndexed | js/app.js:178-183 | for an indexed user, the card shows the username unless it is empty |
| PostList.ShownReactions | js/app.js:184 | a truthy object whose `likes` is not `undefined` shows `likes`, `null` included; an object without `likes` and any other truthy value show themselves; a falsy value shows 0 |
| PostList.ShownReactionsFacts | js/app.js:184 | `undefined` is never shown; `null` is shown exactly for `{likes: null}`; a falsy value other than 0 is shown only as an object's `likes`; and showing a truthy shown value again changes nothing unless it is an object carrying `likes` |
| HtmlEscape.EscapeHtml | js/app.js:339-348 | `undefined`/`null` become the empty string, and any text becomes its per-character escape |
| HtmlEscape.ReplaceAll | js/app.js:342-346 | a global `replace` of one character; `HtmlEscape.ReplaceAllAppend` makes it distribute over concatenation |
| HtmlEscape.EscapeChain | js/app.js:342-346 | the five replacements in the order the code applies them; `HtmlEscape.EscapeChainIsPerCharacter` equates it with the per-character escape |
| HtmlEscape.EscapeEach | js/app.js:342-347 | the escaped text contains no `<`, `>`, `"` or `'`, and is no shorter than the input |
| HtmlEscape.EscapeChainIsPerCharacter | js/app.js:342-347 | the five global replacements, `&` first, equal mapping every character to its entity independently and in order, so no entity is escaped twice |
| HtmlEscape.UnescapeEscape | js/app.js:339-348 | unescaping the escaped text gives back the text exactly |
| HtmlEscape.EscapePlainText | js/app.js:339-348 | text without `&` or special characters passes through unchanged |
| HtmlEscape.ReplaceAllAppend | js/app.js:342 | a global replacement distributes over concatenation |
| ContactForm.TrimIsSlice | js/app.js:290 | the trimmed text is a slice of the input with only whitespace outside it, and starts and ends with a character other than whitespace |
| ContactForm.Trim | js/app.js:290 | `String.prototype.trim`; `ContactForm.TrimIsSlice` characterises it as the slice between the first and last character other than whitespace |
| ContactForm.ValidName | js/app.js:289-295 | `validateName`: the trimmed input is non-empty and has no digit; `ContactForm.ValidNameIff` restates it on the untrimmed input |
| ContactForm.ValidNameIff | js/app.js:289-295 | a name is valid exactly when it has a character other than whitespace and no digit anywhere |
| ContactForm.IndexOf | js/app.js:299 | the index of the first occurrence, or -1 exactly when the character is absent |
| ContactForm.ValidEmail | js/app.js:297-303 | `validateEmail`: the first `@` and the first `.` of the trimmed input stand after index 0; `ContactForm.ValidEmailIff` restates it on the untrimmed input |
| ContactForm.ContainsTrim | js/app.js:298 | trimming keeps every occurrence of a character other than whitespace, so the trimmed text contains it exactly when the input does |
| ContactForm.ValidEmailIff | js/app.js:297-303 | an address is valid exactly when it contains `@` and `.` and its first character other than whitespace is neither |
| ContactForm.Submit | js/app.js:318-330 | all three checks run and each flags its own error; the message is sent exactly when all three pass; the send button ends up disabled exactly when the message was sent or confirmation is missing |
| ServiceWorker.IsStaticPath | sw.js:61 | the path is static exactly when it equals an entry of the static asset list |
| ServiceWorker.RouteOf | sw.js:61-118 | a static path is served cache-first, otherwise the `dummyjson.com` host network-first with write-back, otherwise generic network-first, each as an if-and-only-if |
| ServiceWorker.StaticPathWinsOverApiHost | sw.js:61-75 | a static path on the API host is still served cache-first |
| ServiceWorker.MatchIn | sw.js:63 | a cache match finds a response exactly when some cache holds the request, and then it is the one in the first such cache in creation order |
| ServiceWorker.Fallback | sw.js:89-98 | after a network error: the cached response for the request, else the cached offline page, else nothing; `ServiceWorker.OfflineAnswerIsCached` states it |
| ServiceWorker.Respond | sw.js:57-119 | the answer of each route's strategy: cache first then network for static paths, network first then the fallback otherwise; `ServiceWorker.CacheStorage.HandleFetch` answers with it |
| ServiceWorker.WritesBack | sw.js:80-85 | a response is written back exactly for an API-host request that is not static and whose network response has status 200 |
| ServiceWorker.CacheStorage.HandleFetch | sw.js:57-119 | the handler answers as the strategy of the request's route decides; it stores an API response in `api-v1` only when its status is 200, and otherwise changes no cache |
| ServiceWorker.OfflineAnswerIsCached | sw.js:89-98 | without the network, a network-first answer is a stored entry for the request or for the offline page |
| ServiceWorker.WriteBackServesOffline | sw.js:80-98 | after an API response is written back, the same request is answered even without the network |
| ServiceWorker.Surviving | sw.js:43-47 | the names left are exactly the old names equal to `static-v1` or `api-v1`; `ServiceWorker.SurvivingAppend` states that they keep their order |
| ServiceWorker.SurvivingAppend | sw.js:43-47 | collection works name by name, distributing over concatenation, so survivors keep their order and multiplicity |
| ServiceWorker.SurvivingIdempotent | sw.js:43-47 | running the collection twice equals running it once |
| ServiceWorker.SurvivingExample | sw.js:43-47 | of `static-v1`, `api-v1` and `static-v0`, the first two survive |
| ServiceWorker.KeptStores | sw.js:43-47 | the stores left are exactly those of the kept names |
| ServiceWorker.Without | sw.js:45 | deleting a cache removes exactly that name |
| ServiceWorker.WithoutDistinct | sw.js:45 | deleting a cache keeps the names distinct |
| ServiceWorker.CacheStorage.Delete | sw.js:46 | deleting a cache removes its name from the creation order and its store, and nothing else |
| ServiceWorker.CacheStorage.Activate | sw.js:38-54 | activation leaves exactly the surviving names, in order, and exactly the stores of `static-v1` and `api-v1` |
| ServiceWorker.CacheStorage.Retire | sw.js:44-47 | one pass deletes the name unless it is kept |
| ServiceWorker.AssetEntries | sw.js:27 | the entries added are keyed by the origin's static paths that arrived, only by those, and each holds the response that path brought |
| ServiceWorker.AddAllResponses | sw.js:27 | the paths are checked in order up to the first that fails; success holds exactly when every response has an ok status, and then the entries are those of all paths |
| ServiceWorker.CacheStorage.Install | sw.js:21-35 | `static-v1` is opened; every asset is added when all arrived ok and none otherwise; installation continues either way |
| ServiceWorker.InstalledStores | sw.js:21-35 | the stores after install: `static-v1` exists, and holds the asset entries added to what it held exactly when all assets arrived ok; `ServiceWorker.InstalledAssetsServedOffline` shows the assets are then answered offline |
| ServiceWorker.InstalledAssetsServedOffline | sw.js:21-35 | after a successful install every installed path is held by a cache, so it is answered whatever the network does, and a static asset is answered with the cache's match, the network not consulted |
| ServiceWorker.CacheStorage.Open | sw.js:24 | opening creates the cache when it is missing and changes nothing otherwise |
| ServiceWorker.CacheStorage.Put | sw.js:82-85 | the response is stored in the named cache under the request, and nothing else changes |

## Left out

- DOM rendering (`renderPosts`, `renderUserProfile`, the modal, navigation, event wiring) and status-message, button-label and console text are view glue; only the comment list and the fallbacks feeding a post card are modelled.
- PostList.PostListState.LoadMore: loads are modelled as non-overlapping steps. In the code `loadInitialPosts()` is not awaited and the load-more listener is attached right after it (js/app.js:357-359), and `loadMorePosts` reads `state.postsSkip` before its own `await` (js/app.js:252). A click during the initial load therefore fetches page 0 a second time. If the initial load finishes first, the first 8 posts are appended twice and `postsSkip` ends at 16. If the load-more finishes first, `loadInitialPosts` overwrites `posts` with 8 posts while `postsSkip` ends at 16, and the button stays disabled. The ensures that tie `postsSkip` to the number of posts hold only for non-overlapping loads.
- The concurrency of `Promise.all` in `loadInitialPosts` and the fire-and-forget `cache.put` in the fetch handler are modelled as their combined sequential outcome.
- `fetch`, `res.json()`, the `caches` API, `clients` and `skipWaiting` are modelled as inputs and as the cache-storage class, not as the platform.
- Push and notification-click handlers and the unused `CACHE_NAME` constant have no logic to verify.
- JSON values the types cannot hold: a `total` of `null` or `NaN`, non-numeric or negative ids, limits and skips, and a comment without `body`, which `escapeHtml` would render as the empty string.
- Requests are modelled as GET requests, the only kind the site sends; the platform's refusal to `cache.put` a non-GET request and `caches.match` skipping non-GET entries are not modelled.
- Api.NatToDecimal: JavaScript numbers are doubles, exact only up to 2^53 and written in exponent form ("1e+21") from 10^21 on; the model renders every natural number as plain digits.
- PostList.ShownReactions: numbers are integers, so a fractional or `NaN` reactions value is not represented; an array is an object without `likes`, and what the card prints for an object (its string conversion) is left to the view.
- Api.FetchAll: termination is proved only for a source that lets the loop stop within a given number of requests; a source whose `total` is never reached keeps the loop running, as it does in the source, and that run is not modelled.
- PostList.PostListState.LoadInitial: the users and comments arrive as the outcomes of the aggregation loops, not by calling them, and the load-more button is assumed present.
- User profile fields other than id and username, and post fields other than those a card shows, are left out.
- Filtering, tag search, theme persistence and the post-detail page do not exist in the code.
