# micro-feed feed core, modelled in Dafny

micro-feed is a small social feed. Signed-in users post short texts of at
most 280 characters, read a newest-first feed ten posts at a time, search
it, narrow it to their own posts, and like posts. Edits, deletions and
likes by anyone show up live. This project models the part of the
repository with real logic in it:

- the page-cursor codec (Base64 over the bytes of a `created_at` timestamp);
- the request schemas for post content and the feed filter;
- the `GET` and `POST` handlers of `/api/posts`: the page read from the
  database, the over-fetch by one row, `hasMore`, `nextCursor`, the
  per-viewer `isLiked` and like count, and the 401 / 400 / 201 decision;
- the client feed state of `usePosts`: how pages merge, the `loadMore`
  guard, and the reducers for realtime `posts` and `likes` events;
- the optimistic like toggle of `useLike`, with its rollback;
- the list callbacks and profile bootstrap of the feed page;
- the guards of the composer and of the post card.

Each operation is a pure function over immutable data. Lemmas relate the
operations to each other, and to the database and network answers, which
are parameters. Modules follow the source files:

| module | file | models |
|---|---|---|
| `Wrappers` | wrappers.dfy | `Option` and `Result` |
| `Text` | text.dfy | the JavaScript string operations used: `trim`, `startsWith`, `includes`, ASCII `toLowerCase`, `split(sep)[0]`, and the order of timestamp text |
| `Base64` | base64.dfy | Base64 as `Buffer` writes and reads it |
| `Pagination` | pagination.dfy | `lib/pagination.ts` |
| `Validators` | validators.dfy | `lib/validators.ts` |
| `Posts` | posts.dfy | the client's post record and the two list shapes every reducer uses |
| `FeedRoute` | feed_route.dfy | `app/api/posts/route.ts` |
| `FeedPaging` | feed_paging.dfy | what following `nextCursor` from page to page shows |
| `FeedStore` | feed_store.dfy | `hooks/use-posts.ts` |
| `HomePage` | home_page.dfy | the callbacks and profile bootstrap of `app/page.tsx` |
| `LikeToggle` | like_toggle.dfy | `hooks/use-like.ts` |
| `Composer` | composer.dfy | `components/composer.tsx` |
| `PostCard` | post_card.dfy | `components/post-card.tsx` |

The page size is the constant `Pagination.PostsPerPage`, which is 10
(lib/pagination.ts:1). The content limit is `Validators.MaxContentLength`,
which is 280.

### Behaviour worth knowing

- The content schema checks `min(1)` and `max(280)` before `.trim()`.
  Three spaces are therefore accepted and stored as an empty post
  (`Validators.WhitespaceOnlyAccepted`).
- `decodeCursor` never fails: Node's Base64 reader looks only at the low
  byte of each UTF-16 code unit, stops at the first one read as `=`, and
  skips what it cannot read. So `Ł` (U+0141) counts as `A`
  (`Base64.DecodeReadsLowBytes`). The decoded text goes into `.lt('created_at', …)` unchecked, so a
  cursor that does not decode to a timestamp makes the database reject the
  query and the handler answer 500 (`FeedRoute.HandleGet`,
  `FeedRoute.GarbageCursorFails`).
- With `filter=mine` and no signed-in viewer, the handler applies no
  author restriction at all (`FeedRoute.MineWithoutUserIsUnrestricted`).
- Following `nextCursor` visits every post once when no two posts share a
  `created_at` (`FeedPaging.CrawlShowsEveryPostOnce`). Rows tied with the
  last row of a page are skipped: the next page asks for rows strictly
  older (`FeedPaging.TiedRowAtPageBreakIsNeverShown`).
- `toggleLike` rolls back only on a response that is not ok; a thrown
  `fetch` keeps the optimistic state
  (`LikeToggle.ThrownToggleKeepsOptimistic`). Its optimistic unlike is not
  clamped at zero (`LikeToggle.UnlikeOfZeroShowsMinusOne`). The realtime
  reducers do clamp.
- The liker's own screen counts a like twice: once optimistically, and
  once more when the realtime INSERT arrives
  (`LikeToggle.OwnLikeCountedTwice`).

## Model

| member | source | states |
|---|---|---|
| Base64.Encode | lib/pagination.ts:3-5 | A cursor is 4·⌈n/3⌉ characters of the RFC 4648 section 4 alphabet, with `=` only as trailing padding |
| Base64.Decode | lib/pagination.ts:7-9 | Base64 reading is total, with no error path; it never yields more bytes than the text's `length` in UTF-16 code units, nor more than its characters when all lie in the Basic Multilingual Plane |
| Base64.DecodeReadsLowBytes | lib/pagination.ts:7-9 | The reader looks only at the low byte of each code unit: texts whose characters agree on their low bytes decode to the same bytes, so `Ł` reads as `A` |
| Base64.RoundTrip | lib/pagination.ts:3-9 | Reading back what was written gives the original bytes, for every byte sequence |
| Base64.EncodeInjective | lib/pagination.ts:3-5 | Distinct byte sequences never share an encoding |
| Base64.BytesOfSextets | lib/pagination.ts:3-9 | Turning bytes into 6-bit groups and back is the identity, tails included |
| Base64.ScanWritten | lib/pagination.ts:7-9 | The reader stops at padding and recovers the value of every written character |
| Pagination.EncodeCursor | lib/pagination.ts:3-5 | An ASCII timestamp of n characters gives a cursor of 4·⌈n/3⌉ alphabet-or-`=` characters; only the empty timestamp gives an empty cursor |
| Pagination.DecodeCursor | lib/pagination.ts:7-9 | Every text decodes to some text of ASCII characters and U+FFFD, never longer than the cursor's `length` |
| Pagination.CursorRoundTrip | lib/pagination.ts:3-9 | Decoding the cursor of an ASCII timestamp gives back the timestamp |
| Pagination.CursorInjective | lib/pagination.ts:3-5 | Distinct ASCII timestamps have distinct cursors |
| Validators.ParseCreatePost | lib/validators.ts:3-8 | A body that is not an object, or has no string `content`, fails with a type issue; accepted content has no whitespace at either end |
| Validators.ContentRule | lib/validators.ts:3-8 | Content is accepted exactly when its untrimmed length is 1 to 280, and then comes back trimmed. Too short fails with the "required" message alone, too long with the "280 characters" message alone |
| Validators.ParseUpdatePost | lib/validators.ts:10-15 | The update schema decides every body exactly as the create schema does |
| Validators.WhitespaceOnlyAccepted | lib/validators.ts:5-7 | Whitespace-only content of length 1 to 280 is accepted and becomes the empty string |
| Validators.AcceptedContentIsTrimmed | lib/validators.ts:7 | Accepted content is trimmed, trimming it again changes nothing, and it is at most 280 long |
| Validators.NormalizeFilter | lib/validators.ts:20-23 | The filter is `mine` exactly for the value `'mine'`; everything else, absent included, is `all` |
| Validators.NormalizeFilterIdempotent | lib/validators.ts:20-23 | Normalising a normalised filter changes nothing |
| Text.CodeUnits | lib/pagination.ts:8 | A character below U+10000 is one code unit, itself; any other is a surrogate pair that encodes it |
| Text.Utf16 | lib/pagination.ts:8 | The code units JavaScript holds for a text: at least one and at most two per character, each below 65536, and the characters themselves when all lie in the Basic Multilingual Plane |
| Text.TrimIdempotent | lib/validators.ts:7 | Trimming twice is trimming once |
| Text.TrimIsTrimmed | lib/validators.ts:7 | Neither end of a trimmed string is whitespace |
| Text.TrimEmptyIffAllWhitespace | components/composer.tsx:18 | `trim` gives the empty string exactly for all-whitespace input |
| Text.TrimDecomposes | lib/validators.ts:7 | The input is whitespace, then the trimmed text, then whitespace |
| Text.ContainsIffOccurs | hooks/use-posts.ts:87 | `includes` holds exactly when the needle occurs at some position |
| Text.BeforeFirst | app/page.tsx:43 | `split('@')[0]` is the longest prefix without `@`; it ends at the first `@` or at the end |
| Text.LessTransitive | app/api/posts/route.ts:79 | The order of timestamps is transitive |
| Text.LessIrreflexive | app/api/posts/route.ts:79 | No timestamp is before itself |
| Text.LessTotal | app/api/posts/route.ts:63 | Any two timestamps are ordered one way or the other, or are equal |
| Posts.RemoveId | app/page.tsx:110 | Removing an id leaves exactly the posts with other ids, in their original order |
| Posts.RemoveIdIdempotent | app/page.tsx:110 | Removing an id twice is removing it once |
| Posts.RemoveAbsentId | app/page.tsx:110 | Removing an id no post has changes nothing |
| Posts.RemoveIdKeepsOthers | app/page.tsx:110 | Every post with another id survives removal |
| Posts.UpdateWhere | hooks/use-posts.ts:98-102 | A per-id map changes the posts with that id and leaves every other post as it was, in place |
| FeedRoute.AuthSourceOf | app/api/posts/route.ts:18-19 | A header is a bearer token exactly when it starts with `Bearer `, and the token is the rest; otherwise, absent included, the cookie session is used |
| FeedRoute.RouteFilter | app/api/posts/route.ts:49-54 | The handler's filter equals the schema's normalised filter |
| FeedRoute.SearchText | app/api/posts/route.ts:47 | The search text is empty exactly when the parameter is absent or empty |
| FeedRoute.Bound | app/api/posts/route.ts:76-80 | A time bound applies exactly when the cursor parameter is non-empty |
| FeedRoute.ScopeOf | app/api/posts/route.ts:67-74 | The author restriction applies exactly for `mine` with a signed-in user, and then to that user |
| FeedRoute.Select | app/api/posts/route.ts:56-80 | The query returns exactly the rows that match the search, the author and the strict bound |
| FeedRoute.SelectIsOrderedFilter | app/api/posts/route.ts:63-80 | The query keeps the database's newest-first order and returns each matching row as often as the table holds it |
| FeedRoute.Take | app/api/posts/route.ts:64 | `limit(n)` returns the first min(n, length) rows |
| FeedRoute.Fetch | app/api/posts/route.ts:63-64 | At most 11 rows are read: the first 11 matches, or all of them if fewer |
| FeedRoute.ToPost | app/api/posts/route.ts:92-98 | `isLiked` holds exactly when a viewer exists and has a like on the row; the count is the number of likes |
| FeedRoute.FeedPage | app/api/posts/route.ts:88-102 | `hasMore` holds exactly when 11 rows came back. The page is the fetched prefix without the extra row, at most 10 posts. `nextCursor` exists exactly with `hasMore` and encodes the last post's `created_at` |
| FeedRoute.HandleGet | app/api/posts/route.ts:76-111 | `GET` answers 200 or 500. It answers 500 exactly when the query fails or the decoded cursor is not text the database reads as a timestamp; otherwise it answers the page for the caller's identity |
| FeedRoute.GarbageCursorFails | app/api/posts/route.ts:76-86 | A cursor such as `!!` decodes to empty text, which the database rejects as a timestamp, so the request answers 500 |
| FeedRoute.HandlePost | app/api/posts/route.ts:154-199 | 401 exactly without a user, before the body is read. 400 with the schema's issues exactly for a rejected body. 500 exactly for a signed-in caller whose body is not JSON or whose accepted post fails to insert. Never 200. 201 exactly when the body is accepted and the insert succeeds; the post then carries the trimmed content and the caller as author, is not liked and has no likes |
| FeedRoute.MineWithoutUserIsUnrestricted | app/api/posts/route.ts:72-74 | A `mine` request without a user reads the same page as an `all` request |
| FeedRoute.MineWithUserShowsOwnPosts | app/api/posts/route.ts:72-74 | A `mine` request with a user shows only that user's posts |
| FeedRoute.SameScopeSamePage | app/api/posts/route.ts:56-80 | The page depends on the parameters only through the search, the author restriction and the bound |
| FeedPaging.SelectWithBound | app/api/posts/route.ts:77-80 | The cursor bound is the same as keeping only the strictly older rows of the unbounded result |
| FeedPaging.CrawlShowsEveryPostOnce | app/api/posts/route.ts:77-102 | With distinct timestamps, following `nextCursor` from the first page shows every visible post exactly once, newest first |
| FeedPaging.CrawlFrom | app/api/posts/route.ts:88-102 | From the cursor of row k, following cursors collects exactly the rows from k on |
| FeedPaging.CrawlStaysOlder | app/api/posts/route.ts:77-80 | Everything reached from the cursor of a timestamp is strictly older than it |
| FeedPaging.TiedRowAtPageBreakIsNeverShown | app/api/posts/route.ts:77-102 | A row sharing the last timestamp of the first page, just after the page break, is never shown by following cursors |
| FeedPaging.OlderIsSuffix | app/api/posts/route.ts:77-80 | On strictly ordered rows, the rows older than row k−1 are exactly those after it |
| FeedStore.RequestParams | hooks/use-posts.ts:24-27 | The hook's query reaches the handler as its search text, its filter as the handler's filter, and a non-empty cursor as the bound |
| FeedStore.ErrorMessage | hooks/use-posts.ts:43-53 | A response that is not ok reads "Failed to fetch posts"; a thrown error keeps its message, and anything else reads "An error occurred" |
| FeedStore.FetchStart | hooks/use-posts.ts:21-22 | A fetch starts loading and clears the error, touching nothing else |
| FeedStore.FetchEnd | hooks/use-posts.ts:43-56 | A page replaces the list on reset and is appended otherwise, and sets `hasMore` and `nextCursor`. A failure records its message and keeps the list and the paging state. Loading ends either way |
| FeedStore.FetchPosts | hooks/use-posts.ts:19-57 | After a fetch nothing is loading; the error is clear exactly when a page arrived; an appended page keeps the earlier posts as a prefix; a page sets `hasMore` and `nextCursor` to its own, a failure keeps them |
| FeedStore.RefreshForgetsList | hooks/use-posts.ts:49 | A loaded refresh does not depend on the list before it |
| FeedStore.FailureIsForgotten | hooks/use-posts.ts:43-54 | A failed fetch followed by a loaded one is the loaded one alone |
| FeedStore.LoadMoreRequest | hooks/use-posts.ts:59-63 | `loadMore` fetches exactly when more exist, a cursor is known and nothing is loading, and then with that cursor |
| FeedStore.LoadMore | hooks/use-posts.ts:59-63 | `loadMore` either does nothing or appends the next page |
| FeedStore.LoadMoreWhileLoadingIsNoOp | hooks/use-posts.ts:59-63 | While a fetch is in flight, `loadMore` does nothing |
| FeedStore.LoadMoreAfterLastPageIsNoOp | hooks/use-posts.ts:50-63 | After a page without more, `loadMore` does nothing |
| FeedStore.ShouldRefresh | hooks/use-posts.ts:84-87 | An inserted post triggers a refresh exactly when the filter admits its author, and the query is empty or occurs in the lower-cased content |
| FeedStore.OnPostInserted | hooks/use-posts.ts:80-91 | An insert event either leaves the state alone or refetches from the top; it never splices the row in |
| FeedStore.MineWithoutViewerNeverRefreshes | hooks/use-posts.ts:85 | In `mine` a signed-out viewer never refreshes on an insert |
| FeedStore.MatchingQueryRefreshes | hooks/use-posts.ts:87 | A query occurring in the content, ignoring ASCII case, passes the query test |
| FeedStore.OnPostUpdated | hooks/use-posts.ts:98-102 | An update event sets only the content and `updated_at` of posts with the id; every other post and field, order and length stay |
| FeedStore.LastUpdateWins | hooks/use-posts.ts:98-102 | No timestamp is compared: the last update delivered wins, even an older one |
| FeedStore.OnPostDeleted | hooks/use-posts.ts:110 | A delete event removes exactly the posts with the id, as many as there were, and keeps the rest in order |
| FeedStore.CountAfterUnlike | hooks/use-posts.ts:152 | An unlike leaves a count one lower, never below zero; a missing or zero count ends at zero |
| FeedStore.OnLikeInserted | hooks/use-posts.ts:125-136 | A like event adds one to the matching posts' count, a missing count read as zero. Only the viewer's own like sets `isLiked`; nothing else changes |
| FeedStore.OnLikeDeleted | hooks/use-posts.ts:146-157 | An unlike event lowers the matching posts' count without going negative. Only the viewer's own unlike clears `isLiked`; nothing else changes |
| FeedStore.LikeEventsKeepCountsNonNegative | hooks/use-posts.ts:125-157 | Both like reducers keep every count non-negative |
| FeedStore.LikeThenUnlikeRestores | hooks/use-posts.ts:125-157 | A like event followed by its unlike event restores the list, for present non-negative counts |
| FeedStore.LoadAllFollowsCrawl | hooks/use-posts.ts:59-63 | From a settled state whose cursor is non-empty whenever more exist, repeated `loadMore` appends what the server returns by following that cursor |
| FeedStore.ClientFollowsCrawl | hooks/use-posts.ts:59-71 | Mounting the hook and calling `loadMore` until it stops lists exactly what following the server's cursors lists |
| FeedStore.ClientShowsEveryPostOnce | hooks/use-posts.ts:59-71 | With distinct timestamps, mounting the hook and calling `loadMore` until it stops lists every visible post once, newest first |
| FeedStore.NextCursorTruthy | app/api/posts/route.ts:100-102 | With `hasMore`, the cursor handed out is non-empty, so `loadMore` uses it |
| HomePage.HandlePostCreated | app/page.tsx:97-101 | A created post goes first and the old list follows unchanged, whatever the filter or query |
| HomePage.HandlePostUpdated | app/page.tsx:103-107 | Posts with the id are replaced wholesale by the server's post; the others stay, in place |
| HomePage.HandlePostDeleted | app/page.tsx:109-111 | Posts with the id are removed; the rest keep their order |
| HomePage.HandleLikeToggled | app/page.tsx:113-119 | Only the like state and count of posts with the id change |
| HomePage.CreateThenDeleteRestores | app/page.tsx:97-111 | Creating a post with a new id and deleting it restores the list |
| HomePage.PostUpdatedIdempotent | app/page.tsx:103-107 | Applying the same server post twice is applying it once |
| HomePage.LastLikeToggleWins | app/page.tsx:113-119 | The last like state set for an id is the one that stays |
| HomePage.ProfileUsername | app/page.tsx:43 | The username is the metadata name, else the e-mail text before `@`, else `user`, with an empty candidate counting as absent. It is never empty |
| HomePage.UsernameFromEmail | app/page.tsx:43 | Without a metadata name, `local@domain` gives `local` |
| HomePage.LoadProfile | app/page.tsx:41-52 | A profile is created exactly when the lookup fails with `PGRST116`, under the fallback name; otherwise the lookup's answer is kept |
| HomePage.OtherErrorCreatesNothing | app/page.tsx:41-52 | A lookup failing with another code creates nothing and leaves no profile |
| LikeToggle.Optimistic | hooks/use-like.ts:14-22 | The optimistic state flips the like and moves the count by one toward the new state, a missing count read as zero |
| LikeToggle.Previous | hooks/use-like.ts:44 | The rollback writes back the like state and count read before the toggle |
| LikeToggle.RequestMethod | hooks/use-like.ts:37 | The request is DELETE exactly when the post was liked |
| LikeToggle.ToggleLike | hooks/use-like.ts:14-54 | The optimistic update always happens, and the rollback exactly after a response that is not ok. The call returns true exactly after an ok response, and `loading` ends cleared on every path |
| LikeToggle.RejectedToggleRestores | hooks/use-like.ts:42-45 | After a response that is not ok, the list is exactly as before the toggle (for a present count) |
| LikeToggle.ThrownToggleKeepsOptimistic | hooks/use-like.ts:24-51 | A thrown request leaves the same list as a successful one, and returns false |
| LikeToggle.ThrownToggleShowsFlipped | hooks/use-like.ts:18-22 | After a throw the post shows the flipped like state and the moved count |
| LikeToggle.UnlikeOfZeroShowsMinusOne | hooks/use-like.ts:21 | Unliking a liked post that shows no likes shows −1 |
| LikeToggle.OwnLikeCountedTwice | hooks/use-like.ts:21 | An optimistic like followed by the realtime INSERT of the same like shows the count raised by two |
| Composer.RemainingChars | components/composer.tsx:27 | The counter and the length add up to 280; it is non-negative exactly for text within the limit |
| Composer.HandleSubmit | components/composer.tsx:15-25 | Blank text sends nothing. Otherwise the trimmed text is sent, and only a returned post clears the box and reaches the page |
| Composer.DisabledIffNothingSent | components/composer.tsx:127 | For text within the limit and nothing in flight, the button is disabled exactly when a submit would send nothing |
| Composer.EnabledSubmitIsAccepted | components/composer.tsx:127 | What an enabled submit sends is trimmed, 1 to 280 long, and accepted unchanged by the create schema |
| Composer.EnabledSubmitNeverRejected | components/composer.tsx:127 | An enabled submit never gets a 400. A signed-in author whose insert succeeds gets 201 with exactly the sent, non-empty text |
| Composer.LongTextPassesGuardButIsRejected | components/composer.tsx:18-20 | The `handleSubmit` guard on its own lets text over the limit through, and the schema then rejects it as too long. Typing cannot reach this: the textarea's `maxLength` (line 48) and the disabled button (line 127) stop it first |
| PostCard.IsOwner | components/post-card.tsx:28 | The viewer owns the post exactly when signed in as its author |
| PostCard.RealtimeUpdateMarksEdited | components/post-card.tsx:86 | An update carrying an `updated_at` other than `created_at` makes the post show as edited |
| PostCard.InitialCard | components/post-card.tsx:23-24 | A card starts closed, with the post's text as the draft |
| PostCard.ToggleEditing | components/post-card.tsx:102 | The Edit entry opens a closed box and closes an open one, keeping the draft |
| PostCard.Cancel | components/post-card.tsx:139-143 | Cancel closes the box and restores the post's text |
| PostCard.CancelDiscardsDraft | components/post-card.tsx:139-143 | Whatever was typed, cancelling returns the card to its first state |
| PostCard.SaveDisabledLikeSubmit | components/post-card.tsx:151 | Save is disabled under exactly the composer's submit conditions |
| PostCard.EnabledSaveIsAccepted | components/post-card.tsx:151 | What an enabled save sends is non-blank and accepted unchanged by the update schema |
| PostCard.HandleEdit | components/post-card.tsx:31-39 | A blank draft sends nothing. Otherwise the trimmed draft is sent, and only a returned post reaches the page and closes the box |
| PostCard.EditSendsLikeSubmit | components/post-card.tsx:32-34 | A save sends what the composer would send for the same text |
| PostCard.HandleDelete | components/post-card.tsx:41-48 | A request is made exactly when confirmed; the page hears of it exactly when confirmed and successful, with the post's id |

## Left out

- I/O of every kind is a parameter, not modelled. This covers the
  identity provider, the database, `fetch`, the realtime channels and the
  browser's confirm dialog. The network answer of each call is an input
  (`FetchOutcome`, `Outcome`, `Insert`, `Lookup`, the result of the create,
  update and delete calls), and the identity is a function from where the
  credentials come from to a user id.
- Concurrency: every handler is one sequential transition. Interleavings
  of async callbacks, stale responses and channel lifecycles are not
  modelled.
- FeedRoute.HandleGet: which text the database reads as a timestamp is
  the parameter `readsAsTimestamp`; Postgres's timestamp parser is not
  modelled.
- FeedRoute.Select: the search is an abstract predicate `ilike`. `%` and
  `_` in the query are LIKE wildcards, so it is not claimed to match the
  client's literal substring test.
- Text.Less: timestamps are compared as text, in lexicographic character
  order. This stands in for the database's `timestamptz` comparison, which
  agrees with it on same-format ISO-8601 text.
- Pagination.DecodeCursor: bytes are turned into text exactly only for
  ASCII, which is what timestamps are. Other bytes become U+FFFD one by
  one, where Node decodes valid UTF-8 sequences.
- Text.Lower: only ASCII letters are lower-cased; other characters are
  left as they are.
- Validators.ContentRule: lengths are counted in Unicode scalar values.
  JavaScript counts UTF-16 code units, so characters outside the Basic
  Multilingual Plane count once here and twice in the source. The same
  holds for the length tests of `Composer` and `PostCard`.
- FeedRoute.HandlePost: the raw `likes` array and the `profiles` object
  that the JSON also carries are not part of the modelled post.
- FeedPaging.CrawlShowsEveryPostOnce: cursors are followed for at most
  as many pages as there are rows, which is always enough.
- The PATCH and DELETE handlers of `/api/posts/[id]` and the like
  endpoints are not part of this model. Their answers are inputs to the
  post card and the like toggle.
- The sign-in and sign-up form, the auth-state subscription and the
  connection-status indicator: identity-provider I/O.
- Presentation is not modelled: sidebars, toolbar, search bar, locale
  date formatting, and the composer's SVG progress arc (floating point).
- `searchPostsSchema` defines `query` and `cursor` as optional strings.
  The handler never calls it and reads the raw parameters; only its
  filter transform is modelled.
