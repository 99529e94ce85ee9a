/**
 * The feed state the client keeps (`usePosts`): the fetched list and its
 * paging state, how a fetched page is merged into it, when `loadMore` asks
 * for the next page, and the reducers the realtime `posts` and `likes`
 * events apply. Each handler is one sequential transition; the network
 * answer of a fetch is a parameter.
 */
module FeedStore {
  import opened Wrappers
  import opened Text
  import opened Posts
  import opened Validators
  import opened FeedRoute
  import opened FeedPaging
  import Pagination

  /** The hook's state. `loading` starts true: the first fetch is issued on mount. */
  datatype State = State(
    posts: seq<Post>,
    loading: bool,
    error: Option<string>,
    hasMore: bool,
    nextCursor: Option<string>)

  const Initial: State := State([], true, None, false, None)

  const FetchFailedMessage: string := "Failed to fetch posts"
  const UnknownErrorMessage: string := "An error occurred"

  /**
   * How a fetch of `/api/posts` ends: a page, a response that is not ok, or
   * a thrown value (an `Error` with its message, or anything else).
   */
  datatype FetchOutcome = Loaded(page: Page) | NotOk | Threw(message: Option<string>)

  /** The search parameters the hook sends: `query` and `cursor` only when non-empty, `filter` always. */
  function RequestParams(query: string, filter: FeedFilter, cursor: Option<string>): (p: Params)
    ensures SearchText(p) == query
    ensures RouteFilter(p) == filter
    ensures Bound(p).Some? <==> Truthy(cursor)
    ensures p.cursor == if Truthy(cursor) then cursor else None
  {
    Params(if query != "" then Some(query) else None,
           if Truthy(cursor) then cursor else None,
           Some(FilterName(filter)))
  }

  /** The message a failed fetch leaves in `error`. */
  function ErrorMessage(o: FetchOutcome): (m: string)
    requires !o.Loaded?
    ensures o.NotOk? ==> m == FetchFailedMessage
    ensures o.Threw? && o.message.None? ==> m == UnknownErrorMessage
    ensures o.Threw? && o.message.Some? ==> m == o.message.value
  {
    match o
    case NotOk => FetchFailedMessage
    case Threw(msg) => msg.GetOr(UnknownErrorMessage)
  }

  /** The start of `fetchPosts`: loading, and the previous error cleared. */
  function FetchStart(s: State): (r: State)
    ensures r.loading && r.error.None?
    ensures r.posts == s.posts && r.hasMore == s.hasMore && r.nextCursor == s.nextCursor
  {
    s.(loading := true, error := None)
  }

  /**
   * The end of `fetchPosts`: a page replaces the list on `reset` and is
   * appended to it otherwise, and sets the paging state; a failure records
   * its message and keeps the list and the paging state. Loading ends
   * either way.
   */
  function FetchEnd(s: State, reset: bool, o: FetchOutcome): (r: State)
    ensures !r.loading
    ensures o.Loaded? ==>
      && r.posts == (if reset then o.page.posts else s.posts + o.page.posts)
      && r.hasMore == o.page.hasMore && r.nextCursor == o.page.nextCursor
      && r.error == s.error
    ensures !o.Loaded? ==>
      && r.posts == s.posts && r.hasMore == s.hasMore && r.nextCursor == s.nextCursor
      && r.error == Some(ErrorMessage(o))
  {
    match o
    case Loaded(page) =>
      State(if reset then page.posts else s.posts + page.posts, false, s.error, page.hasMore, page.nextCursor)
    case _ =>
      s.(loading := false, error := Some(ErrorMessage(o)))
  }

  /** `fetchPosts(cursor, reset)` as one transition. */
  function FetchPosts(s: State, reset: bool, o: FetchOutcome): (r: State)
    ensures !r.loading
    ensures o.Loaded? <==> r.error.None?
    ensures o.Loaded? && !reset ==> |r.posts| == |s.posts| + |o.page.posts| && r.posts[..|s.posts|] == s.posts
    ensures o.Loaded? ==> r.hasMore == o.page.hasMore && r.nextCursor == o.page.nextCursor
    ensures !o.Loaded? ==> r.hasMore == s.hasMore && r.nextCursor == s.nextCursor
  {
    FetchEnd(FetchStart(s), reset, o)
  }

  /** A refresh drops whatever was listed before: the result depends only on the answer. */
  lemma RefreshForgetsList(s: State, t: State, o: FetchOutcome)
    requires o.Loaded?
    ensures FetchPosts(s, true, o) == FetchPosts(t, true, o)
  {
  }

  /** A failed fetch leaves nothing behind that a later successful fetch would see. */
  lemma FailureIsForgotten(s: State, reset: bool, failed: FetchOutcome, reset': bool, o: FetchOutcome)
    requires !failed.Loaded? && o.Loaded?
    ensures FetchPosts(FetchPosts(s, reset, failed), reset', o) == FetchPosts(s, reset', o)
  {
  }

  /** The cursor `loadMore` fetches with: only when more exist, a cursor is known, and no fetch is in flight. */
  function LoadMoreRequest(s: State): (c: Option<string>)
    ensures c.Some? <==> s.hasMore && Truthy(s.nextCursor) && !s.loading
    ensures c.Some? ==> c == s.nextCursor
  {
    if s.hasMore && Truthy(s.nextCursor) && !s.loading then s.nextCursor else None
  }

  /** `loadMore`: append the next page, or do nothing. */
  function LoadMore(s: State, o: FetchOutcome): (r: State)
    ensures LoadMoreRequest(s).None? ==> r == s
    ensures LoadMoreRequest(s).Some? ==> r == FetchPosts(s, false, o)
  {
    if LoadMoreRequest(s).Some? then FetchPosts(s, false, o) else s
  }

  /** While a fetch is in flight `loadMore` does nothing, so one page is never requested twice at once. */
  lemma LoadMoreWhileLoadingIsNoOp(s: State, o: FetchOutcome)
    ensures LoadMore(FetchStart(s), o) == FetchStart(s)
  {
  }

  /** After the last page arrives, `loadMore` does nothing. */
  lemma LoadMoreAfterLastPageIsNoOp(s: State, reset: bool, page: Page, o: FetchOutcome)
    requires !page.hasMore
    ensures var t := FetchPosts(s, reset, Loaded(page)); LoadMore(t, o) == t
  {
  }

  /**
   * Whether a realtime `posts` INSERT makes the hook refresh: the filter
   * admits the author, and the query is empty or occurs in the content,
   * both lower-cased. Nothing else is consulted; the new row is never spliced
   * in locally.
   */
  function ShouldRefresh(filter: FeedFilter, query: string, viewer: Option<string>,
                         authorId: string, content: string): (b: bool)
    ensures b ==> filter == All || viewer == Some(authorId)
    ensures b <==>
      && (filter == All || viewer == Some(authorId))
      && (query == "" || exists i: nat :: OccursAt(Lower(content), Lower(query), i))
  {
    ContainsIffOccurs(Lower(content), Lower(query));
    (filter == All || (filter == Mine && viewer == Some(authorId)))
    && (query == "" || Contains(Lower(content), Lower(query)))
  }

  /** A realtime `posts` INSERT: either nothing happens or the list is fetched again from the top. */
  function OnPostInserted(s: State, filter: FeedFilter, query: string, viewer: Option<string>,
                          authorId: string, content: string, o: FetchOutcome): (r: State)
    ensures !ShouldRefresh(filter, query, viewer, authorId, content) ==> r == s
    ensures ShouldRefresh(filter, query, viewer, authorId, content) ==> r == FetchPosts(s, true, o)
  {
    if ShouldRefresh(filter, query, viewer, authorId, content) then FetchPosts(s, true, o) else s
  }

  /** In `'mine'` a signed-out viewer never refreshes on an insert. */
  lemma MineWithoutViewerNeverRefreshes(query: string, authorId: string, content: string)
    ensures !ShouldRefresh(Mine, query, None, authorId, content)
  {
  }

  /** A query that occurs in the content, ignoring ASCII case, lets the insert through the query test. */
  lemma MatchingQueryRefreshes(filter: FeedFilter, query: string, viewer: Option<string>,
                               authorId: string, content: string, i: nat)
    requires filter == All || viewer == Some(authorId)
    requires OccursAt(Lower(content), Lower(query), i)
    ensures ShouldRefresh(filter, query, viewer, authorId, content)
  {
  }

  /**
   * A realtime `posts` UPDATE: every entry with the id takes the new content
   * and `updated_at`; nothing else changes, and no timestamp is compared.
   */
  function OnPostUpdated(posts: seq<Post>, id: string, content: string, updatedAt: string): (r: seq<Post>)
    ensures |r| == |posts|
    ensures forall i :: 0 <= i < |posts| ==> r[i].id == posts[i].id
    ensures forall i :: 0 <= i < |posts| && posts[i].id != id ==> r[i] == posts[i]
    ensures forall i :: 0 <= i < |posts| && posts[i].id == id ==>
              && r[i].content == content && r[i].updatedAt == updatedAt
              && r[i].(content := posts[i].content, updatedAt := posts[i].updatedAt) == posts[i]
  {
    UpdateWhere(posts, id, (p: Post) => p.(content := content, updatedAt := updatedAt))
  }

  /** The last UPDATE delivered wins, even when it carries an older `updated_at`. */
  lemma LastUpdateWins(posts: seq<Post>, id: string, c1: string, t1: string, c2: string, t2: string)
    ensures OnPostUpdated(OnPostUpdated(posts, id, c1, t1), id, c2, t2) == OnPostUpdated(posts, id, c2, t2)
  {
  }

  /** A realtime `posts` DELETE: exactly the entries with the id go, the rest keep their order. */
  function OnPostDeleted(posts: seq<Post>, id: string): (r: seq<Post>)
    ensures forall i :: 0 <= i < |r| ==> r[i].id != id
    ensures IsSubsequence(r, posts)
    ensures |r| == |posts| - CountId(posts, id)
    ensures forall x :: x in posts && x.id != id ==> x in r
  {
    forall x | x in posts && x.id != id
      ensures x in RemoveId(posts, id)
    {
      RemoveIdKeepsOthers(posts, id, x);
    }
    RemoveId(posts, id)
  }

  /** The count a like DELETE leaves: one less, never below zero, with a missing or zero count read as one. */
  function CountAfterUnlike(count: Option<int>): (n: int)
    ensures n >= 0
    ensures count.Some? && count.value >= 1 ==> n == count.value - 1
    ensures count.None? || count.value <= 1 ==> n == 0
  {
    var before := if count.None? || count.value == 0 then 1 else count.value;
    if before - 1 < 0 then 0 else before - 1
  }

  /**
   * A realtime `likes` INSERT: the count of every entry with the post id
   * goes up by one (a missing count read as zero), and `isLiked` becomes
   * true when the like is the viewer's own and is otherwise kept.
   */
  function OnLikeInserted(posts: seq<Post>, postId: string, userId: string, viewer: Option<string>): (r: seq<Post>)
    ensures |r| == |posts|
    ensures forall i :: 0 <= i < |posts| && posts[i].id != postId ==> r[i] == posts[i]
    ensures forall i :: 0 <= i < |posts| && posts[i].id == postId ==>
              && r[i].likeCount == Some(CountOrZero(posts[i]) + 1)
              && (r[i].isLiked <==> posts[i].isLiked || viewer == Some(userId))
              && r[i].(isLiked := posts[i].isLiked, likeCount := posts[i].likeCount) == posts[i]
  {
    UpdateWhere(posts, postId,
      (p: Post) => p.(isLiked := if viewer == Some(userId) then true else p.isLiked, likeCount := Some(CountOrZero(p) + 1)))
  }

  /**
   * A realtime `likes` DELETE: the count of every entry with the post id
   * goes down by one without going negative, and `isLiked` becomes false
   * when the like was the viewer's own and is otherwise kept.
   */
  function OnLikeDeleted(posts: seq<Post>, postId: string, userId: string, viewer: Option<string>): (r: seq<Post>)
    ensures |r| == |posts|
    ensures forall i :: 0 <= i < |posts| && posts[i].id != postId ==> r[i] == posts[i]
    ensures forall i :: 0 <= i < |posts| && posts[i].id == postId ==>
              && r[i].likeCount == Some(CountAfterUnlike(posts[i].likeCount))
              && (r[i].isLiked <==> posts[i].isLiked && viewer != Some(userId))
              && r[i].(isLiked := posts[i].isLiked, likeCount := posts[i].likeCount) == posts[i]
  {
    UpdateWhere(posts, postId,
      (p: Post) => p.(isLiked := if viewer == Some(userId) then false else p.isLiked,
              likeCount := Some(CountAfterUnlike(p.likeCount))))
  }

  /** No listed count is negative. */
  predicate CountsNonNegative(posts: seq<Post>) {
    forall i :: 0 <= i < |posts| ==> CountOrZero(posts[i]) >= 0
  }

  /** Both like reducers keep every count non-negative. */
  lemma LikeEventsKeepCountsNonNegative(posts: seq<Post>, postId: string, userId: string, viewer: Option<string>)
    requires CountsNonNegative(posts)
    ensures CountsNonNegative(OnLikeInserted(posts, postId, userId, viewer))
    ensures CountsNonNegative(OnLikeDeleted(posts, postId, userId, viewer))
  {
  }

  /**
   * A like followed by its removal restores the entries it touched, when
   * their counts are present and non-negative and the viewer's own like
   * was not already shown.
   */
  lemma LikeThenUnlikeRestores(posts: seq<Post>, postId: string, userId: string, viewer: Option<string>)
    requires forall i :: 0 <= i < |posts| && posts[i].id == postId ==>
               && posts[i].likeCount.Some? && posts[i].likeCount.value >= 0
               && (viewer == Some(userId) ==> !posts[i].isLiked)
    ensures OnLikeDeleted(OnLikeInserted(posts, postId, userId, viewer), postId, userId, viewer) == posts
  {
    var mid := OnLikeInserted(posts, postId, userId, viewer);
    var r := OnLikeDeleted(mid, postId, userId, viewer);
    assert forall i :: 0 <= i < |posts| ==> mid[i].id == posts[i].id;
    forall i | 0 <= i < |posts|
      ensures r[i] == posts[i]
    {
      if posts[i].id == postId {
        assert r[i].likeCount == posts[i].likeCount;
      }
    }
  }

  /**
   * The answer the server gives the hook for a cursor: the page of a `GET`
   * with the hook's query and filter.
   */
  function ServerAnswer(db: seq<Row>, user: Option<string>, query: string, filter: FeedFilter,
                        ilike: (string, string) -> bool, cursor: Option<string>): FetchOutcome
  {
    Loaded(FeedPage(db, user, RequestParams(query, filter, cursor), ilike))
  }

  /** Calling `loadMore` up to `fuel` times, each answered by the server. */
  function LoadAll(s: State, db: seq<Row>, user: Option<string>, query: string, filter: FeedFilter,
                   ilike: (string, string) -> bool, fuel: nat): State
    decreases fuel
  {
    var c := LoadMoreRequest(s);
    if c.Some? && fuel > 0 then
      LoadAll(FetchPosts(s, false, ServerAnswer(db, user, query, filter, ilike, c)), db, user, query, filter, ilike, fuel - 1)
    else s
  }

  /** A page's posts carry the non-empty timestamps of the rows they came from. */
  lemma PagePlain(db: seq<Row>, user: Option<string>, p: Params, ilike: (string, string) -> bool)
    requires PlainTimestamps(db)
    ensures var page := FeedPage(db, user, p, ilike);
            forall i :: 0 <= i < |page.posts| ==> page.posts[i].createdAt != ""
  {
    var sel := Select(db, ScopeOf(p, user), Bound(p), ilike);
    var fetched := Fetch(db, user, p, ilike);
    var page := FeedPage(db, user, p, ilike);
    forall i | 0 <= i < |page.posts|
      ensures page.posts[i].createdAt != ""
    {
      assert page.posts[i].createdAt == fetched[i].createdAt;
      assert fetched[i] == sel[i];
      assert sel[i] in sel;
    }
  }

  /** The cursor of a page with more to come is non-empty, so `loadMore` will use it. */
  lemma NextCursorTruthy(db: seq<Row>, user: Option<string>, p: Params, ilike: (string, string) -> bool)
    requires PlainTimestamps(db)
    ensures var page := FeedPage(db, user, p, ilike); page.hasMore ==> Truthy(page.nextCursor)
  {
    PagePlain(db, user, p, ilike);
  }

  /** One `loadMore` answered by the server, when the guard lets it through. */
  lemma LoadAllStep(s: State, db: seq<Row>, user: Option<string>, query: string, filter: FeedFilter,
                    ilike: (string, string) -> bool, fuel: nat)
    requires LoadMoreRequest(s).Some? && fuel > 0
    ensures LoadAll(s, db, user, query, filter, ilike, fuel)
         == LoadAll(FetchPosts(s, false, ServerAnswer(db, user, query, filter, ilike, s.nextCursor)),
                    db, user, query, filter, ilike, fuel - 1)
  {
  }

  /** One page of the server crawl, and the crawl from its cursor. */
  lemma CrawlUnfold(db: seq<Row>, user: Option<string>, query: Option<string>, filter: Option<string>,
                    ilike: (string, string) -> bool, cursor: Option<string>, fuel: nat)
    ensures var page := FeedPage(db, user, Params(query, cursor, filter), ilike);
            Crawl(db, user, query, filter, ilike, cursor, fuel)
            == page.posts + (if page.hasMore && fuel > 0
                             then Crawl(db, user, query, filter, ilike, page.nextCursor, fuel - 1) else [])
  {
  }

  lemma AppendAssociative(a: seq<Post>, b: seq<Post>, c: seq<Post>)
    ensures a + b + c == a + (b + c)
  {
  }

  /** One `loadMore` step: what the rest of the calls add comes after the page just appended. */
  lemma LoadAllCons(s: State, db: seq<Row>, user: Option<string>, query: string, filter: FeedFilter,
                    ilike: (string, string) -> bool, fuel: nat, next: Page, rest: seq<Post>)
    requires LoadMoreRequest(s).Some? && fuel > 0
    requires next == FeedPage(db, user, RequestParams(query, filter, s.nextCursor), ilike)
    requires LoadAll(FetchPosts(s, false, Loaded(next)), db, user, query, filter, ilike, fuel - 1).posts
          == FetchPosts(s, false, Loaded(next)).posts + rest
    ensures LoadAll(s, db, user, query, filter, ilike, fuel).posts == s.posts + (next.posts + rest)
  {
    LoadAllStep(s, db, user, query, filter, ilike, fuel);
    AppendAssociative(s.posts, next.posts, rest);
  }

  /**
   * From a settled state whose cursor is usable whenever more posts exist,
   * repeated `loadMore` collects what the server crawl collects from that
   * cursor.
   */
  lemma {:induction false} LoadAllFollowsCrawl(s: State, db: seq<Row>, user: Option<string>, query: string,
                                               filter: FeedFilter, ilike: (string, string) -> bool, fuel: nat)
    requires PlainTimestamps(db)
    requires !s.loading && (s.hasMore ==> Truthy(s.nextCursor))
    ensures var p := RequestParams(query, filter, None);
            LoadAll(s, db, user, query, filter, ilike, fuel).posts
            == s.posts + (if s.hasMore && fuel > 0
                          then Crawl(db, user, p.query, p.filter, ilike, s.nextCursor, fuel - 1)
                          else [])
    decreases fuel
  {
    if s.hasMore && fuel > 0 {
      var p := RequestParams(query, filter, s.nextCursor);
      var next := FeedPage(db, user, p, ilike);
      NextCursorTruthy(db, user, p, ilike);
      LoadAllFollowsCrawl(FetchPosts(s, false, Loaded(next)), db, user, query, filter, ilike, fuel - 1);
      LoadAllThenCrawl(s, db, user, query, filter, ilike, fuel);
    } else {
      assert s.posts + [] == s.posts;
    }
  }

  /** The inductive step of `LoadAllFollowsCrawl`: once the later calls follow the crawl, so does the whole. */
  lemma LoadAllThenCrawl(s: State, db: seq<Row>, user: Option<string>, query: string, filter: FeedFilter,
                         ilike: (string, string) -> bool, fuel: nat)
    requires LoadMoreRequest(s).Some? && fuel > 0
    requires var p := RequestParams(query, filter, None);
             var next := FeedPage(db, user, RequestParams(query, filter, s.nextCursor), ilike);
             var t := FetchPosts(s, false, Loaded(next));
             LoadAll(t, db, user, query, filter, ilike, fuel - 1).posts
             == t.posts + (if next.hasMore && fuel - 1 > 0
                           then Crawl(db, user, p.query, p.filter, ilike, next.nextCursor, fuel - 2)
                           else [])
    ensures var p := RequestParams(query, filter, None);
            LoadAll(s, db, user, query, filter, ilike, fuel).posts
            == s.posts + Crawl(db, user, p.query, p.filter, ilike, s.nextCursor, fuel - 1)
  {
    var p := RequestParams(query, filter, None);
    var c := s.nextCursor;
    assert RequestParams(query, filter, c) == Params(p.query, c, p.filter);
    var next := FeedPage(db, user, RequestParams(query, filter, c), ilike);
    CrawlUnfold(db, user, p.query, p.filter, ilike, c, fuel - 1);
    var rest := if next.hasMore && fuel - 1 > 0
                then Crawl(db, user, p.query, p.filter, ilike, next.nextCursor, fuel - 2) else [];
    LoadAllCons(s, db, user, query, filter, ilike, fuel, next, rest);
  }


  /** Mounting the hook and then calling `loadMore` until it stops collects what the server crawl collects. */
  lemma ClientFollowsCrawl(db: seq<Row>, user: Option<string>, query: string, filter: FeedFilter,
                           ilike: (string, string) -> bool, fuel: nat)
    requires PlainTimestamps(db)
    ensures var p := RequestParams(query, filter, None);
            var first := FetchPosts(Initial, true, ServerAnswer(db, user, query, filter, ilike, None));
            LoadAll(first, db, user, query, filter, ilike, fuel).posts
            == Crawl(db, user, p.query, p.filter, ilike, None, fuel)
  {
    var p := RequestParams(query, filter, None);
    var page := FeedPage(db, user, p, ilike);
    var first := FetchPosts(Initial, true, Loaded(page));
    assert ServerAnswer(db, user, query, filter, ilike, None) == Loaded(page);
    assert first.posts == page.posts;
    NextCursorTruthy(db, user, p, ilike);
    LoadAllFollowsCrawl(first, db, user, query, filter, ilike, fuel);
    CrawlUnfold(db, user, p.query, p.filter, ilike, None, fuel);
  }

  /**
   * Mounting the hook and then calling `loadMore` until it stops shows
   * every visible post once, newest first, when no two rows share a
   * timestamp.
   */
  lemma ClientShowsEveryPostOnce(db: seq<Row>, user: Option<string>, query: string, filter: FeedFilter,
                                 ilike: (string, string) -> bool)
    requires StrictlyNewestFirst(db) && PlainTimestamps(db)
    ensures var p := RequestParams(query, filter, None);
            var first := FetchPosts(Initial, true, ServerAnswer(db, user, query, filter, ilike, None));
            LoadAll(first, db, user, query, filter, ilike, |db|).posts
            == PostsOf(Visible(db, user, p.query, p.filter, ilike), user)
  {
    var p := RequestParams(query, filter, None);
    ClientFollowsCrawl(db, user, query, filter, ilike, |db|);
    CrawlShowsEveryPostOnce(db, user, p.query, p.filter, ilike);
  }
}
