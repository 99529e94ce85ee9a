/**
 * The `GET` and `POST` handlers of `/api/posts`.
 *
 * The database is an in-memory sequence of joined rows in the order the
 * query returns them (`created_at` descending). The identity provider is a
 * function from where the credentials come from to a user id; `ilike` is
 * the database's case-insensitive pattern test for `%query%`, taken as given.
 */
module FeedRoute {
  import opened Wrappers
  import opened Text
  import opened Posts
  import opened Validators
  import Pagination

  /** A `posts` row joined with its author's profile name and the user ids of its likes. */
  datatype Row = Row(
    id: string,
    authorId: string,
    content: string,
    createdAt: string,
    updatedAt: string,
    username: string,
    likes: seq<string>)

  /** Where the handler takes the caller's identity from. */
  datatype AuthSource = BearerToken(token: string) | CookieSession

  /** The search parameters of `GET /api/posts`; None for an absent parameter. */
  datatype Params = Params(query: Option<string>, cursor: Option<string>, filter: Option<string>)

  /** The JSON body of a successful `GET`. */
  datatype Page = Page(posts: seq<Post>, nextCursor: Option<string>, hasMore: bool)

  /** The handlers' responses, by status. */
  datatype Response =
    | Ok200(page: Page)
    | Created201(post: Post)
    | BadRequest400(issues: seq<Issue>)
    | Unauthorized401
    | ServerError500

  /** What the database returns for an insert: the columns it assigns, or a failure. */
  datatype Insert = Inserted(id: string, createdAt: string, updatedAt: string, username: string) | InsertFailed

  /** A header `Bearer <token>` yields the token; anything else, absent included, falls back to the cookie session. */
  function AuthSourceOf(header: Option<string>): (a: AuthSource)
    ensures a.BearerToken? <==> header.Some? && StartsWith(header.value, "Bearer ")
    ensures a.BearerToken? ==> header.value == "Bearer " + a.token
  {
    if header.Some? && StartsWith(header.value, "Bearer ") then
      var h := header.value;
      assert h == h[..7] + h[7..];
      BearerToken(h[7..])
    else
      CookieSession
  }

  /** `searchParams.get('query') || ''`. */
  function SearchText(p: Params): (q: string)
    ensures q == "" <==> !Truthy(p.query)
  {
    if Truthy(p.query) then p.query.value else ""
  }

  /** `(searchParams.get('filter') || 'all') === 'mine' ? 'mine' : 'all'`. */
  function RouteFilter(p: Params): (f: FeedFilter)
    ensures f == NormalizeFilter(p.filter)
  {
    var filter := if Truthy(p.filter) then p.filter.value else "all";
    if filter == "mine" then Mine else All
  }

  /** The `created_at` bound: the decoded cursor when the parameter is non-empty. */
  function Bound(p: Params): (b: Option<string>)
    ensures b.Some? <==> Truthy(p.cursor)
  {
    if Truthy(p.cursor) then Some(Pagination.DecodeCursor(p.cursor.value)) else None
  }

  /** The restrictions of one request, apart from the cursor. */
  datatype Scope = Scope(search: string, author: Option<string>)

  /** The author restriction applies only to `'mine'` with a signed-in user. */
  function ScopeOf(p: Params, user: Option<string>): (s: Scope)
    ensures s.search == SearchText(p)
    ensures s.author.Some? <==> RouteFilter(p) == Mine && user.Some?
    ensures s.author.Some? ==> s.author == user
  {
    Scope(SearchText(p), if RouteFilter(p) == Mine && user.Some? then user else None)
  }

  predicate InScope(r: Row, sc: Scope, ilike: (string, string) -> bool) {
    && (sc.search == "" || ilike(r.content, sc.search))
    && (sc.author.None? || r.authorId == sc.author.value)
  }

  /** `.lt('created_at', bound)`: strictly older than the bound. */
  predicate BeforeBound(r: Row, bound: Option<string>) {
    bound.None? || Less(r.createdAt, bound.value)
  }

  /**
   * The rows the filtered query matches, in database order: every matching
   * row as often as the database holds it, and no other row.
   */
  function Select(rows: seq<Row>, sc: Scope, bound: Option<string>, ilike: (string, string) -> bool): (r: seq<Row>)
    ensures |r| <= |rows|
    ensures forall x :: x in r ==> x in rows && InScope(x, sc, ilike) && BeforeBound(x, bound)
    ensures forall x :: x in rows && InScope(x, sc, ilike) && BeforeBound(x, bound) ==> x in r
    decreases |rows|
  {
    if |rows| == 0 then []
    else
      var rest := Select(rows[1..], sc, bound, ilike);
      assert rows == [rows[0]] + rows[1..];
      if InScope(rows[0], sc, ilike) && BeforeBound(rows[0], bound) then [rows[0]] + rest else rest
  }

  /** A row the query keeps: in scope and strictly before the bound. */
  predicate Matches(x: Row, sc: Scope, bound: Option<string>, ilike: (string, string) -> bool) {
    InScope(x, sc, ilike) && BeforeBound(x, bound)
  }

  /**
   * `Select` is the order-preserving filter: its rows appear in the
   * database's order, and each matching row appears exactly as often as the
   * database holds it. With the membership clauses of `Select` this pins
   * the result down completely.
   */
  lemma SelectIsOrderedFilter(rows: seq<Row>, sc: Scope, bound: Option<string>, ilike: (string, string) -> bool)
    ensures IsSubsequence(Select(rows, sc, bound, ilike), rows)
    ensures forall x :: Matches(x, sc, bound, ilike) ==>
              multiset(Select(rows, sc, bound, ilike))[x] == multiset(rows)[x]
  {
    SelectIsSubsequence(rows, sc, bound, ilike);
    forall x | Matches(x, sc, bound, ilike)
      ensures multiset(Select(rows, sc, bound, ilike))[x] == multiset(rows)[x]
    {
      SelectKeepsMultiplicity(rows, sc, bound, ilike, x);
    }
  }

  lemma {:induction false} SelectIsSubsequence(rows: seq<Row>, sc: Scope, bound: Option<string>,
                                            ilike: (string, string) -> bool)
    ensures IsSubsequence(Select(rows, sc, bound, ilike), rows)
    decreases |rows|
  {
    if |rows| > 0 {
      SelectIsSubsequence(rows[1..], sc, bound, ilike);
      var rest := Select(rows[1..], sc, bound, ilike);
      if Matches(rows[0], sc, bound, ilike) {
        var r := [rows[0]] + rest;
        assert Select(rows, sc, bound, ilike) == r;
        assert r[1..] == rest;
      } else {
        assert Select(rows, sc, bound, ilike) == rest;
        assert |rest| == 0 || rest[0] != rows[0];
      }
    }
  }

  lemma {:induction false} SelectKeepsMultiplicity(rows: seq<Row>, sc: Scope, bound: Option<string>,
                                                   ilike: (string, string) -> bool, x: Row)
    requires Matches(x, sc, bound, ilike)
    ensures multiset(Select(rows, sc, bound, ilike))[x] == multiset(rows)[x]
    decreases |rows|
  {
    if |rows| > 0 {
      SelectKeepsMultiplicity(rows[1..], sc, bound, ilike, x);
      var rest := Select(rows[1..], sc, bound, ilike);
      assert rows == [rows[0]] + rows[1..];
      assert multiset(rows) == multiset([rows[0]]) + multiset(rows[1..]);
      if Matches(rows[0], sc, bound, ilike) {
        assert multiset([rows[0]] + rest) == multiset([rows[0]]) + multiset(rest);
      }
    }
  }

  /** `.limit(n)`. */
  function Take(rows: seq<Row>, n: nat): (r: seq<Row>)
    ensures |r| <= n && |r| <= |rows|
    ensures |rows| <= n ==> r == rows
    ensures |rows| > n ==> |r| == n
    ensures r == rows[..|r|]
  {
    if |rows| <= n then rows else rows[..n]
  }

  /** A row as the client sees it: `isLiked` for this viewer, `_count.likes` as the number of likes. */
  function ToPost(r: Row, user: Option<string>): (p: Post)
    ensures p.isLiked <==> user.Some? && user.value in r.likes
    ensures p.likeCount == Some(|r.likes|)
    ensures p.id == r.id && p.authorId == r.authorId && p.content == r.content
    ensures p.createdAt == r.createdAt && p.updatedAt == r.updatedAt && p.username == r.username
  {
    Post(r.id, r.authorId, r.content, r.createdAt, r.updatedAt, r.username,
         user.Some? && exists i :: 0 <= i < |r.likes| && r.likes[i] == user.value,
         Some(|r.likes|))
  }

  function PostsOf(rows: seq<Row>, user: Option<string>): (ps: seq<Post>)
    ensures |ps| == |rows|
    ensures forall i :: 0 <= i < |rows| ==> ps[i] == ToPost(rows[i], user)
  {
    seq(|rows|, i requires 0 <= i < |rows| => ToPost(rows[i], user))
  }

  /** The rows a request reads: the first `PostsPerPage + 1` matches. */
  function Fetch(db: seq<Row>, user: Option<string>, p: Params, ilike: (string, string) -> bool): (r: seq<Row>)
    ensures |r| <= Pagination.PostsPerPage + 1
    ensures var sel := Select(db, ScopeOf(p, user), Bound(p), ilike); |r| <= |sel| && r == sel[..|r|]
    ensures var sel := Select(db, ScopeOf(p, user), Bound(p), ilike);
            |r| == if |sel| <= Pagination.PostsPerPage + 1 then |sel| else Pagination.PostsPerPage + 1
  {
    Take(Select(db, ScopeOf(p, user), Bound(p), ilike), Pagination.PostsPerPage + 1)
  }

  /**
   * The page made of the fetched rows: `hasMore` exactly when more than a
   * page came back, then the extra row dropped and the cursor taken from
   * the last row kept.
   */
  function PageOf(fetched: seq<Row>, user: Option<string>): (r: Page)
    ensures r.hasMore <==> |fetched| > Pagination.PostsPerPage
    ensures |r.posts| == (if r.hasMore then |fetched| - 1 else |fetched|)
    ensures r.posts == PostsOf(fetched[..|r.posts|], user)
    ensures r.nextCursor.Some? <==> r.hasMore
    ensures r.hasMore ==> r.nextCursor == Some(Pagination.EncodeCursor(r.posts[|r.posts| - 1].createdAt))
  {
    var hasMore := |fetched| > Pagination.PostsPerPage;
    var rows := if hasMore then fetched[..|fetched| - 1] else fetched;
    var nextCursor :=
      if hasMore && |rows| > 0 then Some(Pagination.EncodeCursor(rows[|rows| - 1].createdAt)) else None;
    Page(PostsOf(rows, user), nextCursor, hasMore)
  }

  /** The page a `GET` returns: at most ten posts, and a cursor exactly when more matched. */
  function FeedPage(db: seq<Row>, user: Option<string>, p: Params, ilike: (string, string) -> bool): (r: Page)
    ensures var fetched := Fetch(db, user, p, ilike);
            && (r.hasMore <==> |fetched| > Pagination.PostsPerPage)
            && |r.posts| <= Pagination.PostsPerPage
            && |r.posts| == (if r.hasMore then |fetched| - 1 else |fetched|)
            && r.posts == PostsOf(fetched[..|r.posts|], user)
    ensures r.nextCursor.Some? <==> r.hasMore
    ensures r.hasMore ==> r.nextCursor == Some(Pagination.EncodeCursor(r.posts[|r.posts| - 1].createdAt))
  {
    PageOf(Fetch(db, user, p, ilike), user)
  }

  /**
   * `GET /api/posts`: the page, or 500 when the query reports an error.
   * The decoded cursor goes to the database unchecked, so a bound the
   * database cannot read as a timestamp (`readsAsTimestamp`) is such an
   * error; `queryFails` stands for every other one.
   */
  function HandleGet(
    db: seq<Row>, header: Option<string>, identity: AuthSource -> Option<string>,
    p: Params, ilike: (string, string) -> bool, readsAsTimestamp: string -> bool, queryFails: bool): (r: Response)
    ensures r.Ok200? || r.ServerError500?
    ensures r.ServerError500? <==> queryFails || (Bound(p).Some? && !readsAsTimestamp(Bound(p).value))
    ensures r.Ok200? ==> r.page == FeedPage(db, identity(AuthSourceOf(header)), p, ilike)
  {
    var bound := Bound(p);
    if queryFails || (bound.Some? && !readsAsTimestamp(bound.value)) then ServerError500
    else Ok200(FeedPage(db, identity(AuthSourceOf(header)), p, ilike))
  }

  /**
   * A cursor that is not Base64 at all decodes to the empty text, which no
   * timestamp reads as, so the request gets 500 rather than a page.
   */
  lemma GarbageCursorFails(db: seq<Row>, header: Option<string>, identity: AuthSource -> Option<string>,
                           ilike: (string, string) -> bool, readsAsTimestamp: string -> bool)
    requires !readsAsTimestamp("")
    ensures HandleGet(db, header, identity, Params(None, Some("!!"), None), ilike, readsAsTimestamp, false).ServerError500?
  {
  }

  /**
   * `POST /api/posts`: 401 before the body is read, 500 for a body that is
   * not JSON, 400 with the schema's issues, 500 when the insert fails, and
   * otherwise 201 with the inserted post, not liked and with no likes.
   */
  function HandlePost(
    header: Option<string>, identity: AuthSource -> Option<string>, body: Body, insert: Insert): (r: Response)
    ensures !r.Ok200?
    ensures identity(AuthSourceOf(header)).None? <==> r.Unauthorized401?
    ensures r.ServerError500? <==>
      identity(AuthSourceOf(header)).Some?
      && (body.Malformed? || (ParseCreatePost(body).Ok? && insert.InsertFailed?))
    ensures r.BadRequest400? <==> identity(AuthSourceOf(header)).Some? && !body.Malformed? && ParseCreatePost(body).Err?
    ensures r.BadRequest400? ==> r.issues == ParseCreatePost(body).error
    ensures r.Created201? <==>
      identity(AuthSourceOf(header)).Some? && !body.Malformed? && ParseCreatePost(body).Ok? && insert.Inserted?
    ensures r.Created201? ==>
      && r.post.content == ParseCreatePost(body).value
      && r.post.authorId == identity(AuthSourceOf(header)).value
      && !r.post.isLiked && r.post.likeCount == Some(0)
  {
    var user := identity(AuthSourceOf(header));
    if user.None? then Unauthorized401
    else if body.Malformed? then ServerError500
    else
      match ParseCreatePost(body)
      case Err(issues) => BadRequest400(issues)
      case Ok(content) =>
        match insert
        case InsertFailed => ServerError500
        case Inserted(id, createdAt, updatedAt, username) =>
          Created201(Post(id, user.value, content, createdAt, updatedAt, username, false, Some(0)))
  }

  /** A `'mine'` request without a signed-in user reads the same page as an `'all'` request. */
  lemma MineWithoutUserIsUnrestricted(db: seq<Row>, query: Option<string>, cursor: Option<string>,
                                      ilike: (string, string) -> bool)
    ensures FeedPage(db, None, Params(query, cursor, Some("mine")), ilike)
         == FeedPage(db, None, Params(query, cursor, Some("all")), ilike)
  {
    var mine := Params(query, cursor, Some("mine"));
    var all := Params(query, cursor, Some("all"));
    assert ScopeOf(mine, None) == ScopeOf(all, None);
    SameScopeSamePage(db, None, mine, all, ilike);
  }

  /** The page depends on the parameters only through the scope and the bound. */
  lemma SameScopeSamePage(db: seq<Row>, user: Option<string>, p: Params, q: Params, ilike: (string, string) -> bool)
    requires ScopeOf(p, user) == ScopeOf(q, user) && Bound(p) == Bound(q)
    ensures FeedPage(db, user, p, ilike) == FeedPage(db, user, q, ilike)
  {
    assert Fetch(db, user, p, ilike) == Fetch(db, user, q, ilike);
  }

  /** A `'mine'` request with a signed-in user returns only that user's posts. */
  lemma MineWithUserShowsOwnPosts(db: seq<Row>, user: string, p: Params, ilike: (string, string) -> bool)
    requires p.filter == Some("mine")
    ensures forall i :: 0 <= i < |FeedPage(db, Some(user), p, ilike).posts| ==>
              FeedPage(db, Some(user), p, ilike).posts[i].authorId == user
  {
    var sc := ScopeOf(p, Some(user));
    var sel := Select(db, sc, Bound(p), ilike);
    var fetched := Fetch(db, Some(user), p, ilike);
    var page := FeedPage(db, Some(user), p, ilike);
    forall i | 0 <= i < |page.posts|
      ensures page.posts[i].authorId == user
    {
      assert fetched[i] == sel[i];
      assert sel[i] in sel;
    }
  }
}
