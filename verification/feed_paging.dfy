/**
 * What a client sees when it follows `nextCursor` from the first page to
 * the last: every visible row once, newest first, when no two rows share a
 * `created_at`; and a row that shares the boundary timestamp of a page
 * break is never shown, because the cursor bound is strict.
 */
module FeedPaging {
  import opened Wrappers
  import opened Text
  import opened Posts
  import opened FeedRoute
  import opened Pagination

  /** Rows ordered by `created_at` descending, ties allowed. */
  predicate NewestFirst(rows: seq<Row>) {
    forall i, j :: 0 <= i < j < |rows| ==> !Less(rows[i].createdAt, rows[j].createdAt)
  }

  /** Rows ordered by `created_at` strictly descending: no two share a timestamp. */
  predicate StrictlyNewestFirst(rows: seq<Row>) {
    forall i, j :: 0 <= i < j < |rows| ==> Less(rows[j].createdAt, rows[i].createdAt)
  }

  /** Every timestamp is non-empty ASCII text, as ISO-8601 timestamps are. */
  predicate PlainTimestamps(rows: seq<Row>) {
    forall r :: r in rows ==> IsAscii(r.createdAt) && r.createdAt != ""
  }

  /** The rows a request with this query and filter can ever show, ignoring the cursor. */
  function Visible(db: seq<Row>, user: Option<string>, query: Option<string>, filter: Option<string>,
                   ilike: (string, string) -> bool): seq<Row>
  {
    Select(db, ScopeOf(Params(query, None, filter), user), None, ilike)
  }

  /**
   * The posts a client collects by requesting the page at `cursor` and then
   * following `nextCursor` while `hasMore`, for at most `fuel` further pages.
   */
  function Crawl(db: seq<Row>, user: Option<string>, query: Option<string>, filter: Option<string>,
                 ilike: (string, string) -> bool, cursor: Option<string>, fuel: nat): seq<Post>
    decreases fuel
  {
    var page := FeedPage(db, user, Params(query, cursor, filter), ilike);
    if page.hasMore && fuel > 0 then page.posts + Crawl(db, user, query, filter, ilike, page.nextCursor, fuel - 1)
    else page.posts
  }

  /** The rows strictly older than `t`, in order. */
  function Older(rows: seq<Row>, t: string): seq<Row>
    decreases |rows|
  {
    if |rows| == 0 then []
    else (if Less(rows[0].createdAt, t) then [rows[0]] else []) + Older(rows[1..], t)
  }

  /** The cursor bound is the same as filtering the unbounded selection. */
  lemma {:induction false} SelectWithBound(rows: seq<Row>, sc: Scope, t: string, ilike: (string, string) -> bool)
    ensures Select(rows, sc, Some(t), ilike) == Older(Select(rows, sc, None, ilike), t)
    decreases |rows|
  {
    if |rows| > 0 {
      SelectWithBound(rows[1..], sc, t, ilike);
      var rest := Select(rows[1..], sc, None, ilike);
      if InScope(rows[0], sc, ilike) {
        var all := [rows[0]] + rest;
        assert all[1..] == rest;
      }
    }
  }

  lemma {:induction false} SelectKeepsStrictOrder(rows: seq<Row>, sc: Scope, bound: Option<string>,
                                                  ilike: (string, string) -> bool)
    requires StrictlyNewestFirst(rows)
    ensures StrictlyNewestFirst(Select(rows, sc, bound, ilike))
    decreases |rows|
  {
    if |rows| > 0 {
      SelectKeepsStrictOrder(rows[1..], sc, bound, ilike);
      var rest := Select(rows[1..], sc, bound, ilike);
      forall j | 0 <= j < |rest|
        ensures Less(rest[j].createdAt, rows[0].createdAt)
      {
        assert rest[j] in rows[1..];
      }
    }
  }

  lemma {:induction false} SelectKeepsOrder(rows: seq<Row>, sc: Scope, bound: Option<string>,
                                            ilike: (string, string) -> bool)
    requires NewestFirst(rows)
    ensures NewestFirst(Select(rows, sc, bound, ilike))
    decreases |rows|
  {
    if |rows| > 0 {
      SelectKeepsOrder(rows[1..], sc, bound, ilike);
      var rest := Select(rows[1..], sc, bound, ilike);
      forall j | 0 <= j < |rest|
        ensures !Less(rows[0].createdAt, rest[j].createdAt)
      {
        assert rest[j] in rows[1..];
      }
    }
  }

  lemma {:induction false} OlderOfAllOlder(rows: seq<Row>, t: string)
    requires forall i :: 0 <= i < |rows| ==> Less(rows[i].createdAt, t)
    ensures Older(rows, t) == rows
    decreases |rows|
  {
    if |rows| > 0 {
      OlderOfAllOlder(rows[1..], t);
      assert rows == [rows[0]] + rows[1..];
    }
  }

  /** On strictly ordered rows, the rows older than row `k - 1` are exactly those after it. */
  lemma {:induction false} OlderIsSuffix(v: seq<Row>, k: nat)
    requires StrictlyNewestFirst(v) && 0 < k <= |v|
    ensures Older(v, v[k - 1].createdAt) == v[k..]
    decreases k
  {
    var t := v[k - 1].createdAt;
    if k == 1 {
      LessIrreflexive(t);
      OlderOfAllOlder(v[1..], t);
    } else {
      LessAsymmetric(t, v[0].createdAt);
      assert v[1..][k - 2] == v[k - 1];
      OlderIsSuffix(v[1..], k - 1);
      assert v[1..][k - 1..] == v[k..];
    }
  }

  lemma PostsOfAppend(a: seq<Row>, b: seq<Row>, user: Option<string>)
    ensures PostsOf(a + b, user) == PostsOf(a, user) + PostsOf(b, user)
  {
  }

  /** The cursor that the page ending just before row `k` hands out (none for the first page). */
  function CursorAt(v: seq<Row>, k: nat): Option<string>
    requires k <= |v|
  {
    if k == 0 then None else Some(EncodeCursor(v[k - 1].createdAt))
  }

  /** A non-empty ASCII timestamp survives the trip through its cursor into the bound. */
  lemma BoundOfCursor(query: Option<string>, filter: Option<string>, t: string)
    requires IsAscii(t) && t != ""
    ensures Bound(Params(query, Some(EncodeCursor(t)), filter)) == Some(t)
  {
    CursorRoundTrip(t);
  }

  /** The page read from a known selection. */
  lemma PageOfSelection(db: seq<Row>, user: Option<string>, p: Params, ilike: (string, string) -> bool, s: seq<Row>)
    requires Select(db, ScopeOf(p, user), Bound(p), ilike) == s
    ensures var page := FeedPage(db, user, p, ilike);
            && (page.hasMore <==> |s| > PostsPerPage)
            && (|s| <= PostsPerPage ==> page.posts == PostsOf(s, user))
            && (|s| > PostsPerPage ==> page.posts == PostsOf(s[..PostsPerPage], user))
            && (|s| > PostsPerPage ==> page.nextCursor == Some(EncodeCursor(s[PostsPerPage - 1].createdAt)))
  {
    if |s| > PostsPerPage {
      PageOfLongSelection(db, user, p, ilike, s);
    } else {
      assert Fetch(db, user, p, ilike) == s;
    }
  }

  /** The page read from a selection longer than a page: its first rows, and a cursor at the last of them. */
  lemma PageOfLongSelection(db: seq<Row>, user: Option<string>, p: Params, ilike: (string, string) -> bool,
                            s: seq<Row>)
    requires Select(db, ScopeOf(p, user), Bound(p), ilike) == s && |s| > PostsPerPage
    ensures var page := FeedPage(db, user, p, ilike);
            && page.hasMore
            && page.posts == PostsOf(s[..PostsPerPage], user)
            && page.nextCursor == Some(EncodeCursor(s[PostsPerPage - 1].createdAt))
  {
    var fetched := Fetch(db, user, p, ilike);
    assert |fetched| == PostsPerPage + 1;
    assert fetched[..PostsPerPage] == s[..PostsPerPage];
  }

  /** The request carrying the cursor for row `k` selects exactly the rows from `k` on. */
  lemma SelectionAt(db: seq<Row>, user: Option<string>, query: Option<string>,
                    filter: Option<string>, ilike: (string, string) -> bool, k: nat)
    requires StrictlyNewestFirst(db) && PlainTimestamps(db)
    requires k <= |Visible(db, user, query, filter, ilike)|
    ensures var v := Visible(db, user, query, filter, ilike);
            var p := Params(query, CursorAt(v, k), filter);
            Select(db, ScopeOf(p, user), Bound(p), ilike) == v[k..]
  {
    var v := Visible(db, user, query, filter, ilike);
    var p := Params(query, CursorAt(v, k), filter);
    var sc := ScopeOf(p, user);
    assert sc == ScopeOf(Params(query, None, filter), user);
    if k == 0 {
      assert v[k..] == v;
    } else {
      var t := v[k - 1].createdAt;
      assert v[k - 1] in v;
      BoundOfCursor(query, filter, t);
      SelectWithBound(db, sc, t, ilike);
      SelectKeepsStrictOrder(db, sc, None, ilike);
      OlderIsSuffix(v, k);
    }
  }

  /** Following cursors from the page that starts at row `k` collects exactly the rows from `k` on. */
  lemma {:induction false} CrawlFrom(db: seq<Row>, user: Option<string>, query: Option<string>,
                                     filter: Option<string>, ilike: (string, string) -> bool, k: nat, fuel: nat)
    requires StrictlyNewestFirst(db) && PlainTimestamps(db)
    requires k <= |Visible(db, user, query, filter, ilike)|
    requires fuel * PostsPerPage >= |Visible(db, user, query, filter, ilike)| - k
    ensures var v := Visible(db, user, query, filter, ilike);
            Crawl(db, user, query, filter, ilike, CursorAt(v, k), fuel) == PostsOf(v[k..], user)
    decreases |Visible(db, user, query, filter, ilike)| - k
  {
    var v := Visible(db, user, query, filter, ilike);
    SelectionAt(db, user, query, filter, ilike, k);
    if |v| - k > PostsPerPage {
      var n := k + PostsPerPage;
      CrawlFrom(db, user, query, filter, ilike, n, fuel - 1);
      assert v[k..][PostsPerPage - 1] == v[n - 1];
      assert v[k..][PostsPerPage..] == v[n..];
    }
    CrawlStep(db, user, query, filter, ilike, CursorAt(v, k), fuel, v[k..]);
  }

  /**
   * One step of the crawl: the page at `cursor` shows the first rows of its
   * selection, and when the rest of the selection is what the next cursor
   * collects, the crawl collects the whole selection.
   */
  lemma CrawlStep(db: seq<Row>, user: Option<string>, query: Option<string>, filter: Option<string>,
                  ilike: (string, string) -> bool, cursor: Option<string>, fuel: nat, s: seq<Row>)
    requires Select(db, ScopeOf(Params(query, cursor, filter), user), Bound(Params(query, cursor, filter)), ilike) == s
    requires fuel * PostsPerPage >= |s|
    requires |s| > PostsPerPage ==>
               Crawl(db, user, query, filter, ilike, Some(EncodeCursor(s[PostsPerPage - 1].createdAt)), fuel - 1)
               == PostsOf(s[PostsPerPage..], user)
    ensures Crawl(db, user, query, filter, ilike, cursor, fuel) == PostsOf(s, user)
  {
    var p := Params(query, cursor, filter);
    PageOfSelection(db, user, p, ilike, s);
    if |s| > PostsPerPage {
      assert s == s[..PostsPerPage] + s[PostsPerPage..];
      PostsOfAppend(s[..PostsPerPage], s[PostsPerPage..], user);
    }
  }

  /**
   * With distinct timestamps, starting without a cursor and following
   * `nextCursor` shows every visible post exactly once, newest first, and
   * stops at a page with `hasMore` false.
   */
  lemma CrawlShowsEveryPostOnce(db: seq<Row>, user: Option<string>, query: Option<string>,
                                filter: Option<string>, ilike: (string, string) -> bool)
    requires StrictlyNewestFirst(db) && PlainTimestamps(db)
    ensures Crawl(db, user, query, filter, ilike, None, |db|)
         == PostsOf(Visible(db, user, query, filter, ilike), user)
  {
    var v := Visible(db, user, query, filter, ilike);
    CrawlFrom(db, user, query, filter, ilike, 0, |db|);
    assert v[0..] == v;
  }

  /** Every post of the page at the cursor of `t` is strictly older than `t`. */
  lemma PageStaysOlder(db: seq<Row>, user: Option<string>, p: Params, ilike: (string, string) -> bool, t: string)
    requires PlainTimestamps(db) && Bound(p) == Some(t)
    ensures var page := FeedPage(db, user, p, ilike);
            forall i :: 0 <= i < |page.posts| ==>
              Less(page.posts[i].createdAt, t) && IsAscii(page.posts[i].createdAt) && page.posts[i].createdAt != ""
  {
    var sel := Select(db, ScopeOf(p, user), Bound(p), ilike);
    var fetched := Fetch(db, user, p, ilike);
    var page := FeedPage(db, user, p, ilike);
    forall i | 0 <= i < |page.posts|
      ensures Less(page.posts[i].createdAt, t) && IsAscii(page.posts[i].createdAt) && page.posts[i].createdAt != ""
    {
      assert page.posts[i].createdAt == fetched[i].createdAt;
      assert fetched[i] == sel[i];
      assert sel[i] in sel;
    }
  }

  /** Every post reached from the cursor of `t` is strictly older than `t`. */
  lemma {:induction false} CrawlStaysOlder(db: seq<Row>, user: Option<string>, query: Option<string>,
                                           filter: Option<string>, ilike: (string, string) -> bool,
                                           t: string, fuel: nat)
    requires PlainTimestamps(db) && IsAscii(t) && t != ""
    ensures forall q :: q in Crawl(db, user, query, filter, ilike, Some(EncodeCursor(t)), fuel) ==> Less(q.createdAt, t)
    decreases fuel
  {
    var p := Params(query, Some(EncodeCursor(t)), filter);
    BoundOfCursor(query, filter, t);
    PageStaysOlder(db, user, p, ilike, t);
    var page := FeedPage(db, user, p, ilike);
    if page.hasMore && fuel > 0 {
      var t' := page.posts[|page.posts| - 1].createdAt;
      CrawlStaysOlder(db, user, query, filter, ilike, t', fuel - 1);
      var rest := Crawl(db, user, query, filter, ilike, page.nextCursor, fuel - 1);
      forall q | q in rest
        ensures Less(q.createdAt, t)
      {
        LessTransitive(q.createdAt, t', t);
      }
    }
  }

  /** The first page of a feed holding more than one page shows its first rows and points past the last of them. */
  lemma FirstPage(db: seq<Row>, user: Option<string>, query: Option<string>, filter: Option<string>,
                  ilike: (string, string) -> bool)
    requires var v := Visible(db, user, query, filter, ilike); |v| > PostsPerPage
    ensures var v := Visible(db, user, query, filter, ilike);
            var page := FeedPage(db, user, Params(query, None, filter), ilike);
            && page.posts == PostsOf(v[..PostsPerPage], user)
            && page.nextCursor == Some(EncodeCursor(v[PostsPerPage - 1].createdAt))
  {
    var v := Visible(db, user, query, filter, ilike);
    var p := Params(query, None, filter);
    assert Fetch(db, user, p, ilike) == v[..PostsPerPage + 1];
  }

  /** A post whose id no row of `rows` carries is not among the posts of `rows`. */
  lemma IdNotShown(rows: seq<Row>, user: Option<string>, x: Row)
    requires forall i :: 0 <= i < |rows| ==> rows[i].id != x.id
    ensures ToPost(x, user) !in PostsOf(rows, user)
  {
    var ps := PostsOf(rows, user);
    forall i | 0 <= i < |ps|
      ensures ps[i] != ToPost(x, user)
    {
      assert ps[i].id == rows[i].id;
    }
  }

  /**
   * When the row just after a page break has the same `created_at` as the
   * last row of the page, no request reached by following `nextCursor`
   * ever shows it: the next page asks for rows strictly older than that
   * timestamp.
   */
  lemma TiedRowAtPageBreakIsNeverShown(db: seq<Row>, user: Option<string>, query: Option<string>,
                                       filter: Option<string>, ilike: (string, string) -> bool, fuel: nat)
    requires NewestFirst(db) && PlainTimestamps(db)
    requires var v := Visible(db, user, query, filter, ilike);
             && |v| > PostsPerPage
             && v[PostsPerPage - 1].createdAt == v[PostsPerPage].createdAt
             && forall i, j :: 0 <= i < j < |v| ==> v[i].id != v[j].id
    ensures var v := Visible(db, user, query, filter, ilike);
            ToPost(v[PostsPerPage], user) !in Crawl(db, user, query, filter, ilike, None, fuel)
  {
    var v := Visible(db, user, query, filter, ilike);
    var page := FeedPage(db, user, Params(query, None, filter), ilike);
    FirstPage(db, user, query, filter, ilike);
    IdNotShown(v[..PostsPerPage], user, v[PostsPerPage]);
    if fuel > 0 {
      var t := v[PostsPerPage - 1].createdAt;
      assert v[PostsPerPage - 1] in v;
      CrawlStaysOlder(db, user, query, filter, ilike, t, fuel - 1);
      LessIrreflexive(t);
    }
  }
}
