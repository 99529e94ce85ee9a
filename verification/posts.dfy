/**
 * A post as the client holds it, and the two list shapes every reducer of
 * the feed is built from: `posts.map(p => p.id === id ? f(p) : p)` and
 * `posts.filter(p => p.id !== id)`.
 */
module Posts {
  import opened Wrappers

  /**
   * A post: the database row, its author's profile name, and the
   * viewer-relative aggregate (`isLiked`, `_count.likes`). `likeCount` is
   * None when the `_count` object is absent.
   */
  datatype Post = Post(
    id: string,
    authorId: string,
    content: string,
    createdAt: string,
    updatedAt: string,
    username: string,
    isLiked: bool,
    likeCount: Option<int>)

  /** `post._count?.likes || 0`. */
  function CountOrZero(p: Post): int {
    p.likeCount.GetOr(0)
  }

  /** Applies `f` to every post whose id is `id`; every other post stays as it is. */
  function UpdateWhere(posts: seq<Post>, id: string, f: Post -> Post): (r: seq<Post>)
    ensures |r| == |posts|
    ensures forall i :: 0 <= i < |posts| && posts[i].id != id ==> r[i] == posts[i]
    ensures forall i :: 0 <= i < |posts| && posts[i].id == id ==> r[i] == f(posts[i])
  {
    seq(|posts|, i requires 0 <= i < |posts| => if posts[i].id == id then f(posts[i]) else posts[i])
  }

  /** Number of posts whose id is `id`. */
  function CountId(posts: seq<Post>, id: string): (n: nat)
    ensures n <= |posts|
  {
    if |posts| == 0 then 0 else (if posts[0].id == id then 1 else 0) + CountId(posts[1..], id)
  }

  /** `a` is `b` with some entries left out and the rest in their order. */
  predicate IsSubsequence<T(==)>(a: seq<T>, b: seq<T>)
    decreases |b|
  {
    if |a| == 0 then true
    else if |b| == 0 then false
    else if a[0] == b[0] then IsSubsequence(a[1..], b[1..])
    else IsSubsequence(a, b[1..])
  }

  /**
   * `posts.filter(p => p.id !== id)`. The three properties together say that
   * the result is exactly the posts with another id, in their original order.
   */
  function RemoveId(posts: seq<Post>, id: string): (r: seq<Post>)
    ensures forall i :: 0 <= i < |r| ==> r[i].id != id
    ensures IsSubsequence(r, posts)
    ensures |r| == |posts| - CountId(posts, id)
    decreases |posts|
  {
    if |posts| == 0 then []
    else
      var rest := RemoveId(posts[1..], id);
      if posts[0].id == id then
        assert |rest| == 0 || rest[0] != posts[0];
        rest
      else
        [posts[0]] + rest
  }

  /** Removing an id that is not there changes nothing. */
  lemma {:induction false} RemoveAbsentId(posts: seq<Post>, id: string)
    requires forall i :: 0 <= i < |posts| ==> posts[i].id != id
    ensures RemoveId(posts, id) == posts
    decreases |posts|
  {
    if |posts| > 0 {
      RemoveAbsentId(posts[1..], id);
      assert posts == [posts[0]] + posts[1..];
    }
  }

  /** Removing the same id twice is removing it once. */
  lemma RemoveIdIdempotent(posts: seq<Post>, id: string)
    ensures RemoveId(RemoveId(posts, id), id) == RemoveId(posts, id)
  {
    RemoveAbsentId(RemoveId(posts, id), id);
  }

  /** Every post with another id survives `RemoveId`. */
  lemma {:induction false} RemoveIdKeepsOthers(posts: seq<Post>, id: string, x: Post)
    requires x in posts && x.id != id
    ensures x in RemoveId(posts, id)
    decreases |posts|
  {
    if posts[0] != x {
      RemoveIdKeepsOthers(posts[1..], id, x);
    }
  }
}
