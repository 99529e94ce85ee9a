/**
 * `toggleLike`: the optimistic like state shown at once, the request it
 * sends, and the rollback that follows a response that is not ok. The
 * network answer is a parameter; the callback is the feed page's
 * `handleLikeToggled`.
 */
module LikeToggle {
  import opened Wrappers
  import opened Posts
  import opened HomePage
  import opened FeedStore

  /** The method of the request to `/api/posts/{id}/like`. */
  datatype HttpMethod = POST | DELETE

  /** How the request ends: a thrown value (from the session lookup or `fetch`), or a response. */
  datatype Outcome = Thrown | Responded(ok: bool)

  /** One call of the callback: the post id, the like state and the count to show. */
  datatype LikeUpdate = LikeUpdate(postId: string, isLiked: bool, likesCount: int)

  /** A finished toggle: the callback calls in order, the method used, the value returned, and `loading` afterwards. */
  datatype Toggle = Toggle(updates: seq<LikeUpdate>, verb: HttpMethod, returned: bool, loading: Option<string>)

  /** The optimistic state: the like flipped and the count moved by one, a missing count read as zero. */
  function Optimistic(post: Post): (u: LikeUpdate)
    ensures u.postId == post.id && u.isLiked == !post.isLiked
    ensures post.isLiked ==> u.likesCount == CountOrZero(post) - 1
    ensures !post.isLiked ==> u.likesCount == CountOrZero(post) + 1
  {
    LikeUpdate(post.id, !post.isLiked, if post.isLiked then CountOrZero(post) - 1 else CountOrZero(post) + 1)
  }

  /** The state before the toggle, as the rollback writes it back. */
  function Previous(post: Post): (u: LikeUpdate)
    ensures u.postId == post.id && u.isLiked == post.isLiked && u.likesCount == CountOrZero(post)
  {
    LikeUpdate(post.id, post.isLiked, CountOrZero(post))
  }

  /** An unlike for a post shown as liked, a like otherwise. */
  function RequestMethod(post: Post): (m: HttpMethod)
    ensures m == DELETE <==> post.isLiked
  {
    if post.isLiked then DELETE else POST
  }

  /**
   * `toggleLike(post, onOptimisticUpdate)`: the optimistic update always,
   * the rollback only after a response that is not ok, true only after an
   * ok response, and `loading` cleared on every path.
   */
  function ToggleLike(post: Post, outcome: Outcome): (r: Toggle)
    ensures 1 <= |r.updates| <= 2 && r.updates[0] == Optimistic(post)
    ensures |r.updates| == 2 <==> outcome == Responded(false)
    ensures |r.updates| == 2 ==> r.updates[1] == Previous(post)
    ensures r.verb == RequestMethod(post)
    ensures r.returned <==> outcome == Responded(true)
    ensures r.loading.None?
  {
    var updates := if outcome == Responded(false) then [Optimistic(post), Previous(post)] else [Optimistic(post)];
    Toggle(updates, RequestMethod(post), outcome == Responded(true), None)
  }

  /** The feed list after the callback calls, in order. */
  function ApplyUpdates(posts: seq<Post>, updates: seq<LikeUpdate>): (r: seq<Post>)
    ensures |r| == |posts|
    decreases |updates|
  {
    if |updates| == 0 then posts
    else
      var u := updates[0];
      ApplyUpdates(HandleLikeToggled(posts, u.postId, u.isLiked, u.likesCount), updates[1..])
  }

  /** The entries for `post` show exactly its like state and count. */
  predicate ShowsAsIs(posts: seq<Post>, post: Post) {
    forall i :: 0 <= i < |posts| && posts[i].id == post.id ==>
      posts[i].isLiked == post.isLiked && posts[i].likeCount == post.likeCount
  }

  /** After a response that is not ok, the list is what it was before the toggle (when the count was present). */
  lemma RejectedToggleRestores(posts: seq<Post>, post: Post)
    requires post.likeCount.Some? && ShowsAsIs(posts, post)
    ensures ApplyUpdates(posts, ToggleLike(post, Responded(false)).updates) == posts
  {
    var t := ToggleLike(post, Responded(false));
    var mid := HandleLikeToggled(posts, post.id, !post.isLiked, Optimistic(post).likesCount);
    var r := HandleLikeToggled(mid, post.id, post.isLiked, CountOrZero(post));
    assert t.updates[1..][0] == Previous(post) && t.updates[1..][1..] == [];
    assert ApplyUpdates(mid, t.updates[1..]) == ApplyUpdates(r, []);
    assert ApplyUpdates(posts, t.updates) == r;
    forall i | 0 <= i < |posts|
      ensures r[i] == posts[i]
    {
    }
  }

  /** A thrown request leaves the optimistic state in place, exactly as a successful one does. */
  lemma ThrownToggleKeepsOptimistic(posts: seq<Post>, post: Post)
    ensures ApplyUpdates(posts, ToggleLike(post, Thrown).updates)
         == ApplyUpdates(posts, ToggleLike(post, Responded(true)).updates)
    ensures ToggleLike(post, Thrown).returned == false
  {
  }

  /** So after a throw every entry of the post shows the flipped like state. */
  lemma ThrownToggleShowsFlipped(posts: seq<Post>, post: Post, i: nat)
    requires i < |posts| && posts[i] == post
    ensures var r := ApplyUpdates(posts, ToggleLike(post, Thrown).updates);
            r[i].isLiked == !post.isLiked && r[i].likeCount == Some(Optimistic(post).likesCount)
  {
    var t := ToggleLike(post, Thrown);
    assert t.updates[1..] == [];
  }

  /** The optimistic unlike is not clamped: a liked post showing no likes shows minus one. */
  lemma UnlikeOfZeroShowsMinusOne(post: Post)
    requires post.isLiked && CountOrZero(post) == 0
    ensures Optimistic(post).likesCount == -1
  {
  }

  /**
   * A like is counted twice on the liker's own screen: the optimistic
   * update adds one, and the realtime `likes` INSERT for the same like
   * adds another.
   */
  lemma OwnLikeCountedTwice(posts: seq<Post>, post: Post, i: nat, viewer: string)
    requires i < |posts| && posts[i] == post && !post.isLiked
    ensures var shown := ApplyUpdates(posts, ToggleLike(post, Responded(true)).updates);
            var r := OnLikeInserted(shown, post.id, viewer, Some(viewer));
            r[i].likeCount == Some(CountOrZero(post) + 2) && r[i].isLiked
  {
    var t := ToggleLike(post, Responded(true));
    assert t.updates[1..] == [];
  }
}
