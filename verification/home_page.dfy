/**
 * The feed page's list callbacks (prepend a created post, replace an
 * updated one, remove a deleted one, set a like state) and how it names
 * and finds the signed-in user's profile.
 */
module HomePage {
  import opened Wrappers
  import opened Text
  import opened Posts

  /** A created post goes to the top, whatever the current filter or query. */
  function HandlePostCreated(posts: seq<Post>, created: Post): (r: seq<Post>)
    ensures |r| == |posts| + 1
    ensures r[0] == created && r[1..] == posts
  {
    [created] + posts
  }

  /** Every entry with the updated post's id is replaced by it as a whole. */
  function HandlePostUpdated(posts: seq<Post>, updated: Post): (r: seq<Post>)
    ensures |r| == |posts|
    ensures forall i :: 0 <= i < |posts| ==> r[i].id == posts[i].id
    ensures forall i :: 0 <= i < |posts| && posts[i].id != updated.id ==> r[i] == posts[i]
    ensures forall i :: 0 <= i < |posts| && posts[i].id == updated.id ==> r[i] == updated
  {
    UpdateWhere(posts, updated.id, (_: Post) => updated)
  }

  /** Every entry with the id is removed; the others keep their order. */
  function HandlePostDeleted(posts: seq<Post>, id: string): (r: seq<Post>)
    ensures forall i :: 0 <= i < |r| ==> r[i].id != id
    ensures IsSubsequence(r, posts)
    ensures |r| == |posts| - CountId(posts, id)
  {
    RemoveId(posts, id)
  }

  /** Every entry with the id takes the given like state and count; nothing else changes. */
  function HandleLikeToggled(posts: seq<Post>, id: string, isLiked: bool, likesCount: int): (r: seq<Post>)
    ensures |r| == |posts|
    ensures forall i :: 0 <= i < |posts| && posts[i].id != id ==> r[i] == posts[i]
    ensures forall i :: 0 <= i < |posts| && posts[i].id == id ==>
              r[i] == posts[i].(isLiked := isLiked, likeCount := Some(likesCount))
  {
    UpdateWhere(posts, id, (p: Post) => p.(isLiked := isLiked, likeCount := Some(likesCount)))
  }

  /** Creating a post with a new id and then deleting it gives back the list. */
  lemma CreateThenDeleteRestores(posts: seq<Post>, created: Post)
    requires forall i :: 0 <= i < |posts| ==> posts[i].id != created.id
    ensures HandlePostDeleted(HandlePostCreated(posts, created), created.id) == posts
  {
    var r := HandlePostCreated(posts, created);
    assert r[1..] == posts;
    RemoveAbsentId(posts, created.id);
  }

  /** Applying the same server post twice is applying it once. */
  lemma PostUpdatedIdempotent(posts: seq<Post>, updated: Post)
    ensures HandlePostUpdated(HandlePostUpdated(posts, updated), updated) == HandlePostUpdated(posts, updated)
  {
  }

  /** The last like state set for an id is the one that stays. */
  lemma LastLikeToggleWins(posts: seq<Post>, id: string, a: bool, n: int, b: bool, m: int)
    ensures HandleLikeToggled(HandleLikeToggled(posts, id, a, n), id, b, m) == HandleLikeToggled(posts, id, b, m)
  {
  }

  /** The error code the data API returns when `.single()` finds no row. */
  const NoRowsCode: string := "PGRST116"

  const DefaultUsername: string := "user"

  /**
   * The username a new profile gets: the sign-up metadata username, else
   * the part of the e-mail address before the first `@`, else `"user"`;
   * an empty candidate counts as absent.
   */
  function ProfileUsername(metadataUsername: Option<string>, email: Option<string>): (u: string)
    ensures u != ""
    ensures Truthy(metadataUsername) ==> u == metadataUsername.value
    ensures !Truthy(metadataUsername) && email.Some? && BeforeFirst(email.value, '@') != "" ==>
              u == BeforeFirst(email.value, '@')
    ensures !Truthy(metadataUsername) && (email.None? || BeforeFirst(email.value, '@') == "") ==>
              u == DefaultUsername
  {
    if Truthy(metadataUsername) then metadataUsername.value
    else if email.Some? && BeforeFirst(email.value, '@') != "" then BeforeFirst(email.value, '@')
    else DefaultUsername
  }

  /** Without a metadata username, the address `local@domain` names the profile `local`. */
  lemma UsernameFromEmail(metadataUsername: Option<string>, local: string, domain: string)
    requires !Truthy(metadataUsername) && local != "" && '@' !in local
    ensures ProfileUsername(metadataUsername, Some(local + "@" + domain)) == local
  {
    LocalPartBeforeAt(local, domain);
  }

  lemma {:induction false} LocalPartBeforeAt(local: string, domain: string)
    requires '@' !in local
    ensures BeforeFirst(local + "@" + domain, '@') == local
    decreases |local|
  {
    var e := local + "@" + domain;
    if |local| > 0 {
      assert e[1..] == local[1..] + "@" + domain;
      assert local == [local[0]] + local[1..];
      LocalPartBeforeAt(local[1..], domain);
    }
  }

  /** The answer of the profile lookup: the stored username, if any, and the error code, if any. */
  datatype Lookup = Lookup(username: Option<string>, errorCode: Option<string>)

  /** What loading the profile does: the username it inserts, if any, and the profile it ends with. */
  datatype ProfileLoad = ProfileLoad(inserted: Option<string>, profile: Option<string>)

  /**
   * Loading the signed-in user's profile: a lookup that failed with the
   * no-rows code creates the profile and keeps what the insert returns;
   * any other answer, other errors included, is kept as it is.
   */
  function LoadProfile(lookup: Lookup, metadataUsername: Option<string>, email: Option<string>,
                       insertResult: Option<string>): (r: ProfileLoad)
    ensures r.inserted.Some? <==> lookup.errorCode == Some(NoRowsCode)
    ensures r.inserted.Some? ==> r.inserted.value == ProfileUsername(metadataUsername, email)
    ensures r.inserted.Some? ==> r.profile == insertResult
    ensures r.inserted.None? ==> r.profile == lookup.username
  {
    if lookup.errorCode == Some(NoRowsCode) then
      ProfileLoad(Some(ProfileUsername(metadataUsername, email)), insertResult)
    else
      ProfileLoad(None, lookup.username)
  }

  /** A lookup failing for any other reason creates nothing and leaves no profile. */
  lemma OtherErrorCreatesNothing(code: string, metadataUsername: Option<string>, email: Option<string>,
                                 insertResult: Option<string>)
    requires code != NoRowsCode
    ensures LoadProfile(Lookup(None, Some(code)), metadataUsername, email, insertResult) == ProfileLoad(None, None)
  {
  }
}
