/**
 * One post in the feed: who may edit it, the "(edited)" mark, the edit
 * box and its save and cancel, and delete behind a confirmation. The
 * confirmation and the answers of the update and delete calls are
 * parameters.
 */
module PostCard {
  import opened Wrappers
  import opened Text
  import opened Posts
  import opened Validators
  import opened FeedStore
  import opened Composer

  /** The viewer owns the post; only the owner sees the edit and delete controls. A signed-out viewer owns nothing. */
  function IsOwner(viewer: Option<string>, post: Post): (b: bool)
    ensures b <==> viewer.Some? && viewer.value == post.authorId
  {
    viewer == Some(post.authorId)
  }

  /** The "(edited)" mark: the post was updated after it was created. */
  predicate Edited(post: Post) {
    post.updatedAt != post.createdAt
  }

  /** A realtime update carrying a new `updated_at` marks the entry as edited. */
  lemma RealtimeUpdateMarksEdited(posts: seq<Post>, id: string, content: string, updatedAt: string, i: nat)
    requires i < |posts| && posts[i].id == id && updatedAt != posts[i].createdAt
    ensures Edited(OnPostUpdated(posts, id, content, updatedAt)[i])
  {
  }

  /** The card's own state: whether the edit box is open, and its text. */
  datatype Card = Card(editing: bool, draft: string)

  /** A new card is closed with the post's text as the draft. */
  function InitialCard(post: Post): (c: Card)
    ensures !c.editing && c.draft == post.content
  {
    Card(false, post.content)
  }

  /** The Edit entry of the menu opens a closed box and closes an open one, keeping the draft. */
  function ToggleEditing(card: Card): (c: Card)
    ensures c.editing != card.editing && c.draft == card.draft
  {
    card.(editing := !card.editing)
  }

  /** Cancel closes the box and puts the post's text back. */
  function Cancel(card: Card, post: Post): (c: Card)
    ensures c == InitialCard(post)
  {
    Card(false, post.content)
  }

  /** Whatever was typed, opening and cancelling returns the card to its first state. */
  lemma CancelDiscardsDraft(post: Post, typed: string)
    ensures Cancel(Card(true, typed), post) == InitialCard(post)
    ensures Cancel(ToggleEditing(InitialCard(post)), post) == InitialCard(post)
  {
  }

  /** The save button is disabled while a change is in flight, for a blank draft, and for a draft over the limit. */
  predicate SaveDisabled(draft: string, loading: bool) {
    loading || Trim(draft) == "" || |draft| > 280
  }

  /** Save and the composer's submit are disabled under the same conditions. */
  lemma SaveDisabledLikeSubmit(draft: string, loading: bool)
    ensures SaveDisabled(draft, loading) <==> SubmitDisabled(draft, loading)
  {
  }

  /** Whatever an enabled save sends, the update schema accepts unchanged, and it is non-blank. */
  lemma EnabledSaveIsAccepted(draft: string, loading: bool)
    requires !SaveDisabled(draft, loading)
    ensures ParseUpdatePost(Object(Text(Trim(draft)))) == Ok(Trim(draft))
    ensures Trim(draft) != ""
  {
    EnabledSubmitIsAccepted(draft, loading, None);
  }

  /** What a save did: the card afterwards, the content sent (if any), and the post handed to the page (if any). */
  datatype Edit = Edit(card: Card, sent: Option<string>, updated: Option<Post>)

  /**
   * `handleEdit`: a blank draft sends nothing; otherwise the trimmed draft
   * is sent, and only a returned post reaches the page and closes the box.
   */
  function HandleEdit(card: Card, updateResult: Option<Post>): (r: Edit)
    ensures r.sent.None? <==> Trim(card.draft) == ""
    ensures r.sent.Some? ==> r.sent.value == Trim(card.draft)
    ensures r.updated.Some? <==> r.sent.Some? && updateResult.Some?
    ensures r.updated.Some? ==> r.updated == updateResult && r.card == card.(editing := false)
    ensures r.updated.None? ==> r.card == card
  {
    var sent := Trim(card.draft);
    if sent == "" then Edit(card, None, None)
    else if updateResult.Some? then Edit(card.(editing := false), Some(sent), updateResult)
    else Edit(card, Some(sent), None)
  }

  /** A save sends what the composer would send for the same text. */
  lemma EditSendsLikeSubmit(card: Card, updateResult: Option<Post>, createResult: Option<Post>)
    ensures HandleEdit(card, updateResult).sent == HandleSubmit(card.draft, createResult).sent
  {
  }

  /** What a delete did: whether the request was made, and the id handed to the page (if any). */
  datatype Delete = Delete(requested: bool, deleted: Option<string>)

  /** `handleDelete`: nothing without confirmation; the page hears of it only when the delete succeeded. */
  function HandleDelete(post: Post, confirmed: bool, success: bool): (r: Delete)
    ensures r.requested <==> confirmed
    ensures r.deleted.Some? <==> confirmed && success
    ensures r.deleted.Some? ==> r.deleted.value == post.id
  {
    if !confirmed then Delete(false, None)
    else if success then Delete(true, Some(post.id))
    else Delete(true, None)
  }
}
