/**
 * The post composer: the characters left, when the submit button is
 * disabled, and what a submit sends and does afterwards. The create call's
 * answer is a parameter.
 */
module Composer {
  import opened Wrappers
  import opened Text
  import opened Posts
  import opened Validators
  import opened FeedRoute

  /** The counter under the box: may go negative for text longer than the limit. */
  function RemainingChars(content: string): (n: int)
    ensures n + |content| == MaxContentLength
    ensures n >= 0 <==> |content| <= MaxContentLength
  {
    280 - |content|
  }

  /** The submit button is disabled while posting, for blank text, and for text over the limit. */
  predicate SubmitDisabled(content: string, loading: bool) {
    loading || Trim(content) == "" || |content| > 280
  }

  /** What a submit did: the content sent (if any), the text left in the box, and the post handed to the page (if any). */
  datatype Submit = Submit(sent: Option<string>, content: string, created: Option<Post>)

  /**
   * `handleSubmit`: blank text sends nothing; otherwise the trimmed text is
   * sent, and only a returned post clears the box and reaches the page.
   */
  function HandleSubmit(content: string, createResult: Option<Post>): (r: Submit)
    ensures r.sent.None? <==> Trim(content) == ""
    ensures r.sent.Some? ==> r.sent.value == Trim(content)
    ensures r.created.Some? <==> r.sent.Some? && createResult.Some?
    ensures r.created.Some? ==> r.created == createResult && r.content == ""
    ensures r.created.None? ==> r.content == content
  {
    var sent := Trim(content);
    if sent == "" then Submit(None, content, None)
    else if createResult.Some? then Submit(Some(sent), "", createResult)
    else Submit(Some(sent), content, None)
  }

  /**
   * For text within the limit and no post in flight, the button is
   * disabled exactly when a submit would send nothing.
   */
  lemma DisabledIffNothingSent(content: string, createResult: Option<Post>)
    requires |content| <= MaxContentLength
    ensures SubmitDisabled(content, false) <==> HandleSubmit(content, createResult).sent.None?
  {
  }

  /** Whatever an enabled submit sends, the create schema accepts unchanged, and it is non-blank. */
  lemma EnabledSubmitIsAccepted(content: string, loading: bool, createResult: Option<Post>)
    requires !SubmitDisabled(content, loading)
    ensures var r := HandleSubmit(content, createResult);
            && r.sent.Some?
            && ParseCreatePost(Object(Text(r.sent.value))) == Ok(r.sent.value)
            && 1 <= |r.sent.value| <= MaxContentLength
            && IsTrimmed(r.sent.value)
  {
    var sent := Trim(content);
    assert 1 <= |sent| <= MaxContentLength;
    TrimIdempotent(content);
    TrimmedWithinLimitAccepted(sent);
    TrimIsTrimmed(content);
  }

  /** Text already trimmed, non-blank and within the limit passes the create schema unchanged. */
  lemma TrimmedWithinLimitAccepted(sent: string)
    requires 1 <= |sent| <= MaxContentLength && Trim(sent) == sent
    ensures ParseCreatePost(Object(Text(sent))) == Ok(sent)
  {
    ContentRule(sent);
  }

  /**
   * End to end: the server never answers an enabled submit with 400; a
   * signed-in author whose insert succeeds gets 201 with exactly the sent text.
   */
  lemma EnabledSubmitNeverRejected(content: string, loading: bool, createResult: Option<Post>,
                                   header: Option<string>, identity: AuthSource -> Option<string>, insert: Insert)
    requires !SubmitDisabled(content, loading)
    ensures var r := HandleSubmit(content, createResult);
            var response := HandlePost(header, identity, Object(Text(r.sent.value)), insert);
            && !response.BadRequest400?
            && (identity(AuthSourceOf(header)).Some? && insert.Inserted? ==>
                  response.Created201? && response.post.content == r.sent.value && response.post.content != "")
  {
    EnabledSubmitIsAccepted(content, loading, createResult);
  }

  /** Without the button's length test, a long submit passes the guard and the server rejects it. */
  lemma LongTextPassesGuardButIsRejected(content: string, createResult: Option<Post>)
    requires |Trim(content)| > MaxContentLength
    ensures var r := HandleSubmit(content, createResult);
            r.sent.Some? && ParseCreatePost(Object(Text(r.sent.value))) == Err([TooBig(ContentTooLongMessage)])
  {
    ContentRule(Trim(content));
  }
}
