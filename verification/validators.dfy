/**
 * The request schemas of the post API. A string schema is a sequence of
 * checks run in the order they are declared: length bounds record an issue
 * and let the run continue, and `trim` replaces the value for the checks
 * after it. The post schemas declare their bounds before `trim`, so the
 * bounds see the untrimmed text.
 */
module Validators {
  import opened Wrappers
  import opened Text

  const MaxContentLength: nat := 280
  const ContentRequiredMessage: string := "Post content is required"
  const ContentTooLongMessage: string := "Post content must be 280 characters or less"

  /** One declared step of a string schema. */
  datatype Check =
    | MinLength(min: nat, message: string)
    | MaxLength(max: nat, message: string)
    | TrimValue

  /** A validation issue. */
  datatype Issue =
    | InvalidType            // the field is missing or is not a string
    | TooSmall(message: string)
    | TooBig(message: string)

  /** The `content` member of a JSON body. */
  datatype Field = Missing | Text(text: string) | NotText

  /** A request body: `Malformed` when it is not JSON at all. */
  datatype Body = Malformed | NotAnObject | Object(content: Field)

  /** The checks of `createPostSchema.content`. */
  const CreateContentChecks: seq<Check> :=
    [MinLength(1, ContentRequiredMessage), MaxLength(MaxContentLength, ContentTooLongMessage), TrimValue]

  /** The checks of `updatePostSchema.content`, declared separately in lib/validators.ts. */
  const UpdateContentChecks: seq<Check> :=
    [MinLength(1, ContentRequiredMessage), MaxLength(280, ContentTooLongMessage), TrimValue]

  /** The value after every transform, and the issues recorded on the way. */
  datatype Run = Run(value: string, issues: seq<Issue>)

  /** Runs `checks` over `s` in declared order. */
  function RunChecks(checks: seq<Check>, s: string): (r: Run)
    ensures |r.issues| <= |checks|
    decreases |checks|
  {
    if |checks| == 0 then Run(s, [])
    else
      var issue: seq<Issue> := match checks[0]
        case MinLength(n, m) => if |s| < n then [TooSmall(m)] else []
        case MaxLength(n, m) => if |s| > n then [TooBig(m)] else []
        case TrimValue => [];
      var next := if checks[0].TrimValue? then Trim(s) else s;
      var rest := RunChecks(checks[1..], next);
      Run(rest.value, issue + rest.issues)
  }

  /** `safeParse` of a string field against `checks`. */
  function ParseField(checks: seq<Check>, f: Field): Result<string, seq<Issue>> {
    match f
    case Text(s) =>
      var r := RunChecks(checks, s);
      if |r.issues| == 0 then Ok(r.value) else Err(r.issues)
    case _ => Err([InvalidType])
  }

  /** `createPostSchema.safeParse(body)`, for a body that parsed as JSON. */
  function ParseCreatePost(body: Body): (r: Result<string, seq<Issue>>)
    requires !body.Malformed?
    ensures body.NotAnObject? ==> r == Err([InvalidType])
    ensures body.Object? && !body.content.Text? ==> r == Err([InvalidType])
    ensures r.Ok? ==> body.Object? && body.content.Text? && IsTrimmed(r.value)
  {
    if body.Object? then
      if body.content.Text? then
        ContentRule(body.content.text);
        TrimIsTrimmed(body.content.text);
        ParseField(CreateContentChecks, body.content)
      else ParseField(CreateContentChecks, body.content)
    else Err([InvalidType])
  }

  /** `updatePostSchema.safeParse(body)`, for a body that parsed as JSON. */
  function ParseUpdatePost(body: Body): (r: Result<string, seq<Issue>>)
    requires !body.Malformed?
    ensures r == ParseCreatePost(body)
  {
    if body.Object? then ParseField(UpdateContentChecks, body.content) else Err([InvalidType])
  }

  /**
   * The content rule: a raw length from 1 to 280 is accepted and yields the
   * trimmed text; shorter input fails with the "required" message alone and
   * longer input with the "280 characters" message alone.
   */
  lemma ContentRule(s: string)
    ensures ParseField(CreateContentChecks, Text(s)).Ok? <==> 1 <= |s| <= MaxContentLength
    ensures 1 <= |s| <= MaxContentLength ==> ParseField(CreateContentChecks, Text(s)) == Ok(Trim(s))
    ensures |s| == 0 ==> ParseField(CreateContentChecks, Text(s)) == Err([TooSmall(ContentRequiredMessage)])
    ensures |s| > MaxContentLength ==> ParseField(CreateContentChecks, Text(s)) == Err([TooBig(ContentTooLongMessage)])
  {
    BoundedTrimRule(s, MaxContentLength, ContentRequiredMessage, ContentTooLongMessage);
  }

  /** The same rule for any bound and messages: bounds on the raw text, then `trim`. */
  lemma BoundedTrimRule(s: string, n: nat, small: string, big: string)
    ensures var f := ParseField([MinLength(1, small), MaxLength(n, big), TrimValue], Text(s));
            && (f.Ok? <==> 1 <= |s| <= n)
            && (1 <= |s| <= n ==> f == Ok(Trim(s)))
            && (|s| == 0 ==> f == Err([TooSmall(small)]))
            && (|s| > n ==> f == Err([TooBig(big)]))
  {
    BoundedTrimRun(s, n, small, big);
  }

  /** The issues of the bounded-trim checks: one per bound the raw text breaks. */
  function BoundIssues(s: string, n: nat, small: string, big: string): seq<Issue> {
    if |s| == 0 then [TooSmall(small)] else if |s| > n then [TooBig(big)] else []
  }

  lemma BoundedTrimRun(s: string, n: nat, small: string, big: string)
    ensures RunChecks([MinLength(1, small), MaxLength(n, big), TrimValue], s) == Run(Trim(s), BoundIssues(s, n, small, big))
  {
    var tail := [MaxLength(n, big), TrimValue];
    assert [MinLength(1, small), MaxLength(n, big), TrimValue] == [MinLength(1, small)] + tail;
    MinStepRun(1, small, tail, s);
    BoundThenTrimRun(s, n, big);
    var first: seq<Issue> := if |s| < 1 then [TooSmall(small)] else [];
    var second: seq<Issue> := if |s| > n then [TooBig(big)] else [];
    assert first + second == BoundIssues(s, n, small, big) by {
      if |s| == 0 {
        assert first + second == [TooSmall(small)] + [];
      } else if |s| > n {
        assert first + second == [] + [TooBig(big)];
      } else {
        assert first + second == [] + [];
      }
    }
  }

  lemma MinStepRun(k: nat, m: string, tail: seq<Check>, s: string)
    ensures RunChecks([MinLength(k, m)] + tail, s)
         == Run(RunChecks(tail, s).value, (if |s| < k then [TooSmall(m)] else []) + RunChecks(tail, s).issues)
  {
    var checks := [MinLength(k, m)] + tail;
    assert checks[0] == MinLength(k, m) && checks[1..] == tail;
  }

  lemma BoundThenTrimRun(s: string, n: nat, m: string)
    ensures RunChecks([MaxLength(n, m), TrimValue], s) == Run(Trim(s), if |s| > n then [TooBig(m)] else [])
  {
    var checks := [MaxLength(n, m), TrimValue];
    assert checks[1..] == [TrimValue];
    TrimRun(s);
  }

  lemma TrimRun(s: string)
    ensures RunChecks([TrimValue], s) == Run(Trim(s), [])
  {
    var checks := [TrimValue];
    assert checks[1..] == [];
  }

  /** Because the bounds come before `trim`, whitespace-only content is accepted and becomes empty. */
  lemma WhitespaceOnlyAccepted(s: string)
    requires 1 <= |s| <= MaxContentLength && AllWhitespace(s)
    ensures ParseCreatePost(Object(Text(s))) == Ok("")
  {
    ContentRule(s);
    TrimEmptyIffAllWhitespace(s);
  }

  /** Accepted content is trimmed, and trimming it again changes nothing. */
  lemma AcceptedContentIsTrimmed(body: Body)
    requires !body.Malformed? && ParseCreatePost(body).Ok?
    ensures var c := ParseCreatePost(body).value;
            IsTrimmed(c) && Trim(c) == c && |c| <= MaxContentLength
  {
    var s := body.content.text;
    ContentRule(s);
    TrimIsTrimmed(s);
    TrimIdempotent(s);
  }

  /** The normalised feed filter. */
  datatype FeedFilter = All | Mine

  /** The `filter` transform of `searchPostsSchema`: `'mine'` stays, anything else, absent included, is `'all'`. */
  function NormalizeFilter(f: Option<string>): (r: FeedFilter)
    ensures r == Mine <==> f == Some("mine")
  {
    if f == Some("mine") then Mine else All
  }

  /** The name a normalised filter is written as. */
  function FilterName(f: FeedFilter): (s: string)
    ensures NormalizeFilter(Some(s)) == f
  {
    match f
    case All => "all"
    case Mine => "mine"
  }

  /** Normalising an already normalised filter changes nothing. */
  lemma NormalizeFilterIdempotent(f: Option<string>)
    ensures NormalizeFilter(Some(FilterName(NormalizeFilter(f)))) == NormalizeFilter(f)
  {
  }
}
