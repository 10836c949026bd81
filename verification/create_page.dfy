/** The post creation page: the checks it makes before sending, the body it
    sends, and where it goes afterwards. */
module CreatePage {
  import opened Wrappers
  import opened Strings
  import opened Auth
  import opened Store
  import PostsApi
  import PostSchema

  /** The page's own refusals. */
  datatype FormError = FieldsMissing | TitleTooLong
  {
    function Message(): string {
      match this
      case FieldsMissing => PostsApi.FieldsRequired
      case TitleTooLong => PostsApi.TitleTooLong
    }
  }

  /** Title and content must be non-blank once trimmed; then the title, as
      typed, may be at most 100 characters. */
  function CheckForm(title: string, content: string): (r: Option<FormError>)
    ensures r == Some(FieldsMissing) <==> Trim(title) == "" || Trim(content) == ""
    ensures r == Some(TitleTooLong) <==> Trim(title) != "" && Trim(content) != "" && |title| > PostSchema.MaxTitleLength
  {
    if Trim(title) == "" || Trim(content) == "" then Some(FieldsMissing)
    else if |title| > PostSchema.MaxTitleLength then Some(TitleTooLong)
    else None
  }

  /** The request carries title and content as typed, untrimmed. */
  function RequestBody(title: string, content: string): (b: PostsApi.PostBody)
    ensures b.title == Some(title) && b.content == Some(content)
  {
    PostsApi.PostBody(Some(title), Some(content))
  }

  /** What the page does with the reply. */
  datatype Outcome = Navigate(path: string) | ShowError(message: string)

  const FallbackError := "Failed to create post"

  /** On success the page opens the new post; otherwise it shows the
      server's message, or a fallback when the message is empty. */
  function OutcomeOf(r: Response<Post>): (o: Outcome)
    ensures r.Success? ==> o.Navigate? && StartsWith(o.path, "/posts/") && o.path[|"/posts/"|..] == r.value.id
    ensures r.Failure? ==> o == ShowError(if r.error == "" then FallbackError else r.error)
  {
    match r
    case Success(_, post) => Navigate("/posts/" + post.id)
    case Failure(_, error) => ShowError(if error == "" then FallbackError else error)
  }

  /** A form the page lets through, sent with a verified token whose id is
      set, is saved by the server: the page's checks imply the handler's
      and the schema's. */
  lemma {:induction false} CheckedFormIsCreated(title: string, content: string, token: Option<string>, verify: Verifier, db: Db, newId: string, now: int)
    requires CheckForm(title, content).None?
    requires Authenticate(token, verify).Success? && verify(token.value).value.id != ""
    ensures PostsApi.CreatePost(token, verify, RequestBody(title, content), db, newId, now).response.Success?
    ensures OutcomeOf(PostsApi.CreatePost(token, verify, RequestBody(title, content), db, newId, now).response) == Navigate("/posts/" + newId)
  {
    var body := RequestBody(title, content);
    assert |Trim(title)| <= |title| && |Trim(content)| <= |content|;
    assert Truthy(body.title) && Truthy(body.content) && |body.title.value| <= PostSchema.MaxTitleLength;
    PostsApi.CreateSucceedsIff(token, verify, body, db, newId, now);
    var r := PostsApi.CreatePost(token, verify, body, db, newId, now);
    assert r.response.Success? && r.response.value.id == newId;
  }
}
