/** The validation a post document passes on `save()`: title and content are
    trimmed by their setters, then the title must be non-empty and at most
    100 characters, the content non-empty, and the author present. */
module PostSchema {
  import opened Wrappers
  import opened Strings

  const MaxTitleLength := 100

  /** The schema's validation failures, one per validator. */
  datatype FieldError = TitleRequired | TitleTooLong | ContentRequired | AuthorRequired
  {
    function Message(): string {
      match this
      case TitleRequired => "Title is required"
      case TitleTooLong => "Title cannot be more than 100 characters"
      case ContentRequired => "Content is required"
      case AuthorRequired => "Author is required"
    }
  }

  /** The field values that are stored once validation succeeds. */
  datatype PostFields = PostFields(title: string, content: string, author: string)

  /** The first failing validator of the title path, if any. */
  function TitleError(title: string): (e: Option<FieldError>)
    ensures e == Some(TitleRequired) <==> Trim(title) == ""
    ensures e == Some(TitleTooLong) <==> |Trim(title)| > MaxTitleLength
    ensures e.None? <==> Trim(title) != "" && |Trim(title)| <= MaxTitleLength
  {
    var t := Trim(title);
    if t == "" then Some(TitleRequired)
    else if |t| > MaxTitleLength then Some(TitleTooLong)
    else None
  }

  function ContentError(content: string): (e: Option<FieldError>)
    ensures e.Some? <==> Trim(content) == ""
    ensures e.Some? ==> e.value == ContentRequired
  {
    if Trim(content) == "" then Some(ContentRequired) else None
  }

  function AuthorError(author: string): (e: Option<FieldError>)
    ensures e.Some? <==> author == ""
    ensures e.Some? ==> e.value == AuthorRequired
  {
    if author == "" then Some(AuthorRequired) else None
  }

  function Errors(title: string, content: string, author: string): seq<FieldError> {
    AsList(TitleError(title)) + AsList(ContentError(content)) + AsList(AuthorError(author))
  }

  /** Validation of a new post: either the trimmed fields, or one message per
      failing field in schema order. */
  function ValidatePost(title: string, content: string, author: string): (r: Result<PostFields, seq<FieldError>>)
    ensures r.Ok? <==> Trim(title) != "" && |Trim(title)| <= MaxTitleLength && Trim(content) != "" && author != ""
    ensures r.Ok? ==> r.value.title == Trim(title) && r.value.content == Trim(content) && r.value.author == author
    ensures r.Err? ==> (TitleRequired in r.error <==> Trim(title) == "")
    ensures r.Err? ==> (TitleTooLong in r.error <==> |Trim(title)| > MaxTitleLength)
    ensures r.Err? ==> (ContentRequired in r.error <==> Trim(content) == "")
    ensures r.Err? ==> (AuthorRequired in r.error <==> author == "")
  {
    var te, ce, ae := TitleError(title), ContentError(content), AuthorError(author);
    var errors := AsList(te) + AsList(ce) + AsList(ae);
    ErrorsMembership(te, ce, ae);
    assert ce != Some(TitleRequired) && ce != Some(TitleTooLong) && ae != Some(TitleRequired) && ae != Some(TitleTooLong);
    assert te != Some(ContentRequired) && ae != Some(ContentRequired);
    assert te != Some(AuthorRequired) && ce != Some(AuthorRequired);
    if errors == [] then Ok(PostFields(Trim(title), Trim(content), author)) else Err(errors)
  }

  /** A failure is listed exactly when one of the three fields reports it. */
  lemma ErrorsMembership(te: Option<FieldError>, ce: Option<FieldError>, ae: Option<FieldError>)
    ensures forall x :: x in AsList(te) + AsList(ce) + AsList(ae) <==> te == Some(x) || ce == Some(x) || ae == Some(x)
    ensures AsList(te) + AsList(ce) + AsList(ae) == [] <==> te.None? && ce.None? && ae.None?
  {
  }

  /** Trimming never lengthens, so a title within 100 characters before
      trimming is within the schema's limit after it. */
  lemma UntrimmedLimitSuffices(title: string)
    requires |title| <= MaxTitleLength
    ensures TitleError(title) != Some(TitleTooLong)
  {
  }

  /** Stored fields are already trimmed: validating them again accepts them
      unchanged. */
  lemma StoredFieldsRevalidate(title: string, content: string, author: string)
    ensures var r := ValidatePost(title, content, author);
            r.Ok? ==> ValidatePost(r.value.title, r.value.content, r.value.author) == r
  {
    TrimIdempotent(title);
    TrimIdempotent(content);
  }

  /** A title of white space only is refused as missing. */
  lemma BlankTitleRequired(content: string, author: string)
    ensures ValidatePost("   ", content, author) == Err(Errors("   ", content, author))
    ensures TitleRequired in Errors("   ", content, author)
  {
    TrimEmptyIffAllWhitespace("   ");
  }
}
