/** The public post collection endpoint: `GET` lists posts a page at a time,
    optionally for one author; `POST` creates a post for the caller. */
module PostsApi {
  import opened Wrappers
  import opened Strings
  import opened Auth
  import opened Store
  import opened Ordering
  import opened Pagination
  import PostSchema

  /** The query of a listing: paging and the `author` parameter. */
  datatype ListQuery = ListQuery(paging: PageQuery, author: Option<string>)

  /** A listing: one page of posts and its pagination block. */
  datatype PostList = PostList(posts: seq<Post>, pagination: PageInfo)

  /** The posts a filter selects: those whose author is the filter's id,
      all posts when there is no filter. */
  function Selected(posts: seq<Post>, filter: Option<string>): (r: seq<Post>)
    ensures filter.Some? ==> forall p :: p in r <==> p in posts && p.author == filter.value
    ensures filter.None? ==> r == posts
  {
    if filter.Some? then PostsBy(posts, filter.value) else posts
  }

  /** One page of `posts`, newest first, with the pagination block counting
      all of them: the count and the listing run the same query. */
  function PageOfPosts(posts: seq<Post>, q: PageQuery): (r: PostList)
    requires ValidQuery(q)
    ensures |r.posts| == if |posts| <= Skip(PageOf(q), LimitOf(q)) then 0
                         else Min(LimitOf(q), |posts| - Skip(PageOf(q), LimitOf(q)))
    ensures NewestFirst(r.posts, PostCreatedAt)
    ensures forall p :: p in r.posts ==> p in posts
    ensures r.pagination == Paginate(PageOf(q), LimitOf(q), |posts|)
    ensures r.pagination.hasNextPage <==> PageOf(q) < r.pagination.totalPages
    ensures r.pagination.hasPrevPage <==> PageOf(q) > 1
  {
    PostList(NewestPage(posts, PostCreatedAt, q), Paginate(PageOf(q), LimitOf(q), |posts|))
  }

  /** The `author` parameter can be used as a filter: it is absent or
      empty, or it casts to an ObjectId. */
  predicate Castable(author: Option<string>, cast: IdCast) {
    !Truthy(author) || cast(author.value).Some?
  }

  /** The filter the `author` parameter puts on the query: none when the
      parameter is absent or empty, otherwise the id it casts to. */
  function AuthorFilter(author: Option<string>, cast: IdCast): (r: Option<string>)
    requires Castable(author, cast)
    ensures r.None? <==> !Truthy(author)
    ensures r.Some? ==> cast(author.value) == r
  {
    if Truthy(author) then cast(author.value) else None
  }

  /** `GET /api/posts`: 200 with one page of the selected posts. An `author`
      that does not cast to an ObjectId makes the count query throw, and the
      catch-all answers 500. */
  function ListPosts(db: Db, q: ListQuery, cast: IdCast): (r: Response<PostList>)
    requires ValidQuery(q.paging)
    ensures r.Failure? <==> !Castable(q.author, cast)
    ensures r.Failure? ==> r == Failure(500, InternalError)
    ensures r.Success? ==>
      && r.status == 200
      && var n := |Selected(db.posts, AuthorFilter(q.author, cast))|;
      && |r.value.posts| == (if n <= Skip(PageOf(q.paging), LimitOf(q.paging)) then 0
                             else Min(LimitOf(q.paging), n - Skip(PageOf(q.paging), LimitOf(q.paging))))
      && NewestFirst(r.value.posts, PostCreatedAt)
      && (forall p :: p in r.value.posts ==> p in db.posts)
      && (Truthy(q.author) ==> forall p :: p in r.value.posts ==> p.author == cast(q.author.value).value)
      && r.value.pagination == Paginate(PageOf(q.paging), LimitOf(q.paging), n)
      && (r.value.pagination.hasNextPage <==> PageOf(q.paging) < r.value.pagination.totalPages)
      && (r.value.pagination.hasPrevPage <==> PageOf(q.paging) > 1)
  {
    if !Castable(q.author, cast) then Failure(500, InternalError)
    else Success(200, PageOfPosts(Selected(db.posts, AuthorFilter(q.author, cast)), q.paging))
  }

  /** Two spellings of one id, such as the same hex digits in upper and in
      lower case, list the same posts. */
  lemma SpellingsListAlike(db: Db, q: PageQuery, a1: string, a2: string, cast: IdCast)
    requires ValidQuery(q)
    requires a1 != "" && a2 != "" && cast(a1) == cast(a2)
    ensures ListPosts(db, ListQuery(q, Some(a1)), cast) == ListPosts(db, ListQuery(q, Some(a2)), cast)
  {
  }

  /** An `author` spelled otherwise than the stored id still selects that
      author's posts, once it casts to that id. */
  lemma CastSpellingSelects(db: Db, q: PageQuery, author: string, cast: IdCast)
    requires ValidQuery(q) && author != "" && cast(author).Some?
    ensures ListPosts(db, ListQuery(q, Some(author)), cast).value.pagination.totalItems ==
            |PostsBy(db.posts, cast(author).value)|
  {
  }

  /** Pages 1 to `k` of the listing, concatenated. */
  function ListedPages(db: Db, author: Option<string>, limit: int, k: nat, cast: IdCast): seq<Post>
    requires limit >= 1 && Castable(author, cast)
  {
    if k == 0 then []
    else ListedPages(db, author, limit, k - 1, cast)
         + ListPosts(db, ListQuery(PageQuery(Some(k), Some(limit)), author), cast).value.posts
  }

  /** The endpoint's pages 1 to `k` are pages 1 to `k` of the selection
      sorted newest first. */
  lemma {:induction false} ListedPagesArePages(db: Db, author: Option<string>, limit: int, k: nat, cast: IdCast)
    requires limit >= 1 && Castable(author, cast)
    ensures ListedPages(db, author, limit, k, cast) ==
            Pages(SortNewestFirst(Selected(db.posts, AuthorFilter(author, cast)), PostCreatedAt), limit, k)
  {
    if k > 0 {
      ListedPagesArePages(db, author, limit, k - 1, cast);
      ListedPage(db, author, limit, k, cast);
    }
  }

  /** Page `k` of the listing is the `k`-th window of the sorted selection. */
  lemma ListedPage(db: Db, author: Option<string>, limit: nat, k: nat, cast: IdCast)
    requires limit >= 1 && k >= 1 && Castable(author, cast)
    ensures Skip(k, limit) >= 0
    ensures ListPosts(db, ListQuery(PageQuery(Some(k), Some(limit)), author), cast).value.posts ==
            Window(SortNewestFirst(Selected(db.posts, AuthorFilter(author, cast)), PostCreatedAt), Skip(k, limit), limit)
  {
    MulMonotone(0, k - 1, limit);
  }

  /** Every page from 1 to `totalPages` is its own query, and the database
      may order posts with equal `createdAt` differently each time: `orders`
      holds the arrangement each page query sees. When posts created at the
      same instant are identical, the pages read this way are the listing's
      pages, and they hold each selected post exactly as often as it is
      stored, newest first. */
  lemma ListingCoversSelection(db: Db, author: Option<string>, limit: int, cast: IdCast, orders: seq<seq<Post>>)
    requires limit >= 1 && Castable(author, cast)
    requires TiesIdentical(Selected(db.posts, AuthorFilter(author, cast)), PostCreatedAt)
    requires Arrangements(orders, Selected(db.posts, AuthorFilter(author, cast)), PostCreatedAt)
    requires |orders| == ListPosts(db, ListQuery(PageQuery(Some(1), Some(limit)), author), cast).value.pagination.totalPages
    ensures var read := PagesOfOrders(orders, limit, |orders|);
            && read == ListedPages(db, author, limit, |orders|, cast)
            && multiset(read) == multiset(Selected(db.posts, AuthorFilter(author, cast)))
            && NewestFirst(read, PostCreatedAt)
  {
    var sel := Selected(db.posts, AuthorFilter(author, cast));
    var sorted := SortNewestFirst(sel, PostCreatedAt);
    assert |orders| == Paginate(1, limit, |sel|).totalPages;
    SeparateQueriesListEverything(sel, PostCreatedAt, orders, limit);
    ListedPagesArePages(db, author, limit, |orders|, cast);
    assert |sorted| == |multiset(sorted)| == |sel|;
    AllPagesListEverything(sorted, limit);
  }

  /** Two different posts created at the same instant can make the page
      queries list one of them twice and the other never. */
  lemma TiedPostsMayRepeat(p1: Post, p2: Post)
    requires p1 != p2 && p1.createdAt == p2.createdAt
    ensures Arrangements([[p1, p2], [p2, p1]], [p1, p2], PostCreatedAt)
    ensures PagesOfOrders([[p1, p2], [p2, p1]], 1, 2) == [p1, p1]
  {
    TiedPagesMayRepeat(p1, p2, PostCreatedAt);
  }

  /** The body of a creation request. It has no author field: the author is
      always the caller. */
  datatype PostBody = PostBody(title: Option<string>, content: Option<string>)

  const FieldsRequired := "Title and content are required"
  const TitleTooLong := "Title cannot be more than 100 characters"
  const InternalError := "Internal server error"

  /** `POST /api/posts`: 401 without a token or with one that does not
      verify, 400 when title or content is missing, 400 when the title is
      longer than 100 characters; otherwise the post is validated by the
      schema and saved with the caller as author (201). A schema failure
      is caught as a 500. Every failure leaves the database unchanged. */
  function CreatePost(token: Option<string>, verify: Verifier, body: PostBody, db: Db, newId: string, now: int): (r: Handled<Post>)
    ensures r.response.Failure? ==> r.db == db
    ensures r.response.Failure? && r.response.status == 401 <==> Authenticate(token, verify).Failure?
    ensures Authenticate(token, verify).Failure? ==> r.response == Authenticate(token, verify).PropagateFailure()
    ensures r.response == Failure(400, FieldsRequired) <==>
      Authenticate(token, verify).Success? && (!Truthy(body.title) || !Truthy(body.content))
    ensures r.response == Failure(400, TitleTooLong) <==>
      && Authenticate(token, verify).Success? && Truthy(body.title) && Truthy(body.content)
      && |body.title.value| > PostSchema.MaxTitleLength
    ensures r.response.Success? ==>
      && r.response.status == 201
      && r.response.value.id == newId
      && r.response.value.author == verify(token.value).value.id
      && r.response.value.title == Trim(body.title.value)
      && r.response.value.content == Trim(body.content.value)
      && r.response.value.createdAt == now && r.response.value.updatedAt == now
      && r.db == db.(posts := db.posts + [r.response.value])
  {
    match Authenticate(token, verify)
    case Failure(status, error) => Handled(Failure(status, error), db)
    case Success(_, claims) =>
      if !Truthy(body.title) || !Truthy(body.content) then Handled(Failure(400, FieldsRequired), db)
      else if |body.title.value| > PostSchema.MaxTitleLength then Handled(Failure(400, TitleTooLong), db)
      else match PostSchema.ValidatePost(body.title.value, body.content.value, claims.id)
        case Err(_) => Handled(Failure(500, InternalError), db)
        case Ok(f) =>
          var post := Post(newId, f.title, f.content, f.author, now, now);
          Handled(Success(201, post), db.(posts := db.posts + [post]))
  }

  /** A request that passes the handler's checks is saved exactly when the
      trimmed title and content are non-empty and the caller's id is set:
      the length limit needs no second look, since trimming never lengthens. */
  lemma {:induction false} CreateSucceedsIff(token: Option<string>, verify: Verifier, body: PostBody, db: Db, newId: string, now: int)
    requires Authenticate(token, verify).Success?
    requires Truthy(body.title) && Truthy(body.content) && |body.title.value| <= PostSchema.MaxTitleLength
    ensures CreatePost(token, verify, body, db, newId, now).response.Success? <==>
      Trim(body.title.value) != "" && Trim(body.content.value) != "" && verify(token.value).value.id != ""
  {
    PostSchema.UntrimmedLimitSuffices(body.title.value);
  }

  /** A title of exactly 100 characters passes the length check; one of 101
      is refused with the length message. */
  lemma TitleLengthBoundary(token: Option<string>, verify: Verifier, t100: string, t101: string, content: string, db: Db, newId: string, now: int)
    requires Authenticate(token, verify).Success? && content != ""
    requires |t100| == 100 && |t101| == 101
    ensures CreatePost(token, verify, PostBody(Some(t100), Some(content)), db, newId, now).response != Failure(400, TitleTooLong)
    ensures CreatePost(token, verify, PostBody(Some(t101), Some(content)), db, newId, now).response == Failure(400, TitleTooLong)
  {
  }

  /** A title of spaces passes the handler's presence check, which tests the
      raw string, but the schema refuses it after trimming, and the
      rejection surfaces as a 500. */
  lemma BlankTitleIsServerError(token: Option<string>, verify: Verifier, content: string, db: Db, newId: string, now: int)
    requires Authenticate(token, verify).Success? && content != ""
    ensures CreatePost(token, verify, PostBody(Some("   "), Some(content)), db, newId, now).response == Failure(500, InternalError)
  {
    var claims := Authenticate(token, verify).value;
    PostSchema.BlankTitleRequired(content, claims.id);
    assert |"   "| <= PostSchema.MaxTitleLength && Truthy(Some("   "));
  }
}
