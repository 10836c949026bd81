/** The admin post listing: every post, a page at a time, for callers whose
    token carries the admin role. */
module AdminPostsApi {
  import opened Wrappers
  import opened Auth
  import opened Store
  import opened Ordering
  import opened Pagination
  import PostsApi

  /** `GET /api/admin/posts`: the admin gate, then 200 with one page of all
      posts, newest first. */
  function ListAllPosts(token: Option<string>, verify: Verifier, db: Db, q: PageQuery): (r: Response<PostsApi.PostList>)
    requires ValidQuery(q)
    ensures r.Failure? <==> AuthenticateAdmin(token, verify).Failure?
    ensures r.Failure? ==> r.status == AuthenticateAdmin(token, verify).status && r.error == AuthenticateAdmin(token, verify).error
    ensures r.Success? ==>
      && r.status == 200
      && |r.value.posts| == (if |db.posts| <= Skip(PageOf(q), LimitOf(q)) then 0
                             else Min(LimitOf(q), |db.posts| - Skip(PageOf(q), LimitOf(q))))
      && NewestFirst(r.value.posts, PostCreatedAt)
      && (forall p :: p in r.value.posts ==> p in db.posts)
      && r.value.pagination == Paginate(PageOf(q), LimitOf(q), |db.posts|)
      && (r.value.pagination.hasNextPage <==> PageOf(q) < r.value.pagination.totalPages)
      && (r.value.pagination.hasPrevPage <==> PageOf(q) > 1)
  {
    var _ :- AuthenticateAdmin(token, verify);
    Success(200, PostsApi.PageOfPosts(db.posts, q))
  }

  /** For an admin, the admin listing is the public listing without an
      author filter, page for page. */
  lemma AdminListingIsPublicListing(token: Option<string>, verify: Verifier, db: Db, q: PageQuery, cast: IdCast)
    requires ValidQuery(q) && AuthenticateAdmin(token, verify).Success?
    ensures ListAllPosts(token, verify, db, q) == PostsApi.ListPosts(db, PostsApi.ListQuery(q, None), cast)
  {
  }
}
