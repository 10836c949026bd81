/** The dashboard's render rules: the admin card, the "Updated" line of a
    post, and the latest-post summary. */
module DashboardPage {
  import opened Wrappers
  import opened Auth
  import opened Store
  import opened Ordering
  import PostsApi
  import ProfileApi

  /** The admin panel card is shown to an admin only. */
  predicate ShowAdminCard(role: Option<string>) {
    role == Some(AdminRole)
  }

  /** A post shows its edit date when it was changed after creation. */
  predicate ShowUpdated(p: Post) {
    p.updatedAt != p.createdAt
  }

  /** The creation time shown as the latest post: that of the first post,
      or none for an empty list. */
  function LatestPost(posts: seq<Post>): (r: Option<int>)
    ensures r.None? <==> posts == []
    ensures NewestFirst(posts, PostCreatedAt) && r.Some? ==>
      (exists p :: p in posts && p.createdAt == r.value) && forall p :: p in posts ==> p.createdAt <= r.value
  {
    if posts == [] then None
    else
      assert forall p :: p in posts ==> exists k :: 0 <= k < |posts| && posts[k] == p;
      Some(posts[0].createdAt)
  }

  /** A post fresh from creation does not show the "Updated" line. */
  lemma NewPostNotUpdated(token: Option<string>, verify: Verifier, body: PostsApi.PostBody, db: Db, newId: string, now: int)
    ensures var r := PostsApi.CreatePost(token, verify, body, db, newId, now).response;
            r.Success? ==> !ShowUpdated(r.value)
  {
  }

  /** The role the card tests: the one `GET /api/user/profile` returns for
      the viewer, or none when the profile does not load. */
  function ShownRole(token: Option<string>, verify: Verifier, db: Db): (r: Option<string>)
    ensures r.Some? <==> ProfileApi.GetProfile(token, verify, db).Success?
    ensures r.Some? ==> exists a :: a in db.accounts && a.id == verify(token.value).value.id && r.value == a.role
  {
    match ProfileApi.GetProfile(token, verify, db)
    case Success(_, view) => Some(view.user.role)
    case Failure(_, _) => None
  }

  /** The card reads the stored role, the admin endpoints the token's. While
      the two agree, the card is shown exactly to the viewers the admin
      endpoints let in; without a profile no card is shown. */
  lemma AdminCardMatchesGate(token: Option<string>, verify: Verifier, db: Db)
    ensures ShownRole(token, verify, db).None? ==> !ShowAdminCard(ShownRole(token, verify, db))
    ensures var role := ShownRole(token, verify, db);
            role.Some? && role.value == verify(token.value).value.role ==>
              (ShowAdminCard(role) <==> AuthenticateAdmin(token, verify).Success?)
  {
  }

  /** Once the stored role and the token's role differ, the card and the
      endpoints disagree: a stored admin with a `user` token sees the card
      and is refused, a stored user with an admin token is let in without
      the card. */
  lemma StaleRoleDisagrees(token: Option<string>, verify: Verifier, db: Db)
    requires ShownRole(token, verify, db).Some?
    requires ShownRole(token, verify, db).value != verify(token.value).value.role
    ensures ShownRole(token, verify, db).value == AdminRole ==>
              ShowAdminCard(ShownRole(token, verify, db)) && AuthenticateAdmin(token, verify).Failure?
    ensures verify(token.value).value.role == AdminRole ==>
              !ShowAdminCard(ShownRole(token, verify, db)) && AuthenticateAdmin(token, verify).Success?
  {
  }
}
