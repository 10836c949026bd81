/** The route gate that runs before every page: it classifies the request
    path and redirects to `/login` when a protected or admin page is asked
    for without a `token` cookie. It never verifies the token. */
module RouteGate {
  import opened Wrappers
  import opened Strings
  import Auth

  datatype Decision = RedirectToLogin | Pass

  const PublicRoutes: seq<string> := ["/", "/login", "/register", "/posts"]
  const ProtectedRoutes: seq<string> := ["/dashboard", "/profile", "/posts/create", "/posts/edit"]
  const AdminRoutes: seq<string> := ["/admin", "/admin/users", "/admin/posts"]

  /** The public test as written: for some listed route, the path equals it,
      or it starts with `/posts/` and contains no `/edit`. */
  predicate IsPublicRoute(path: string) {
    exists k :: 0 <= k < |PublicRoutes| &&
      (path == PublicRoutes[k] || (StartsWith(path, "/posts/") && !Contains(path, "/edit")))
  }

  /** The path starts with one of the protected prefixes. */
  predicate IsProtectedRoute(path: string) {
    exists k :: 0 <= k < |ProtectedRoutes| && StartsWith(path, ProtectedRoutes[k])
  }

  /** The path starts with one of the admin prefixes. */
  predicate IsAdminRoute(path: string) {
    exists k :: 0 <= k < |AdminRoutes| && StartsWith(path, AdminRoutes[k])
  }

  /** The gate's decision for a path and the value of the `token` cookie. */
  function Middleware(path: string, token: Option<string>): (d: Decision)
    ensures d == RedirectToLogin ==> !Auth.Truthy(token)
    ensures d == RedirectToLogin ==> IsProtectedRoute(path) || IsAdminRoute(path)
  {
    if IsProtectedRoute(path) && !Auth.Truthy(token) then RedirectToLogin
    else if IsAdminRoute(path) && !Auth.Truthy(token) then RedirectToLogin
    else Pass
  }

  /** The five prefixes under which a page requires a token. */
  predicate GuardedPrefix(path: string) {
    || StartsWith(path, "/dashboard") || StartsWith(path, "/profile")
    || StartsWith(path, "/posts/create") || StartsWith(path, "/posts/edit")
    || StartsWith(path, "/admin")
  }

  /** Admin classification is the single prefix `/admin`: the two longer
      entries start with it and add nothing. */
  lemma AdminRouteIsAdminPrefix(path: string)
    ensures IsAdminRoute(path) <==> StartsWith(path, "/admin")
  {
    if StartsWith(path, "/admin/users") {
      StartsWithTransitive(path, "/admin/users", "/admin");
    }
    if StartsWith(path, "/admin/posts") {
      StartsWithTransitive(path, "/admin/posts", "/admin");
    }
    assert StartsWith(path, "/admin") ==> StartsWith(path, AdminRoutes[0]);
  }

  /** A path under `/posts/` without `/edit` is public, whichever listed
      route the test is paired with. */
  lemma PostsDetailIsPublic(path: string)
    requires StartsWith(path, "/posts/") && !Contains(path, "/edit")
    ensures IsPublicRoute(path)
  {
    assert path == PublicRoutes[0] || (StartsWith(path, "/posts/") && !Contains(path, "/edit"));
  }

  /** Public classification as a plain disjunction: one of four literal
      routes, or a path under `/posts/` that nowhere contains `/edit`. */
  lemma PublicRouteCharacterised(path: string)
    ensures IsPublicRoute(path) <==>
      (|| path == "/" || path == "/login" || path == "/register" || path == "/posts"
       || (StartsWith(path, "/posts/") && !Contains(path, "/edit")))
  {
    if StartsWith(path, "/posts/") && !Contains(path, "/edit") { PostsDetailIsPublic(path); }
    if path == "/" { assert path == PublicRoutes[0]; }
    if path == "/login" { assert path == PublicRoutes[1]; }
    if path == "/register" { assert path == PublicRoutes[2]; }
    if path == "/posts" { assert path == PublicRoutes[3]; }
  }

  /** The gate redirects exactly when the path has a guarded prefix and the
      token cookie is absent or empty. */
  lemma RedirectIff(path: string, token: Option<string>)
    ensures Middleware(path, token) == RedirectToLogin <==> GuardedPrefix(path) && !Auth.Truthy(token)
  {
    AdminRouteIsAdminPrefix(path);
    if StartsWith(path, "/dashboard") { assert StartsWith(path, ProtectedRoutes[0]); }
    if StartsWith(path, "/profile") { assert StartsWith(path, ProtectedRoutes[1]); }
    if StartsWith(path, "/posts/create") { assert StartsWith(path, ProtectedRoutes[2]); }
    if StartsWith(path, "/posts/edit") { assert StartsWith(path, ProtectedRoutes[3]); }
  }

  /** Any non-empty token lets every path through, whatever it contains. */
  lemma TokenNeverInspected(path: string, t1: string, t2: string)
    requires t1 != "" && t2 != ""
    ensures Middleware(path, Some(t1)) == Pass
    ensures Middleware(path, Some(t1)) == Middleware(path, Some(t2))
  {
  }

  /** Whether a path is public never changes the decision: the decision is
      the same function of the guarded prefix and the token on public and
      non-public paths alike, and `/posts/create`, which the public test
      accepts, is still redirected without a token. */
  lemma PublicNeverConsulted(path: string, token: Option<string>)
    ensures IsPublicRoute(path) ==>
      (Middleware(path, token) == RedirectToLogin <==> GuardedPrefix(path) && !Auth.Truthy(token))
    ensures IsPublicRoute("/posts/create")
    ensures Middleware("/posts/create", None) == RedirectToLogin
  {
    RedirectIff(path, token);
    var p := "/posts/create";
    assert StartsWith(p, "/posts/");
    MissingCharNotContained(p, "/edit", 2);
    PostsDetailIsPublic(p);
    assert StartsWith(p, ProtectedRoutes[2]);
  }

  /** Matching compares raw prefixes, not path segments. */
  lemma PrefixNotSegment()
    ensures IsProtectedRoute("/dashboardx")
    ensures Middleware("/dashboardx", None) == RedirectToLogin
  {
    assert StartsWith("/dashboardx", ProtectedRoutes[0]);
  }

  /** The classification examples: a post detail is public and passes
      without a token, an edit page is protected and not public, an admin
      listing is an admin route, and `/dashboard` is protected. */
  lemma ClassificationExamples()
    ensures IsPublicRoute("/posts/123") && Middleware("/posts/123", None) == Pass
    ensures IsProtectedRoute("/posts/edit/123") && !IsPublicRoute("/posts/edit/123")
    ensures IsAdminRoute("/admin/users")
    ensures IsProtectedRoute("/dashboard")
  {
    var d := "/posts/123";
    assert StartsWith(d, "/posts/");
    MissingCharNotContained(d, "/edit", 2);
    PostsDetailIsPublic(d);
    assert d[..10][1] != "/dashboard"[1];
    assert d[..8][2] != "/profile"[2];
    assert d[..6][1] != "/admin"[1];
    RedirectIff(d, None);
    var e := "/posts/edit/123";
    assert OccursAt(e, "/edit", 6);
    assert StartsWith(e, ProtectedRoutes[3]);
    PublicRouteCharacterised(e);
    assert StartsWith("/admin/users", AdminRoutes[0]);
    assert StartsWith("/dashboard", ProtectedRoutes[0]);
  }
}
