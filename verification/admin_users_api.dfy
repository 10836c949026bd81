/** The admin account endpoint: `GET` lists accounts a page at a time
    without their password hashes, `POST` creates an account. Both are
    reserved to callers whose token carries the admin role. */
module AdminUsersApi {
  import opened Wrappers
  import opened Auth
  import opened Store
  import opened Ordering
  import opened Pagination

  /** A listing: one page of accounts and its pagination block. */
  datatype UserList = UserList(users: seq<PublicAccount>, pagination: PageInfo)

  function PublicCreatedAt(u: PublicAccount): int { u.createdAt }

  /** `select('-password')` applied to every account of a page. */
  function PublicAll(accounts: seq<Account>): (r: seq<PublicAccount>)
    ensures |r| == |accounts|
    ensures forall k :: 0 <= k < |r| ==> r[k] == Public(accounts[k])
  {
    seq(|accounts|, k requires 0 <= k < |accounts| => Public(accounts[k]))
  }

  /** Hiding the password keeps the creation times, so it keeps the order. */
  lemma PublicAllNewestFirst(accounts: seq<Account>)
    requires NewestFirst(accounts, AccountCreatedAt)
    ensures NewestFirst(PublicAll(accounts), PublicCreatedAt)
  {
    var r := PublicAll(accounts);
    forall i, j | 0 <= i < j < |r|
      ensures PublicCreatedAt(r[i]) >= PublicCreatedAt(r[j])
    {
      assert AccountCreatedAt(accounts[i]) >= AccountCreatedAt(accounts[j]);
    }
  }

  /** A page drawn from `accounts` shows only what the full public listing
      of `accounts` shows. */
  lemma PublicAllFrom(page: seq<Account>, accounts: seq<Account>)
    requires forall a :: a in page ==> a in accounts
    ensures forall u :: u in PublicAll(page) ==> u in PublicAll(accounts)
  {
    var users := PublicAll(page);
    forall u | u in users
      ensures u in PublicAll(accounts)
    {
      var k :| 0 <= k < |users| && users[k] == u;
      assert page[k] in page;
      var j :| 0 <= j < |accounts| && accounts[j] == page[k];
      assert PublicAll(accounts)[j] == u;
    }
  }

  /** `PublicAll` works page by page. */
  lemma PublicAllConcat(a: seq<Account>, b: seq<Account>)
    ensures PublicAll(a + b) == PublicAll(a) + PublicAll(b)
  {
  }

  /** `GET /api/admin/users`: the admin gate, then 200 with one page of the
      accounts, newest first, each without its password. */
  function ListUsers(token: Option<string>, verify: Verifier, db: Db, q: PageQuery): (r: Response<UserList>)
    requires ValidQuery(q)
    ensures r.Failure? <==> AuthenticateAdmin(token, verify).Failure?
    ensures r.Failure? ==> r.status == AuthenticateAdmin(token, verify).status && r.error == AuthenticateAdmin(token, verify).error
    ensures r.Success? ==>
      && r.status == 200
      && |r.value.users| == (if |db.accounts| <= Skip(PageOf(q), LimitOf(q)) then 0
                             else Min(LimitOf(q), |db.accounts| - Skip(PageOf(q), LimitOf(q))))
      && NewestFirst(r.value.users, PublicCreatedAt)
      && (forall u :: u in r.value.users ==> u in PublicAll(db.accounts))
      && r.value.pagination == Paginate(PageOf(q), LimitOf(q), |db.accounts|)
      && (r.value.pagination.hasNextPage <==> PageOf(q) < r.value.pagination.totalPages)
      && (r.value.pagination.hasPrevPage <==> PageOf(q) > 1)
  {
    var _ :- AuthenticateAdmin(token, verify);
    var page := NewestPage(db.accounts, AccountCreatedAt, q);
    PublicAllNewestFirst(page);
    PublicAllFrom(page, db.accounts);
    Success(200, UserList(PublicAll(page), Paginate(PageOf(q), LimitOf(q), |db.accounts|)))
  }

  /** Pages 1 to `k` of the account listing, concatenated. */
  function ListedUserPages(token: Option<string>, verify: Verifier, db: Db, limit: int, k: nat): seq<PublicAccount>
    requires limit >= 1 && AuthenticateAdmin(token, verify).Success?
  {
    if k == 0 then []
    else ListedUserPages(token, verify, db, limit, k - 1)
         + ListUsers(token, verify, db, PageQuery(Some(k), Some(limit))).value.users
  }

  /** Page `k` of the account listing shows the `k`-th window of the
      accounts sorted newest first. */
  lemma ListedUserPage(token: Option<string>, verify: Verifier, db: Db, limit: nat, k: nat)
    requires limit >= 1 && k >= 1 && AuthenticateAdmin(token, verify).Success?
    ensures Skip(k, limit) >= 0
    ensures ListUsers(token, verify, db, PageQuery(Some(k), Some(limit))).value.users ==
            PublicAll(Window(SortNewestFirst(db.accounts, AccountCreatedAt), Skip(k, limit), limit))
  {
    MulMonotone(0, k - 1, limit);
  }

  /** The account listing's pages 1 to `k` show pages 1 to `k` of the
      accounts sorted newest first. */
  lemma {:induction false} ListedUserPagesArePages(token: Option<string>, verify: Verifier, db: Db, limit: int, k: nat)
    requires limit >= 1 && AuthenticateAdmin(token, verify).Success?
    ensures ListedUserPages(token, verify, db, limit, k) ==
            PublicAll(Pages(SortNewestFirst(db.accounts, AccountCreatedAt), limit, k))
  {
    if k > 0 {
      var sorted := SortNewestFirst(db.accounts, AccountCreatedAt);
      ListedUserPagesArePages(token, verify, db, limit, k - 1);
      ListedUserPage(token, verify, db, limit, k);
      PublicAllConcat(Pages(sorted, limit, k - 1), Window(sorted, Skip(k, limit), limit));
    }
  }

  /** Every page from 1 to `totalPages` is its own query, and `orders` holds
      the arrangement each page query sees. When accounts created at the
      same instant are identical, the accounts read this way are every
      stored account exactly as often as it is stored, newest first, and the
      listing shows each of them without its password. */
  lemma ListingCoversAccounts(token: Option<string>, verify: Verifier, db: Db, limit: int, orders: seq<seq<Account>>)
    requires limit >= 1 && AuthenticateAdmin(token, verify).Success?
    requires TiesIdentical(db.accounts, AccountCreatedAt) && Arrangements(orders, db.accounts, AccountCreatedAt)
    requires |orders| == ListUsers(token, verify, db, PageQuery(Some(1), Some(limit))).value.pagination.totalPages
    ensures var read := PagesOfOrders(orders, limit, |orders|);
            && multiset(read) == multiset(db.accounts)
            && NewestFirst(read, AccountCreatedAt)
            && ListedUserPages(token, verify, db, limit, |orders|) == PublicAll(read)
  {
    var sorted := SortNewestFirst(db.accounts, AccountCreatedAt);
    SeparateQueriesListEverything(db.accounts, AccountCreatedAt, orders, limit);
    ListedUserPagesArePages(token, verify, db, limit, |orders|);
    assert |sorted| == |multiset(sorted)| == |db.accounts|;
    AllPagesListEverything(sorted, limit);
  }

  /** The body of a creation request. */
  datatype UserBody = UserBody(name: Option<string>, email: Option<string>, password: Option<string>, role: Option<string>)

  /** The account as the creation response shows it. */
  datatype CreatedUser = CreatedUser(id: string, name: string, email: string, role: string, createdAt: int)

  const FieldsRequired := "Name, email, and password are required"
  const PasswordTooShort := "Password must be at least 6 characters long"
  const EmailExists := "User with this email already exists"

  /** The request passes the body checks: all three fields present and the
      password long enough. */
  predicate Complete(body: UserBody) {
    Truthy(body.name) && Truthy(body.email) && Truthy(body.password) && |body.password.value| >= MinPasswordLength
  }

  /** `POST /api/admin/users`: the admin gate; 400 when name, email or
      password is missing; 400 when the password is shorter than six
      characters; 409 when the email is in use; otherwise the account is
      stored with the password hashed and the role defaulting to `user`
      (201). Every failure leaves the database unchanged. */
  function CreateUser(token: Option<string>, verify: Verifier, hash: Hasher, body: UserBody, db: Db, newId: string, now: int): (r: Handled<CreatedUser>)
    ensures r.response.Failure? ==> r.db == db
    ensures r.response.Failure? && (r.response.status == 401 || r.response.status == 403) <==>
      AuthenticateAdmin(token, verify).Failure?
    ensures AuthenticateAdmin(token, verify).Failure? ==> r.response == AuthenticateAdmin(token, verify).PropagateFailure()
    ensures r.response == Failure(400, FieldsRequired) <==>
      AuthenticateAdmin(token, verify).Success? && (!Truthy(body.name) || !Truthy(body.email) || !Truthy(body.password))
    ensures r.response == Failure(400, PasswordTooShort) <==>
      && AuthenticateAdmin(token, verify).Success? && Truthy(body.name) && Truthy(body.email) && Truthy(body.password)
      && |body.password.value| < MinPasswordLength
    ensures r.response == Failure(409, EmailExists) <==>
      AuthenticateAdmin(token, verify).Success? && Complete(body) && EmailTaken(db.accounts, body.email.value)
    ensures r.response.Success? <==>
      AuthenticateAdmin(token, verify).Success? && Complete(body) && !EmailTaken(db.accounts, body.email.value)
    ensures r.response.Success? ==>
      && r.response.status == 201
      && |r.db.accounts| == |db.accounts| + 1
      && r.db.accounts[..|db.accounts|] == db.accounts
      && r.db.posts == db.posts
      && var a := r.db.accounts[|db.accounts|];
      && a.id == newId && a.name == body.name.value && a.email == body.email.value
      && a.password == hash(body.password.value)
      && a.role == (if Truthy(body.role) then body.role.value else UserRole)
      && a.createdAt == now && a.updatedAt == now
      && r.response.value == CreatedUser(a.id, a.name, a.email, a.role, a.createdAt)
  {
    match AuthenticateAdmin(token, verify)
    case Failure(status, error) => Handled(Failure(status, error), db)
    case Success(_, _) =>
      if !Truthy(body.name) || !Truthy(body.email) || !Truthy(body.password) then Handled(Failure(400, FieldsRequired), db)
      else if |body.password.value| < MinPasswordLength then Handled(Failure(400, PasswordTooShort), db)
      else if EmailTaken(db.accounts, body.email.value) then Handled(Failure(409, EmailExists), db)
      else
        var role := if Truthy(body.role) then body.role.value else UserRole;
        var a := Account(newId, body.name.value, body.email.value, hash(body.password.value), role, now, now);
        Handled(Success(201, CreatedUser(a.id, a.name, a.email, a.role, a.createdAt)),
                db.(accounts := db.accounts + [a]))
  }

  /** Once an account is created, a second request with the same email,
      whatever its other fields, is refused with 409. */
  lemma {:induction false} CreateTwiceConflicts(token: Option<string>, verify: Verifier, hash: Hasher, body: UserBody, body2: UserBody, db: Db, id1: string, id2: string, t1: int, t2: int)
    requires CreateUser(token, verify, hash, body, db, id1, t1).response.Success?
    requires Complete(body2) && body2.email == body.email
    ensures var db1 := CreateUser(token, verify, hash, body, db, id1, t1).db;
            CreateUser(token, verify, hash, body2, db1, id2, t2).response == Failure(409, EmailExists)
  {
    var db1 := CreateUser(token, verify, hash, body, db, id1, t1).db;
    assert db1.accounts[|db.accounts|].email == body2.email.value;
  }

  /** The password rule is "at least six": a six-character password passes
      the length check and a five-character one does not. */
  lemma PasswordLengthBoundary(token: Option<string>, verify: Verifier, hash: Hasher, body: UserBody, db: Db, newId: string, now: int)
    requires AuthenticateAdmin(token, verify).Success?
    requires Truthy(body.name) && Truthy(body.email) && Truthy(body.password)
    ensures |body.password.value| == 6 ==> CreateUser(token, verify, hash, body, db, newId, now).response != Failure(400, PasswordTooShort)
    ensures |body.password.value| == 5 ==> CreateUser(token, verify, hash, body, db, newId, now).response == Failure(400, PasswordTooShort)
  {
  }
}
