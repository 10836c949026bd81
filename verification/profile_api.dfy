/** The caller's own profile: `GET` returns the account without its
    password hash together with the caller's posts; `PUT` changes name,
    email or password. */
module ProfileApi {
  import opened Wrappers
  import opened Auth
  import opened Store
  import opened Ordering

  const UserNotFound := "User not found"
  const EmailTaken409 := "Email is already taken"
  const WrongPassword := "Current password is incorrect"
  const NewPasswordTooShort := "New password must be at least 6 characters long"

  /** A profile: the account and its posts. */
  datatype ProfileView = ProfileView(user: PublicAccount, posts: seq<Post>)

  /** `GET /api/user/profile`: 401 without a valid token, 404 when the
      token's account is gone, otherwise 200 with the account and every post
      it owns, newest first. */
  function GetProfile(token: Option<string>, verify: Verifier, db: Db): (r: Response<ProfileView>)
    ensures r.Failure? && r.status == 401 <==> Authenticate(token, verify).Failure?
    ensures Authenticate(token, verify).Failure? ==> r == Authenticate(token, verify).PropagateFailure()
    ensures Authenticate(token, verify).Success? && FindById(db.accounts, verify(token.value).value.id).Some? ==> r.Success?
    ensures r == Failure(404, UserNotFound) <==>
      Authenticate(token, verify).Success? && FindById(db.accounts, verify(token.value).value.id).None?
    ensures r.Success? ==>
      && r.status == 200
      && var id := verify(token.value).value.id;
      && r.value.user.id == id
      && (exists a :: a in db.accounts && r.value.user == Public(a))
      && NewestFirst(r.value.posts, PostCreatedAt)
      && multiset(r.value.posts) == multiset(PostsBy(db.posts, id))
      && (forall p :: p in r.value.posts <==> p in db.posts && p.author == id)
  {
    var claims :- Authenticate(token, verify);
    match FindById(db.accounts, claims.id)
    case None => Failure(404, UserNotFound)
    case Some(a) =>
      var posts := SortNewestFirst(PostsBy(db.posts, claims.id), PostCreatedAt);
      assert forall p :: p in posts <==> p in PostsBy(db.posts, claims.id) by {
        forall p
          ensures p in posts <==> p in PostsBy(db.posts, claims.id)
        {
          assert p in posts <==> p in multiset(posts);
        }
      }
      Success(200, ProfileView(Public(a), posts))
  }

  /** The body of an update request. */
  datatype ProfileBody = ProfileBody(
    name: Option<string>,
    email: Option<string>,
    currentPassword: Option<string>,
    newPassword: Option<string>)

  /** The request asks to change the email: one is given and it differs from
      the stored one. */
  predicate ChangesEmail(user: Account, body: ProfileBody) {
    Truthy(body.email) && body.email.value != user.email
  }

  /** The request asks to change the password: both password fields given. */
  predicate ChangesPassword(body: ProfileBody) {
    Truthy(body.currentPassword) && Truthy(body.newPassword)
  }

  /** The edits `PUT` makes to a loaded account, in the handler's order: the
      name when given; the email when given and different, refused with 409
      when another account holds it; the password when both fields are
      given, refused with 400 when the current one does not match the
      stored hash and then with 400 when the new one is shorter than six. */
  function UpdateAccount(user: Account, body: ProfileBody, accounts: seq<Account>, compare: Comparer, hash: Hasher): (r: Response<Account>)
    ensures r == Failure(409, EmailTaken409) <==> ChangesEmail(user, body) && EmailTaken(accounts, body.email.value)
    ensures r == Failure(400, WrongPassword) <==>
      && !(ChangesEmail(user, body) && EmailTaken(accounts, body.email.value))
      && ChangesPassword(body) && !compare(body.currentPassword.value, user.password)
    ensures r == Failure(400, NewPasswordTooShort) <==>
      && !(ChangesEmail(user, body) && EmailTaken(accounts, body.email.value))
      && ChangesPassword(body) && compare(body.currentPassword.value, user.password)
      && |body.newPassword.value| < MinPasswordLength
    ensures r.Failure? ==> r == Failure(409, EmailTaken409) || r == Failure(400, WrongPassword) || r == Failure(400, NewPasswordTooShort)
    ensures r.Success? ==>
      && r.status == 200
      && r.value.id == user.id && r.value.role == user.role
      && r.value.createdAt == user.createdAt && r.value.updatedAt == user.updatedAt
      && r.value.name == (if Truthy(body.name) then body.name.value else user.name)
      && r.value.email == (if Truthy(body.email) then body.email.value else user.email)
      && r.value.password == (if ChangesPassword(body) then hash(body.newPassword.value) else user.password)
  {
    var named := if Truthy(body.name) then user.(name := body.name.value) else user;
    if ChangesEmail(user, body) && EmailTaken(accounts, body.email.value) then Failure(409, EmailTaken409)
    else
      var mailed := if ChangesEmail(user, body) then named.(email := body.email.value) else named;
      if !ChangesPassword(body) then Success(200, mailed)
      else if !compare(body.currentPassword.value, user.password) then Failure(400, WrongPassword)
      else if |body.newPassword.value| < MinPasswordLength then Failure(400, NewPasswordTooShort)
      else Success(200, mailed.(password := hash(body.newPassword.value)))
  }

  /** `PUT /api/user/profile`: 401 without a valid token, 404 when the
      token's account is gone, the refusals of `UpdateAccount`, otherwise the
      edited account is saved and returned without its password (200).
      Every failure leaves the database unchanged, including a name edit
      made before the refusal. */
  function UpdateProfile(token: Option<string>, verify: Verifier, compare: Comparer, hash: Hasher, body: ProfileBody, db: Db): (r: Handled<PublicAccount>)
    ensures r.response.Failure? ==> r.db == db
    ensures r.response.Failure? && r.response.status == 401 <==> Authenticate(token, verify).Failure?
    ensures r.response == Failure(404, UserNotFound) <==>
      Authenticate(token, verify).Success? && FindById(db.accounts, verify(token.value).value.id).None?
    ensures Authenticate(token, verify).Failure? ==> r.response == Authenticate(token, verify).PropagateFailure()
    ensures Authenticate(token, verify).Success? && FindById(db.accounts, verify(token.value).value.id).Some? ==>
      var u := UpdateAccount(FindById(db.accounts, verify(token.value).value.id).value, body, db.accounts, compare, hash);
      && (u.Failure? ==> r.response == Failure(u.status, u.error))
      && (u.Success? ==> r.response.Success?)
    ensures r.response.Success? ==>
      && var user := FindById(db.accounts, verify(token.value).value.id);
      && user.Some?
      && var updated := UpdateAccount(user.value, body, db.accounts, compare, hash);
      && updated.Success?
      && r.response == Success(200, Public(updated.value))
      && r.db == db.(accounts := SaveAccount(db.accounts, updated.value))
  {
    match Authenticate(token, verify)
    case Failure(status, error) => Handled(Failure(status, error), db)
    case Success(_, claims) =>
      match FindById(db.accounts, claims.id)
      case None => Handled(Failure(404, UserNotFound), db)
      case Some(user) =>
        match UpdateAccount(user, body, db.accounts, compare, hash)
        case Failure(status, error) => Handled(Failure(status, error), db)
        case Success(_, a) => Handled(Success(200, Public(a)), db.(accounts := SaveAccount(db.accounts, a)))
  }

  /** A request carrying only one of the two password fields changes no
      password and cannot be refused for the password. */
  lemma OnePasswordFieldIgnored(user: Account, body: ProfileBody, accounts: seq<Account>, compare: Comparer, hash: Hasher)
    requires Truthy(body.currentPassword) != Truthy(body.newPassword)
    ensures var r := UpdateAccount(user, body, accounts, compare, hash);
            && r != Failure(400, WrongPassword) && r != Failure(400, NewPasswordTooShort)
            && (r.Success? ==> r.value.password == user.password)
  {
  }

  /** The email is checked before the password: a request that both takes
      another account's email and gives a wrong current password is refused
      for the email. */
  lemma EmailCheckedBeforePassword(user: Account, body: ProfileBody, accounts: seq<Account>, compare: Comparer, hash: Hasher)
    requires ChangesEmail(user, body) && EmailTaken(accounts, body.email.value)
    requires ChangesPassword(body) && !compare(body.currentPassword.value, user.password)
    ensures UpdateAccount(user, body, accounts, compare, hash) == Failure(409, EmailTaken409)
  {
  }

  /** An empty request saves the account unchanged, so the database stays as
      it was when account ids are unique. */
  lemma {:induction false} EmptyUpdateLeavesStore(token: Option<string>, verify: Verifier, compare: Comparer, hash: Hasher, db: Db)
    requires Authenticate(token, verify).Success?
    requires forall i, j :: 0 <= i < |db.accounts| && 0 <= j < |db.accounts| && db.accounts[i].id == db.accounts[j].id ==> i == j
    ensures UpdateProfile(token, verify, compare, hash, ProfileBody(None, None, None, None), db).db == db
  {
    var id := verify(token.value).value.id;
    var user := FindById(db.accounts, id);
    if user.Some? {
      var k :| 0 <= k < |db.accounts| && db.accounts[k] == user.value;
      SaveUnchanged(db.accounts, k);
    }
  }

  /** What `PUT` saves is what the next `GET` shows: after a successful
      update the profile's account is the one the update returned. */
  lemma {:induction false} UpdateThenGet(token: Option<string>, verify: Verifier, compare: Comparer, hash: Hasher, body: ProfileBody, db: Db)
    requires UpdateProfile(token, verify, compare, hash, body, db).response.Success?
    ensures var r := UpdateProfile(token, verify, compare, hash, body, db);
            GetProfile(token, verify, r.db).Success? &&
            GetProfile(token, verify, r.db).value.user == r.response.value
  {
    var id := verify(token.value).value.id;
    var user := FindById(db.accounts, id).value;
    var a := UpdateAccount(user, body, db.accounts, compare, hash).value;
    assert a.id == id;
    FindAfterSave(db.accounts, a);
  }
}
