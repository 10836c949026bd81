/** The account schema the seeding script declares, and the script itself:
    it creates the fixed administrator account unless an account with that
    email already exists. */
module UserSchema {
  import opened Wrappers
  import opened Strings
  import opened Store
  import Auth
  import opened EmailFormat

  const MaxNameLength := 50

  /** The validators of the schema, each with its message. */
  datatype FieldError =
    | NameRequired | NameTooLong
    | EmailRequired | EmailInvalid
    | PasswordRequired | PasswordTooShort
    | RoleInvalid
  {
    function Message(): string {
      match this
      case NameRequired => "Name is required"
      case NameTooLong => "Name cannot be more than 50 characters"
      case EmailRequired => "Email is required"
      case EmailInvalid => "Please enter a valid email"
      case PasswordRequired => "Password is required"
      case PasswordTooShort => "Password must be at least 6 characters"
      case RoleInvalid => "Role must be admin or user"
    }
  }

  /** A document as it is saved. */
  datatype UserDoc = UserDoc(name: string, email: string, password: string, role: string)

  function NameError(name: string): (e: Option<FieldError>)
    ensures e.None? <==> name != "" && |name| <= MaxNameLength
    ensures e == Some(NameTooLong) <==> |name| > MaxNameLength
  {
    if name == "" then Some(NameRequired)
    else if |name| > MaxNameLength then Some(NameTooLong)
    else None
  }

  function EmailError(email: string): (e: Option<FieldError>)
    ensures e.None? <==> EmailPattern(email)
  {
    if email == "" then Some(EmailRequired)
    else if !EmailMatches(email) then Some(EmailInvalid)
    else None
  }

  function PasswordError(password: string): (e: Option<FieldError>)
    ensures e.None? <==> |password| >= Auth.MinPasswordLength
    ensures e == Some(PasswordTooShort) <==> 0 < |password| < Auth.MinPasswordLength
  {
    if password == "" then Some(PasswordRequired)
    else if |password| < Auth.MinPasswordLength then Some(PasswordTooShort)
    else None
  }

  function RoleError(role: string): (e: Option<FieldError>)
    ensures e.None? <==> role == Auth.AdminRole || role == Auth.UserRole
    ensures e.Some? ==> e.value == RoleInvalid
  {
    if role == Auth.AdminRole || role == Auth.UserRole then None else Some(RoleInvalid)
  }

  /** The setters: name trimmed, email lowercased then trimmed, role
      defaulting to `user` when not given. */
  function Normalise(name: string, email: string, password: string, role: Option<string>): (d: UserDoc)
    ensures d.name == Trim(name) && d.email == Trim(ToLower(email)) && d.password == password
    ensures d.role == if role.Some? then role.value else Auth.UserRole
  {
    UserDoc(Trim(name), Trim(ToLower(email)), password, role.GetOr(Auth.UserRole))
  }

  function Errors(d: UserDoc): seq<FieldError> {
    AsList(NameError(d.name)) + AsList(EmailError(d.email))
    + AsList(PasswordError(d.password)) + AsList(RoleError(d.role))
  }

  /** Validation of a new account document: the normalised document, or one
      error per failing field in schema order. */
  function ValidateUser(name: string, email: string, password: string, role: Option<string>): (r: Result<UserDoc, seq<FieldError>>)
    ensures r.Ok? ==> r.value == Normalise(name, email, password, role)
    ensures r.Err? ==> r.error != []
  {
    var d := Normalise(name, email, password, role);
    var errors := Errors(d);
    if errors == [] then Ok(d) else Err(errors)
  }

  /** Which documents the schema accepts: a name of 1 to 50 characters after
      trimming, an email matching the pattern after lowercasing and
      trimming, a password of at least 6 characters, a role of `admin` or
      `user` or none at all. */
  lemma {:induction false} ValidateUserAccepts(name: string, email: string, password: string, role: Option<string>)
    ensures ValidateUser(name, email, password, role).Ok? <==>
      && Trim(name) != "" && |Trim(name)| <= MaxNameLength
      && EmailPattern(Trim(ToLower(email)))
      && |password| >= Auth.MinPasswordLength
      && (role.None? || role.value == Auth.AdminRole || role.value == Auth.UserRole)
  {
    var d := Normalise(name, email, password, role);
    assert d.name == Trim(name) && d.email == Trim(ToLower(email)) && d.password == password;
    var ne, ee, pe, re := NameError(d.name), EmailError(d.email), PasswordError(d.password), RoleError(d.role);
    assert ne.None? <==> Trim(name) != "" && |Trim(name)| <= MaxNameLength;
    assert ee.None? <==> EmailPattern(Trim(ToLower(email)));
    assert pe.None? <==> |password| >= Auth.MinPasswordLength;
    assert re.None? <==> (role.None? || role.value == Auth.AdminRole || role.value == Auth.UserRole);
    assert Errors(d) == AsList(ne) + AsList(ee) + AsList(pe) + AsList(re);
    assert Errors(d) == [] <==> ne.None? && ee.None? && pe.None? && re.None?;
  }

  /** A name too long after trimming is reported as such. */
  lemma {:induction false} ValidateUserReportsLongName(name: string, email: string, password: string, role: Option<string>)
    requires |Trim(name)| > MaxNameLength
    ensures var r := ValidateUser(name, email, password, role);
            r.Err? && NameTooLong in r.error
  {
    var d := Normalise(name, email, password, role);
    assert AsList(NameError(d.name)) == [NameTooLong];
    assert Errors(d)[0] == NameTooLong;
  }

  /** A non-empty password shorter than 6 characters is reported as such. */
  lemma {:induction false} ValidateUserReportsShortPassword(name: string, email: string, password: string, role: Option<string>)
    requires 0 < |password| < Auth.MinPasswordLength
    ensures var r := ValidateUser(name, email, password, role);
            r.Err? && PasswordTooShort in r.error
  {
    var d := Normalise(name, email, password, role);
    var front := AsList(NameError(d.name)) + AsList(EmailError(d.email));
    assert AsList(PasswordError(d.password)) == [PasswordTooShort];
    assert Errors(d) == front + [PasswordTooShort] + AsList(RoleError(d.role));
    assert Errors(d)[|front|] == PasswordTooShort;
  }

  /** A validated email has no white space and is its own trim. */
  lemma {:induction false} ValidatedEmailTrimmed(name: string, email: string, password: string, role: Option<string>)
    ensures var r := ValidateUser(name, email, password, role);
            r.Ok? ==> NoWhitespace(r.value.email) && Trim(r.value.email) == r.value.email
  {
    if ValidateUser(name, email, password, role).Ok? {
      ValidateUserAccepts(name, email, password, role);
      TrimIdempotent(ToLower(email));
    }
  }

  /** A validated email is stored in lowercase. */
  lemma {:induction false} ValidatedEmailIsLower(name: string, email: string, password: string, role: Option<string>)
    ensures var r := ValidateUser(name, email, password, role);
            r.Ok? ==> forall k :: 0 <= k < |r.value.email| ==> !('A' <= r.value.email[k] <= 'Z')
  {
    TrimmedLowerHasNoCapital(email);
  }

  /** The account the seeding script creates. */
  datatype SeedData = SeedData(name: string, email: string, password: string, role: string)

  const AdminName := "Test Admin"
  const AdminEmail := "testadmin@blogapp.com"
  const AdminSeed := SeedData(AdminName, AdminEmail, "admin123456", Auth.AdminRole)

  /** The seeding script against the account collection: nothing happens when
      an account already has the seed's email; otherwise the document is
      built with the hashed password and saved if it validates. A failed
      validation is caught and logged, leaving the collection as it was. */
  function Seed(accounts: seq<Account>, data: SeedData, hash: Auth.Hasher, newId: string, now: int): (r: seq<Account>)
    ensures EmailTaken(accounts, data.email) ==> r == accounts
    ensures r == accounts || (|r| == |accounts| + 1 && r[..|accounts|] == accounts)
    ensures r != accounts ==>
      r[|accounts|] == Account(newId, Trim(data.name), Trim(ToLower(data.email)), hash(data.password), data.role, now, now)
  {
    if EmailTaken(accounts, data.email) then accounts
    else match ValidateUser(data.name, data.email, hash(data.password), Some(data.role))
      case Err(_) => accounts
      case Ok(d) => accounts + [Account(newId, d.name, d.email, d.password, d.role, now, now)]
  }

  /** The seed's name and email are unchanged by their setters, the email
      matches the pattern and the role is in the enumeration. */
  lemma AdminSeedNormal()
    ensures Trim(AdminSeed.name) == AdminSeed.name
    ensures Trim(ToLower(AdminSeed.email)) == AdminSeed.email
    ensures EmailPattern(AdminSeed.email)
    ensures |AdminSeed.name| <= MaxNameLength
  {
    SeedNameTrimmed();
    SeedEmailNormal();
    SeedEmailMatches();
  }

  lemma SeedNameTrimmed()
    ensures Trim(AdminSeed.name) == AdminSeed.name
  {
    TrimOfTrimmed(AdminName);
  }

  lemma SeedEmailNormal()
    ensures Trim(ToLower(AdminSeed.email)) == AdminSeed.email
  {
    SeedEmailLower();
    SeedEmailTrimmed();
  }

  lemma SeedEmailLower()
    ensures ToLower(AdminEmail) == AdminEmail
  {
    ToLowerOfLower(AdminEmail);
  }

  lemma SeedEmailTrimmed()
    ensures Trim(AdminEmail) == AdminEmail
  {
    TrimOfTrimmed(AdminEmail);
  }

  lemma SeedEmailMatches()
    ensures EmailPattern(AdminSeed.email)
  {
    var e := AdminEmail;
    assert NoWhitespace(e);
    assert e[9] == '@' && e[17] == '.';
  }

  /** Seeding the administrator into a collection without its email adds it
      exactly when the hash meets the password length rule, which the schema
      applies to the hash, not to the plaintext. */
  lemma {:induction false} SeedAddsAdminWhenFree(accounts: seq<Account>, hash: Auth.Hasher, newId: string, now: int)
    requires !EmailTaken(accounts, AdminSeed.email)
    ensures |hash(AdminSeed.password)| >= Auth.MinPasswordLength <==> Seed(accounts, AdminSeed, hash, newId, now) != accounts
  {
    AdminSeedNormal();
    ValidateUserAccepts(AdminSeed.name, AdminSeed.email, hash(AdminSeed.password), Some(AdminSeed.role));
  }

  /** Running the seeding script twice is the same as running it once, for
      a seed whose email is already in normal form, as the administrator's is. */
  lemma {:induction false} SeedIdempotent(accounts: seq<Account>, data: SeedData, hash: Auth.Hasher,
                                          id1: string, id2: string, t1: int, t2: int)
    requires Trim(ToLower(data.email)) == data.email
    ensures var once := Seed(accounts, data, hash, id1, t1);
            Seed(once, data, hash, id2, t2) == once
  {
    var once := Seed(accounts, data, hash, id1, t1);
    if once != accounts {
      assert once[|accounts|].email == data.email;
      assert EmailTaken(once, data.email);
    }
  }

  lemma AdminSeedIdempotent(accounts: seq<Account>, hash: Auth.Hasher, id1: string, id2: string, t1: int, t2: int)
    ensures var once := Seed(accounts, AdminSeed, hash, id1, t1);
            Seed(once, AdminSeed, hash, id2, t2) == once
  {
    SeedEmailNormal();
    SeedIdempotent(accounts, AdminSeed, hash, id1, id2, t1, t2);
  }
}
