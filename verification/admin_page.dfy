/** The admin dashboard's rules: who sees it, which rows carry edit
    controls, and how the edit and creation forms move between states. */
module AdminPage {
  import opened Wrappers
  import opened Auth
  import opened Store
  import AdminUsersApi

  /** The dashboard is shown to an authenticated admin; everyone else gets
      the access-denied view. */
  predicate AdminAccess(isAuthenticated: bool, role: Option<string>) {
    isAuthenticated && role == Some(AdminRole)
  }

  /** Edit and Delete are offered on rows of non-admin accounts only. */
  predicate ShowRowControls(u: PublicAccount) {
    u.role != AdminRole
  }

  /** For a viewer signed in with a verified token, the page opens exactly
      when the admin endpoints it calls would answer. */
  lemma AccessMatchesGate(token: Option<string>, verify: Verifier)
    requires Authenticate(token, verify).Success?
    ensures AdminAccess(true, Some(verify(token.value).value.role)) <==> AuthenticateAdmin(token, verify).Success?
  {
  }

  /** The account form, shared by editing and creation. */
  datatype UserForm = UserForm(name: string, email: string, role: string, password: string)

  const BlankUserForm := UserForm("", "", UserRole, "")

  /** Which account is being edited, and the form. */
  datatype UserEdit = UserEdit(editing: Option<string>, form: UserForm)

  const Idle := UserEdit(None, BlankUserForm)

  /** Starting an edit copies name, email and role and leaves the password
      blank. */
  function StartEdit(u: PublicAccount): (s: UserEdit)
    ensures s.editing == Some(u.id)
    ensures s.form.name == u.name && s.form.email == u.email && s.form.role == u.role && s.form.password == ""
  {
    UserEdit(Some(u.id), UserForm(u.name, u.email, u.role, ""))
  }

  /** The reply to an update: on success the editor closes and the form is
      blank again; on failure nothing changes. Without an account being
      edited no request is sent. */
  function AfterUpdate(s: UserEdit, ok: bool): (t: UserEdit)
    ensures s.editing.Some? && ok ==> t == Idle
    ensures s.editing.None? || !ok ==> t == s
  {
    if s.editing.None? then s
    else if ok then Idle
    else s
  }

  /** Cancel closes the editor and blanks the form. */
  function Cancel(s: UserEdit): (t: UserEdit)
    ensures t.editing.None? && t.form == BlankUserForm
  {
    Idle
  }

  /** Editing and then cancelling or succeeding returns to the idle state,
      whatever account was edited. */
  lemma EditRoundTrip(u: PublicAccount)
    ensures AfterUpdate(StartEdit(u), true) == Idle
    ensures Cancel(StartEdit(u)) == Idle
  {
  }

  /** The post form and its editor. */
  datatype PostForm = PostForm(title: string, content: string)

  const BlankPostForm := PostForm("", "")

  datatype PostEdit = PostEdit(editing: Option<string>, form: PostForm)

  /** Starting a post edit copies title and content. */
  function StartPostEdit(p: Post): (s: PostEdit)
    ensures s.editing == Some(p.id) && s.form.title == p.title && s.form.content == p.content
  {
    PostEdit(Some(p.id), PostForm(p.title, p.content))
  }

  /** The reply to a post update, as for accounts. */
  function AfterPostUpdate(s: PostEdit, ok: bool): (t: PostEdit)
    ensures s.editing.Some? && ok ==> t == PostEdit(None, BlankPostForm)
    ensures s.editing.None? || !ok ==> t == s
  {
    if s.editing.None? then s
    else if ok then PostEdit(None, BlankPostForm)
    else s
  }

  /** The creation panel: whether it is open, and its form. */
  datatype CreatePanel = CreatePanel(open: bool, form: UserForm)

  /** A successful creation closes the panel and blanks the form; a failed
      one leaves both as they were. */
  function AfterCreate(p: CreatePanel, ok: bool): (q: CreatePanel)
    ensures ok ==> !q.open && q.form == BlankUserForm
    ensures !ok ==> q == p
  {
    if ok then CreatePanel(false, BlankUserForm) else p
  }

  /** The body the creation form sends. */
  function CreateBody(f: UserForm): (b: AdminUsersApi.UserBody)
    ensures b.name == Some(f.name) && b.email == Some(f.email) && b.password == Some(f.password) && b.role == Some(f.role)
  {
    AdminUsersApi.UserBody(Some(f.name), Some(f.email), Some(f.password), Some(f.role))
  }

  /** An account created from the form gets the role chosen in the form,
      or the `user` role when the form's role is blank. */
  lemma {:induction false} CreatedRoleIsFormRole(token: Option<string>, verify: Verifier, hash: Hasher, f: UserForm, db: Db, newId: string, now: int)
    requires AdminUsersApi.CreateUser(token, verify, hash, CreateBody(f), db, newId, now).response.Success?
    ensures AdminUsersApi.CreateUser(token, verify, hash, CreateBody(f), db, newId, now).response.value.role ==
            if f.role != "" then f.role else UserRole
  {
    var r := AdminUsersApi.CreateUser(token, verify, hash, CreateBody(f), db, newId, now);
    assert r.db.accounts[|db.accounts|].role == if f.role != "" then f.role else UserRole;
  }
}
