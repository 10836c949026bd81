/** The profile page's edit form: the checks it makes before sending an
    update, the body it sends, and the form after a successful update. */
module ProfilePage {
  import opened Wrappers
  import opened Auth
  import opened Store
  import ProfileApi

  /** The edit form's fields. */
  datatype ProfileForm = ProfileForm(
    name: string,
    email: string,
    currentPassword: string,
    newPassword: string,
    confirmPassword: string)

  /** The page's own refusals, in the order it checks them. */
  datatype FormError = CurrentPasswordMissing | NewPasswordMissing | NewPasswordShort | PasswordsDiffer
  {
    function Message(): string {
      match this
      case CurrentPasswordMissing => "Current password is required to change password"
      case NewPasswordMissing => "New password is required"
      case NewPasswordShort => "New password must be at least 6 characters long"
      case PasswordsDiffer => "New passwords do not match"
    }
  }

  /** The password part of the form is checked only when either password
      field is filled in; the first failing rule is reported. */
  function CheckForm(f: ProfileForm): (r: Option<FormError>)
    ensures f.currentPassword == "" && f.newPassword == "" ==> r.None?
    ensures r == Some(CurrentPasswordMissing) <==> f.currentPassword == "" && f.newPassword != ""
    ensures r == Some(NewPasswordMissing) <==> f.currentPassword != "" && f.newPassword == ""
    ensures r == Some(NewPasswordShort) <==>
      f.currentPassword != "" && f.newPassword != "" && |f.newPassword| < MinPasswordLength
    ensures r == Some(PasswordsDiffer) <==>
      && f.currentPassword != "" && |f.newPassword| >= MinPasswordLength
      && f.newPassword != f.confirmPassword
  {
    if f.newPassword != "" || f.currentPassword != "" then
      if f.currentPassword == "" then Some(CurrentPasswordMissing)
      else if f.newPassword == "" then Some(NewPasswordMissing)
      else if |f.newPassword| < MinPasswordLength then Some(NewPasswordShort)
      else if f.newPassword != f.confirmPassword then Some(PasswordsDiffer)
      else None
    else None
  }

  /** The update request: name and email always; the two password fields
      exactly when a new password is filled in. */
  function RequestBody(f: ProfileForm): (b: ProfileApi.ProfileBody)
    ensures b.name == Some(f.name) && b.email == Some(f.email)
    ensures b.currentPassword.Some? <==> f.newPassword != ""
    ensures b.newPassword.Some? <==> f.newPassword != ""
    ensures b.currentPassword.Some? ==> b.currentPassword.value == f.currentPassword && b.newPassword.value == f.newPassword
  {
    if f.newPassword != "" then
      ProfileApi.ProfileBody(Some(f.name), Some(f.email), Some(f.currentPassword), Some(f.newPassword))
    else
      ProfileApi.ProfileBody(Some(f.name), Some(f.email), None, None)
  }

  /** After a successful update the password fields are cleared and name
      and email are kept. */
  function AfterSuccess(f: ProfileForm): (g: ProfileForm)
    ensures g.name == f.name && g.email == f.email
    ensures g.currentPassword == "" && g.newPassword == "" && g.confirmPassword == ""
  {
    f.(currentPassword := "", newPassword := "", confirmPassword := "")
  }

  /** A form the page lets through asks the server to change the password
      exactly when a new password is filled in, and the server never
      refuses it for the new password's length. */
  lemma {:induction false} CheckedFormMeetsServerRules(f: ProfileForm, user: Account, accounts: seq<Account>, compare: Comparer, hash: Hasher)
    requires CheckForm(f).None?
    ensures ProfileApi.ChangesPassword(RequestBody(f)) <==> f.newPassword != ""
    ensures ProfileApi.UpdateAccount(user, RequestBody(f), accounts, compare, hash) != Failure(400, ProfileApi.NewPasswordTooShort)
  {
    if f.newPassword != "" {
      assert f.currentPassword != "";
    }
  }

  /** A cleared form sends no password fields: the next update keeps the
      password. */
  lemma ClearedFormKeepsPassword(f: ProfileForm, user: Account, accounts: seq<Account>, compare: Comparer, hash: Hasher)
    ensures var r := ProfileApi.UpdateAccount(user, RequestBody(AfterSuccess(f)), accounts, compare, hash);
            r.Success? ==> r.value.password == user.password
  {
  }
}
