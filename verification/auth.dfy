/** Responses, token claims and the authentication steps every handler of the
    JSON API repeats. The cryptographic primitives are oracles supplied by the
    caller: `Verifier` stands for the token check, `Hasher` for password
    hashing, `Comparer` for comparing a plaintext with a stored hash. */
module Auth {
  import opened Wrappers

  /** A handler's reply: a success status with a payload, or an error status
      with the `{error}` message the handler sends. */
  datatype Response<+T> = Success(status: nat, value: T) | Failure(status: nat, error: string) {

    predicate IsFailure() {
      Failure?
    }

    function PropagateFailure<U>(): Response<U>
      requires Failure?
    {
      Failure(status, error)
    }

    function Extract(): T
      requires Success?
    {
      value
    }
  }

  /** The identity a verified token carries. The role is the raw string
      claim: handlers compare it with `"admin"`. */
  datatype Claims = Claims(id: string, email: string, role: string)

  type Verifier = string -> Option<Claims>
  type Hasher = string -> string
  type Comparer = (string, string) -> bool

  /** The shortest password any account may have. */
  const MinPasswordLength := 6

  const AdminRole := "admin"
  const UserRole := "user"

  /** JavaScript truthiness of an optional string: present and non-empty. */
  predicate Truthy(s: Option<string>) {
    s.Some? && s.value != ""
  }

  /** The `token` cookie, checked for presence and then verified: 401
      "Authentication required" when absent or empty, 401 "Invalid token"
      when verification fails, otherwise the decoded claims. */
  function Authenticate(token: Option<string>, verify: Verifier): (r: Response<Claims>)
    ensures r.Failure? ==> r.status == 401
    ensures r.Failure? && r.error == "Authentication required" <==> !Truthy(token)
    ensures r.Failure? && Truthy(token) ==> r.error == "Invalid token"
    ensures r.Success? <==> Truthy(token) && verify(token.value).Some?
    ensures r.Success? ==> r.status == 200 && Some(r.value) == verify(token.value)
  {
    if !Truthy(token) then Failure(401, "Authentication required")
    else match verify(token.value)
      case None => Failure(401, "Invalid token")
      case Some(claims) => Success(200, claims)
  }

  /** Authentication followed by the role check of the admin endpoints:
      403 "Admin access required" unless the verified role is `"admin"`. */
  function AuthenticateAdmin(token: Option<string>, verify: Verifier): (r: Response<Claims>)
    ensures r.Success? <==> Truthy(token) && verify(token.value).Some? && verify(token.value).value.role == AdminRole
    ensures r.Success? ==> Some(r.value) == verify(token.value)
    ensures r.Failure? && r.status == 403 <==> Authenticate(token, verify).Success? && Authenticate(token, verify).value.role != AdminRole
    ensures r.Failure? && r.status == 403 ==> r.error == "Admin access required"
    ensures Authenticate(token, verify).Failure? ==> r == Authenticate(token, verify)
  {
    var claims :- Authenticate(token, verify);
    if claims.role != AdminRole then Failure(403, "Admin access required")
    else Success(200, claims)
  }
}
