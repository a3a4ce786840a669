/** Session verification and the `requireAuth` wrapper of the auth library.
    JWT verification is the `decode` parameter: it yields the token's `userId`,
    or nothing when verification (or the user lookup it feeds) throws. */
module Auth {
  import opened Wrappers
  import opened Schema

  /** The user fields `verifyAuth` selects: id, email, name, role, isActive. */
  datatype AuthUser = AuthUser(id: nat, email: string, name: string, role: Role, isActive: bool)

  datatype AuthResult = AuthOk(user: AuthUser) | AuthFail(error: string)

  function Select(u: User): AuthUser {
    AuthUser(u.id, u.email, u.name, u.role, u.isActive)
  }

  /** `findUnique({ where: { id } })` on the users table. */
  function FindUser(users: seq<User>, id: int): (r: Option<User>)
    ensures r.Some? ==> r.value in users && r.value.id == id
    ensures r.None? ==> forall i :: 0 <= i < |users| ==> users[i].id != id
  {
    if |users| == 0 then None
    else if users[0].id == id then Some(users[0])
    else FindUser(users[1..], id)
  }

  /** `verifyAuth`: no cookie, a token that does not verify, and a missing or inactive
      user each fail with their own message; otherwise the selected user record. */
  function VerifyAuth(token: Option<string>, decode: string -> Option<int>, users: seq<User>): (r: AuthResult)
    ensures (token.None? || token.value == "") <==> r == AuthFail("No token provided")
    ensures r == AuthFail("Invalid token") <==>
      token.Some? && token.value != "" && decode(token.value).None?
    ensures r == AuthFail("User not found or inactive") <==>
      && token.Some? && token.value != "" && decode(token.value).Some?
      && (FindUser(users, decode(token.value).value).None? || !FindUser(users, decode(token.value).value).value.isActive)
    ensures r.AuthOk? ==>
      && token.Some? && decode(token.value).Some?
      && exists u :: u in users && u.id == decode(token.value).value && u.isActive && r.user == Select(u)
    ensures token.Some? && token.value != "" && decode(token.value).Some? ==>
      var u := FindUser(users, decode(token.value).value);
      u.Some? && u.value.isActive ==> r == AuthOk(Select(u.value))
  {
    if token.None? || token.value == "" then AuthFail("No token provided")
    else match decode(token.value)
      case None => AuthFail("Invalid token")
      case Some(userId) =>
        match FindUser(users, userId)
        case None => AuthFail("User not found or inactive")
        case Some(u) => if !u.isActive then AuthFail("User not found or inactive") else AuthOk(Select(u))
  }

  datatype GateDecision = Pass(user: AuthUser) | Deny(status: nat, message: string)

  /** The decision `requireAuth` takes before running its handler. */
  function Authorize(auth: AuthResult, requireAdmin: bool): (r: GateDecision)
    ensures auth.AuthFail? <==> r.Deny? && r.status == 401
    ensures auth.AuthFail? ==> r.message == auth.error
    ensures r == Deny(403, "Admin access required") <==> auth.AuthOk? && requireAdmin && auth.user.role != ADMIN
    ensures r.Pass? <==> auth.AuthOk? && (!requireAdmin || auth.user.role == ADMIN)
    ensures r.Pass? ==> r.user == auth.user
  {
    if auth.AuthFail? then Deny(401, auth.error)
    else if requireAdmin && auth.user.role != ADMIN then Deny(403, "Admin access required")
    else Pass(auth.user)
  }

  /** `requireAuth(handler, requireAdmin)` applied to one request. The handler sees the
      authenticated user and the state and returns its response with the new state; a
      denied request gets the gate's error and leaves the state as it was. */
  function RequireAuth<T, S>(auth: AuthResult, requireAdmin: bool, state: S,
                             handler: AuthUser -> (Response<T>, S)): (r: (Response<T>, S))
    ensures auth.AuthFail? ==> r == (Err(401, auth.error), state)
    ensures auth.AuthOk? && requireAdmin && auth.user.role != ADMIN ==>
      r == (Err(403, "Admin access required"), state)
    ensures auth.AuthOk? && (!requireAdmin || auth.user.role == ADMIN) ==> r == handler(auth.user)
  {
    match Authorize(auth, requireAdmin)
    case Deny(status, message) => (Err(status, message), state)
    case Pass(user) => handler(user)
  }

  /** A denied request never reaches the handler: its outcome is the same whatever the handler. */
  lemma DeniedRequestIgnoresHandler<T, S>(auth: AuthResult, requireAdmin: bool, state: S,
                                          h1: AuthUser -> (Response<T>, S), h2: AuthUser -> (Response<T>, S))
    requires Authorize(auth, requireAdmin).Deny?
    ensures RequireAuth(auth, requireAdmin, state, h1) == RequireAuth(auth, requireAdmin, state, h2)
    ensures RequireAuth(auth, requireAdmin, state, h1).1 == state
  {
  }
}
