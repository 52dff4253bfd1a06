/**
 * Access control (Backend/routes/auth.js): the three route guards as decisions
 * over an optional session principal, the login outcome, and the session that
 * login, logout and the status route act on.
 *
 * Password hashing is outside the model: `bcrypt.compare` is the parameter
 * `matches`, applied to the supplied password and the stored hash.
 */
module Auth {
  import opened Common

  const ADMIN := "admin"
  const STAFF := "staff"

  /** `req.session.user`. `permissions` is absent for users stored by login. */
  datatype SessionUser = SessionUser(id: int, username: string, role: string, permissions: Option<seq<string>>)

  /** Whether a guard calls `next()` or answers with an error status. */
  datatype Decision = Allow | Deny(status: int, message: string)

  /** `checkPermission(permission)`. */
  function CheckPermission(user: Option<SessionUser>, permission: string): (d: Decision)
    ensures d == Allow <==> user.Some? && (user.value.role == ADMIN ||
                            (user.value.permissions.Some? && permission in user.value.permissions.value))
    ensures user.None? ==> d == Deny(401, "Unauthorized")
    ensures user.Some? && d != Allow ==> d == Deny(403, "Forbidden")
  {
    if user.None? then Deny(401, "Unauthorized")
    else if user.value.role == ADMIN then Allow
    else
      var granted := if user.value.permissions.Some? then user.value.permissions.value else [];
      if permission !in granted then Deny(403, "Forbidden") else Allow
  }

  /** `checkAdmin`: a missing user gets 403 here, not 401. */
  function CheckAdmin(user: Option<SessionUser>): (d: Decision)
    ensures d == Allow <==> user.Some? && user.value.role == ADMIN
    ensures d != Allow ==> d == Deny(403, "Forbidden: Admin access required")
  {
    if user.None? || user.value.role != ADMIN then Deny(403, "Forbidden: Admin access required") else Allow
  }

  /** `checkAdminOrStaff`. */
  function CheckAdminOrStaff(user: Option<SessionUser>): (d: Decision)
    ensures d == Allow <==> user.Some? && (user.value.role == ADMIN || user.value.role == STAFF)
    ensures user.None? ==> d == Deny(401, "Unauthorized")
    ensures user.Some? && d != Allow ==> d == Deny(403, "Forbidden: Admin or Staff access required")
  {
    if user.None? then Deny(401, "Unauthorized")
    else if user.value.role == ADMIN || user.value.role == STAFF then Allow
    else Deny(403, "Forbidden: Admin or Staff access required")
  }

  /** Whatever `checkAdmin` lets through, the other two guards let through too,
      for every permission. */
  lemma AdminPassesEveryGuard(user: Option<SessionUser>, permission: string)
    requires CheckAdmin(user) == Allow
    ensures CheckAdminOrStaff(user) == Allow && CheckPermission(user, permission) == Allow
  {
  }

  /** Without a session, `checkAdmin` answers 403 where the other guards answer 401. */
  lemma GuardsDisagreeWithoutSession(permission: string)
    ensures CheckAdmin(None).status == 403
    ensures CheckAdminOrStaff(None).status == 401 && CheckPermission(None, permission).status == 401
  {
  }

  // ---------------------------------------------------------------------------
  // Login, logout and status.

  /** A row of the `users` table as the login query reads it. */
  datatype UserRecord = UserRecord(id: int, username: string, passwordHash: string, role: string)

  datatype LoginResult = LoggedIn(user: SessionUser) | LoginRefused(status: int, message: string)

  const INVALID_CREDENTIALS := LoginRefused(401, "Invalid credentials")

  /** The first row `SELECT ... WHERE username = $1` returns. */
  function FindUser(users: seq<UserRecord>, username: string): (r: Option<UserRecord>)
    ensures r.Some? ==> r.value in users && r.value.username == username
    ensures r.None? ==> forall u :: u in users ==> u.username != username
  {
    if users == [] then None
    else if users[0].username == username then Some(users[0])
    else FindUser(users[1..], username)
  }

  /** POST `/login`. A missing or empty username or password is 400; an unknown
      user and a wrong password get the same 401; a user found by name whose
      stored hash matches the password is logged in, without permissions. */
  function LoginOutcome(username: Option<string>, password: Option<string>, users: seq<UserRecord>,
                        matches: (string, string) -> bool): (r: LoginResult)
    ensures !Truthy(username) || !Truthy(password) <==> r == LoginRefused(400, "Username and password are required")
    ensures r.LoggedIn? ==>
      exists u :: u in users && u.username == username.value && matches(password.value, u.passwordHash)
        && r.user == SessionUser(u.id, u.username, u.role, None)
    ensures r.LoginRefused? && r.status != 400 ==> r == INVALID_CREDENTIALS
    ensures r.LoggedIn? <==>
      Truthy(username) && Truthy(password) && FindUser(users, username.value).Some?
      && matches(password.value, FindUser(users, username.value).value.passwordHash)
    ensures r.LoggedIn? ==>
      var u := FindUser(users, username.value).value;
      r.user == SessionUser(u.id, u.username, u.role, None)
  {
    if !Truthy(username) || !Truthy(password) then LoginRefused(400, "Username and password are required")
    else
      var found := FindUser(users, username.value);
      if found.None? then INVALID_CREDENTIALS
      else if !matches(password.value, found.value.passwordHash) then INVALID_CREDENTIALS
      else LoggedIn(SessionUser(found.value.id, found.value.username, found.value.role, None))
  }

  /** A caller cannot tell an unknown username from a wrong password. */
  lemma UnknownUserLooksLikeWrongPassword(username: string, password: string, users: seq<UserRecord>,
                                          matches: (string, string) -> bool)
    requires username != "" && password != ""
    requires FindUser(users, username).None? || !matches(password, FindUser(users, username).value.passwordHash)
    ensures LoginOutcome(Some(username), Some(password), users, matches) == INVALID_CREDENTIALS
  {
  }

  /** A session stored by login carries no permissions, so a logged-in user who
      is not an admin is refused by every `checkPermission`. */
  lemma LoggedInNonAdminHasNoPermissions(username: Option<string>, password: Option<string>,
                                         users: seq<UserRecord>, matches: (string, string) -> bool,
                                         permission: string)
    requires LoginOutcome(username, password, users, matches).LoggedIn?
    requires LoginOutcome(username, password, users, matches).user.role != ADMIN
    ensures CheckPermission(Some(LoginOutcome(username, password, users, matches).user), permission) == Deny(403, "Forbidden")
  {
  }

  /** The body of GET `/status`. */
  datatype AuthStatus = Authenticated(id: int, username: string, role: string) | NotAuthenticated

  function StatusOf(user: Option<SessionUser>): (s: AuthStatus)
    ensures s.Authenticated? <==> user.Some?
    ensures user.Some? ==> s == Authenticated(user.value.id, user.value.username, user.value.role)
  {
    if user.Some? then Authenticated(user.value.id, user.value.username, user.value.role) else NotAuthenticated
  }

  /** The server-side session of one client. */
  class Session {
    var user: Option<SessionUser>

    constructor ()
      ensures user == None
    {
      user := None;
    }

    /** POST `/login`: a successful login replaces the session user; a refused
        one leaves the session as it was. */
    method Login(username: Option<string>, password: Option<string>, users: seq<UserRecord>,
                 matches: (string, string) -> bool) returns (r: LoginResult)
      modifies this
      ensures r == LoginOutcome(username, password, users, matches)
      ensures user == if r.LoggedIn? then Some(r.user) else old(user)
    {
      r := LoginOutcome(username, password, users, matches);
      if r.LoggedIn? {
        user := Some(r.user);
      }
    }

    /** GET `/logout`: the session is destroyed. */
    method Logout()
      modifies this
      ensures user == None && StatusOf(user) == NotAuthenticated
    {
      user := None;
    }
  }
}
