/**
 * The application shell (Backend/server.js): the CORS origin rule, the
 * `authenticateUser` gate and which routers sit behind it, the guards of the
 * image-upload and test-email endpoints, and the creation of the default admin
 * user at start-up.
 *
 * The image store and the email service are outside calls: the model takes
 * their results as parameters and records each call in a log.
 */
module Server {
  import opened Common
  import Auth
  import Reminders

  // ---------------------------------------------------------------------------
  // CORS

  const ALLOWED_ORIGINS: seq<string> := ["http://localhost:8080", "https://easylibrary.onrender.com", "file://"]

  /** The `origin` callback: a request without an origin, or from one of the
      listed origins, is allowed. */
  function CorsAllows(origin: Option<string>): (ok: bool)
    ensures ok <==> origin.None? || origin.value == "" || origin.value == "http://localhost:8080"
                    || origin.value == "https://easylibrary.onrender.com" || origin.value == "file://"
  {
    !Truthy(origin) || origin.value in ALLOWED_ORIGINS
  }

  // ---------------------------------------------------------------------------
  // The session gate and the mount table.

  const LOGIN_PATH := "/api/auth/login"

  /** `authenticateUser`, given the path the middleware sees and the session user. */
  function AuthenticateUser(path: string, user: Option<Auth.SessionUser>): (d: Auth.Decision)
    ensures d == Auth.Allow <==> path == LOGIN_PATH || user.Some?
    ensures d != Auth.Allow ==> d == Auth.Deny(401, "Unauthorized")
  {
    if path == LOGIN_PATH || user.Some? then Auth.Allow else Auth.Deny(401, "Unauthorized")
  }

  /** A router or endpoint of the app and whether `authenticateUser` runs before it. */
  datatype Mount = Mount(prefix: string, gated: bool)

  const MOUNTS: seq<Mount> := [
    Mount("/api/upload-image", false),
    Mount("/api/auth", false),
    Mount("/api/users", true),
    Mount("/api/students", true),
    Mount("/api/schedules", true),
    Mount("/api/seats", true),
    Mount("/api/settings", true),
    Mount("/api/test-email", false)
  ]

  const DATA_ROUTERS := ["/api/users", "/api/students", "/api/schedules", "/api/seats", "/api/settings"]

  /** The decision for a request to `m`. Inside a mounted router Express hands
      the gate the path below the mount point. */
  function Admit(m: Mount, subPath: string, user: Option<Auth.SessionUser>): Auth.Decision {
    if m.gated then AuthenticateUser(subPath, user) else Auth.Allow
  }

  /** The five data routers are gated and the auth router is not; without a
      session, a request to a data router is refused with 401 unless the path
      below the mount point is literally the login path. */
  lemma DataRoutersAreGated(m: Mount, subPath: string)
    requires m in MOUNTS
    ensures m.gated <==> m.prefix in DATA_ROUTERS
    ensures m.prefix == "/api/auth" ==> Admit(m, subPath, None) == Auth.Allow
    ensures m.prefix in DATA_ROUTERS && subPath != LOGIN_PATH ==> Admit(m, subPath, None) == Auth.Deny(401, "Unauthorized")
  {
  }

  /** With a session user every mount admits the request. */
  lemma SessionPassesGate(m: Mount, subPath: string, user: Auth.SessionUser)
    ensures Admit(m, subPath, Some(user)) == Auth.Allow
  {
  }

  // ---------------------------------------------------------------------------
  // POST `/api/upload-image` and GET `/api/test-email`

  datatype UploadResult = NoFile | Uploaded(imageUrl: string) | UploadFailed

  /** POST `/api/upload-image`: `store` stands for the image service, returning
      the URL of the stored image or None on failure; `stored` logs what was
      handed to it. */
  method UploadImage(file: Option<seq<bv8>>, store: seq<bv8> -> Option<string>)
    returns (r: UploadResult, stored: seq<seq<bv8>>)
    ensures file.None? <==> r == NoFile
    ensures file.None? ==> stored == []
    ensures file.Some? ==>
      stored == [file.value] && r == (if store(file.value).Some? then Uploaded(store(file.value).value) else UploadFailed)
  {
    if file.None? {
      return NoFile, [];
    }
    stored := [file.value];
    var url := store(file.value);
    r := if url.Some? then Uploaded(url.value) else UploadFailed;
  }

  datatype TestEmailResult = TemplateNotSet | TestEmailSent | TestEmailFailed

  /** GET `/api/test-email`: builds the settings map and sends one fixed test
      reminder with the configured template; `delivers` is the outcome of that
      send, and `sentWith` logs the template of each send. */
  method TestEmail(rows: seq<Reminders.SettingRow>, delivers: string -> bool)
    returns (r: TestEmailResult, sentWith: seq<string>)
    ensures var template := Reminders.Setting(Reminders.SettingsOf(rows), Reminders.TEMPLATE_KEY);
      && (r == TemplateNotSet <==> !Truthy(template))
      && (r == TemplateNotSet ==> sentWith == [])
      && (r != TemplateNotSet ==>
            sentWith == [template.value] && (r == TestEmailSent <==> delivers(template.value)))
  {
    var settings := Reminders.BuildSettings(rows);
    var template := Reminders.Setting(settings, Reminders.TEMPLATE_KEY);
    if !Truthy(template) {
      return TemplateNotSet, [];
    }
    sentWith := [template.value];
    r := if delivers(template.value) then TestEmailSent else TestEmailFailed;
  }

  // ---------------------------------------------------------------------------
  // `createDefaultAdmin`

  /** The users table after start-up: an empty table receives one admin named
      "admin" whose password hash is `hash`; any other table is left as it is. */
  function Bootstrap(users: seq<Auth.UserRecord>, id: int, hash: string): (r: seq<Auth.UserRecord>)
    ensures users == [] ==> |r| == 1 && r[0].username == "admin" && r[0].role == Auth.ADMIN
    ensures users != [] ==> r == users
    ensures r != []
  {
    if |users| == 0 then [Auth.UserRecord(id, "admin", hash, Auth.ADMIN)] else users
  }

  /** Starting the server twice creates the admin once. */
  lemma BootstrapIdempotent(users: seq<Auth.UserRecord>, id: int, hash: string, id2: int, hash2: string)
    ensures Bootstrap(Bootstrap(users, id, hash), id2, hash2) == Bootstrap(users, id, hash)
  {
  }

  /** On a fresh install, "admin"/"admin" logs in as an admin, who passes every
      guard. */
  lemma FreshInstallAdminLogin(id: int, hash: string, matches: (string, string) -> bool, permission: string)
    requires matches("admin", hash)
    ensures var r := Auth.LoginOutcome(Some("admin"), Some("admin"), Bootstrap([], id, hash), matches);
      && r == Auth.LoggedIn(Auth.SessionUser(id, "admin", Auth.ADMIN, None))
      && Auth.CheckAdmin(Some(r.user)) == Auth.Allow
      && Auth.CheckPermission(Some(r.user), permission) == Auth.Allow
  {
    var users := Bootstrap([], id, hash);
    assert Auth.FindUser(users, "admin") == Some(users[0]);
  }

  class UserTable {
    var users: seq<Auth.UserRecord>
    /** The next value of the `users` id sequence. */
    var nextId: int

    constructor (initial: seq<Auth.UserRecord>, next: int)
      ensures users == initial && nextId == next
    {
      users := initial;
      nextId := next;
    }

    /** `createDefaultAdmin`, with `hash` standing for `bcrypt.hash('admin', 10)`. */
    method CreateDefaultAdmin(hash: string)
      modifies this
      ensures users == Bootstrap(old(users), old(nextId), hash)
      ensures nextId == old(nextId) + (if old(users) == [] then 1 else 0)
    {
      if |users| == 0 {
        users := users + [Auth.UserRecord(nextId, "admin", hash, Auth.ADMIN)];
        nextId := nextId + 1;
      }
    }
  }
}
