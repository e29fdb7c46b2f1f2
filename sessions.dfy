/**
 * The PHP session as the endpoints use it: whether it has been started in
 * this request, and the `$_SESSION` map (the data `session_start` loads for
 * the browser's session cookie). Also the admin guard of
 * backend/admin/common.php and the logout endpoint.
 */
module Sessions {
  import opened Wrappers
  import opened Text
  import opened Http

  /** A `$_SESSION` value: login writes an integer id and strings. */
  datatype SessionValue = IntValue(i: int) | TextValue(s: string)

  /** PHP's `(int)` cast of a session value. */
  function AsInt(v: SessionValue): int
  {
    match v
    case IntValue(i) => i
    case TextValue(s) => PhpToInt(s)
  }

  class Session {
    var active: bool
    var vars: map<string, SessionValue>

    /** A request's session before any `session_start`, carrying the stored data. */
    constructor (stored: map<string, SessionValue>)
      ensures !active && vars == stored
    {
      active := false;
      vars := stored;
    }

    /**
     * `ensure_session` (and the same test inlined in the public endpoints):
     * start the session only when none is active. The data is untouched, and
     * a second call changes nothing.
     */
    method EnsureStarted()
      modifies this`active
      ensures active && vars == old(vars)
      ensures old(active) ==> unchanged(this)
    {
      if !active {
        active := true;
      }
    }
  }

  /** `$_SESSION['role'] ?? 'user'`. */
  function RoleOf(vars: map<string, SessionValue>): (role: SessionValue)
    ensures "role" !in vars ==> role == TextValue("user")
    ensures "role" in vars ==> role == vars["role"]
  {
    if "role" in vars then vars["role"] else TextValue("user")
  }

  /** The guard passes when the role is the string "admin" under a strict comparison. */
  predicate AdminAllowed(vars: map<string, SessionValue>)
  {
    RoleOf(vars) == TextValue("admin")
  }

  /** The guard passes exactly when the session holds the role "admin"; a missing role never passes. */
  lemma AdminAllowedIff(vars: map<string, SessionValue>)
    ensures AdminAllowed(vars) <==> "role" in vars && vars["role"] == TextValue("admin")
  {
  }

  /** The comparison is case-sensitive and type-strict. */
  lemma GuardIsStrict(vars: map<string, SessionValue>)
    requires "role" in vars
    requires vars["role"] in {TextValue("Admin"), TextValue("ADMIN"), TextValue("admin "), TextValue("user"), IntValue(1)}
    ensures !AdminAllowed(vars)
  {
  }

  const AccessDenied: Response := Fail(403, "Accès refusé. Administrateur requis.")

  /**
   * `require_admin`: start the session, then refuse with 403 unless the role
   * is "admin". A refusal is returned for the caller to send before it does
   * anything else.
   */
  method RequireAdmin(session: Session) returns (refusal: Option<Response>)
    modifies session`active
    ensures session.active && session.vars == old(session.vars)
    ensures refusal.None? <==> AdminAllowed(session.vars)
    ensures refusal.Some? ==> refusal.value == AccessDenied
  {
    session.EnsureStarted();
    var role := RoleOf(session.vars);
    if role != TextValue("admin") {
      return Some(AccessDenied);
    }
    return None;
  }

  /** `isset($_SESSION['user_id']) ? (int)$_SESSION['user_id'] : null`. */
  function SessionUserId(vars: map<string, SessionValue>): (id: Option<int>)
    ensures id.Some? <==> "user_id" in vars
    ensures "user_id" in vars && vars["user_id"].IntValue? ==> id == Some(vars["user_id"].i)
  {
    if "user_id" in vars then Some(AsInt(vars["user_id"])) else None
  }

  const LoggedOut: Response := Done("Déconnexion réussie.")

  /**
   * backend/logout.php, for any method: start the session if needed, empty
   * `$_SESSION`, destroy the session, and report success.
   */
  method Logout(session: Session) returns (response: Response)
    modifies session
    ensures session.vars == map[] && !session.active
    ensures response == LoggedOut && response.success
  {
    session.EnsureStarted();
    session.vars := map[];
    session.active := false;
    response := LoggedOut;
  }

  /** After logout the guard sees the default role and refuses, and no user is linked. */
  lemma LoggedOutIsNotAdmin()
    ensures RoleOf(map[]) == TextValue("user") && !AdminAllowed(map[])
    ensures SessionUserId(map[]).None?
  {
  }
}
