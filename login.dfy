/**
 * backend/login.php: only POST is served; the trimmed email must be valid
 * and the password non-empty; the user is looked up by email and the
 * password checked against the stored hash. On success the session is
 * started and the user's id, name, email and role are written to it.
 */
module Login {
  import opened Wrappers
  import opened Text
  import opened Records
  import opened Http
  import opened Tables
  import opened Sessions
  import Register

  const EnterValidEmail := "Veuillez fournir une adresse email valide."
  const PasswordRequired := "Le mot de passe est requis."
  const BadCredentials := "Identifiants incorrects."
  const LoggedIn := "Connexion réussie."

  /** Whether the credentials open an account, and which one. */
  datatype Verdict = Refused(response: Response) | Admitted(id: int, user: UserRow)

  /** `SELECT ... WHERE email = :email LIMIT 1`. */
  function UserByEmail(rows: map<int, UserRow>, nextId: int, email: string): (r: Option<int>)
    ensures r.Some? ==> r.value in rows && rows[r.value].email == email
    ensures r.None? && IdsBelow(rows, nextId) ==> !EmailTaken(rows, email)
  {
    FirstMatch(rows, (u: UserRow) => u.email == email, 1, nextId)
  }

  /**
   * Everything before the session is touched: 405, then 422 for the email,
   * then 422 for the password, then 401 (the same message whether the
   * email is unknown or the password wrong).
   */
  function Authenticate(req: Request, rows: map<int, UserRow>, nextId: int, env: Env): (v: Verdict)
    ensures req.verb != "POST" ==> v == Refused(Fail(405, PostOnly))
    ensures var email, password := PhpTrim(Field(req, "email")), Field(req, "password");
      && (req.verb == "POST" && (email == "" || !env.validEmail(email)) ==> v == Refused(Fail(422, EnterValidEmail)))
      && (req.verb == "POST" && email != "" && env.validEmail(email) && password == "" ==>
            v == Refused(Fail(422, PasswordRequired)))
      && (v.Admitted? <==>
            && req.verb == "POST" && email != "" && env.validEmail(email) && password != ""
            && UserByEmail(rows, nextId, email).Some?
            && env.verify(password, rows[UserByEmail(rows, nextId, email).value].passwordHash))
      && (v.Admitted? ==> v.id == UserByEmail(rows, nextId, email).value && v.user == rows[v.id] && v.user.email == email)
      && (v.Refused? && req.verb == "POST" && email != "" && env.validEmail(email) && password != "" ==>
            v.response == Fail(401, BadCredentials))
  {
    var email, password := PhpTrim(Field(req, "email")), Field(req, "password");
    if req.verb != "POST" then Refused(Fail(405, PostOnly))
    else if email == "" || !env.validEmail(email) then Refused(Fail(422, EnterValidEmail))
    else if password == "" then Refused(Fail(422, PasswordRequired))
    else
      match UserByEmail(rows, nextId, email)
      case None => Refused(Fail(401, BadCredentials))
      case Some(id) =>
        if !env.verify(password, rows[id].passwordHash) then Refused(Fail(401, BadCredentials))
        else Admitted(id, rows[id])
  }

  /** `$user['role'] ?? 'user'`. */
  function RoleText(user: UserRow): string
  {
    user.role.GetOr("user")
  }

  /** The session data after a successful login on top of `vars`. */
  function SignedIn(vars: map<string, SessionValue>, id: int, user: UserRow): map<string, SessionValue>
  {
    vars["user_id" := IntValue(id)]["full_name" := TextValue(user.fullName)]
        ["user_email" := TextValue(user.email)]["role" := TextValue(RoleText(user))]
  }

  function Welcome(id: int, user: UserRow): Response
  {
    Response(200, true, LoggedIn, None, Account(UserSummary(id, user.fullName, user.email, RoleText(user))))
  }

  /**
   * After a login the session names the user, and the admin guard passes
   * exactly when the stored role is "admin"; the response describes the
   * same user as the session.
   */
  lemma SignedInGrants(vars: map<string, SessionValue>, id: int, user: UserRow)
    ensures SessionUserId(SignedIn(vars, id, user)) == Some(id)
    ensures AdminAllowed(SignedIn(vars, id, user)) <==> user.role == Some("admin")
    ensures var summary := Welcome(id, user).payload.user;
      SignedIn(vars, id, user)["role"] == TextValue(summary.role)
      && SignedIn(vars, id, user)["full_name"] == TextValue(summary.fullName)
      && SignedIn(vars, id, user)["user_email"] == TextValue(summary.email)
  {
  }

  /**
   * The endpoint. A refusal leaves the session as it was; a success starts
   * the session if needed and writes the four keys one after the other.
   */
  method Serve(req: Request, session: Session, users: Table<UserRow>, env: Env) returns (response: Response)
    modifies session
    ensures match Authenticate(req, users.rows, users.nextId, env)
      case Refused(r) =>
        response == r && session.vars == old(session.vars) && session.active == old(session.active)
      case Admitted(id, user) =>
        response == Welcome(id, user) && session.active && session.vars == SignedIn(old(session.vars), id, user)
  {
    var v := Authenticate(req, users.rows, users.nextId, env);
    if v.Refused? {
      return v.response;
    }
    session.EnsureStarted();
    session.vars := session.vars["user_id" := IntValue(v.id)];
    session.vars := session.vars["full_name" := TextValue(v.user.fullName)];
    session.vars := session.vars["user_email" := TextValue(v.user.email)];
    session.vars := session.vars["role" := TextValue(RoleText(v.user))];
    response := Welcome(v.id, v.user);
  }

  /**
   * With no two users sharing an email, valid credentials are admitted
   * exactly when some user has that email and the password verifies
   * against that user's hash.
   */
  lemma {:induction false} AdmittedIff(req: Request, rows: map<int, UserRow>, nextId: int, env: Env)
    requires IdsBelow(rows, nextId) && EmailsUnique(rows)
    requires req.verb == "POST" && PhpTrim(Field(req, "email")) != "" && env.validEmail(PhpTrim(Field(req, "email")))
    requires Field(req, "password") != ""
    ensures var email, password := PhpTrim(Field(req, "email")), Field(req, "password");
      Authenticate(req, rows, nextId, env).Admitted? <==>
        exists id :: id in rows && rows[id].email == email && env.verify(password, rows[id].passwordHash)
  {
    var email, password := PhpTrim(Field(req, "email")), Field(req, "password");
    var found := UserByEmail(rows, nextId, email);
    if exists id :: id in rows && rows[id].email == email && env.verify(password, rows[id].passwordHash) {
      var id :| id in rows && rows[id].email == email && env.verify(password, rows[id].passwordHash);
      assert EmailTaken(rows, email);
      assert found.value == id;
    }
  }

  /**
   * Registering and then logging in with the same email and password
   * admits the new account, provided the password verifies against its
   * own hash (as `password_verify` does for `password_hash`).
   */
  lemma {:induction false} RegisteredUserLogsIn(
    signup: Request, login: Request, rows: map<int, UserRow>, nextId: int, env: Env)
    requires IdsBelow(rows, nextId)
    requires Register.Decide(signup, rows, env).effect.Add?
    requires login.verb == "POST"
    requires PhpTrim(Field(login, "email")) == PhpTrim(Field(signup, "email"))
    requires Field(login, "password") == Field(signup, "password")
    requires env.verify(Field(signup, "password"), env.hash(Field(signup, "password")))
    ensures var e := Register.Decide(signup, rows, env).effect;
      Authenticate(login, Applied(rows, nextId, e), NextId(nextId, e), env) == Admitted(nextId, e.row)
  {
    var e := Register.Decide(signup, rows, env).effect;
    var after := Applied(rows, nextId, e);
    var s := Register.SignupOfRequest(signup);
    Register.RegisteredIff(signup, rows, env);
    assert s.password != "";
    AppliedKeepsIds(rows, nextId, e);
    var found := UserByEmail(after, nextId + 1, s.email);
    assert after[nextId].email == s.email;
    assert found == Some(nextId);
  }
}
