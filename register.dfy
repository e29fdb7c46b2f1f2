/**
 * backend/register.php: account creation. Only POST is served; the trimmed
 * first and last names, the trimmed email and the raw password are checked
 * one by one (the password by its length in bytes), the email must be free,
 * and one `users` row is inserted with the hashed password and the role
 * "user". No session is started.
 */
module Register {
  import opened Wrappers
  import opened Text
  import opened Records
  import opened Http
  import opened Tables

  const FirstNameRequired := "Le prénom est requis."
  const LastNameRequired := "Le nom est requis."
  const PasswordRequired := "Le mot de passe est requis."
  const PasswordTooShort := "Le mot de passe doit contenir au moins 8 caractères."
  const Registered := "Inscription réussie. Vous pouvez maintenant vous connecter."

  /** The four fields: names and email trimmed, the password as sent. */
  datatype Signup = Signup(firstName: string, lastName: string, email: string, password: string)

  function SignupOfRequest(req: Request): Signup
  {
    Signup(PhpTrim(Field(req, "first_name")), PhpTrim(Field(req, "last_name")),
           PhpTrim(Field(req, "email")), Field(req, "password"))
  }

  /** The password's message: required, then at least 8 bytes (`strlen`). */
  function PasswordError(password: string): (r: Option<string>)
    ensures r.None? <==> Utf8Length(password) >= 8
    ensures password == "" ==> r == Some(PasswordRequired)
    ensures password != "" && Utf8Length(password) < 8 ==> r == Some(PasswordTooShort)
  {
    if password == "" then Some(PasswordRequired)
    else if Utf8Length(password) < 8 then Some(PasswordTooShort)
    else None
  }

  /** One message per failing field, under the field's key. */
  function FieldErrors(s: Signup, env: Env): (errors: map<string, string>)
    ensures errors.Keys <= {"first_name", "last_name", "email", "password"}
    ensures ("first_name" in errors <==> s.firstName == "")
    ensures "first_name" in errors ==> errors["first_name"] == FirstNameRequired
    ensures ("last_name" in errors <==> s.lastName == "")
    ensures "last_name" in errors ==> errors["last_name"] == LastNameRequired
    ensures ("email" in errors <==> EmailError(s.email, env).Some?)
    ensures "email" in errors ==> errors["email"] == EmailError(s.email, env).value
    ensures ("password" in errors <==> PasswordError(s.password).Some?)
    ensures "password" in errors ==> errors["password"] == PasswordError(s.password).value
  {
    var afterFirst := if s.firstName == "" then map["first_name" := FirstNameRequired] else map[];
    var afterLast := if s.lastName == "" then afterFirst["last_name" := LastNameRequired] else afterFirst;
    var afterEmail := match EmailError(s.email, env)
      case Some(m) => afterLast["email" := m]
      case None => afterLast;
    match PasswordError(s.password)
    case Some(m) => afterEmail["password" := m]
    case None => afterEmail
  }

  /**
   * What the endpoint answers and writes: 405 for any method but POST, 422
   * (without the error map) when a field fails, 409 when the email is in
   * use, and otherwise one row "first last" with the hash and the role "user".
   */
  function Decide(req: Request, rows: map<int, UserRow>, env: Env): (o: Outcome<UserRow>)
    ensures o.effect.Keep? || o.effect.Add?
    ensures req.verb != "POST" ==> o == Refuse(Fail(405, PostOnly))
    ensures var s := SignupOfRequest(req);
      && (req.verb == "POST" && FieldErrors(s, env) != map[] ==> o == Refuse(Fail(422, SomeFieldsInvalid)))
      && (req.verb == "POST" && FieldErrors(s, env) == map[] && EmailTaken(rows, s.email) ==>
            o == Refuse(Fail(409, EmailInUse)))
      && (o.effect.Add? <==> req.verb == "POST" && FieldErrors(s, env) == map[] && !EmailTaken(rows, s.email))
      && (o.effect.Add? ==>
            o.response == Done(Registered)
            && o.effect.row == UserRow(s.firstName + " " + s.lastName, s.email, env.hash(s.password), Some("user")))
  {
    if req.verb != "POST" then Refuse(Fail(405, PostOnly))
    else
      var s := SignupOfRequest(req);
      if FieldErrors(s, env) != map[] then Refuse(Fail(422, SomeFieldsInvalid))
      else if EmailTaken(rows, s.email) then Refuse(Fail(409, EmailInUse))
      else Outcome(Done(Registered), Add(UserRow(s.firstName + " " + s.lastName, s.email, env.hash(s.password), Some("user"))))
  }

  /**
   * An account is created exactly when both names are non-empty, the email
   * is valid and free, and the password has at least 8 bytes; a new account
   * is never an administrator.
   */
  lemma {:induction false} RegisteredIff(req: Request, rows: map<int, UserRow>, env: Env)
    ensures var s := SignupOfRequest(req);
      Decide(req, rows, env).effect.Add? <==>
        && req.verb == "POST" && s.firstName != "" && s.lastName != ""
        && s.email != "" && env.validEmail(s.email) && !EmailTaken(rows, s.email)
        && Utf8Length(s.password) >= 8
    ensures Decide(req, rows, env).effect.Add? ==> Decide(req, rows, env).effect.row.role == Some("user")
  {
    var s := SignupOfRequest(req);
    var errors := FieldErrors(s, env);
    if errors == map[] {
      assert "first_name" !in errors && "last_name" !in errors && "email" !in errors && "password" !in errors;
    }
  }

  /** Registration never lets two users share an email. */
  lemma {:induction false} DecideKeepsEmailsUnique(req: Request, rows: map<int, UserRow>, nextId: int, env: Env)
    requires IdsBelow(rows, nextId) && EmailsUnique(rows)
    ensures EmailsUnique(Applied(rows, nextId, Decide(req, rows, env).effect))
  {
    var e := Decide(req, rows, env).effect;
    var after := Applied(rows, nextId, e);
    if e.Add? {
      assert nextId !in rows;
      forall i, j | i in after && j in after && after[i].email == after[j].email ensures i == j {
        if i != nextId && j != nextId {
          assert after[i] == rows[i] && after[j] == rows[j];
        }
      }
    }
  }

  /** The endpoint: decide, then run the INSERT if any. */
  method Serve(req: Request, users: Table<UserRow>, env: Env) returns (response: Response)
    requires users.Valid()
    modifies users
    ensures users.Valid()
    ensures var o := Decide(req, old(users.rows), env);
      && response == o.response
      && users.rows == Applied(old(users.rows), old(users.nextId), o.effect)
      && users.nextId == NextId(old(users.nextId), o.effect)
  {
    var o := Decide(req, users.rows, env);
    users.Commit(o.effect);
    response := o.response;
  }
}
