/**
 * backend/admin/users.php: the administrator's listing of users and the
 * `create`, `update` and `delete` actions on the users table, behind the
 * admin guard.
 */
module AdminUsers {
  import opened Wrappers
  import opened Text
  import opened Records
  import opened Http
  import opened Tables
  import opened Sessions

  const NameEmailPasswordRequired := "Nom, email et mot de passe sont requis."
  const NameEmailRequired := "Nom et email sont requis."
  const InvalidUserId := "ID utilisateur invalide."
  const SelfDelete := "Vous ne pouvez pas supprimer votre propre compte administrateur."
  const UserCreated := "Utilisateur créé avec succès."
  const UserUpdated := "Utilisateur mis à jour avec succès."
  const UserDeleted := "Utilisateur supprimé avec succès."

  /** `$_POST['role'] ?? 'user'`, kept only when it is exactly "user" or "admin". */
  function CoercedRole(req: Request): (role: string)
    ensures role == "user" || role == "admin"
    ensures "role" in req.params && req.params["role"] in {"user", "admin"} ==> role == req.params["role"]
    ensures !("role" in req.params && req.params["role"] in {"user", "admin"}) ==> role == "user"
  {
    var requested := if "role" in req.params then req.params["role"] else "user";
    if requested == "user" || requested == "admin" then requested else "user"
  }

  /**
   * `create`: the trimmed name and email and the password must be non-empty
   * (422), the email valid (422) and not in use (409); then one row is
   * inserted with the hashed password and the coerced role.
   */
  function Create(req: Request, rows: map<int, UserRow>, env: Env): (o: Outcome<UserRow>)
    ensures o.effect.Keep? || o.effect.Add?
    ensures o.response.success <==> o.effect.Add?
    ensures var name, email, password := PhpTrim(Field(req, "full_name")), PhpTrim(Field(req, "email")), Field(req, "password");
      && (o.response.status == 422 <==> name == "" || email == "" || password == "" || !env.validEmail(email))
      && (o.response.status == 409 <==> !(o.response.status == 422) && EmailTaken(rows, email))
      && ((name == "" || email == "" || password == "") ==> o == Refuse(Fail(422, NameEmailPasswordRequired)))
      && ((name != "" && email != "" && password != "" && !env.validEmail(email)) ==> o == Refuse(Fail(422, InvalidEmail)))
      && ((name != "" && email != "" && password != "" && env.validEmail(email) && EmailTaken(rows, email))
          ==> o == Refuse(Fail(409, EmailInUse)))
      && (o.effect.Add? <==> name != "" && email != "" && password != "" && env.validEmail(email) && !EmailTaken(rows, email))
      && (o.effect.Add? ==>
            o.response == Done(UserCreated) && !EmailTaken(rows, email)
            && o.effect.row == UserRow(name, email, env.hash(password), Some(CoercedRole(req))))
  {
    var name, email, password := PhpTrim(Field(req, "full_name")), PhpTrim(Field(req, "email")), Field(req, "password");
    if name == "" || email == "" || password == "" then Refuse(Fail(422, NameEmailPasswordRequired))
    else if !env.validEmail(email) then Refuse(Fail(422, InvalidEmail))
    else if EmailTaken(rows, email) then Refuse(Fail(409, EmailInUse))
    else Outcome(Done(UserCreated), Add(UserRow(name, email, env.hash(password), Some(CoercedRole(req)))))
  }

  /**
   * `update`: the id is checked first (422), then the trimmed name and email
   * (422), the email's validity (422) and whether another user holds it
   * (409). Only the name, email and role of that row change; an id with no
   * row is still reported as a success.
   */
  function Update(req: Request, rows: map<int, UserRow>, env: Env): (o: Outcome<UserRow>)
    ensures o.effect.Keep? || o.effect.Put?
    ensures PostedId(req) <= 0 ==> o == Refuse(Fail(422, InvalidUserId))
    ensures var id, name, email := PostedId(req), PhpTrim(Field(req, "full_name")), PhpTrim(Field(req, "email"));
      && (o.response.status == 422 <==> id <= 0 || name == "" || email == "" || !env.validEmail(email))
      && ((id > 0 && (name == "" || email == "")) ==> o == Refuse(Fail(422, NameEmailRequired)))
      && ((id > 0 && name != "" && email != "" && !env.validEmail(email)) ==> o == Refuse(Fail(422, InvalidEmail)))
      && ((id > 0 && name != "" && email != "" && env.validEmail(email) && EmailTakenByOther(rows, email, id))
          ==> o == Refuse(Fail(409, EmailInUse)))
      && (o.response.success <==> id > 0 && name != "" && email != "" && env.validEmail(email) && !EmailTakenByOther(rows, email, id))
      && (o.response.success ==> o.response == Done(UserUpdated))
      && (o.response.status == 409 <==> id > 0 && name != "" && email != "" && env.validEmail(email) && EmailTakenByOther(rows, email, id))
      && (o.effect.Put? <==> o.response.success && id in rows)
      && (o.effect.Put? ==>
            o.effect.id == id && o.effect.row == UserRow(name, email, rows[id].passwordHash, Some(CoercedRole(req))))
  {
    var id, name, email := PostedId(req), PhpTrim(Field(req, "full_name")), PhpTrim(Field(req, "email"));
    if id <= 0 then Refuse(Fail(422, InvalidUserId))
    else if name == "" || email == "" then Refuse(Fail(422, NameEmailRequired))
    else if !env.validEmail(email) then Refuse(Fail(422, InvalidEmail))
    else if EmailTakenByOther(rows, email, id) then Refuse(Fail(409, EmailInUse))
    else
      var done := Done(UserUpdated);
      if id in rows then Outcome(done, Put(id, rows[id].(fullName := name, email := email, role := Some(CoercedRole(req)))))
      else Refuse(done)
  }

  /**
   * `delete`: the id must be positive (422) and must not be the logged-in
   * administrator's own `user_id` (400); then that row is deleted.
   */
  function Delete(req: Request, vars: map<string, SessionValue>): (o: Outcome<UserRow>)
    ensures o.effect.Keep? || o.effect.Remove?
    ensures PostedId(req) <= 0 ==> o == Refuse(Fail(422, InvalidUserId))
    ensures PostedId(req) > 0 && SessionUserId(vars) == Some(PostedId(req)) ==> o == Refuse(Fail(400, SelfDelete))
    ensures o.response.success <==> o.effect.Remove?
    ensures o.effect.Remove? <==> PostedId(req) > 0 && SessionUserId(vars) != Some(PostedId(req))
    ensures o.effect.Remove? ==> o.effect.id == PostedId(req) && o.response == Done(UserDeleted)
  {
    var id := PostedId(req);
    if id <= 0 then Refuse(Fail(422, InvalidUserId))
    else if "user_id" in vars && AsInt(vars["user_id"]) == id then Refuse(Fail(400, SelfDelete))
    else Outcome(Done(UserDeleted), Remove(id))
  }

  function View(id: int, row: UserRow): UserView
  {
    UserView(id, row.fullName, row.email, row.role)
  }

  /** GET: every user, largest id first, without the password column. */
  function ListUsers(rows: map<int, UserRow>, nextId: int): (users: seq<UserView>)
    requires IdsBelow(rows, nextId)
    ensures forall i :: 0 <= i < |users| ==> users[i].id in rows && users[i] == View(users[i].id, rows[users[i].id])
    ensures forall id :: id in rows ==> exists i :: 0 <= i < |users| && users[i].id == id
    ensures forall i, j :: 0 <= i < j < |users| ==> users[i].id > users[j].id
  {
    var ids := IdsDescending(rows, nextId);
    var users := seq(|ids|, i requires 0 <= i < |ids| => View(ids[i], rows[ids[i]]));
    forall id | id in rows ensures exists i :: 0 <= i < |users| && users[i].id == id {
      assert users[IndexOf(ids, id)].id == id;
    }
    users
  }

  /** What the endpoint does once the guard has passed: dispatch on the method and the action. */
  function Dispatch(req: Request, vars: map<string, SessionValue>, rows: map<int, UserRow>, nextId: int, env: Env): (o: Outcome<UserRow>)
    requires IdsBelow(rows, nextId)
    ensures req.verb == "GET" ==> o == Refuse(Listing(UserList(ListUsers(rows, nextId))))
    ensures req.verb != "GET" && req.verb != "POST" ==> o == Refuse(Fail(405, MethodNotAllowed))
    ensures req.verb == "POST" && Field(req, "action") !in {"create", "update", "delete"} ==> o == Refuse(Fail(400, InvalidAction))
    ensures o.effect.Add? ==> req.verb == "POST" && Field(req, "action") == "create"
    ensures o.effect.Put? ==> req.verb == "POST" && Field(req, "action") == "update"
    ensures o.effect.Remove? ==> req.verb == "POST" && Field(req, "action") == "delete"
  {
    if req.verb == "GET" then Refuse(Listing(UserList(ListUsers(rows, nextId))))
    else if req.verb == "POST" then
      match Field(req, "action")
      case "create" => Create(req, rows, env)
      case "update" => Update(req, rows, env)
      case "delete" => Delete(req, vars)
      case _ => Refuse(Fail(400, InvalidAction))
    else Refuse(Fail(405, MethodNotAllowed))
  }

  /** Whatever the request, no two users end up sharing an email. */
  lemma {:induction false} DispatchKeepsEmailsUnique(
    req: Request, vars: map<string, SessionValue>, rows: map<int, UserRow>, nextId: int, env: Env)
    requires IdsBelow(rows, nextId) && EmailsUnique(rows)
    ensures EmailsUnique(Applied(rows, nextId, Dispatch(req, vars, rows, nextId, env).effect))
  {
    var e := Dispatch(req, vars, rows, nextId, env).effect;
    var after := Applied(rows, nextId, e);
    match e {
      case Keep =>
      case Add(row) =>
        assert nextId !in rows;
        assert !EmailTaken(rows, row.email);
        forall i, j | i in after && j in after && after[i].email == after[j].email ensures i == j {
          if i != nextId && j != nextId {
            assert after[i] == rows[i] && after[j] == rows[j];
          }
        }
      case Put(id, row) =>
        assert !EmailTakenByOther(rows, row.email, id);
        forall i, j | i in after && j in after && after[i].email == after[j].email ensures i == j {
          if i != id && j != id {
            assert after[i] == rows[i] && after[j] == rows[j];
          }
        }
      case Remove(id) =>
        forall i, j | i in after && j in after && after[i].email == after[j].email ensures i == j {
          assert after[i] == rows[i] && after[j] == rows[j];
        }
    }
  }

  /**
   * The endpoint: the admin guard runs first and a refusal leaves the table
   * untouched; otherwise the decided statement is run on the table.
   */
  method Serve(req: Request, session: Session, users: Table<UserRow>, env: Env) returns (response: Response)
    requires users.Valid()
    modifies session`active, users
    ensures users.Valid()
    ensures session.active && session.vars == old(session.vars)
    ensures !AdminAllowed(old(session.vars)) ==>
      response == AccessDenied && users.rows == old(users.rows) && users.nextId == old(users.nextId)
    ensures AdminAllowed(old(session.vars)) ==>
      var o := Dispatch(req, old(session.vars), old(users.rows), old(users.nextId), env);
      && response == o.response
      && users.rows == Applied(old(users.rows), old(users.nextId), o.effect)
      && users.nextId == NextId(old(users.nextId), o.effect)
  {
    var refusal := RequireAdmin(session);
    if refusal.Some? {
      return refusal.value;
    }
    var o := Dispatch(req, session.vars, users.rows, users.nextId, env);
    users.Commit(o.effect);
    response := o.response;
  }
}
