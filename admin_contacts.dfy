/**
 * backend/admin/contacts.php: the administrator's listing of contact
 * messages (joined with their senders) and the `create`, `update` and
 * `delete` actions, behind the admin guard.
 */
module AdminContacts {
  import opened Wrappers
  import opened Text
  import opened Records
  import opened Http
  import opened Tables
  import opened Sessions

  const FieldsRequired := "Nom, email et message sont requis."
  const InvalidMessageId := "ID de message invalide."
  const MessageCreated := "Message créé avec succès."
  const MessageUpdated := "Message mis à jour avec succès."
  const MessageDeleted := "Message supprimé avec succès."

  /**
   * The checks shared by `create` and `update`: the trimmed name, email and
   * message must be non-empty (no minimum length here) and the email valid,
   * every failure being a 422.
   */
  function Refusal(name: string, email: string, message: string, env: Env): (r: Option<Response>)
    ensures r.None? <==> name != "" && email != "" && message != "" && env.validEmail(email)
    ensures r.Some? ==> r.value.status == 422 && !r.value.success
    ensures (name == "" || email == "" || message == "") ==> r == Some(Fail(422, FieldsRequired))
    ensures (name != "" && email != "" && message != "" && !env.validEmail(email)) ==> r == Some(Fail(422, InvalidEmail))
  {
    if name == "" || email == "" || message == "" then Some(Fail(422, FieldsRequired))
    else if !env.validEmail(email) then Some(Fail(422, InvalidEmail))
    else None
  }

  /** `create`: one row with no linked user. */
  function Create(req: Request, env: Env): (o: Outcome<ContactRow>)
    ensures o.effect.Keep? || o.effect.Add?
    ensures o.response.success <==> o.effect.Add?
    ensures !o.response.success ==> o.response.status == 422
    ensures var name, email, message := PhpTrim(Field(req, "name")), PhpTrim(Field(req, "email")), PhpTrim(Field(req, "message"));
      && (o.effect.Add? <==> name != "" && email != "" && message != "" && env.validEmail(email))
      && (o.effect.Add? ==> o.effect.row == ContactRow(None, name, email, message) && o.response == Done(MessageCreated))
      && (Refusal(name, email, message, env).Some? ==> o == Refuse(Refusal(name, email, message, env).value))
  {
    var name, email, message := PhpTrim(Field(req, "name")), PhpTrim(Field(req, "email")), PhpTrim(Field(req, "message"));
    match Refusal(name, email, message, env)
    case Some(response) => Refuse(response)
    case None => Outcome(Done(MessageCreated), Add(ContactRow(None, name, email, message)))
  }

  /** `update`: the id is checked first; only the name, email and message of that row change. */
  function Update(req: Request, rows: map<int, ContactRow>, env: Env): (o: Outcome<ContactRow>)
    ensures o.effect.Keep? || o.effect.Put?
    ensures !o.response.success ==> o.response.status == 422
    ensures PostedId(req) <= 0 ==> o == Refuse(Fail(422, InvalidMessageId))
    ensures var id, name, email, message := PostedId(req), PhpTrim(Field(req, "name")), PhpTrim(Field(req, "email")), PhpTrim(Field(req, "message"));
      && (o.response.success <==> id > 0 && name != "" && email != "" && message != "" && env.validEmail(email))
      && ((id > 0 && Refusal(name, email, message, env).Some?) ==> o == Refuse(Refusal(name, email, message, env).value))
      && (o.response.success ==> o.response == Done(MessageUpdated))
      && (o.effect.Put? <==> o.response.success && id in rows)
      && (o.effect.Put? ==> o.effect.id == id && o.effect.row == ContactRow(rows[id].userId, name, email, message))
  {
    var id, name, email, message := PostedId(req), PhpTrim(Field(req, "name")), PhpTrim(Field(req, "email")), PhpTrim(Field(req, "message"));
    if id <= 0 then Refuse(Fail(422, InvalidMessageId))
    else
      match Refusal(name, email, message, env)
      case Some(response) => Refuse(response)
      case None =>
        var done := Done(MessageUpdated);
        if id in rows then Outcome(done, Put(id, rows[id].(name := name, email := email, message := message)))
        else Refuse(done)
  }

  /** `delete`: a positive id is deleted. */
  function Delete(req: Request): (o: Outcome<ContactRow>)
    ensures o.effect.Keep? || o.effect.Remove?
    ensures PostedId(req) <= 0 ==> o == Refuse(Fail(422, InvalidMessageId))
    ensures PostedId(req) > 0 ==> o == Outcome(Done(MessageDeleted), Remove(PostedId(req)))
  {
    var id := PostedId(req);
    if id <= 0 then Refuse(Fail(422, InvalidMessageId))
    else Outcome(Done(MessageDeleted), Remove(id))
  }

  function View(id: int, row: ContactRow, users: map<int, UserRow>): ContactView
  {
    var u := LinkedUser(users, row.userId);
    ContactView(id, row.userId, if u.Some? then Some(u.value.fullName) else None,
                if u.Some? then Some(u.value.email) else None, row.name, row.email, row.message)
  }

  /** GET: every message, largest id first, with its sender's name and email or nulls. */
  function ListContacts(rows: map<int, ContactRow>, nextId: int, users: map<int, UserRow>): (list: seq<ContactView>)
    requires IdsBelow(rows, nextId)
    ensures forall i :: 0 <= i < |list| ==> list[i].id in rows && list[i] == View(list[i].id, rows[list[i].id], users)
    ensures forall id :: id in rows ==> exists i :: 0 <= i < |list| && list[i].id == id
    ensures forall i, j :: 0 <= i < j < |list| ==> list[i].id > list[j].id
    ensures forall i :: 0 <= i < |list| ==>
      (list[i].userFullName.None? <==> list[i].userId.None? || list[i].userId.value !in users)
  {
    var ids := IdsDescending(rows, nextId);
    var list := seq(|ids|, i requires 0 <= i < |ids| => View(ids[i], rows[ids[i]], users));
    forall id | id in rows ensures exists i :: 0 <= i < |list| && list[i].id == id {
      assert list[IndexOf(ids, id)].id == id;
    }
    list
  }

  function Dispatch(req: Request, rows: map<int, ContactRow>, nextId: int, users: map<int, UserRow>, env: Env)
    : (o: Outcome<ContactRow>)
    requires IdsBelow(rows, nextId)
    ensures req.verb == "GET" ==> o == Refuse(Listing(ContactList(ListContacts(rows, nextId, users))))
    ensures req.verb != "GET" && req.verb != "POST" ==> o == Refuse(Fail(405, MethodNotAllowed))
    ensures req.verb == "POST" && Field(req, "action") !in {"create", "update", "delete"} ==> o == Refuse(Fail(400, InvalidAction))
    ensures o.effect.Add? ==> req.verb == "POST" && Field(req, "action") == "create"
    ensures o.effect.Put? ==> req.verb == "POST" && Field(req, "action") == "update"
    ensures o.effect.Remove? ==> req.verb == "POST" && Field(req, "action") == "delete"
  {
    if req.verb == "GET" then Refuse(Listing(ContactList(ListContacts(rows, nextId, users))))
    else if req.verb == "POST" then
      match Field(req, "action")
      case "create" => Create(req, env)
      case "update" => Update(req, rows, env)
      case "delete" => Delete(req)
      case _ => Refuse(Fail(400, InvalidAction))
    else Refuse(Fail(405, MethodNotAllowed))
  }

  /** An administrator's request never changes which user a stored message is linked to. */
  lemma {:induction false} DispatchKeepsSenders(
    req: Request, rows: map<int, ContactRow>, nextId: int, users: map<int, UserRow>, env: Env, id: int)
    requires IdsBelow(rows, nextId) && id in rows
    ensures var after := Applied(rows, nextId, Dispatch(req, rows, nextId, users, env).effect);
      id in after ==> after[id].userId == rows[id].userId
  {
    var e := Dispatch(req, rows, nextId, users, env).effect;
    var after := Applied(rows, nextId, e);
    if id in after && Target(e, nextId) != Some(id) {
      assert after[id] == rows[id];
    }
  }

  /**
   * The endpoint: the admin guard runs first and a refusal leaves the table
   * untouched; otherwise the decided statement is run on the table.
   */
  method Serve(req: Request, session: Session, contacts: Table<ContactRow>, users: Table<UserRow>, env: Env)
    returns (response: Response)
    requires contacts.Valid()
    modifies session`active, contacts
    ensures contacts.Valid()
    ensures session.active && session.vars == old(session.vars)
    ensures !AdminAllowed(old(session.vars)) ==>
      response == AccessDenied && contacts.rows == old(contacts.rows) && contacts.nextId == old(contacts.nextId)
    ensures AdminAllowed(old(session.vars)) ==>
      var o := Dispatch(req, old(contacts.rows), old(contacts.nextId), users.rows, env);
      && response == o.response
      && contacts.rows == Applied(old(contacts.rows), old(contacts.nextId), o.effect)
      && contacts.nextId == NextId(old(contacts.nextId), o.effect)
  {
    var refusal := RequireAdmin(session);
    if refusal.Some? {
      return refusal.value;
    }
    var o := Dispatch(req, contacts.rows, contacts.nextId, users.rows, env);
    contacts.Commit(o.effect);
    response := o.response;
  }
}
