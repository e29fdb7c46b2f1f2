/**
 * backend/contact.php: a visitor's message. The session is started first
 * (to link a logged-in user), only POST is served, the trimmed name, email
 * and message are checked one by one into an error map (the message by its
 * length in characters), and one `contacts` row is inserted.
 */
module PublicContact {
  import opened Wrappers
  import opened Text
  import opened Records
  import opened Http
  import opened Tables
  import opened Sessions

  const NameRequired := "Le nom est requis."
  const MessageRequired := "Le message est requis."
  const MessageTooShort := "Le message doit contenir au moins 10 caractères."
  const Sent := "Votre message a été envoyé avec succès."

  datatype Note = Note(name: string, email: string, message: string)

  function NoteOfRequest(req: Request): Note
  {
    Note(PhpTrim(Field(req, "name")), PhpTrim(Field(req, "email")), PhpTrim(Field(req, "message")))
  }

  /** The message's error: required, then at least 10 characters (`mb_strlen`). */
  function MessageError(message: string): (r: Option<string>)
    ensures r.None? <==> |message| >= 10
    ensures message == "" ==> r == Some(MessageRequired)
    ensures message != "" && |message| < 10 ==> r == Some(MessageTooShort)
  {
    if message == "" then Some(MessageRequired)
    else if |message| < 10 then Some(MessageTooShort)
    else None
  }

  /** One message per failing field, under the field's key. */
  function FieldErrors(n: Note, env: Env): (errors: map<string, string>)
    ensures errors.Keys <= {"name", "email", "message"}
    ensures ("name" in errors <==> n.name == "") && ("name" in errors ==> errors["name"] == NameRequired)
    ensures ("email" in errors <==> EmailError(n.email, env).Some?)
    ensures "email" in errors ==> errors["email"] == EmailError(n.email, env).value
    ensures ("message" in errors <==> MessageError(n.message).Some?)
    ensures "message" in errors ==> errors["message"] == MessageError(n.message).value
  {
    var afterName := if n.name == "" then map["name" := NameRequired] else map[];
    var afterEmail := match EmailError(n.email, env)
      case Some(m) => afterName["email" := m]
      case None => afterName;
    match MessageError(n.message)
    case Some(m) => afterEmail["message" := m]
    case None => afterEmail
  }

  /**
   * What the endpoint answers and writes once the session is started: 405
   * for any method but POST, 422 with the field errors, and otherwise one
   * row linked to the session's user (or to none).
   */
  function Decide(req: Request, vars: map<string, SessionValue>, env: Env): (o: Outcome<ContactRow>)
    ensures o.effect.Keep? || o.effect.Add?
    ensures req.verb != "POST" ==> o == Refuse(Fail(405, PostOnly))
    ensures var n := NoteOfRequest(req);
      && (req.verb == "POST" && FieldErrors(n, env) != map[] ==>
            o == Refuse(Invalid(SomeFieldsInvalid, FieldErrors(n, env))))
      && (o.effect.Add? <==> req.verb == "POST" && FieldErrors(n, env) == map[])
      && (o.effect.Add? ==>
            o.response == Done(Sent) && o.effect.row == ContactRow(SessionUserId(vars), n.name, n.email, n.message))
  {
    if req.verb != "POST" then Refuse(Fail(405, PostOnly))
    else
      var n := NoteOfRequest(req);
      var errors := FieldErrors(n, env);
      if errors != map[] then Refuse(Invalid(SomeFieldsInvalid, errors))
      else Outcome(Done(Sent), Add(ContactRow(SessionUserId(vars), n.name, n.email, n.message)))
  }

  /**
   * A message is stored exactly when it is POSTed with a name, a valid email
   * and a trimmed text of at least 10 characters.
   */
  lemma {:induction false} SentIff(req: Request, vars: map<string, SessionValue>, env: Env)
    ensures var n := NoteOfRequest(req);
      Decide(req, vars, env).effect.Add? <==>
        req.verb == "POST" && n.name != "" && n.email != "" && env.validEmail(n.email) && |n.message| >= 10
  {
    var n := NoteOfRequest(req);
    var errors := FieldErrors(n, env);
    if errors == map[] {
      assert "name" !in errors && "email" !in errors && "message" !in errors;
    }
  }

  /** The endpoint: start the session, then decide and run the INSERT if any. */
  method Serve(req: Request, session: Session, contacts: Table<ContactRow>, env: Env) returns (response: Response)
    requires contacts.Valid()
    modifies session`active, contacts
    ensures contacts.Valid()
    ensures session.active && session.vars == old(session.vars)
    ensures var o := Decide(req, old(session.vars), env);
      && response == o.response
      && contacts.rows == Applied(old(contacts.rows), old(contacts.nextId), o.effect)
      && contacts.nextId == NextId(old(contacts.nextId), o.effect)
  {
    session.EnsureStarted();
    var o := Decide(req, session.vars, env);
    contacts.Commit(o.effect);
    response := o.response;
  }
}
