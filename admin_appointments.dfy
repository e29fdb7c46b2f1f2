/**
 * backend/admin/appointments.php: the administrator's listing of
 * appointments (joined with their users) and the `create`, `update` and
 * `delete` actions, behind the admin guard. Dates typed by the administrator
 * are normalised to seconds precision and must pass the parse/format test.
 */
module AdminAppointments {
  import opened Wrappers
  import opened Text
  import opened DateTimes
  import opened Records
  import opened Http
  import opened Tables
  import opened Sessions

  const FieldsRequired := "Nom, email, téléphone et date sont requis."
  const BadDate := "Format de date/heure invalide (attendu: YYYY-MM-DD HH:MM)."
  const InvalidAppointmentId := "ID de rendez-vous invalide."
  const AppointmentCreated := "Rendez-vous créé avec succès."
  const AppointmentUpdated := "Rendez-vous mis à jour avec succès."
  const AppointmentDeleted := "Rendez-vous supprimé avec succès."

  /** The five trimmed fields of a create or update. */
  datatype Fields = Fields(name: string, email: string, phone: string, date: string, message: string)

  function FieldsOfRequest(req: Request): Fields
  {
    Fields(PhpTrim(Field(req, "name")), PhpTrim(Field(req, "email")), PhpTrim(Field(req, "phone")),
           PhpTrim(Field(req, "appointment_date")), PhpTrim(Field(req, "message")))
  }

  /**
   * The checks shared by `create` and `update`, in order: required fields,
   * email, then the normalised date's round trip. On success, the text to
   * store as the date.
   */
  function Checked(f: Fields, env: Env): (r: Result)
    ensures r.Accepted? <==>
      (f.name != "" && f.email != "" && f.phone != "" && f.date != ""
       && env.validEmail(f.email) && RoundTrips(NormalizeAdminDate(f.date)))
    ensures r.Accepted? ==> r.date == NormalizeAdminDate(f.date) && RoundTrips(r.date) && |r.date| == 19
    ensures r.Rejected? ==> r.response.status == 422 && !r.response.success
    ensures (f.name == "" || f.email == "" || f.phone == "" || f.date == "") ==> r == Rejected(Fail(422, FieldsRequired))
    ensures (f.name != "" && f.email != "" && f.phone != "" && f.date != "" && !env.validEmail(f.email))
      ==> r == Rejected(Fail(422, InvalidEmail))
    ensures (f.name != "" && f.email != "" && f.phone != "" && f.date != "" && env.validEmail(f.email)
             && !RoundTrips(NormalizeAdminDate(f.date)))
      ==> r == Rejected(Fail(422, BadDate))
  {
    if f.name == "" || f.email == "" || f.phone == "" || f.date == "" then Rejected(Fail(422, FieldsRequired))
    else if !env.validEmail(f.email) then Rejected(Fail(422, InvalidEmail))
    else
      var normalized := NormalizeAdminDate(f.date);
      if !RoundTrips(normalized) then Rejected(Fail(422, BadDate))
      else Accepted(normalized)
  }

  datatype Result = Accepted(date: string) | Rejected(response: Response)

  /** `create`: one row with no linked user and the normalised date. */
  function Create(req: Request, env: Env): (o: Outcome<AppointmentRow>)
    ensures o.effect.Keep? || o.effect.Add?
    ensures o.response.success <==> o.effect.Add?
    ensures !o.response.success ==> o.response.status == 422
    ensures var f := FieldsOfRequest(req);
      && (o.effect.Add? <==> Checked(f, env).Accepted?)
      && (Checked(f, env).Rejected? ==> o == Refuse(Checked(f, env).response))
      && (o.effect.Add? ==> o.response == Done(AppointmentCreated))
      && (o.effect.Add? ==>
            o.effect.row == AppointmentRow(None, f.name, f.email, f.phone, NormalizeAdminDate(f.date), f.message)
            && RoundTrips(o.effect.row.date))
  {
    var f := FieldsOfRequest(req);
    match Checked(f, env)
    case Rejected(response) => Refuse(response)
    case Accepted(date) =>
      Outcome(Done(AppointmentCreated), Add(AppointmentRow(None, f.name, f.email, f.phone, date, f.message)))
  }

  /** `update`: the id is checked first; the five fields of that row change, its linked user does not. */
  function Update(req: Request, rows: map<int, AppointmentRow>, env: Env): (o: Outcome<AppointmentRow>)
    ensures o.effect.Keep? || o.effect.Put?
    ensures !o.response.success ==> o.response.status == 422
    ensures PostedId(req) <= 0 ==> o == Refuse(Fail(422, InvalidAppointmentId))
    ensures var id, f := PostedId(req), FieldsOfRequest(req);
      && (o.response.success <==> id > 0 && Checked(f, env).Accepted?)
      && ((id > 0 && Checked(f, env).Rejected?) ==> o == Refuse(Checked(f, env).response))
      && (o.response.success ==> o.response == Done(AppointmentUpdated))
      && (o.effect.Put? <==> o.response.success && id in rows)
      && (o.effect.Put? ==>
            o.effect.id == id
            && o.effect.row == AppointmentRow(rows[id].userId, f.name, f.email, f.phone, NormalizeAdminDate(f.date), f.message)
            && RoundTrips(o.effect.row.date))
  {
    var id, f := PostedId(req), FieldsOfRequest(req);
    if id <= 0 then Refuse(Fail(422, InvalidAppointmentId))
    else
      match Checked(f, env)
      case Rejected(response) => Refuse(response)
      case Accepted(date) =>
        var done := Done(AppointmentUpdated);
        if id in rows then
          Outcome(done, Put(id, rows[id].(name := f.name, email := f.email, phone := f.phone, date := date, message := f.message)))
        else Refuse(done)
  }

  /** `delete`: a positive id is deleted. */
  function Delete(req: Request): (o: Outcome<AppointmentRow>)
    ensures o.effect.Keep? || o.effect.Remove?
    ensures PostedId(req) <= 0 ==> o == Refuse(Fail(422, InvalidAppointmentId))
    ensures PostedId(req) > 0 ==> o == Outcome(Done(AppointmentDeleted), Remove(PostedId(req)))
  {
    var id := PostedId(req);
    if id <= 0 then Refuse(Fail(422, InvalidAppointmentId))
    else Outcome(Done(AppointmentDeleted), Remove(id))
  }

  function View(id: int, row: AppointmentRow, users: map<int, UserRow>): AppointmentView
  {
    var u := LinkedUser(users, row.userId);
    AppointmentView(id, row.userId, if u.Some? then Some(u.value.fullName) else None,
                    if u.Some? then Some(u.value.email) else None,
                    row.name, row.email, row.phone, row.date, row.message)
  }

  /** GET: every appointment, largest id first, with its user's name and email or nulls. */
  function ListAppointments(rows: map<int, AppointmentRow>, nextId: int, users: map<int, UserRow>): (list: seq<AppointmentView>)
    requires IdsBelow(rows, nextId)
    ensures forall i :: 0 <= i < |list| ==> list[i].id in rows && list[i] == View(list[i].id, rows[list[i].id], users)
    ensures forall id :: id in rows ==> exists i :: 0 <= i < |list| && list[i].id == id
    ensures forall i, j :: 0 <= i < j < |list| ==> list[i].id > list[j].id
    ensures forall i :: 0 <= i < |list| ==>
      (list[i].userFullName.None? <==> list[i].userId.None? || list[i].userId.value !in users)
  {
    var ids := IdsDescending(rows, nextId);
    var list := seq(|ids|, i requires 0 <= i < |ids| => View(ids[i], rows[ids[i]], users));
    forall id | id in rows ensures exists i :: 0 <= i < |list| && list[i].id == id {
      assert list[IndexOf(ids, id)].id == id;
    }
    list
  }

  function Dispatch(req: Request, rows: map<int, AppointmentRow>, nextId: int, users: map<int, UserRow>, env: Env)
    : (o: Outcome<AppointmentRow>)
    requires IdsBelow(rows, nextId)
    ensures req.verb == "GET" ==> o == Refuse(Listing(AppointmentList(ListAppointments(rows, nextId, users))))
    ensures req.verb != "GET" && req.verb != "POST" ==> o == Refuse(Fail(405, MethodNotAllowed))
    ensures req.verb == "POST" && Field(req, "action") !in {"create", "update", "delete"} ==> o == Refuse(Fail(400, InvalidAction))
    ensures o.effect.Add? ==> req.verb == "POST" && Field(req, "action") == "create"
    ensures o.effect.Put? ==> req.verb == "POST" && Field(req, "action") == "update"
    ensures o.effect.Remove? ==> req.verb == "POST" && Field(req, "action") == "delete"
  {
    if req.verb == "GET" then Refuse(Listing(AppointmentList(ListAppointments(rows, nextId, users))))
    else if req.verb == "POST" then
      match Field(req, "action")
      case "create" => Create(req, env)
      case "update" => Update(req, rows, env)
      case "delete" => Delete(req)
      case _ => Refuse(Fail(400, InvalidAction))
    else Refuse(Fail(405, MethodNotAllowed))
  }

  /** Every stored date is in the canonical 19-character form. */
  predicate DatesCanonical(rows: map<int, AppointmentRow>)
  {
    forall id :: id in rows ==> RoundTrips(rows[id].date)
  }

  /** No administrator request can store a date that fails the parse/format test. */
  lemma {:induction false} DispatchKeepsDatesCanonical(
    req: Request, rows: map<int, AppointmentRow>, nextId: int, users: map<int, UserRow>, env: Env)
    requires IdsBelow(rows, nextId) && DatesCanonical(rows)
    ensures DatesCanonical(Applied(rows, nextId, Dispatch(req, rows, nextId, users, env).effect))
  {
    var e := Dispatch(req, rows, nextId, users, env).effect;
    var after := Applied(rows, nextId, e);
    forall id | id in after ensures RoundTrips(after[id].date) {
      if Target(e, nextId) != Some(id) {
        assert after[id] == rows[id];
      }
    }
  }

  /**
   * The endpoint: the admin guard runs first and a refusal leaves the table
   * untouched; otherwise the decided statement is run on the table.
   */
  method Serve(req: Request, session: Session, appointments: Table<AppointmentRow>, users: Table<UserRow>, env: Env)
    returns (response: Response)
    requires appointments.Valid()
    modifies session`active, appointments
    ensures appointments.Valid()
    ensures session.active && session.vars == old(session.vars)
    ensures !AdminAllowed(old(session.vars)) ==>
      response == AccessDenied && appointments.rows == old(appointments.rows) && appointments.nextId == old(appointments.nextId)
    ensures AdminAllowed(old(session.vars)) ==>
      var o := Dispatch(req, old(appointments.rows), old(appointments.nextId), users.rows, env);
      && response == o.response
      && appointments.rows == Applied(old(appointments.rows), old(appointments.nextId), o.effect)
      && appointments.nextId == NextId(old(appointments.nextId), o.effect)
  {
    var refusal := RequireAdmin(session);
    if refusal.Some? {
      return refusal.value;
    }
    var o := Dispatch(req, appointments.rows, appointments.nextId, users.rows, env);
    appointments.Commit(o.effect);
    response := o.response;
  }
}
