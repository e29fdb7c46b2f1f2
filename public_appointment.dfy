/**
 * backend/appointment.php: a visitor's booking. The session is started
 * first (to link a logged-in user), only POST is served, the fields are
 * checked one by one into an error map, the date and the optional time are
 * composed into a date-time that must pass the parse/format test, and one
 * row is inserted.
 */
module PublicAppointment {
  import opened Wrappers
  import opened Text
  import opened DateTimes
  import opened Records
  import opened Http
  import opened Tables
  import opened Sessions
  import AdminAppointments

  const NameRequired := "Le nom est requis."
  const PhoneRequired := "Le numéro de téléphone est requis."
  const DateRequired := "La date du rendez-vous est requise."
  const DateInvalid := "La date/heure du rendez-vous est invalide."
  const Booked := "Votre demande de rendez-vous a été enregistrée avec succès."

  /** The six trimmed fields of the booking form. */
  datatype Booking = Booking(name: string, email: string, phone: string, date: string, time: string, message: string)

  function BookingOfRequest(req: Request): Booking
  {
    Booking(PhpTrim(Field(req, "name")), PhpTrim(Field(req, "email")), PhpTrim(Field(req, "phone")),
            PhpTrim(Field(req, "date")), PhpTrim(Field(req, "time")), PhpTrim(Field(req, "message")))
  }

  /**
   * The first round of checks: one message per failing field, under the
   * field's key; the time and the message are never checked.
   */
  function FieldErrors(b: Booking, env: Env): (errors: map<string, string>)
    ensures errors.Keys <= {"name", "email", "phone", "date"}
    ensures ("name" in errors <==> b.name == "") && ("name" in errors ==> errors["name"] == NameRequired)
    ensures ("email" in errors <==> EmailError(b.email, env).Some?)
    ensures "email" in errors ==> errors["email"] == EmailError(b.email, env).value
    ensures ("phone" in errors <==> b.phone == "") && ("phone" in errors ==> errors["phone"] == PhoneRequired)
    ensures ("date" in errors <==> b.date == "") && ("date" in errors ==> errors["date"] == DateRequired)
  {
    var afterName := if b.name == "" then map["name" := NameRequired] else map[];
    var afterEmail := match EmailError(b.email, env)
      case Some(m) => afterName["email" := m]
      case None => afterName;
    var afterPhone := if b.phone == "" then afterEmail["phone" := PhoneRequired] else afterEmail;
    if b.date == "" then afterPhone["date" := DateRequired] else afterPhone
  }

  /**
   * What the endpoint answers and writes, once the session is started:
   * 405 for any method but POST, 422 with the field errors, 422 with a
   * `date` error when the composed date-time fails the test, and otherwise
   * one row linked to the session's user (or to none).
   */
  function Decide(req: Request, vars: map<string, SessionValue>, env: Env): (o: Outcome<AppointmentRow>)
    ensures o.effect.Keep? || o.effect.Add?
    ensures req.verb != "POST" ==> o == Refuse(Fail(405, PostOnly))
    ensures var b := BookingOfRequest(req);
      && (req.verb == "POST" && FieldErrors(b, env) != map[] ==>
            o == Refuse(Invalid(SomeFieldsInvalid, FieldErrors(b, env))))
      && (req.verb == "POST" && FieldErrors(b, env) == map[] && !RoundTrips(ComposeDateTime(b.date, b.time)) ==>
            o == Refuse(Invalid(SomeFieldsInvalid, map["date" := DateInvalid])))
      && (o.effect.Add? <==>
            req.verb == "POST" && FieldErrors(b, env) == map[] && RoundTrips(ComposeDateTime(b.date, b.time)))
      && (o.effect.Add? ==>
            o.response == Done(Booked)
            && o.effect.row == AppointmentRow(SessionUserId(vars), b.name, b.email, b.phone, ComposeDateTime(b.date, b.time), b.message))
  {
    if req.verb != "POST" then Refuse(Fail(405, PostOnly))
    else
      var b := BookingOfRequest(req);
      var errors := FieldErrors(b, env);
      if errors != map[] then Refuse(Invalid(SomeFieldsInvalid, errors))
      else
        var when := ComposeDateTime(b.date, b.time);
        if !RoundTrips(when) then Refuse(Invalid(SomeFieldsInvalid, errors["date" := DateInvalid]))
        else Outcome(Done(Booked), Add(AppointmentRow(SessionUserId(vars), b.name, b.email, b.phone, when, b.message)))
  }

  /**
   * A booking is stored exactly when it is POSTed with a name, a valid email
   * and a phone, its date is a real `Y-m-d` day, and its time is empty or a
   * real `H:i` minute.
   */
  lemma BookingStoredIff(req: Request, vars: map<string, SessionValue>, env: Env)
    ensures var b := BookingOfRequest(req);
      Decide(req, vars, env).effect.Add? <==>
        && req.verb == "POST" && b.name != "" && b.email != "" && env.validEmail(b.email) && b.phone != ""
        && IsDateText(b.date) && (b.time == "" || IsClockText(b.time))
  {
    var b := BookingOfRequest(req);
    ComposeAcceptedIff(b.date, b.time);
    if IsDateText(b.date) {
      assert b.date != "";
    }
    if FieldErrors(b, env) == map[] {
      assert "name" !in FieldErrors(b, env) && "phone" !in FieldErrors(b, env);
    }
  }

  /** A booking without a time is stored at 09:00:00 on its day. */
  lemma DefaultTimeIsNine(req: Request, vars: map<string, SessionValue>, env: Env)
    requires Decide(req, vars, env).effect.Add? && BookingOfRequest(req).time == ""
    ensures Decide(req, vars, env).effect.row.date == BookingOfRequest(req).date + " 09:00:00"
  {
  }

  /** A visitor's booking never stores a date that fails the parse/format test. */
  lemma {:induction false} DecideKeepsDatesCanonical(
    req: Request, vars: map<string, SessionValue>, env: Env, rows: map<int, AppointmentRow>, nextId: int)
    requires IdsBelow(rows, nextId) && AdminAppointments.DatesCanonical(rows)
    ensures AdminAppointments.DatesCanonical(Applied(rows, nextId, Decide(req, vars, env).effect))
  {
    var e := Decide(req, vars, env).effect;
    var after := Applied(rows, nextId, e);
    forall id | id in after ensures RoundTrips(after[id].date) {
      if Target(e, nextId) != Some(id) {
        assert after[id] == rows[id];
      }
    }
  }

  /** The endpoint: start the session, then decide and run the INSERT if any. */
  method Serve(req: Request, session: Session, appointments: Table<AppointmentRow>, env: Env)
    returns (response: Response)
    requires appointments.Valid()
    modifies session`active, appointments
    ensures appointments.Valid()
    ensures session.active && session.vars == old(session.vars)
    ensures var o := Decide(req, old(session.vars), env);
      && response == o.response
      && appointments.rows == Applied(old(appointments.rows), old(appointments.nextId), o.effect)
      && appointments.nextId == NextId(old(appointments.nextId), o.effect)
  {
    session.EnsureStarted();
    var o := Decide(req, session.vars, env);
    appointments.Commit(o.effect);
    response := o.response;
  }
}
