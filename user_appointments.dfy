/**
 * backend/user_appointments.php: the appointments booked under an email,
 * newest first. The session is started (and not otherwise used), only GET
 * is served, and the trimmed `email` query field must be present (400) and
 * valid (422).
 */
module UserAppointments {
  import opened Wrappers
  import opened Text
  import opened DateTimes
  import opened Records
  import opened Http
  import opened Tables
  import opened Sessions
  import AdminAppointments

  function OwnView(id: int, row: AppointmentRow): OwnAppointment
  {
    OwnAppointment(id, row.name, row.email, row.phone, row.date, row.message)
  }

  /** The ids of `ids` whose row has this email, in the same order. */
  function MatchingIds(rows: map<int, AppointmentRow>, ids: seq<int>, email: string): seq<int>
    requires forall k :: 0 <= k < |ids| ==> ids[k] in rows
  {
    if ids == [] then []
    else if rows[ids[0]].email == email then [ids[0]] + MatchingIds(rows, ids[1..], email)
    else MatchingIds(rows, ids[1..], email)
  }

  /** MatchingIds keeps exactly the matching ids, and keeps a descending order. */
  lemma {:induction false} MatchingIdsSpec(rows: map<int, AppointmentRow>, ids: seq<int>, email: string)
    requires forall k :: 0 <= k < |ids| ==> ids[k] in rows
    ensures forall id :: id in MatchingIds(rows, ids, email) <==> id in ids && rows[id].email == email
    ensures StrictlyDescending(ids) ==> StrictlyDescending(MatchingIds(rows, ids, email))
  {
    if ids != [] {
      var tail := ids[1..];
      MatchingIdsSpec(rows, tail, email);
      assert ids == [ids[0]] + tail;
      var rest := MatchingIds(rows, tail, email);
      if rows[ids[0]].email == email && StrictlyDescending(ids) {
        var r := [ids[0]] + rest;
        forall i, j | 0 <= i < j < |r| ensures r[i] > r[j] {
          assert r[j] == rest[j - 1] && rest[j - 1] in tail;
          var k :| 0 <= k < |tail| && tail[k] == r[j];
          assert ids[k + 1] == r[j];
          if i > 0 {
            assert r[i] == rest[i - 1];
          }
        }
      }
    }
  }

  /** `x` shows the stored appointment it names, and that appointment was booked under `email`. */
  predicate BookedUnder(rows: map<int, AppointmentRow>, email: string, x: OwnAppointment)
  {
    x.id in rows && rows[x.id].email == email && x == OwnView(x.id, rows[x.id])
  }

  /** Every appointment booked under `email` appears in `list`. */
  predicate ListsAll(rows: map<int, AppointmentRow>, email: string, list: seq<OwnAppointment>)
  {
    forall id :: id in rows && rows[id].email == email ==> exists i :: 0 <= i < |list| && list[i].id == id
  }

  /** `SELECT ... WHERE email = :email` in id order (largest first): every matching row once. */
  function Select(rows: map<int, AppointmentRow>, nextId: int, email: string): (r: seq<OwnAppointment>)
    requires IdsBelow(rows, nextId)
    ensures forall i :: 0 <= i < |r| ==> BookedUnder(rows, email, r[i])
    ensures ListsAll(rows, email, r)
    ensures forall i, j :: 0 <= i < j < |r| ==> r[i].id > r[j].id
  {
    var all := IdsDescending(rows, nextId);
    MatchingIdsSpec(rows, all, email);
    var ids := MatchingIds(rows, all, email);
    var r := seq(|ids|, i requires 0 <= i < |ids| => OwnView(ids[i], rows[ids[i]]));
    forall id | id in rows && rows[id].email == email ensures exists i :: 0 <= i < |r| && r[i].id == id {
      assert r[IndexOf(ids, id)].id == id;
    }
    r
  }

  /** `ORDER BY appointment_date DESC`: no appointment comes before one with a later date. */
  predicate NewestFirst(list: seq<OwnAppointment>)
  {
    forall i, j :: 0 <= i < j < |list| ==> LexLeq(list[j].date, list[i].date)
  }

  /** No date in `list` is later than `d`. */
  predicate NoneLater(list: seq<OwnAppointment>, d: string)
  {
    forall j :: 0 <= j < |list| ==> LexLeq(list[j].date, d)
  }

  lemma LexLeqTransitive(a: string, b: string, c: string)
    requires LexLeq(a, b) && LexLeq(b, c)
    ensures LexLeq(a, c)
  {
    if a != b && b != c {
      LexTransitive(a, b, c);
    }
  }

  /** An appointment no earlier than everything in a sorted list may go in front of it. */
  lemma Prepend(y: OwnAppointment, rest: seq<OwnAppointment>)
    requires NewestFirst(rest) && NoneLater(rest, y.date)
    ensures NewestFirst([y] + rest)
  {
    var r := [y] + rest;
    forall i, j | 0 <= i < j < |r| ensures LexLeq(r[j].date, r[i].date) {
      assert r[j] == rest[j - 1];
      if i > 0 {
        assert r[i] == rest[i - 1];
      }
    }
  }

  /** Reordering a list keeps its elements' bound. */
  lemma NoneLaterPermuted(a: seq<OwnAppointment>, b: seq<OwnAppointment>, d: string)
    requires multiset(a) == multiset(b) && NoneLater(b, d)
    ensures NoneLater(a, d)
  {
    forall j | 0 <= j < |a| ensures LexLeq(a[j].date, d) {
      assert a[j] in multiset(b);
    }
  }

  /** In a sorted list, nothing is later than the head. */
  lemma HeadIsLatest(list: seq<OwnAppointment>, d: string)
    requires list != [] && NewestFirst(list) && LexLeq(list[0].date, d)
    ensures NoneLater(list, d)
  {
    forall j | 0 <= j < |list| ensures LexLeq(list[j].date, d) {
      LexLeqTransitive(list[j].date, list[0].date, d);
    }
  }

  /** Inserting an earlier appointment into the tail of a sorted list keeps the head first. */
  lemma HeadStaysLatest(list: seq<OwnAppointment>, x: OwnAppointment, rest: seq<OwnAppointment>)
    requires list != [] && NewestFirst(list) && !LexLeq(list[0].date, x.date)
    requires multiset(rest) == multiset(list[1..]) + multiset{x}
    ensures NoneLater(rest, list[0].date)
  {
    LexTotal(list[0].date, x.date);
    var others := list[1..] + [x];
    forall j | 0 <= j < |others| ensures LexLeq(others[j].date, list[0].date) {
      if j < |list| - 1 {
        assert others[j] == list[j + 1];
      }
    }
    NoneLaterPermuted(rest, others, list[0].date);
  }

  /** One appointment placed before the first one whose date is not later than its own. */
  function InsertByDate(x: OwnAppointment, list: seq<OwnAppointment>): (r: seq<OwnAppointment>)
    requires NewestFirst(list)
    ensures NewestFirst(r)
    ensures multiset(r) == multiset(list) + multiset{x}
  {
    if list == [] then [x]
    else if LexLeq(list[0].date, x.date) then
      HeadIsLatest(list, x.date);
      Prepend(x, list);
      [x] + list
    else
      var rest := InsertByDate(x, list[1..]);
      HeadStaysLatest(list, x, rest);
      Prepend(list[0], rest);
      assert list == [list[0]] + list[1..];
      [list[0]] + rest
  }

  /** Insertion sort by date, newest first. */
  function SortByDate(list: seq<OwnAppointment>): (r: seq<OwnAppointment>)
    ensures NewestFirst(r)
    ensures multiset(r) == multiset(list)
  {
    if list == [] then []
    else
      assert list == [list[0]] + list[1..];
      InsertByDate(list[0], SortByDate(list[1..]))
  }

  /** Reordering a list keeps its members. */
  lemma SameMembers(a: seq<OwnAppointment>, b: seq<OwnAppointment>)
    requires multiset(a) == multiset(b)
    ensures forall x :: x in a <==> x in b
  {
    forall x ensures x in a <==> x in b {
      assert x in a <==> x in multiset(a);
      assert x in b <==> x in multiset(b);
    }
  }

  /** Reordering a listing keeps what it shows and what it covers. */
  lemma Reordered(rows: map<int, AppointmentRow>, email: string, a: seq<OwnAppointment>, b: seq<OwnAppointment>)
    requires multiset(b) == multiset(a)
    requires forall i :: 0 <= i < |a| ==> BookedUnder(rows, email, a[i])
    requires ListsAll(rows, email, a)
    ensures forall i :: 0 <= i < |b| ==> BookedUnder(rows, email, b[i])
    ensures ListsAll(rows, email, b)
  {
    SameMembers(a, b);
    assert forall i :: 0 <= i < |b| ==> b[i] in a;
    forall id | id in rows && rows[id].email == email ensures exists i :: 0 <= i < |b| && b[i].id == id {
      var k :| 0 <= k < |a| && a[k].id == id;
      assert a[k] in b;
    }
  }

  /**
   * The listing: exactly the appointments booked under `email`, each once
   * (a reordering of the selection in id order), newest date first.
   */
  function ListOwn(rows: map<int, AppointmentRow>, nextId: int, email: string): (list: seq<OwnAppointment>)
    requires IdsBelow(rows, nextId)
    ensures NewestFirst(list)
    ensures multiset(list) == multiset(Select(rows, nextId, email))
    ensures forall i :: 0 <= i < |list| ==> BookedUnder(rows, email, list[i])
    ensures ListsAll(rows, email, list)
  {
    var selected := Select(rows, nextId, email);
    var list := SortByDate(selected);
    Reordered(rows, email, selected, list);
    list
  }

  /** Over stored date-times the listing is in chronological order, latest first. */
  lemma {:induction false} ListOwnChronological(rows: map<int, AppointmentRow>, nextId: int, email: string)
    requires IdsBelow(rows, nextId) && AdminAppointments.DatesCanonical(rows)
    ensures var list := ListOwn(rows, nextId, email);
      forall i, j :: 0 <= i < j < |list| ==>
        RoundTrips(list[i].date) && RoundTrips(list[j].date)
        && NotLater(Parse(list[j].date).value, Parse(list[i].date).value)
  {
    var list := ListOwn(rows, nextId, email);
    forall i, j | 0 <= i < j < |list|
      ensures RoundTrips(list[i].date) && RoundTrips(list[j].date)
      ensures NotLater(Parse(list[j].date).value, Parse(list[i].date).value)
    {
      assert rows[list[i].id].date == list[i].date && rows[list[j].id].date == list[j].date;
      TextOrderIsChronological(list[j].date, list[i].date);
    }
  }

  /**
   * What the endpoint answers once the session is started: 405 for any
   * method but GET, 400 without an email, 422 for an invalid one, and
   * otherwise the listing.
   */
  function Decide(req: Request, rows: map<int, AppointmentRow>, nextId: int, env: Env): (r: Response)
    requires IdsBelow(rows, nextId)
    ensures req.verb != "GET" ==> r == Fail(405, GetOnly)
    ensures var email := PhpTrim(Field(req, "email"));
      && (req.verb == "GET" && email == "" ==> r == Fail(400, EmailRequired))
      && (req.verb == "GET" && email != "" && !env.validEmail(email) ==> r == Fail(422, EmailNotValid))
      && (r.success <==> req.verb == "GET" && email != "" && env.validEmail(email))
      && (r.success ==> r == Listing(OwnList(ListOwn(rows, nextId, email))))
  {
    var email := PhpTrim(Field(req, "email"));
    if req.verb != "GET" then Fail(405, GetOnly)
    else if email == "" then Fail(400, EmailRequired)
    else if !env.validEmail(email) then Fail(422, EmailNotValid)
    else Listing(OwnList(ListOwn(rows, nextId, email)))
  }

  /** The endpoint: start the session, then answer; nothing is written. */
  method Serve(req: Request, session: Session, appointments: Table<AppointmentRow>, env: Env) returns (response: Response)
    requires appointments.Valid()
    modifies session`active
    ensures session.active && session.vars == old(session.vars)
    ensures response == Decide(req, appointments.rows, appointments.nextId, env)
  {
    session.EnsureStarted();
    response := Decide(req, appointments.rows, appointments.nextId, env);
  }
}
