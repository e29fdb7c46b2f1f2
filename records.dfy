/**
 * Rows of the three tables (`users`, `appointments`, `contacts`) and the
 * views of them that the endpoints send back.
 */
module Records {
  import opened Wrappers

  /** A `users` row. `role` is nullable in the table; readers default it to "user". */
  datatype UserRow = UserRow(fullName: string, email: string, passwordHash: string, role: Option<string>)

  /** An `appointments` row; `date` holds the text written to the DATETIME column. */
  datatype AppointmentRow = AppointmentRow(
    userId: Option<int>, name: string, email: string, phone: string, date: string, message: string)

  /** A `contacts` row (its `created_at` timestamp is not modelled). */
  datatype ContactRow = ContactRow(userId: Option<int>, name: string, email: string, message: string)

  /** A user as listed to the administrator: every column but the password. */
  datatype UserView = UserView(id: int, fullName: string, email: string, role: Option<string>)

  /** An appointment as listed to the administrator, with the booking user's name and email from a left join. */
  datatype AppointmentView = AppointmentView(
    id: int, userId: Option<int>, userFullName: Option<string>, userEmail: Option<string>,
    name: string, email: string, phone: string, date: string, message: string)

  /** A contact message as listed to the administrator, with the sender's name and email from a left join. */
  datatype ContactView = ContactView(
    id: int, userId: Option<int>, userFullName: Option<string>, userEmail: Option<string>,
    name: string, email: string, message: string)

  /** An appointment as listed to the person who booked it: no `user_id`. */
  datatype OwnAppointment = OwnAppointment(id: int, name: string, email: string, phone: string, date: string, message: string)

  /** The `user` object of a successful login. */
  datatype UserSummary = UserSummary(id: int, fullName: string, email: string, role: string)

  /** The left join on `users`: the linked user's row, when `user_id` is set and that user exists. */
  function LinkedUser(users: map<int, UserRow>, userId: Option<int>): (u: Option<UserRow>)
    ensures u.Some? <==> userId.Some? && userId.value in users
    ensures u.Some? ==> u.value == users[userId.value]
  {
    if userId.Some? && userId.value in users then Some(users[userId.value]) else None
  }

  /** Some row of `rows` has this email. */
  predicate EmailTaken(rows: map<int, UserRow>, email: string)
  {
    exists id :: id in rows && rows[id].email == email
  }

  /** Some row of `rows` other than `self` has this email. */
  predicate EmailTakenByOther(rows: map<int, UserRow>, email: string, self: int)
  {
    exists id :: id in rows && id != self && rows[id].email == email
  }

  /** No two users share an email. */
  predicate EmailsUnique(rows: map<int, UserRow>)
  {
    forall i, j :: i in rows && j in rows && rows[i].email == rows[j].email ==> i == j
  }
}
