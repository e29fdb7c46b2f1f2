# Bright Smile Studio — a verified model of the request rules

Bright Smile Studio is a dental clinic's web site. Its PHP back end serves
visitors and an administrator. Visitors can register, log in, log out, book
an appointment, send a contact message and list their own appointments.
The administrator can list, create, update and delete users, appointments
and contact messages. A command-line tool seeds users. The React pages
check each form in the browser before anything is sent.

This project models those rules in Dafny and proves what they promise.

- **Tables.** Each database table (`users`, `appointments`, `contacts`) is a
  `Tables.Table<R>` object. It holds a map from auto-increment id to row,
  plus the next id.
- **Decide, then commit.** Each endpoint first computes its answer and its
  write as a value, with a pure `Decide`/`Dispatch` function. Its `Serve`
  method then runs that write on the table (`Commit`) and changes nothing
  else.
- **Sessions.** The PHP session is a `Sessions.Session` object: whether it
  has been started, plus the `$_SESSION` map.
- **Pages.** Each React page is a class. Its fields are the form, the error
  object and the page's flags. Its methods are `validateForm`,
  `handleSubmit` and `handleChange`.

The three kinds of trimming and the three kinds of length are kept apart:

- PHP `trim` strips " \t\n\r\0\x0B".
- PCRE `\s` covers " \t\n\x0B\f\r".
- JavaScript `trim` and `\s` cover the full ECMAScript white-space set.
- PHP `strlen` counts UTF-8 bytes.
- PHP `mb_strlen` counts characters.
- JavaScript `.length` counts UTF-16 code units.

Outside calls are fields of an `Http.Env` value handed to every endpoint:

- `filter_var(…, FILTER_VALIDATE_EMAIL)`;
- `password_hash`;
- `password_verify`.

`DateTime::createFromFormat('Y-m-d H:i:s', …)` is modelled by a strict
reader. The proofs only use the acceptance test built on it: parse, then
format, then compare. `DateTimes.RoundTripsIffFormatted` shows that, in
a time zone without daylight-saving gaps (PHP's default, UTC), this test
accepts exactly the formatted images of real date-times, however leniently
the parser reads other text.

## Model

| member | source | states |
|---|---|---|
| Sessions.Session.EnsureStarted | backend/admin/common.php:18-23 | starts the session only when none is active; the data is untouched, and a second call changes nothing |
| Sessions.RoleOf | backend/admin/common.php:34 | a session without `role` reads as "user"; otherwise the stored value |
| Sessions.AdminAllowedIff | backend/admin/common.php:34-35 | the guard passes exactly when the session holds the string "admin" under `role` |
| Sessions.GuardIsStrict | backend/admin/common.php:35 | "Admin", "ADMIN", "admin ", "user" and the integer 1 are all refused |
| Sessions.RequireAdmin | backend/admin/common.php:30-43 | the session is started; the call returns no refusal exactly when the guard passes, and otherwise the 403 "Accès refusé" response |
| Sessions.SessionUserId | backend/appointment.php:104 | `user_id` is linked exactly when it is in the session; an integer id is passed through |
| Sessions.Logout | backend/logout.php:14-41 | the session map ends up empty and inactive; the answer is always the success message |
| Sessions.LoggedOutIsNotAdmin | backend/logout.php:19 | after logout the role reads as "user", the guard refuses, and no user is linked |
| Tables.Applied | backend/admin/users.php:69-78 | an effect touches only its target id: an INSERT adds the row at the next id; an UPDATE or DELETE of an unknown id changes nothing; every other row is unchanged |
| Tables.AppliedKeepsIds | backend/admin/users.php:69-78 | every effect keeps ids positive and below the next id; an INSERT adds exactly one row under a fresh id |
| Tables.Table.Commit | backend/admin/users.php:69-78 | the rows become `Applied(old rows, effect)` and the next id advances only on an INSERT |
| Tables.Table.Insert | backend/admin/users.php:69-78 | the new row goes in under the old next id, which was unused |
| Tables.Table.Update | backend/admin/users.php:124-134 | only the row with that id is replaced, and only if it exists |
| Tables.Table.Delete | backend/admin/users.php:159-160 | only the row with that id is removed |
| Tables.IdsDescending | backend/admin/users.php:15-19 | exactly the ids of the table, strictly descending (`ORDER BY id DESC`) |
| Tables.FirstMatch | backend/login.php:61-64 | the row found is the lowest id that matches; none found means no row in range matches |
| Tables.FirstMatchFinds | backend/admin/users.php:59-61 | `LIMIT 1` finds nothing exactly when no row matches |
| AdminUsers.CoercedRole | backend/admin/users.php:40-113 | the role is "user" or "admin": the posted one when it is exactly one of those, otherwise "user" |
| AdminUsers.Create | backend/admin/users.php:36-85 | "Nom, email et mot de passe sont requis." (422) for an empty trimmed name or email or an empty password, then "Email invalide." (422), then "Cette adresse email est déjà utilisée." (409) when the email is taken; one row is added, with "Utilisateur créé avec succès.", exactly when the fields pass and the email is free; the row holds the hashed password and the coerced role |
| AdminUsers.Update | backend/admin/users.php:87-141 | "ID utilisateur invalide." (422) for `id <= 0` before anything else, then "Nom et email sont requis.", "Email invalide." (both 422) and "Cette adresse email est déjà utilisée." (409) when *another* id holds the email; otherwise "Utilisateur mis à jour avec succès."; only name, email and role of that row change, the hash is kept, and an unknown id is still a success |
| AdminUsers.Delete | backend/admin/users.php:143-167 | "ID utilisateur invalide." (422) for `id <= 0`; the 400 self-delete message when the id is the session's own `user_id`; otherwise exactly that row is removed, with "Utilisateur supprimé avec succès." |
| AdminUsers.ListUsers | backend/admin/users.php:13-30 | every user exactly once, by descending id, each shown without the password |
| AdminUsers.Dispatch | backend/admin/users.php:13-177 | GET lists; other methods than GET and POST give 405; unknown actions give 400; each write comes only from its own action |
| AdminUsers.DispatchKeepsEmailsUnique | backend/admin/users.php:59-122 | no administrator request makes two users share an email |
| AdminUsers.Serve | backend/admin/users.php:1-4 | the guard runs first and a refusal leaves the table untouched; otherwise the decided write is committed |
| AdminAppointments.Checked | backend/admin/appointments.php:53-74 | accepted exactly when the four fields are non-empty, the email is valid and the normalised date passes the round trip, the stored text then being 19 characters long; otherwise the 422 with "requis", "Email invalide." or the date-format message, for the first check that fails |
| AdminAppointments.Create | backend/admin/appointments.php:46-94 | one row with no linked user and the normalised date, answered "Rendez-vous créé avec succès.", exactly when the checks pass; otherwise the refusal the checks give |
| AdminAppointments.Update | backend/admin/appointments.php:96-157 | "ID de rendez-vous invalide." (422) for `id <= 0` first; then the checks' refusal; otherwise "Rendez-vous mis à jour avec succès.", the five fields of that row change and its `user_id` is kept |
| AdminAppointments.Delete | backend/admin/appointments.php:159-177 | "ID de rendez-vous invalide." (422) for `id <= 0`; otherwise exactly that row is removed, with "Rendez-vous supprimé avec succès." |
| AdminAppointments.ListAppointments | backend/admin/appointments.php:13-39 | every appointment once, by descending id; the user's name is null exactly when no user is linked or the linked user is gone |
| AdminAppointments.Dispatch | backend/admin/appointments.php:13-187 | GET lists; 405 for other methods; 400 for unknown actions; each write comes from its own action |
| AdminAppointments.DispatchKeepsDatesCanonical | backend/admin/appointments.php:69-131 | no administrator request stores a date that fails the round trip |
| AdminAppointments.Serve | backend/admin/appointments.php:1-4 | guard first; a refusal leaves the table untouched; otherwise the decided write is committed |
| AdminContacts.Refusal | backend/admin/contacts.php:50-60 | "Nom, email et message sont requis." (422) when the trimmed name, email or message is empty, then "Email invalide." (422); no refusal otherwise, so there is no minimum length |
| AdminContacts.Create | backend/admin/contacts.php:45-78 | one row without a linked user, answered "Message créé avec succès.", exactly when the checks pass; otherwise their refusal |
| AdminContacts.Update | backend/admin/contacts.php:80-124 | "ID de message invalide." (422) for `id <= 0` first; then the checks' refusal; otherwise "Message mis à jour avec succès." and only name, email and message of that row change |
| AdminContacts.Delete | backend/admin/contacts.php:126-144 | "ID de message invalide." (422) for `id <= 0`; otherwise exactly that row is removed, with "Message supprimé avec succès." |
| AdminContacts.ListContacts | backend/admin/contacts.php:13-38 | every message once, by descending id, with the sender's name from the left join or null |
| AdminContacts.Dispatch | backend/admin/contacts.php:13-154 | GET lists; 405 for other methods; 400 for unknown actions |
| AdminContacts.DispatchKeepsSenders | backend/admin/contacts.php:105-117 | no administrator request changes the user a stored message is linked to |
| AdminContacts.Serve | backend/admin/contacts.php:1-4 | guard first; a refusal leaves the table untouched |
| DateTimes.Format | backend/admin/appointments.php:70 | `format('Y-m-d H:i:s')` is 19 characters |
| DateTimes.FormatFits | backend/admin/appointments.php:70 | a formatted date-time has the layout and its fields read back as itself |
| DateTimes.ParseFormat | backend/admin/appointments.php:69-70 | formatting then parsing gives the date-time back, so formatted text passes the test |
| DateTimes.FieldsFormat | backend/admin/appointments.php:69-70 | text in the layout whose fields name a real date-time is the formatting of those fields |
| DateTimes.RoundTripsIff | backend/admin/appointments.php:69-70 | the test accepts exactly the text in the layout whose fields name a real date-time |
| DateTimes.RoundTripsIffFormatted | backend/admin/appointments.php:69-70 | the test accepts exactly the formatted images of real date-times |
| DateTimes.DashboardRoundTrip | src/pages/AdminDashboard.tsx:227-228 | a stored date with zero seconds, cut to its first 16 characters by the dashboard and normalised by the server, comes back unchanged and passes the test |
| DateTimes.MinutePrefix | backend/admin/appointments.php:65-66 | those 16 characters are untouched by `trim` and the PCRE strip, and are 16 bytes long |
| DateTimes.ComposeDefaultTime | backend/appointment.php:86-95 | without a time, the composed text passes exactly when the date is a real `Y-m-d` day |
| DateTimes.ComposeWithTime | backend/appointment.php:86-95 | with a time, the composed text passes exactly when the date is a real day and the time a real `H:i` minute |
| DateTimes.ComposeAcceptedIff | backend/appointment.php:86-95 | both cases together |
| DateTimes.February30Refused | backend/appointment.php:94-97 | "2025-02-30" is refused whatever the time |
| DateTimes.BookingWithTime | backend/appointment.php:86-87 | "2030-01-01" at "10:00" is stored as "2030-01-01 10:00:00", which passes |
| DateTimes.BookingWithoutTime | backend/appointment.php:88-91 | without a time it is stored as "2030-01-01 09:00:00", which passes |
| DateTimes.PadOrder | backend/user_appointments.php:52 | zero-padded numbers of one width compare as text as they compare as numbers |
| DateTimes.FormatLess | backend/user_appointments.php:52 | formatted date-times compare as text exactly as they compare in time |
| DateTimes.TextOrderIsChronological | backend/user_appointments.php:52 | on stored dates, text order is chronological order |
| PublicAppointment.FieldErrors | backend/appointment.php:58-77 | keys within {name, email, phone, date}; one per empty field; the email key has the "required" or the "not valid" message |
| PublicAppointment.Decide | backend/appointment.php:20-127 | 405 for non-POST; 422 with the field errors before composing; 422 with a `date` error when the composed text fails; otherwise one row linked to the session's user |
| PublicAppointment.BookingStoredIff | backend/appointment.php:51-101 | stored exactly when POSTed with a name, a valid email and a phone, a real day and an empty or real time |
| PublicAppointment.DefaultTimeIsNine | backend/appointment.php:88-91 | a booking without a time is stored at 09:00:00 |
| PublicAppointment.DecideKeepsDatesCanonical | backend/appointment.php:94-101 | a visitor never stores a date that fails the test |
| PublicAppointment.Serve | backend/appointment.php:16-122 | starts the session, then commits the decided INSERT |
| PublicContact.MessageError | backend/contact.php:66-70 | required, then at least 10 characters counted by `mb_strlen` |
| PublicContact.FieldErrors | backend/contact.php:54-70 | keys within {name, email, message}, one per failing field |
| PublicContact.Decide | backend/contact.php:19-97 | 405 for non-POST; 422 with the field map; otherwise one row linked to the session's user |
| PublicContact.SentIff | backend/contact.php:50-92 | stored exactly when POSTed with a name, a valid email and a trimmed message of at least 10 characters |
| PublicContact.Serve | backend/contact.php:15-92 | starts the session, then commits the decided INSERT |
| Register.PasswordError | backend/register.php:66-70 | the untrimmed password is required, then at least 8 bytes by `strlen` |
| Register.FieldErrors | backend/register.php:50-70 | keys within {first_name, last_name, email, password}, one per failing field |
| Register.Decide | backend/register.php:20-113 | 405; 422 without the map; 409 for a taken email; otherwise one row "first last" with the hash and role "user" |
| Register.RegisteredIff | backend/register.php:44-107 | an account is created exactly when both names are present, the email is valid and free and the password has 8 bytes; its role is always "user" |
| Register.DecideKeepsEmailsUnique | backend/register.php:84-89 | registration never lets two users share an email |
| Register.Serve | backend/register.php:97-107 | commits the decided INSERT |
| Login.UserByEmail | backend/login.php:61-64 | a row found has that email; none found means no row has it |
| Login.Authenticate | backend/login.php:16-74 | 405; 422 for an empty or invalid email before the password; 422 for an empty password; admitted exactly when the looked-up user's hash verifies; every other refusal is the same 401 |
| Login.SignedInGrants | backend/login.php:82-98 | after login the session names the user; the guard passes exactly when the stored role is "admin"; the reply shows the same name, email and role as the session |
| Login.Serve | backend/login.php:77-98 | a refusal leaves the session as it was; a success starts it and writes the four keys |
| Login.AdmittedIff | backend/login.php:61-74 | with unique emails, admitted exactly when some user has the email and the password verifies against that user's hash |
| Login.RegisteredUserLogsIn | backend/login.php:61-74 | after a registration, logging in with the same email and password admits the new account (given `password_verify(p, password_hash(p))`) |
| UserAppointments.Select | backend/user_appointments.php:42-51 | each listed appointment is a stored one with that email, shown without `user_id`; every such appointment is listed |
| UserAppointments.SortByDate | backend/user_appointments.php:52 | the result is newest-first and a permutation of the input |
| UserAppointments.ListOwn | backend/user_appointments.php:42-57 | newest date first; a reordering of the selection; exactly the appointments booked under the email |
| UserAppointments.ListOwnChronological | backend/user_appointments.php:52 | over stored dates the listing is in chronological order, latest first |
| UserAppointments.Decide | backend/user_appointments.php:10-62 | 405 for non-GET; 400 without an email; 422 for an invalid one; otherwise the listing |
| UserAppointments.Serve | backend/user_appointments.php:4-6 | starts the session and answers from the table alone; nothing else is read or written |
| CreateUser.Decide | backend/tools/create_user.php:19-79 | 403 and exit 1 outside the CLI; exit 1 with its own message (usage, email, role, duplicate) for a missing field, a bad email, a role other than user/admin after trim and lower-casing, or a duplicate; otherwise exit 0 and one row |
| CreateUser.DecideKeepsUsersSound | backend/tools/create_user.php:49-77 | the tool never stores a role other than "user" or "admin", and never a duplicate email |
| CreateUser.RoleSpellings | backend/tools/create_user.php:30-35 | " ADMIN\n" reads as "admin"; a missing role reads as "user" |
| CreateUser.Execute | backend/tools/create_user.php:68-79 | commits the decided INSERT and reports its exit code and output |
| Text.TrimEmptyIff | backend/admin/users.php:37-42 | a trimmed string is empty exactly when every character was white space |
| Text.TrimOfTrimmed | backend/login.php:45 | a string whose ends are not white space is its own trim |
| Text.LengthOrder | backend/register.php:68 | characters ≤ UTF-16 units ≤ UTF-8 bytes |
| Text.PhpToIntOfDecimal | backend/admin/users.php:88 | `(int)` of a decimal text reads back its number |
| Text.LexTotal | backend/user_appointments.php:52 | text order is total |
| Text.LexTransitive | backend/user_appointments.php:52 | text order is transitive |
| ClientRules.EmailShapeIff | src/pages/Register.tsx:54 | the email pattern accepts exactly: no white space, one `@` not first, a `.` after it that is neither right after the `@` nor last |
| ClientRules.EmailShapeTrimmed | src/pages/Login.tsx:58 | an email the pattern accepts is its own JavaScript trim |
| ClientRules.PairsWithoutSeparators | src/pages/Register.tsx:61 | without dots or dashes, `n` digit pairs are exactly `2n` digits |
| ClientRules.PlainPhoneLength | src/pages/Register.tsx:61-62 | a number without dots or dashes is accepted only with 10, 12 or 13 characters |
| ClientRules.ComplexOnOneLine | src/pages/Register.tsx:70 | on one line, the lookahead test holds exactly when there are a lower-case letter, an upper-case letter and a digit |
| ClientRules.ComplexHasAll | src/pages/Register.tsx:70 | every password the test accepts has all three kinds |
| ClientRules.SplitLinesNotComplex | src/pages/Register.tsx:70 | "a\nA1" fails: the lookaheads cannot cross the line break |
| ClientRules.EmailRule | src/pages/Register.tsx:54-59 | no error exactly when the pattern matches; "required" when blank after trimming; "invalid" otherwise |
| ClientRules.TruthyField | src/pages/Contact.tsx:85-87 | a key is read as a message exactly when present and non-empty |
| RegisterForm.NameRule | src/pages/Register.tsx:46-52 | an error exactly when the trimmed name is empty |
| RegisterForm.PhoneRule | src/pages/Register.tsx:61-64 | an error exactly when the phone is non-empty and fails the pattern once white space is removed |
| RegisterForm.PasswordRule | src/pages/Register.tsx:66-72 | no error exactly when 8 units long and complex; only the first failing rule is reported |
| RegisterForm.ConfirmRule | src/pages/Register.tsx:74-78 | required, then equal to the password |
| RegisterForm.TermsRule | src/pages/Register.tsx:80-82 | an error exactly when the terms are not accepted |
| RegisterForm.ValidIff | src/pages/Register.tsx:43-86 | no error at all exactly when every condition holds |
| RegisterForm.AcceptedPasswordIsLongAndMixed | src/pages/Register.tsx:66-72 | an accepted password has 8 UTF-8 bytes (the server's minimum) and all three kinds of character |
| RegisterForm.Clear | src/pages/Register.tsx:101-103 | only that field's message goes |
| RegisterForm.WithInput | src/pages/Register.tsx:96-100 | the checkbox takes `checked`, text fields take `value` |
| RegisterForm.Page.ValidateForm | src/pages/Register.tsx:43-86 | the shown errors become the form's errors; the result is "no errors" |
| RegisterForm.Page.HandleSubmit | src/pages/Register.tsx:88-93 | the confirmation shows exactly when it did already or the form is acceptable |
| RegisterForm.Page.HandleChange | src/pages/Register.tsx:95-104 | stores the input and clears that field's message if one is shown |
| ContactForm.NameRule | src/pages/Contact.tsx:35-37 | an error exactly when the trimmed name is empty |
| ContactForm.MessageRule | src/pages/Contact.tsx:46-50 | required, then at least 10 UTF-16 units once trimmed |
| ContactForm.ValidIff | src/pages/Contact.tsx:32-54 | no error exactly when every condition holds |
| ContactForm.SentMessage | src/pages/Contact.tsx:69 | the sent text starts with the message and equals it exactly when there is no subject |
| ContactForm.Outgoing | src/pages/Contact.tsx:66-73 | a POST with exactly `name`, `email` and `message` |
| ContactForm.ServerErrorsLandOnFields | src/pages/Contact.tsx:83-88 | the server's `name`, `email` and `message` errors show under the name, email and message inputs, and nothing else shows |
| ContactForm.AstralMessageCountsTwice | src/pages/Contact.tsx:48 | five emoji pass the page's 10-unit minimum but fail the server's 10-character one |
| ContactForm.Clear | src/pages/Contact.tsx:102-104 | only that field's message goes |
| ContactForm.Page.ValidateForm | src/pages/Contact.tsx:32-54 | the shown errors become the form's errors |
| ContactForm.Page.HandleSubmit | src/pages/Contact.tsx:56-75 | a request exactly when the form is acceptable; it is the composed POST, and the confirmation is reset |
| ContactForm.Page.Receive | src/pages/Contact.tsx:79-91 | success shows the confirmation; a refusal with errors replaces the shown errors by the server's; otherwise an alert with the server's message or the default |
| ContactForm.Page.HandleChange | src/pages/Contact.tsx:99-105 | stores the value and clears that field's message if one is shown |
| ContactForm.Page.NewRequest | src/pages/Contact.tsx:149-150 | the "Envoyer un autre message" button hides the confirmation |
| LoginForm.PasswordRule | src/pages/Login.tsx:40-44 | required, then at least 6 UTF-16 units, untrimmed |
| LoginForm.ValidIff | src/pages/Login.tsx:30-48 | no error exactly when the email matches and the password has 6 units |
| LoginForm.SentEmailIsTyped | src/pages/Login.tsx:58-59 | for an accepted form the posted email and password are those typed |
| LoginForm.Destination | src/pages/Login.tsx:83-87 | `/admin` exactly for a user with role "admin"; `/dashboard` otherwise |
| LoginForm.RoutesLikeTheGuard | src/pages/Login.tsx:83-87 | after a login, the page goes to `/admin` exactly when the session the server wrote passes the admin guard |
| LoginForm.Clear | src/pages/Login.tsx:99-101 | only that field's message goes |
| LoginForm.Page.ValidateForm | src/pages/Login.tsx:30-48 | the shown errors become the form's errors |
| LoginForm.Page.HandleSubmit | src/pages/Login.tsx:50-65 | a request exactly when the form is valid; it carries the trimmed email; the page is submitting and the server message is cleared |
| LoginForm.Page.Receive | src/pages/Login.tsx:73-91 | a refusal shows the server's message or the default; a success keeps the user and navigates by role; submitting always ends |
| LoginForm.Page.NetworkFailed | src/pages/Login.tsx:88-91 | the network message, and submitting ends |
| LoginForm.Page.HandleChange | src/pages/Login.tsx:96-103 | stores the value, clears that field's message and any server message |
| AppointmentForm.NameRule | src/pages/Appointment.tsx:57-61 | required, then at least 2 UTF-16 units once trimmed |
| AppointmentForm.PhoneRule | src/pages/Appointment.tsx:72-77 | required, then the French pattern once white space is removed |
| AppointmentForm.DateRule | src/pages/Appointment.tsx:80-89 | required, then not before today |
| AppointmentForm.ServiceRule | src/pages/Appointment.tsx:92-94 | an error exactly when no service is chosen |
| AppointmentForm.ValidIff | src/pages/Appointment.tsx:53-98 | no error exactly when every condition holds |
| AppointmentForm.TodayIsNotPast | src/pages/Appointment.tsx:83-88 | under the model's text comparison with `today`, a date equal to today is never past (the page's own UTC parse is not modelled; see Left out) |
| AppointmentForm.UncheckedFields | src/pages/Appointment.tsx:16-22 | the time and the message never change the errors |
| AppointmentForm.Clear | src/pages/Appointment.tsx:114-116 | only that field's message goes |
| AppointmentForm.Page.ValidateForm | src/pages/Appointment.tsx:53-98 | the shown errors become the form's errors on that day |
| AppointmentForm.Page.HandleSubmit | src/pages/Appointment.tsx:100-107 | the confirmation shows exactly when it did already or the form is acceptable; nothing is sent |
| AppointmentForm.Page.HandleChange | src/pages/Appointment.tsx:109-117 | stores the value and clears that field's message if one is shown |
| AppointmentForm.Page.NewRequest | src/pages/Appointment.tsx:135-136 | the "Nouvelle demande" button hides the confirmation |

## Left out

- The database driver, SQL text and every 500 path (connection or statement failure) are not modelled. Each table is an in-memory map, and each request runs atomically.
- The `created_at` column is not modelled.
- The check-then-insert race on email uniqueness is not modelled, because every request is atomic here.
- `backend/config.php` is not part of this model.
- `password_hash`, `password_verify` and `FILTER_VALIDATE_EMAIL` are fields of `Http.Env`. Their behaviour is not modelled: hashing is deterministic here, and the random salt is left out.
- `Login.RegisteredUserLogsIn` assumes that `password_verify(p, password_hash(p))` holds, as a requirement.
- The MySQL collation is case-insensitive, but emails compare exactly here, both in the uniqueness checks and in the `WHERE email =` filters.
- `Tables.FirstMatch` takes `LIMIT 1` to return the lowest id. SQL does not fix that order. It only matters when emails are not unique.
- `UserAppointments.SortByDate` places equal dates in some order. MySQL's order among equal dates is unspecified, and the contract leaves it free.
- `Text.PhpToInt` reads leading white space, a sign and digits. PHP's numeric strings with a fraction or an exponent, and overflow to a float, are not modelled.
- Request fields are strings. Array-valued form fields (`name[]=…`) are not modelled.
- Session cookies, `session_regenerate_id` and `session_destroy` are not modelled, beyond the session becoming inactive.
- HTTP headers and JSON encoding are not modelled. A response is a value.
- `DateTime::createFromFormat` is modelled by a strict reader. PHP's rollover of impossible days is not modelled. In a time zone without daylight-saving gaps the callers refuse such readings anyway (`DateTimes.RoundTripsIffFormatted`).
- `DateTimes.RoundTrips` assumes PHP's default time zone has no daylight-saving gap (UTC, the default when php.ini sets none; no source file sets one). In a zone such as Europe/Paris, PHP moves a wall time that does not exist (for example "2025-03-30 02:30:00") forward, and the source's round trip then refuses it. The model accepts it.
- `AppointmentForm.DateRule` compares the `YYYY-MM-DD` text with today's date, passed in as text. The page itself compares `new Date(date)` with local midnight. That parses the date as UTC, so in time zones west of UTC the current day counts as past. The wall clock and time zones are not modelled.
- Network failures are modelled only as `LoginForm.Page.NetworkFailed`. The alert in the Contact page's `catch` is not modelled.
- The Login page's `localStorage` write is the field `storedUser`, and navigation is the field `route`.
- `Text.TrimStart` and `Text.TrimEnd` state in their contracts only the length, the stripped characters and the new ends. That the result is a suffix or prefix of the input is stated by the lemmas `Text.TrimStartIsSuffix` and `Text.TrimEndIsPrefix`.
- The admin dashboard, the patient dashboard and the static pages (Index, About, Services, header, footer) are not modelled. The only rule taken from the dashboard is its 16-character cut of a stored date.
- The Register and Appointment pages send nothing to the server. Their `handleSubmit` only shows the confirmation, and the model does the same.
