/**
 * Requests and JSON responses of the endpoints, and the foreign functions
 * (PHP's email filter and password hashing) they depend on.
 */
module Http {
  import opened Wrappers
  import opened Text
  import opened Records

  /** A request: its method and its form (or query) fields. */
  datatype Request = Request(verb: string, params: map<string, string>)

  /** The field `key` of the request, or "" when it is absent (`$_POST[key] ?? ''`). */
  function Field(req: Request, key: string): string
  {
    if key in req.params then req.params[key] else ""
  }

  /** `isset($_POST['id']) ? (int)$_POST['id'] : 0`. */
  function PostedId(req: Request): int
  {
    if "id" in req.params then PhpToInt(req.params["id"]) else 0
  }

  /** What a successful response carries besides its message. */
  datatype Payload =
    | NoPayload
    | UserList(users: seq<UserView>)
    | AppointmentList(appointments: seq<AppointmentView>)
    | ContactList(contacts: seq<ContactView>)
    | OwnList(own: seq<OwnAppointment>)
    | Account(user: UserSummary)

  /** A JSON response: status code, `success`, `message`, and optionally `errors` or a payload. */
  datatype Response = Response(
    status: int, success: bool, message: string, errors: Option<map<string, string>>, payload: Payload)

  function Fail(status: int, message: string): Response
  {
    Response(status, false, message, None, NoPayload)
  }

  function Invalid(message: string, errors: map<string, string>): Response
  {
    Response(422, false, message, Some(errors), NoPayload)
  }

  function Done(message: string): Response
  {
    Response(200, true, message, None, NoPayload)
  }

  function Listing(payload: Payload): Response
  {
    Response(200, true, "", None, payload)
  }

  /**
   * The foreign functions the endpoints call: `filter_var(..., FILTER_VALIDATE_EMAIL)`,
   * `password_hash` and `password_verify`.
   */
  datatype Env = Env(validEmail: string -> bool, hash: string -> string, verify: (string, string) -> bool)

  const MethodNotAllowed := "Méthode HTTP non autorisée."
  const PostOnly := "Méthode HTTP non autorisée. Utilisez POST."
  const GetOnly := "Méthode HTTP non autorisée. Utilisez GET."
  const InvalidAction := "Action invalide."
  const InvalidEmail := "Email invalide."
  const EmailInUse := "Cette adresse email est déjà utilisée."
  const SomeFieldsInvalid := "Certains champs sont invalides."
  const EmailRequired := "L'adresse email est requise."
  const EmailNotValid := "L'adresse email n'est pas valide."

  /**
   * The email check of the public forms: required first, then
   * `filter_var(..., FILTER_VALIDATE_EMAIL)`; the message for the `email`
   * key, or none.
   */
  function EmailError(email: string, env: Env): (r: Option<string>)
    ensures r.None? <==> email != "" && env.validEmail(email)
    ensures email == "" ==> r == Some(EmailRequired)
    ensures email != "" && !env.validEmail(email) ==> r == Some(EmailNotValid)
  {
    if email == "" then Some(EmailRequired)
    else if !env.validEmail(email) then Some(EmailNotValid)
    else None
  }
}
