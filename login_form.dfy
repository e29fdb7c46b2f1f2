/**
 * src/pages/Login.tsx: the sign-in page. The browser checks the email and
 * the password, posts the trimmed email and the password to
 * backend/login.php, and on success keeps the returned user and moves to the
 * administration area or to the patient area according to the user's role.
 */
module LoginForm {
  import opened Wrappers
  import opened Text
  import opened ClientRules
  import opened Records
  import Http
  import Sessions
  import Login

  /** The page's inputs. */
  datatype Form = Form(email: string, password: string)

  const Blank := Form("", "")

  datatype FormErrors = FormErrors(email: Option<string>, password: Option<string>)

  const NoErrors := FormErrors(None, None)

  datatype Key = Email | Password

  const EmailRequired := "L'email est requis"
  const EmailInvalid := "Veuillez entrer un email valide"
  const PasswordRequired := "Le mot de passe est requis"
  const PasswordTooShort := "Le mot de passe doit contenir au moins 6 caractères"
  const RefusedDefault := "Identifiants incorrects."
  const NetworkError := "Erreur réseau. Veuillez réessayer."

  const AdminArea := "/admin"
  const PatientArea := "/dashboard"

  /** The password is required, then at least 6 UTF-16 code units; it is not trimmed. */
  function PasswordRule(password: string): (r: Option<string>)
    ensures r.None? <==> Utf16Length(password) >= 6
    ensures password == "" ==> r == Some(PasswordRequired)
    ensures password != "" && Utf16Length(password) < 6 ==> r == Some(PasswordTooShort)
  {
    if password == "" then Some(PasswordRequired)
    else if Utf16Length(password) < 6 then Some(PasswordTooShort)
    else None
  }

  function Validate(f: Form): FormErrors
  {
    FormErrors(EmailRule(f.email, EmailRequired, EmailInvalid), PasswordRule(f.password))
  }

  /** The form is valid exactly when the email has the pattern's shape and the password has 6 code units. */
  lemma ValidIff(f: Form)
    ensures Validate(f) == NoErrors <==> EmailShape(f.email) && Utf16Length(f.password) >= 6
  {
  }

  /** The POST the page sends: the trimmed email and the password as typed. */
  function Outgoing(f: Form): Http.Request
  {
    Http.Request("POST", map["email" := JsTrim(f.email), "password" := f.password])
  }

  /** Trimming before sending changes nothing for an email the page accepts: the server reads what was typed. */
  lemma SentEmailIsTyped(f: Form)
    requires Validate(f) == NoErrors
    ensures Http.Field(Outgoing(f), "email") == f.email
    ensures Http.Field(Outgoing(f), "password") == f.password
  {
    EmailShapeTrimmed(f.email);
  }

  /** The route after a successful reply: the administration area for an `admin` user, the patient area otherwise. */
  function Destination(reply: Http.Response): (route: string)
    ensures route == AdminArea <==> reply.payload.Account? && reply.payload.user.role == "admin"
    ensures route == AdminArea || route == PatientArea
  {
    if reply.payload.Account? && reply.payload.user.role == "admin" then AdminArea else PatientArea
  }

  /**
   * The page and the server agree on who is an administrator: after a
   * successful login, the page moves to the administration area exactly
   * when the session the server has just written passes the admin guard.
   */
  lemma RoutesLikeTheGuard(vars: map<string, Sessions.SessionValue>, id: int, user: UserRow)
    ensures Destination(Login.Welcome(id, user)) == AdminArea <==> Sessions.AdminAllowed(Login.SignedIn(vars, id, user))
  {
    Login.SignedInGrants(vars, id, user);
  }

  function Get(e: FormErrors, name: Key): Option<string>
  {
    match name
    case Email => e.email
    case Password => e.password
  }

  /** That field's message goes, the other stays. */
  function Clear(e: FormErrors, name: Key): (e': FormErrors)
    ensures Get(e', name).None?
    ensures forall k :: k != name ==> Get(e', k) == Get(e, k)
  {
    match name
    case Email => e.(email := None)
    case Password => e.(password := None)
  }

  function WithValue(f: Form, name: Key, value: string): Form
  {
    match name
    case Email => f.(email := value)
    case Password => f.(password := value)
  }

  /**
   * The component's state, with the user it keeps in the browser's storage
   * and the route it navigated to.
   */
  class Page {
    var form: Form
    var errors: FormErrors
    var serverError: Option<string>
    var submitting: bool
    var storedUser: Option<UserSummary>
    var route: Option<string>

    constructor ()
      ensures form == Blank && errors == NoErrors && serverError.None? && !submitting
      ensures storedUser.None? && route.None?
    {
      form := Blank;
      errors := NoErrors;
      serverError := None;
      submitting := false;
      storedUser := None;
      route := None;
    }

    /** `validateForm`: the checks into a fresh error object, which replaces the shown errors. */
    method ValidateForm() returns (valid: bool)
      modifies this`errors
      ensures errors == Validate(old(form))
      ensures valid <==> errors == NoErrors
    {
      var newErrors := NoErrors;
      newErrors := newErrors.(email := EmailRule(form.email, EmailRequired, EmailInvalid));
      newErrors := newErrors.(password := PasswordRule(form.password));
      errors := newErrors;
      valid := newErrors == NoErrors;
    }

    /**
     * `handleSubmit` up to the network call: a valid form marks the page as
     * submitting, clears the server's message and yields the POST to send.
     */
    method HandleSubmit() returns (request: Option<Http.Request>)
      modifies this`errors, this`submitting, this`serverError
      ensures errors == Validate(old(form))
      ensures request.Some? <==> EmailShape(old(form).email) && Utf16Length(old(form).password) >= 6
      ensures request.Some? ==> request.value == Outgoing(old(form)) && submitting && serverError.None?
      ensures request.None? ==> submitting == old(submitting) && serverError == old(serverError)
    {
      ValidIff(form);
      var valid := ValidateForm();
      if !valid {
        return None;
      }
      submitting := true;
      serverError := None;
      request := Some(Outgoing(form));
    }

    /**
     * `handleSubmit` after the reply: a refusal shows the server's message
     * (or a default); a success keeps the returned user and navigates by
     * its role. Either way the page stops submitting.
     */
    method Receive(reply: Http.Response)
      modifies this`serverError, this`submitting, this`storedUser, this`route
      ensures !submitting
      ensures !reply.success ==>
        serverError == Some(if reply.message != "" then reply.message else RefusedDefault)
        && storedUser == old(storedUser) && route == old(route)
      ensures reply.success ==>
        serverError == old(serverError)
        && storedUser == (if reply.payload.Account? then Some(reply.payload.user) else old(storedUser))
        && route == Some(Destination(reply))
    {
      if !reply.success {
        serverError := Some(if reply.message != "" then reply.message else RefusedDefault);
      } else {
        if reply.payload.Account? {
          storedUser := Some(reply.payload.user);
        }
        route := Some(Destination(reply));
      }
      submitting := false;
    }

    /** `handleSubmit` when the request fails: the network message, and the page stops submitting. */
    method NetworkFailed()
      modifies this`serverError, this`submitting
      ensures serverError == Some(NetworkError) && !submitting
    {
      serverError := Some(NetworkError);
      submitting := false;
    }

    /** `handleChange`: store the value, clear that field's message if one is shown, and clear the server's message. */
    method HandleChange(name: Key, value: string)
      modifies this`form, this`errors, this`serverError
      ensures form == WithValue(old(form), name, value)
      ensures errors == if Truthy(Get(old(errors), name)) then Clear(old(errors), name) else old(errors)
      ensures serverError == if Truthy(old(serverError)) then None else old(serverError)
    {
      form := WithValue(form, name, value);
      if Truthy(Get(errors, name)) {
        errors := Clear(errors, name);
      }
      if Truthy(serverError) {
        serverError := None;
      }
    }
  }
}
