/**
 * src/pages/Contact.tsx: the contact page. The browser checks the name,
 * the email and the message, then posts the name, the email and the message
 * (with the subject appended) to backend/contact.php and shows either the
 * confirmation, the server's field errors under the page's own fields, or an
 * alert.
 */
module ContactForm {
  import opened Wrappers
  import opened Text
  import opened ClientRules
  import Http
  import PublicContact

  /** The page's inputs. */
  datatype Form = Form(fullName: string, email: string, phone: string, subject: string, message: string)

  const Blank := Form("", "", "", "", "")

  /** The error object: only the name, the email and the message can carry a message. */
  datatype FormErrors = FormErrors(fullName: Option<string>, email: Option<string>, message: Option<string>)

  const NoErrors := FormErrors(None, None, None)

  /** The names of the inputs. */
  datatype Key = FullName | Email | Phone | Subject | Message

  const NameRequired := "Le nom est requis"
  const EmailRequired := "L'email est requis"
  const EmailInvalid := "Veuillez entrer un email valide"
  const MessageRequired := "Le message est requis"
  const MessageTooShort := "Le message doit contenir au moins 10 caractères"
  const SendFailed := "Erreur lors de l'envoi du message."

  /** The name is required: blank after trimming gives the message. */
  function NameRule(name: string): (r: Option<string>)
    ensures r.Some? <==> JsTrim(name) == []
    ensures r.Some? ==> r.value == NameRequired
  {
    if JsTrim(name) == [] then Some(NameRequired) else None
  }

  /** The message is required, then at least 10 UTF-16 code units once trimmed. */
  function MessageRule(message: string): (r: Option<string>)
    ensures r.None? <==> Utf16Length(JsTrim(message)) >= 10
    ensures JsTrim(message) == [] ==> r == Some(MessageRequired)
    ensures JsTrim(message) != [] && Utf16Length(JsTrim(message)) < 10 ==> r == Some(MessageTooShort)
  {
    if JsTrim(message) == [] then Some(MessageRequired)
    else if Utf16Length(JsTrim(message)) < 10 then Some(MessageTooShort)
    else None
  }

  /** The error object `validateForm` builds; the phone and the subject are not checked. */
  function Validate(f: Form): FormErrors
  {
    FormErrors(NameRule(f.fullName), EmailRule(f.email, EmailRequired, EmailInvalid), MessageRule(f.message))
  }

  /** Every condition the page checks, stated on the raw inputs. */
  predicate Acceptable(f: Form)
  {
    JsTrim(f.fullName) != [] && EmailShape(f.email) && Utf16Length(JsTrim(f.message)) >= 10
  }

  /** The form is valid exactly when every condition holds. */
  lemma ValidIff(f: Form)
    ensures Validate(f) == NoErrors <==> Acceptable(f)
  {
  }

  /** The posted message: the text, then the subject on its own paragraph when there is one. */
  function SentMessage(f: Form): (m: string)
    ensures f.message <= m
    ensures m == f.message <==> f.subject == ""
  {
    f.message + (if f.subject != "" then "\n\nSujet: " + f.subject else "")
  }

  /** The POST the page sends: exactly the three fields backend/contact.php reads. */
  function Outgoing(f: Form): (req: Http.Request)
    ensures req.verb == "POST" && req.params.Keys == {"name", "email", "message"}
    ensures Http.Field(req, "name") == f.fullName && Http.Field(req, "email") == f.email && Http.Field(req, "message") == SentMessage(f)
  {
    Http.Request("POST", map["name" := f.fullName, "email" := f.email, "message" := SentMessage(f)])
  }

  /** The server's `errors` object moved onto the page's keys; an empty message counts as none. */
  function FromBackend(errors: map<string, string>): FormErrors
  {
    FormErrors(TruthyField(errors, "name"), TruthyField(errors, "email"), TruthyField(errors, "message"))
  }

  /**
   * The server's refusal reaches the page field by field: the name, email
   * and message errors of backend/contact.php are shown under the name,
   * email and message inputs, and nothing is shown where the server found
   * nothing.
   */
  lemma ServerErrorsLandOnFields(n: PublicContact.Note, env: Http.Env)
    ensures var e := FromBackend(PublicContact.FieldErrors(n, env));
      && (e.fullName.Some? <==> n.name == "")
      && (e.fullName.Some? ==> e.fullName.value == PublicContact.NameRequired)
      && e.email == Http.EmailError(n.email, env)
      && e.message == PublicContact.MessageError(n.message)
  {
  }

  /**
   * The two layers count differently: five characters outside the Basic
   * Multilingual Plane are ten UTF-16 code units, enough for the page, but
   * five characters for `mb_strlen`, too few for the server.
   */
  lemma AstralMessageCountsTwice()
    ensures var m := "\U{1F9B7}\U{1F9B7}\U{1F9B7}\U{1F9B7}\U{1F9B7}";
      && MessageRule(m).None?
      && PublicContact.MessageError(PhpTrim(m)) == Some(PublicContact.MessageTooShort)
  {
    var m := "\U{1F9B7}\U{1F9B7}\U{1F9B7}\U{1F9B7}\U{1F9B7}";
    TrimOfTrimmed(m, JsSpace);
    TrimOfTrimmed(m, PhpTrimSpace);
    assert Utf16Length(m) == 10;
  }

  /** `errors[name]`; the phone and the subject have no entry. */
  function Get(e: FormErrors, name: Key): Option<string>
  {
    match name
    case FullName => e.fullName
    case Email => e.email
    case Message => e.message
    case _ => None
  }

  /** `{ ...errors, [name]: undefined }`: that field's message goes, every other stays. */
  function Clear(e: FormErrors, name: Key): (e': FormErrors)
    ensures Get(e', name).None?
    ensures forall k :: k != name ==> Get(e', k) == Get(e, k)
  {
    match name
    case FullName => e.(fullName := None)
    case Email => e.(email := None)
    case Message => e.(message := None)
    case _ => e
  }

  /** `{ ...formData, [name]: value }`. */
  function WithValue(f: Form, name: Key, value: string): Form
  {
    match name
    case FullName => f.(fullName := value)
    case Email => f.(email := value)
    case Phone => f.(phone := value)
    case Subject => f.(subject := value)
    case Message => f.(message := value)
  }

  /** The component's state, with the last alert it raised. */
  class Page {
    var form: Form
    var errors: FormErrors
    var submitted: bool
    var alerted: Option<string>

    constructor ()
      ensures form == Blank && errors == NoErrors && !submitted && alerted.None?
    {
      form := Blank;
      errors := NoErrors;
      submitted := false;
      alerted := None;
    }

    /** `validateForm`: the checks into a fresh error object, which replaces the shown errors. */
    method ValidateForm() returns (valid: bool)
      modifies this`errors
      ensures errors == Validate(old(form))
      ensures valid <==> errors == NoErrors
    {
      var newErrors := NoErrors;
      newErrors := newErrors.(fullName := NameRule(form.fullName));
      newErrors := newErrors.(email := EmailRule(form.email, EmailRequired, EmailInvalid));
      newErrors := newErrors.(message := MessageRule(form.message));
      errors := newErrors;
      valid := newErrors == NoErrors;
    }

    /**
     * `handleSubmit` up to the network call: an invalid form stops there;
     * a valid one resets the confirmation and yields the POST to send.
     */
    method HandleSubmit() returns (request: Option<Http.Request>)
      modifies this`errors, this`submitted
      ensures errors == Validate(old(form))
      ensures request.Some? <==> Acceptable(old(form))
      ensures request.Some? ==> request.value == Outgoing(old(form)) && !submitted
      ensures request.None? ==> submitted == old(submitted)
    {
      ValidIff(form);
      var valid := ValidateForm();
      if !valid {
        return None;
      }
      submitted := false;
      request := Some(Outgoing(form));
    }

    /**
     * `handleSubmit` after the reply: success shows the confirmation; a
     * refusal with `errors` replaces the shown errors by the server's; any
     * other refusal raises an alert with the server's message, or a default.
     */
    method Receive(reply: Http.Response)
      modifies this`submitted, this`errors, this`alerted
      ensures reply.success ==> submitted && errors == old(errors) && alerted == old(alerted)
      ensures !reply.success && reply.errors.Some? ==>
        errors == FromBackend(reply.errors.value) && submitted == old(submitted) && alerted == old(alerted)
      ensures !reply.success && reply.errors.None? ==>
        alerted == Some(if reply.message != "" then reply.message else SendFailed)
        && submitted == old(submitted) && errors == old(errors)
    {
      if reply.success {
        submitted := true;
      } else if reply.errors.Some? {
        errors := FromBackend(reply.errors.value);
      } else {
        alerted := Some(if reply.message != "" then reply.message else SendFailed);
      }
    }

    /** The confirmation's "Envoyer un autre message" button: back to the form, which keeps its values. */
    method NewRequest()
      modifies this`submitted
      ensures !submitted
    {
      submitted := false;
    }

    /** `handleChange`: store the value, and clear the edited field's message if one is shown. */
    method HandleChange(name: Key, value: string)
      modifies this`form, this`errors
      ensures form == WithValue(old(form), name, value)
      ensures errors == if Truthy(Get(old(errors), name)) then Clear(old(errors), name) else old(errors)
    {
      form := WithValue(form, name, value);
      if Truthy(Get(errors, name)) {
        errors := Clear(errors, name);
      }
    }
  }
}
