/**
 * src/pages/Appointment.tsx: the booking page. The browser checks the name,
 * the email, the phone, the date and the service; a valid form only shows
 * the confirmation (the page sends nothing to the server). The time and the
 * message are never checked.
 */
module AppointmentForm {
  import opened Wrappers
  import opened Text
  import opened ClientRules

  /** The page's inputs; `date` is the `YYYY-MM-DD` value of the date input, `time` one of the offered slots. */
  datatype Form = Form(
    fullName: string, email: string, phone: string, date: string, time: string, service: string, message: string)

  const Blank := Form("", "", "", "", "", "", "")

  datatype FormErrors = FormErrors(
    fullName: Option<string>, email: Option<string>, phone: Option<string>, date: Option<string>, service: Option<string>)

  const NoErrors := FormErrors(None, None, None, None, None)

  datatype Key = FullName | Email | Phone | Date | Time | Service | Message

  const NameRequired := "Le nom complet est requis"
  const NameTooShort := "Le nom doit contenir au moins 2 caractères"
  const EmailRequired := "L'adresse email est requise"
  const EmailInvalid := "Veuillez entrer une adresse email valide"
  const PhoneRequired := "Le numéro de téléphone est requis"
  const PhoneInvalid := "Veuillez entrer un numéro de téléphone français valide"
  const DateRequired := "Veuillez sélectionner une date"
  const DatePast := "La date ne peut pas être dans le passé"
  const ServiceRequired := "Veuillez sélectionner un service"

  /** The name is required, then at least 2 UTF-16 code units once trimmed. */
  function NameRule(name: string): (r: Option<string>)
    ensures r.None? <==> Utf16Length(JsTrim(name)) >= 2
    ensures JsTrim(name) == [] ==> r == Some(NameRequired)
    ensures JsTrim(name) != [] && Utf16Length(JsTrim(name)) < 2 ==> r == Some(NameTooShort)
  {
    if JsTrim(name) == [] then Some(NameRequired)
    else if Utf16Length(JsTrim(name)) < 2 then Some(NameTooShort)
    else None
  }

  /** The phone is required, then must match the French pattern once white space is removed. */
  function PhoneRule(phone: string): (r: Option<string>)
    ensures r.None? <==> JsTrim(phone) != [] && PhoneAccepted(phone)
    ensures JsTrim(phone) == [] ==> r == Some(PhoneRequired)
    ensures JsTrim(phone) != [] && !PhoneAccepted(phone) ==> r == Some(PhoneInvalid)
  {
    if JsTrim(phone) == [] then Some(PhoneRequired)
    else if !PhoneAccepted(phone) then Some(PhoneInvalid)
    else None
  }

  /**
   * The date is required and must not be before `today`, the current day
   * as a `YYYY-MM-DD` text; texts of that form compare as the days they
   * name.
   */
  function DateRule(date: string, today: string): (r: Option<string>)
    ensures r.None? <==> date != "" && !LexLess(date, today)
    ensures date == "" ==> r == Some(DateRequired)
    ensures date != "" && LexLess(date, today) ==> r == Some(DatePast)
  {
    if date == "" then Some(DateRequired)
    else if LexLess(date, today) then Some(DatePast)
    else None
  }

  /** A service must be chosen. */
  function ServiceRule(service: string): (r: Option<string>)
    ensures r.Some? <==> service == ""
    ensures r.Some? ==> r.value == ServiceRequired
  {
    if service == "" then Some(ServiceRequired) else None
  }

  /** The error object `validateForm` builds on the day `today`. */
  function Validate(f: Form, today: string): FormErrors
  {
    FormErrors(
      NameRule(f.fullName), EmailRule(f.email, EmailRequired, EmailInvalid), PhoneRule(f.phone),
      DateRule(f.date, today), ServiceRule(f.service))
  }

  /** Every condition the page checks, stated on the raw inputs. */
  predicate Acceptable(f: Form, today: string)
  {
    && Utf16Length(JsTrim(f.fullName)) >= 2
    && EmailShape(f.email)
    && JsTrim(f.phone) != [] && PhoneAccepted(f.phone)
    && f.date != "" && !LexLess(f.date, today)
    && f.service != ""
  }

  /** The form is valid exactly when every condition holds. */
  lemma ValidIff(f: Form, today: string)
    ensures Validate(f, today) == NoErrors <==> Acceptable(f, today)
  {
  }

  /** Under the model's text comparison, a date equal to `today` is never in the past. */
  lemma {:induction false} TodayIsNotPast(today: string)
    requires today != ""
    ensures DateRule(today, today).None?
  {
    LexLessIrreflexive(today);
  }

  /** `errors[name]`; the time and the message have no entry. */
  function Get(e: FormErrors, name: Key): Option<string>
  {
    match name
    case FullName => e.fullName
    case Email => e.email
    case Phone => e.phone
    case Date => e.date
    case Service => e.service
    case _ => None
  }

  /** That field's message goes, every other stays. */
  function Clear(e: FormErrors, name: Key): (e': FormErrors)
    ensures Get(e', name).None?
    ensures forall k :: k != name ==> Get(e', k) == Get(e, k)
  {
    match name
    case FullName => e.(fullName := None)
    case Email => e.(email := None)
    case Phone => e.(phone := None)
    case Date => e.(date := None)
    case Service => e.(service := None)
    case _ => e
  }

  function WithValue(f: Form, name: Key, value: string): Form
  {
    match name
    case FullName => f.(fullName := value)
    case Email => f.(email := value)
    case Phone => f.(phone := value)
    case Date => f.(date := value)
    case Time => f.(time := value)
    case Service => f.(service := value)
    case Message => f.(message := value)
  }

  /** The time and the message never change what the page reports. */
  lemma UncheckedFields(f: Form, today: string, time: string, message: string)
    ensures Validate(f.(time := time, message := message), today) == Validate(f, today)
  {
  }

  /** The component's state. */
  class Page {
    var form: Form
    var errors: FormErrors
    var submitted: bool

    constructor ()
      ensures form == Blank && errors == NoErrors && !submitted
    {
      form := Blank;
      errors := NoErrors;
      submitted := false;
    }

    /** `validateForm` on the day `today`: the checks into a fresh error object, which replaces the shown errors. */
    method ValidateForm(today: string) returns (valid: bool)
      modifies this`errors
      ensures errors == Validate(old(form), today)
      ensures valid <==> errors == NoErrors
    {
      var newErrors := NoErrors;
      newErrors := newErrors.(fullName := NameRule(form.fullName));
      newErrors := newErrors.(email := EmailRule(form.email, EmailRequired, EmailInvalid));
      newErrors := newErrors.(phone := PhoneRule(form.phone));
      newErrors := newErrors.(date := DateRule(form.date, today));
      newErrors := newErrors.(service := ServiceRule(form.service));
      errors := newErrors;
      valid := newErrors == NoErrors;
    }

    /** `handleSubmit`: a valid form switches the page to its confirmation; nothing is sent. */
    method HandleSubmit(today: string)
      modifies this`errors, this`submitted
      ensures errors == Validate(old(form), today)
      ensures submitted <==> old(submitted) || Acceptable(old(form), today)
    {
      ValidIff(form, today);
      var valid := ValidateForm(today);
      if valid {
        submitted := true;
      }
    }

    /** The confirmation's "Nouvelle demande" button: back to the form, which keeps its values. */
    method NewRequest()
      modifies this`submitted
      ensures !submitted
    {
      submitted := false;
    }

    /** `handleChange`: store the value, and clear the edited field's message if one is shown. */
    method HandleChange(name: Key, value: string)
      modifies this`form, this`errors
      ensures form == WithValue(old(form), name, value)
      ensures errors == if Truthy(Get(old(errors), name)) then Clear(old(errors), name) else old(errors)
    {
      form := WithValue(form, name, value);
      if Truthy(Get(errors, name)) {
        errors := Clear(errors, name);
      }
    }
  }
}
