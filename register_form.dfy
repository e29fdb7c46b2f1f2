/**
 * src/pages/Register.tsx: the sign-up page's state and its checks. The page
 * validates the form in the browser and, when the form is valid, only
 * shows its confirmation; it sends nothing to the server.
 */
module RegisterForm {
  import opened Wrappers
  import opened Digits
  import opened Text
  import opened ClientRules

  /** The page's inputs. */
  datatype Form = Form(
    firstName: string, lastName: string, email: string, phone: string,
    password: string, confirmPassword: string, acceptTerms: bool)

  const Blank := Form("", "", "", "", "", "", false)

  /** The error object: at most one message per field. */
  datatype FormErrors = FormErrors(
    firstName: Option<string>, lastName: Option<string>, email: Option<string>, phone: Option<string>,
    password: Option<string>, confirmPassword: Option<string>, acceptTerms: Option<string>)

  const NoErrors := FormErrors(None, None, None, None, None, None, None)

  /** The names of the inputs, which are also the keys of the error object. */
  datatype Key = FirstName | LastName | Email | Phone | Password | ConfirmPassword | AcceptTerms

  /** What an input event carries: the value of a text field or the state of the checkbox. */
  datatype Input = Typed(value: string) | Ticked(checked: bool)

  const FirstNameRequired := "Le prénom est requis"
  const LastNameRequired := "Le nom est requis"
  const EmailRequired := "L'email est requis"
  const EmailInvalid := "Veuillez entrer un email valide"
  const PhoneInvalid := "Numéro de téléphone invalide"
  const PasswordRequired := "Le mot de passe est requis"
  const PasswordTooShort := "Le mot de passe doit contenir au moins 8 caractères"
  const PasswordTooSimple := "Le mot de passe doit contenir au moins une majuscule, une minuscule et un chiffre"
  const ConfirmRequired := "Veuillez confirmer le mot de passe"
  const ConfirmMismatch := "Les mots de passe ne correspondent pas"
  const TermsRequired := "Vous devez accepter les conditions d'utilisation"

  /** A name is required: blank after trimming gives the field's message. */
  function NameRule(name: string, required: string): (r: Option<string>)
    ensures r.Some? <==> JsTrim(name) == []
    ensures r.Some? ==> r.value == required
  {
    if JsTrim(name) == [] then Some(required) else None
  }

  /** The phone is optional: only a non-empty number is checked against the pattern. */
  function PhoneRule(phone: string): (r: Option<string>)
    ensures r.Some? <==> phone != "" && !PhoneAccepted(phone)
    ensures r.Some? ==> r.value == PhoneInvalid
  {
    if phone != "" && !PhoneAccepted(phone) then Some(PhoneInvalid) else None
  }

  /** The terms must be accepted. */
  function TermsRule(accepted: bool): (r: Option<string>)
    ensures r.Some? <==> !accepted
    ensures r.Some? ==> r.value == TermsRequired
  {
    if !accepted then Some(TermsRequired) else None
  }

  /** The password rules in order, reporting only the first that fails. */
  function PasswordRule(password: string): (r: Option<string>)
    ensures r.None? <==> Utf16Length(password) >= 8 && Complex(password)
    ensures password == "" ==> r == Some(PasswordRequired)
    ensures password != "" && Utf16Length(password) < 8 ==> r == Some(PasswordTooShort)
    ensures Utf16Length(password) >= 8 && !Complex(password) ==> r == Some(PasswordTooSimple)
  {
    if password == "" then Some(PasswordRequired)
    else if Utf16Length(password) < 8 then Some(PasswordTooShort)
    else if !Complex(password) then Some(PasswordTooSimple)
    else None
  }

  /** The confirmation: required, then equal to the password. */
  function ConfirmRule(password: string, confirm: string): (r: Option<string>)
    ensures r.None? <==> confirm != "" && confirm == password
    ensures confirm == "" ==> r == Some(ConfirmRequired)
    ensures confirm != "" && confirm != password ==> r == Some(ConfirmMismatch)
  {
    if confirm == "" then Some(ConfirmRequired)
    else if password != confirm then Some(ConfirmMismatch)
    else None
  }

  /** The error object `validateForm` builds from the form: each field's rule, under the field's key. */
  function Validate(f: Form): FormErrors
  {
    FormErrors(
      NameRule(f.firstName, FirstNameRequired), NameRule(f.lastName, LastNameRequired),
      EmailRule(f.email, EmailRequired, EmailInvalid), PhoneRule(f.phone),
      PasswordRule(f.password), ConfirmRule(f.password, f.confirmPassword), TermsRule(f.acceptTerms))
  }

  /** Every condition the page checks, stated on the raw inputs. */
  predicate Acceptable(f: Form)
  {
    && JsTrim(f.firstName) != [] && JsTrim(f.lastName) != []
    && EmailShape(f.email)
    && (f.phone == "" || PhoneAccepted(f.phone))
    && Utf16Length(f.password) >= 8 && Complex(f.password)
    && f.confirmPassword == f.password
    && f.acceptTerms
  }

  /** The form is valid (the error object has no keys) exactly when every condition holds. */
  lemma ValidIff(f: Form)
    ensures Validate(f) == NoErrors <==> Acceptable(f)
  {
    if Acceptable(f) {
      assert f.password != "";
    }
  }

  /**
   * A password the page accepts has at least 8 UTF-16 code units, hence at
   * least 8 bytes in UTF-8, the server's `strlen` minimum; and it holds an
   * ASCII lower-case letter, upper-case letter and digit.
   */
  lemma AcceptedPasswordIsLongAndMixed(f: Form)
    requires Validate(f) == NoErrors
    ensures Utf8Length(f.password) >= 8
    ensures Has(f.password, AsciiLowerLetter) && Has(f.password, AsciiUpperLetter) && Has(f.password, DecimalDigit)
  {
    LengthOrder(f.password);
    ComplexHasAll(f.password);
  }

  /** The page's inputs: six text fields and the terms checkbox. */
  predicate FieldAccepts(name: Key, input: Input)
  {
    if name == AcceptTerms then input.Ticked? else input.Typed?
  }

  /** The form with the input `name` set from an event (`checked` for the checkbox, `value` otherwise). */
  function WithInput(f: Form, name: Key, input: Input): (g: Form)
    requires FieldAccepts(name, input)
    ensures name == AcceptTerms ==> g == f.(acceptTerms := input.checked)
    ensures name == Email ==> g == f.(email := input.value)
    ensures name == Password ==> g == f.(password := input.value)
  {
    match name
    case FirstName => f.(firstName := input.value)
    case LastName => f.(lastName := input.value)
    case Email => f.(email := input.value)
    case Phone => f.(phone := input.value)
    case Password => f.(password := input.value)
    case ConfirmPassword => f.(confirmPassword := input.value)
    case AcceptTerms => f.(acceptTerms := input.checked)
  }

  /** `errors[name]`. */
  function Get(e: FormErrors, name: Key): Option<string>
  {
    match name
    case FirstName => e.firstName
    case LastName => e.lastName
    case Email => e.email
    case Phone => e.phone
    case Password => e.password
    case ConfirmPassword => e.confirmPassword
    case AcceptTerms => e.acceptTerms
  }

  /** `{ ...errors, [name]: undefined }`: that field's message goes, every other stays. */
  function Clear(e: FormErrors, name: Key): (e': FormErrors)
    ensures Get(e', name).None?
    ensures forall k :: k != name ==> Get(e', k) == Get(e, k)
  {
    match name
    case FirstName => e.(firstName := None)
    case LastName => e.(lastName := None)
    case Email => e.(email := None)
    case Phone => e.(phone := None)
    case Password => e.(password := None)
    case ConfirmPassword => e.(confirmPassword := None)
    case AcceptTerms => e.(acceptTerms := None)
  }

  /** The component's state. */
  class Page {
    var form: Form
    var errors: FormErrors
    var submitted: bool

    constructor ()
      ensures form == Blank && errors == NoErrors && !submitted
    {
      form := Blank;
      errors := NoErrors;
      submitted := false;
    }

    /** `validateForm`: the checks one after the other into a fresh error object, which replaces the shown errors. */
    method ValidateForm() returns (valid: bool)
      modifies this`errors
      ensures errors == Validate(old(form))
      ensures valid <==> errors == NoErrors
    {
      var newErrors := NoErrors;
      newErrors := newErrors.(firstName := NameRule(form.firstName, FirstNameRequired));
      newErrors := newErrors.(lastName := NameRule(form.lastName, LastNameRequired));
      newErrors := newErrors.(email := EmailRule(form.email, EmailRequired, EmailInvalid));
      newErrors := newErrors.(phone := PhoneRule(form.phone));
      newErrors := newErrors.(password := PasswordRule(form.password));
      newErrors := newErrors.(confirmPassword := ConfirmRule(form.password, form.confirmPassword));
      newErrors := newErrors.(acceptTerms := TermsRule(form.acceptTerms));
      errors := newErrors;
      valid := newErrors == NoErrors;
    }

    /** `handleSubmit`: a valid form switches the page to its confirmation. */
    method HandleSubmit()
      modifies this`errors, this`submitted
      ensures errors == Validate(old(form))
      ensures submitted <==> old(submitted) || Acceptable(old(form))
    {
      ValidIff(form);
      var valid := ValidateForm();
      if valid {
        submitted := true;
      }
    }

    /** `handleChange`: store the input, and clear the edited field's message if one is shown. */
    method HandleChange(name: Key, input: Input)
      requires FieldAccepts(name, input)
      modifies this`form, this`errors
      ensures form == WithInput(old(form), name, input)
      ensures errors == if Truthy(Get(old(errors), name)) then Clear(old(errors), name) else old(errors)
    {
      form := WithInput(form, name, input);
      if Truthy(Get(errors, name)) {
        errors := Clear(errors, name);
      }
    }
  }
}
