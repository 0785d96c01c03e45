/** The sign-up page: the form check, the per-field error clearing, and the
    submission. */
module RegisterPage {
  import opened Wrappers
  import opened EmailFormat
  import opened AuthReply

  const NAME_REQUIRED := "Le nom complet est requis"
  const EMAIL_REQUIRED := "L'email est requis"
  const EMAIL_INVALID := "Format d'email invalide"
  const PASSWORD_REQUIRED := "Le mot de passe est requis"
  const PASSWORD_SHORT := "Le mot de passe doit contenir au moins 6 caractères"
  const CONFIRM_REQUIRED := "Veuillez confirmer votre mot de passe"
  const MISMATCH := "Les mots de passe ne correspondent pas"
  const TERMS_REQUIRED := "Vous devez accepter les conditions d'utilisation"
  const REGISTER_FAILED := "Une erreur est survenue lors de l'inscription. Veuillez réessayer."
  const SERVER_UNREACHABLE := "Une erreur est survenue lors de la connexion au serveur. Veuillez réessayer."

  datatype Form = Form(fullName: string, email: string, password: string, confirmPassword: string, acceptTerms: bool)
  datatype Errors = Errors(fullName: string, email: string, password: string, confirmPassword: string, general: string)

  const NO_ERRORS := Errors("", "", "", "", "")

  /** The inputs of the form; the terms box is the one checkbox. */
  datatype Field = FullName | Email | Password | ConfirmPassword | AcceptTerms

  /** What the form must hold to be sent: a name, a well-formed email, a
      password of six characters or more, the same password again, and the
      terms accepted. */
  predicate Acceptable(f: Form)
  {
    && f.fullName != []
    && IsEmailFormat(f.email)
    && |f.password| >= 6
    && f.confirmPassword == f.password
    && f.acceptTerms
  }

  /** The `newErrors` object `validateForm` builds: each field gets at most
      one message, the first of its checks that fails. */
  function FormErrors(f: Form): (e: Errors)
    ensures e.fullName == (if f.fullName == [] then NAME_REQUIRED else "")
    ensures e.email == (if f.email == [] then EMAIL_REQUIRED else if !IsEmailFormat(f.email) then EMAIL_INVALID else "")
    ensures e.password == (if f.password == [] then PASSWORD_REQUIRED else if |f.password| < 6 then PASSWORD_SHORT else "")
    ensures e.confirmPassword ==
      (if f.confirmPassword == [] then CONFIRM_REQUIRED else if f.password != f.confirmPassword then MISMATCH else "")
    ensures e.general == (if f.acceptTerms then "" else TERMS_REQUIRED)
  {
    var e := NO_ERRORS;
    var e := if f.fullName == [] then e.(fullName := NAME_REQUIRED) else e;
    var e := if f.email == [] then e.(email := EMAIL_REQUIRED)
             else if !IsEmailFormat(f.email) then e.(email := EMAIL_INVALID) else e;
    var e := if f.password == [] then e.(password := PASSWORD_REQUIRED)
             else if |f.password| < 6 then e.(password := PASSWORD_SHORT) else e;
    var e := if f.confirmPassword == [] then e.(confirmPassword := CONFIRM_REQUIRED)
             else if f.password != f.confirmPassword then e.(confirmPassword := MISMATCH) else e;
    if !f.acceptTerms then e.(general := TERMS_REQUIRED) else e
  }

  /** `validateForm` answers true exactly for an acceptable form: every
      message is empty iff every requirement holds. */
  lemma ValidExactlyWhenAcceptable(f: Form)
    ensures FormErrors(f) == NO_ERRORS <==> Acceptable(f)
  {
  }

  /** The error slot named like an input; the terms box has none. */
  function ErrorSlot(e: Errors, field: Field): Option<string>
  {
    match field
    case FullName => Some(e.fullName)
    case Email => Some(e.email)
    case Password => Some(e.password)
    case ConfirmPassword => Some(e.confirmPassword)
    case AcceptTerms => None
  }

  /** The `errors` after `handleChange` on `field`: that input's message is
      emptied, and nothing else; ticking the terms box has no slot to empty,
      so the terms message stays. */
  function ClearedFor(e: Errors, field: Field): (r: Errors)
    ensures r.general == e.general
    ensures forall g: Field :: g != field ==> ErrorSlot(r, g) == ErrorSlot(e, g)
    ensures field != AcceptTerms ==> ErrorSlot(r, field) == Some("")
    ensures field == AcceptTerms ==> r == e
  {
    match field
    case FullName => e.(fullName := "")
    case Email => e.(email := "")
    case Password => e.(password := "")
    case ConfirmPassword => e.(confirmPassword := "")
    case AcceptTerms => e
  }

  /** The form after `handleChange`: the terms box takes `checked`, the
      other inputs take `value`. */
  function Changed(f: Form, field: Field, value: string, checked: bool): (g: Form)
  {
    match field
    case FullName => f.(fullName := value)
    case Email => f.(email := value)
    case Password => f.(password := value)
    case ConfirmPassword => f.(confirmPassword := value)
    case AcceptTerms => f.(acceptTerms := checked)
  }

  /** A change touches only its own input. */
  lemma ChangeTouchesOneInput(f: Form, field: Field, value: string, checked: bool)
    ensures var g := Changed(f, field, value, checked);
      && (field != FullName ==> g.fullName == f.fullName)
      && (field != Email ==> g.email == f.email)
      && (field != Password ==> g.password == f.password)
      && (field != ConfirmPassword ==> g.confirmPassword == f.confirmPassword)
      && (field != AcceptTerms ==> g.acceptTerms == f.acceptTerms)
      && (field == AcceptTerms ==> g.acceptTerms == checked)
      && (field != AcceptTerms ==> ErrorSlot(Errors(g.fullName, g.email, g.password, g.confirmPassword, ""), field) == Some(value))
  {
  }

  class RegisterForm {
    var form: Form
    var errors: Errors
    var isLoading: bool

    constructor ()
      ensures form == Form("", "", "", "", false) && errors == NO_ERRORS && !isLoading
    {
      form := Form("", "", "", "", false);
      errors := NO_ERRORS;
      isLoading := false;
    }

    /** `validateForm`: shows the messages and answers whether there are
        none. */
    method ValidateForm() returns (valid: bool)
      modifies this
      ensures errors == FormErrors(form) && (valid <==> Acceptable(form))
      ensures form == old(form) && isLoading == old(isLoading)
    {
      var newErrors := NO_ERRORS;
      if form.fullName == [] {
        newErrors := newErrors.(fullName := NAME_REQUIRED);
      }
      if form.email == [] {
        newErrors := newErrors.(email := EMAIL_REQUIRED);
      } else if !IsEmailFormat(form.email) {
        newErrors := newErrors.(email := EMAIL_INVALID);
      }
      if form.password == [] {
        newErrors := newErrors.(password := PASSWORD_REQUIRED);
      } else if |form.password| < 6 {
        newErrors := newErrors.(password := PASSWORD_SHORT);
      }
      if form.confirmPassword == [] {
        newErrors := newErrors.(confirmPassword := CONFIRM_REQUIRED);
      } else if form.password != form.confirmPassword {
        newErrors := newErrors.(confirmPassword := MISMATCH);
      }
      if !form.acceptTerms {
        newErrors := newErrors.(general := TERMS_REQUIRED);
      }
      errors := newErrors;
      ValidExactlyWhenAcceptable(form);
      valid := errors == NO_ERRORS;
    }

    /** `handleChange`. */
    method HandleChange(field: Field, value: string, checked: bool)
      modifies this
      ensures form == Changed(old(form), field, value, checked)
      ensures errors == ClearedFor(old(errors), field)
      ensures isLoading == old(isLoading)
    {
      form := Changed(form, field, value, checked);
      if ErrorSlot(errors, field).Some? && ErrorSlot(errors, field).value != [] {
        errors := ClearedFor(errors, field);
      }
    }

    /** `handleSubmit`: an unacceptable form is not sent; an acceptable one
        is sent as (name, email, password), and a refusal or a failure is
        shown as the general message. `request` is what `register` received
        and `toLogin` whether the page moved to the login page. */
    method HandleSubmit(reply: Reply) returns (request: Option<(string, string, string)>, toLogin: bool)
      modifies this
      ensures request.Some? <==> Acceptable(old(form))
      ensures !Acceptable(old(form)) ==> errors == FormErrors(old(form)) && !toLogin && isLoading == old(isLoading)
      ensures Acceptable(old(form)) ==>
        && request == Some((old(form).fullName, old(form).email, old(form).password))
        && !isLoading
        && (toLogin <==> reply.Succeeded?)
        && errors == match reply
           case Succeeded => NO_ERRORS
           case Refused(message) => NO_ERRORS.(general := MessageOr(message, REGISTER_FAILED))
           case Threw => NO_ERRORS.(general := SERVER_UNREACHABLE)
      ensures form == old(form)
    {
      request, toLogin := None, false;
      var valid := ValidateForm();
      if !valid {
        return;
      }
      isLoading := true;
      errors := NO_ERRORS;
      request := Some((form.fullName, form.email, form.password));
      match reply {
        case Succeeded =>
          toLogin := true;
        case Refused(message) =>
          errors := errors.(general := MessageOr(message, REGISTER_FAILED));
        case Threw =>
          errors := errors.(general := SERVER_UNREACHABLE);
      }
      isLoading := false;
    }
  }
}
