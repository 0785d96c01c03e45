/** The sign-in page: the two field checks, the submission gate, and the
    remember-me rule kept in the browser's storage. */
module LoginPage {
  import opened Wrappers
  import opened EmailFormat
  import opened AuthReply

  const EMAIL_REQUIRED := "L'email est requis"
  const EMAIL_INVALID := "Format d'email invalide"
  const PASSWORD_REQUIRED := "Le mot de passe est requis"
  const PASSWORD_SHORT := "Le mot de passe doit contenir au moins 6 caractères"
  const BAD_CREDENTIALS := "Email ou mot de passe incorrect"
  const FAILED := "Une erreur est survenue. Veuillez réessayer."

  datatype Form = Form(email: string, password: string, rememberMe: bool)
  datatype Errors = Errors(email: string, password: string, general: string)

  const NO_ERRORS := Errors("", "", "")

  datatype Field = Email | Password | RememberMe

  /** `validateEmail`: "" exactly for a well-formed address. */
  function ValidateEmail(email: string): (r: string)
    ensures r == "" <==> IsEmailFormat(email)
    ensures email == [] ==> r == EMAIL_REQUIRED
    ensures email != [] && !IsEmailFormat(email) ==> r == EMAIL_INVALID
  {
    if email == [] then EMAIL_REQUIRED
    else if !IsEmailFormat(email) then EMAIL_INVALID
    else ""
  }

  /** `validatePassword`: "" exactly for six characters or more. */
  function ValidatePassword(password: string): (r: string)
    ensures r == "" <==> |password| >= 6
    ensures password == [] ==> r == PASSWORD_REQUIRED
    ensures 0 < |password| < 6 ==> r == PASSWORD_SHORT
  {
    if password == [] then PASSWORD_REQUIRED
    else if |password| < 6 then PASSWORD_SHORT
    else ""
  }

  /** The form the page opens with: a remembered email is filled in and
      the box ticked; a message handed over by another page is shown. */
  function InitialForm(remembered: Option<string>): (f: Form)
    ensures f.password == []
    ensures f.rememberMe <==> remembered.Some? && remembered.value != []
    ensures f.email == (if f.rememberMe then remembered.value else [])
  {
    if remembered.Some? && remembered.value != [] then Form(remembered.value, "", true) else Form("", "", false)
  }

  /** What the storage holds under `rememberedEmail` after a successful
      sign-in. */
  function Remembered(f: Form): (r: Option<string>)
    ensures r.Some? <==> f.rememberMe
    ensures r.Some? ==> r.value == f.email
  {
    if f.rememberMe then Some(f.email) else None
  }

  /** After a successful sign-in the next visit starts from the same email
      and the same box state, or from an empty form when the box was not
      ticked. */
  lemma RememberMeRoundTrip(f: Form)
    requires ValidateEmail(f.email) == ""
    ensures InitialForm(Remembered(f)).rememberMe == f.rememberMe
    ensures InitialForm(Remembered(f)).email == (if f.rememberMe then f.email else "")
  {
  }

  function ErrorSlot(e: Errors, field: Field): Option<string>
  {
    match field
    case Email => Some(e.email)
    case Password => Some(e.password)
    case RememberMe => None
  }

  /** `handleChange` on the errors: only that input's message is emptied. */
  function ClearedFor(e: Errors, field: Field): (r: Errors)
    ensures r.general == e.general
    ensures forall g: Field :: g != field ==> ErrorSlot(r, g) == ErrorSlot(e, g)
    ensures field != RememberMe ==> ErrorSlot(r, field) == Some("")
    ensures field == RememberMe ==> r == e
  {
    match field
    case Email => e.(email := "")
    case Password => e.(password := "")
    case RememberMe => e
  }

  function Changed(f: Form, field: Field, value: string, checked: bool): Form
  {
    match field
    case Email => f.(email := value)
    case Password => f.(password := value)
    case RememberMe => f.(rememberMe := checked)
  }

  class LoginForm {
    var form: Form
    var errors: Errors
    var isLoading: bool
    /** The browser storage entry `rememberedEmail`. */
    var rememberedEmail: Option<string>

    /** The page as it opens, with the storage entry and the message another
        page passed along ("" for none). */
    constructor (stored: Option<string>, message: string)
      ensures form == InitialForm(stored) && rememberedEmail == stored
      ensures errors == NO_ERRORS.(general := message) && !isLoading
    {
      form := InitialForm(stored);
      rememberedEmail := stored;
      errors := NO_ERRORS.(general := message);
      isLoading := false;
    }

    method HandleChange(field: Field, value: string, checked: bool)
      modifies this
      ensures form == Changed(old(form), field, value, checked)
      ensures errors == ClearedFor(old(errors), field)
      ensures isLoading == old(isLoading) && rememberedEmail == old(rememberedEmail)
    {
      form := Changed(form, field, value, checked);
      if ErrorSlot(errors, field).Some? && ErrorSlot(errors, field).value != [] {
        errors := ClearedFor(errors, field);
      }
    }

    /** `handleSubmit`: either check failing shows both messages and sends
        nothing; otherwise (email, password) is sent, and a success stores
        the email exactly when the box is ticked and removes it otherwise. */
    method HandleSubmit(reply: Reply) returns (request: Option<(string, string)>, toDashboard: bool)
      modifies this
      ensures var ok := ValidateEmail(old(form).email) == "" && ValidatePassword(old(form).password) == "";
        && (request.Some? <==> ok)
        && (!ok ==>
              && errors == Errors(ValidateEmail(old(form).email), ValidatePassword(old(form).password), "")
              && !toDashboard && rememberedEmail == old(rememberedEmail) && isLoading == old(isLoading))
        && (ok ==>
              && request == Some((old(form).email, old(form).password))
              && !isLoading
              && (toDashboard <==> reply.Succeeded?)
              && rememberedEmail == (if reply.Succeeded? then Remembered(old(form)) else old(rememberedEmail))
              && errors == match reply
                 case Succeeded => NO_ERRORS
                 case Refused(message) => NO_ERRORS.(general := MessageOr(message, BAD_CREDENTIALS))
                 case Threw => NO_ERRORS.(general := FAILED))
      ensures form == old(form)
    {
      request, toDashboard := None, false;
      var emailError := ValidateEmail(form.email);
      var passwordError := ValidatePassword(form.password);
      if emailError != "" || passwordError != "" {
        errors := Errors(emailError, passwordError, "");
        return;
      }
      isLoading := true;
      errors := NO_ERRORS;
      request := Some((form.email, form.password));
      match reply {
        case Succeeded =>
          if form.rememberMe {
            rememberedEmail := Some(form.email);
          } else {
            rememberedEmail := None;
          }
          toDashboard := true;
        case Refused(message) =>
          errors := Errors("", "", MessageOr(message, BAD_CREDENTIALS));
        case Threw =>
          errors := Errors("", "", FAILED);
      }
      isLoading := false;
    }
  }
}
