/** The page that sets a new password: it reads the reset token from the
    `token` query parameter of its URL, shows its form only when there is
    one, and sends (token, password) once the two fields pass their checks. */
module ResetPasswordPage {
  import opened Wrappers
  import opened Text
  import opened AuthReply
  import AuthController

  const PASSWORD_REQUIRED := "Le mot de passe est requis"
  const PASSWORD_SHORT := "Le mot de passe doit contenir au moins 6 caractères"
  const CONFIRM_REQUIRED := "Veuillez confirmer votre mot de passe"
  const MISMATCH := "Les mots de passe ne correspondent pas"
  const RESET_FAILED := "Une erreur est survenue lors de la réinitialisation. Veuillez réessayer."
  const SERVER_UNREACHABLE := "Une erreur est survenue lors de la connexion au serveur. Veuillez réessayer."

  // ------------------------------------------------------------ the URL

  /** The query of a URL: what follows its first '?', or nothing. */
  function Query(url: string): (q: string)
    ensures '?' !in url ==> q == []
    ensures '?' in url ==>
      var i := |url| - |q| - 1;
      && 0 <= i && url[i] == '?' && '?' !in url[..i]
      && q == url[i + 1..]
  {
    var i := IndexOf(url, '?');
    if i < 0 then [] else url[i + 1..]
  }

  /** `get(name)` over the '&'-separated pairs of a query: the value of the
      first pair whose key (the text before its first '=') is `name`. */
  function Param(pairs: seq<string>, name: string): (r: Option<string>)
  {
    if pairs == [] then None
    else
      var key := Split(pairs[0], '=')[0];
      SplitHead(pairs[0], '=');
      if key == name then Some(pairs[0][if |key| < |pairs[0]| then |key| + 1 else |key|..])
      else Param(pairs[1..], name)
  }

  predicate IsSuffix(t: string, s: string)
  {
    |t| <= |s| && t == s[|s| - |t|..]
  }

  /** A suffix of a text without `c` has no `c` either. */
  lemma SuffixFree(t: string, s: string, c: char)
    requires IsSuffix(t, s) && c !in s
    ensures c !in t
  {
    forall k | 0 <= k < |t| ensures t[k] != c {
      assert t[k] == s[|s| - |t| + k];
    }
  }

  /** `useSearchParams().get('token')`: the value never runs on into the
      next parameter. */
  function TokenParam(url: string): (r: Option<string>)
    ensures r.Some? ==> '&' !in r.value
  {
    QueryParamFree(Query(url), "token");
    Param(Split(Query(url), '&'), "token")
  }

  lemma QueryParamFree(query: string, name: string)
    ensures Param(Split(query, '&'), name).Some? ==> '&' !in Param(Split(query, '&'), name).value
  {
    SplitPiecesFree(query, '&');
    ParamFree(Split(query, '&'), name, '&');
  }

  /** When no pair holds `c`, neither does any value found among them. */
  lemma {:induction false} ParamFree(pairs: seq<string>, name: string, c: char)
    requires forall i :: 0 <= i < |pairs| ==> c !in pairs[i]
    ensures Param(pairs, name).Some? ==> c !in Param(pairs, name).value
    decreases |pairs|
  {
    if pairs != [] {
      var key := Split(pairs[0], '=')[0];
      SplitHead(pairs[0], '=');
      if key == name {
        var v := pairs[0][if |key| < |pairs[0]| then |key| + 1 else |key|..];
        SuffixFree(v, pairs[0], c);
      } else {
        ParamFree(pairs[1..], name, c);
      }
    }
  }

  /** A URL with no '?' has no `token` parameter. */
  lemma NoQueryNoToken(url: string)
    requires '?' !in url
    ensures TokenParam(url) == None
  {
    SplitWithout([], '&');
    SplitWithout([], '=');
  }

  /** A link of the shape `<base>?token=<token>` hands the page its token. */
  lemma QueryLinkCarriesToken(base: string, token: string)
    requires '?' !in base && '&' !in token
    ensures TokenParam(base + "?token=" + token) == Some(token)
  {
    var url := base + "?token=" + token;
    var pair := "token=" + token;
    assert Query(url) == pair by {
      assert url == base + ['?'] + pair;
      QueryAfterMark(base, pair);
    }
    assert Param(Split(pair, '&'), "token") == Some(token) by {
      TokenPair(token);
    }
    TokenOfQuery(url, pair);
  }

  lemma TokenOfQuery(url: string, query: string)
    requires Query(url) == query
    ensures TokenParam(url) == Param(Split(query, '&'), "token")
  {
  }

  /** The query of `<base>?<rest>`, for a base without '?', is `rest`. */
  lemma QueryAfterMark(base: string, rest: string)
    requires '?' !in base
    ensures Query(base + ['?'] + rest) == rest
  {
    var url := base + ['?'] + rest;
    assert url[|base|] == '?';
    assert url[..|base|] == base;
    assert IndexOf(url, '?') == |base|;
    assert url[|base| + 1..] == rest;
  }

  lemma KeyFree()
    ensures '&' !in "token=" && '=' !in "token"
  {
  }

  /** The single pair `token=<token>` gives the token. */
  lemma TokenPair(token: string)
    requires '&' !in token
    ensures Param(Split("token=" + token, '&'), "token") == Some(token)
  {
    var pair := "token=" + token;
    KeyFree();
    SplitWithout(pair, '&');
    assert pair == "token" + ['='] + token;
    SplitFirst("token", '=', token);
    assert Split(pair, '=')[0] == "token";
    assert pair[6..] == token;
  }

  /** The link the server mails puts the token in the path, so the page it
      opens finds no `token` parameter and shows no form. */
  lemma MailedLinkOpensWithoutToken(frontendUrl: string, token: string)
    requires '?' !in frontendUrl && '?' !in token
    ensures TokenParam(AuthController.ResetLink(frontendUrl, token)) == None
    ensures !ShowsForm(TokenParam(AuthController.ResetLink(frontendUrl, token)))
  {
    NoQueryNoToken(AuthController.ResetLink(frontendUrl, token));
  }

  /** `if (!token)`: the form is shown only for a non-empty token. */
  predicate ShowsForm(token: Option<string>)
  {
    token.Some? && token.value != []
  }

  // ------------------------------------------------------------ the form

  datatype Form = Form(password: string, confirmPassword: string)
  datatype Errors = Errors(password: string, confirmPassword: string, general: string)

  const NO_ERRORS := Errors("", "", "")

  datatype Field = Password | ConfirmPassword

  /** The `newErrors` object of `validateForm`. */
  function FormErrors(f: Form): (e: Errors)
    ensures e.password == (if f.password == [] then PASSWORD_REQUIRED else if |f.password| < 6 then PASSWORD_SHORT else "")
    ensures e.confirmPassword ==
      (if f.confirmPassword == [] then CONFIRM_REQUIRED else if f.password != f.confirmPassword then MISMATCH else "")
    ensures e.general == ""
  {
    var e := NO_ERRORS;
    var e := if f.password == [] then e.(password := PASSWORD_REQUIRED)
             else if |f.password| < 6 then e.(password := PASSWORD_SHORT) else e;
    if f.confirmPassword == [] then e.(confirmPassword := CONFIRM_REQUIRED)
    else if f.password != f.confirmPassword then e.(confirmPassword := MISMATCH) else e
  }

  /** What the form must hold to be sent. */
  predicate Acceptable(f: Form)
  {
    |f.password| >= 6 && f.confirmPassword == f.password
  }

  /** `validateForm` answers true exactly when the password has six
      characters or more and is typed the same twice. */
  lemma ValidExactlyWhenAcceptable(f: Form)
    ensures FormErrors(f) == NO_ERRORS <==> Acceptable(f)
  {
  }

  function Changed(f: Form, field: Field, value: string): Form
  {
    match field
    case Password => f.(password := value)
    case ConfirmPassword => f.(confirmPassword := value)
  }

  /** `handleChange` on the errors: only that input's message is emptied. */
  function ClearedFor(e: Errors, field: Field): (r: Errors)
    ensures r.general == e.general
    ensures field == Password ==> r.password == "" && r.confirmPassword == e.confirmPassword
    ensures field == ConfirmPassword ==> r.confirmPassword == "" && r.password == e.password
  {
    match field
    case Password => e.(password := "")
    case ConfirmPassword => e.(confirmPassword := "")
  }

  class ResetForm {
    const token: Option<string>
    var form: Form
    var errors: Errors
    var isLoading: bool

    /** The page opened at `url`. */
    constructor (url: string)
      ensures token == TokenParam(url)
      ensures form == Form("", "") && errors == NO_ERRORS && !isLoading
    {
      token := TokenParam(url);
      form := Form("", "");
      errors := NO_ERRORS;
      isLoading := false;
    }

    method ValidateForm() returns (valid: bool)
      modifies this
      ensures errors == FormErrors(form) && (valid <==> Acceptable(form))
      ensures form == old(form) && isLoading == old(isLoading)
    {
      var newErrors := NO_ERRORS;
      if form.password == [] {
        newErrors := newErrors.(password := PASSWORD_REQUIRED);
      } else if |form.password| < 6 {
        newErrors := newErrors.(password := PASSWORD_SHORT);
      }
      if form.confirmPassword == [] {
        newErrors := newErrors.(confirmPassword := CONFIRM_REQUIRED);
      } else if form.password != form.confirmPassword {
        newErrors := newErrors.(confirmPassword := MISMATCH);
      }
      errors := newErrors;
      ValidExactlyWhenAcceptable(form);
      valid := errors == NO_ERRORS;
    }

    method HandleChange(field: Field, value: string)
      modifies this
      ensures form == Changed(old(form), field, value)
      ensures errors == ClearedFor(old(errors), field)
      ensures isLoading == old(isLoading)
    {
      form := Changed(form, field, value);
      var current := if field == Password then errors.password else errors.confirmPassword;
      if current != [] {
        errors := ClearedFor(errors, field);
      }
    }

    /** `handleSubmit`, reachable only from the form, so only with a token:
        `resetPassword(token, password)` is called exactly when the form
        passes its checks. */
    method HandleSubmit(reply: Reply) returns (request: Option<(string, string)>, toLogin: bool)
      requires ShowsForm(token)
      modifies this
      ensures request.Some? <==> Acceptable(old(form))
      ensures !Acceptable(old(form)) ==> errors == FormErrors(old(form)) && !toLogin && isLoading == old(isLoading)
      ensures Acceptable(old(form)) ==>
        && request == Some((token.value, old(form).password))
        && !isLoading
        && (toLogin <==> reply.Succeeded?)
        && errors == match reply
           case Succeeded => NO_ERRORS
           case Refused(message) => NO_ERRORS.(general := MessageOr(message, RESET_FAILED))
           case Threw => NO_ERRORS.(general := SERVER_UNREACHABLE)
      ensures form == old(form)
    {
      request, toLogin := None, false;
      var valid := ValidateForm();
      if !valid {
        return;
      }
      isLoading := true;
      errors := NO_ERRORS;
      request := Some((token.value, form.password));
      match reply {
        case Succeeded =>
          toLogin := true;
        case Refused(message) =>
          errors := errors.(general := MessageOr(message, RESET_FAILED));
        case Threw =>
          errors := errors.(general := SERVER_UNREACHABLE);
      }
      isLoading := false;
    }
  }
}
