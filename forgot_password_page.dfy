/** The page that asks for a reset link: the email is checked before any
    request, and the answer is shown as a status line. */
module ForgotPasswordPage {
  import opened Wrappers
  import opened EmailFormat
  import opened AuthReply

  const ENTER_EMAIL := "Veuillez entrer votre adresse email"
  const EMAIL_INVALID := "Format d'email invalide"
  const SENT := "Si un compte existe avec cette adresse email, vous recevrez les instructions de réinitialisation."
  const FAILED := "Une erreur est survenue. Veuillez réessayer."
  const SERVER_UNREACHABLE := "Une erreur est survenue lors de la connexion au serveur. Veuillez réessayer."

  datatype Kind = NoKind | ErrorKind | SuccessKind
  datatype Status = Status(kind: Kind, message: string)

  /** The checks made before sending: the message of the first that fails,
      or nothing for a well-formed address. */
  function CheckEmail(email: string): (r: Option<string>)
    ensures r.None? <==> IsEmailFormat(email)
    ensures email == [] ==> r == Some(ENTER_EMAIL)
    ensures email != [] && !IsEmailFormat(email) ==> r == Some(EMAIL_INVALID)
  {
    if email == [] then Some(ENTER_EMAIL)
    else if !IsEmailFormat(email) then Some(EMAIL_INVALID)
    else None
  }

  /** The status shown once the server has answered. */
  function Answered(reply: Reply): (s: Status)
    ensures s.kind == SuccessKind <==> reply.Succeeded?
    ensures s.kind != NoKind && s.message != []
  {
    match reply
    case Succeeded => Status(SuccessKind, SENT)
    case Refused(message) => Status(ErrorKind, MessageOr(message, FAILED))
    case Threw => Status(ErrorKind, SERVER_UNREACHABLE)
  }

  class ForgotForm {
    var email: string
    var status: Status
    var isLoading: bool

    constructor ()
      ensures email == [] && status == Status(NoKind, "") && !isLoading
    {
      email := [];
      status := Status(NoKind, "");
      isLoading := false;
    }

    /** `handleSubmit`: a missing or malformed address is reported and
        nothing is sent; otherwise `forgotPassword(email)` is called, and a
        success clears the field. `request` is the address sent. */
    method HandleSubmit(reply: Reply) returns (request: Option<string>)
      modifies this
      ensures CheckEmail(old(email)).Some? ==>
        && request == None && email == old(email)
        && status == Status(ErrorKind, CheckEmail(old(email)).value) && isLoading == old(isLoading)
      ensures CheckEmail(old(email)).None? ==>
        && request == Some(old(email))
        && status == Answered(reply)
        && email == (if reply.Succeeded? then [] else old(email))
        && !isLoading
    {
      var problem := CheckEmail(email);
      if problem.Some? {
        status := Status(ErrorKind, problem.value);
        return None;
      }
      isLoading := true;
      status := Status(NoKind, "");
      request := Some(email);
      match reply {
        case Succeeded =>
          status := Status(SuccessKind, SENT);
          email := [];
        case Refused(message) =>
          status := Status(ErrorKind, MessageOr(message, FAILED));
        case Threw =>
          status := Status(ErrorKind, SERVER_UNREACHABLE);
      }
      isLoading := false;
    }
  }
}
