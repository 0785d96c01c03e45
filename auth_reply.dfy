/** What the client's auth calls (`register`, `login`, `resetPassword`,
    `forgotPassword`) give a page: `{ success: true }`, `{ success: false,
    message }` (an absent message is ""), or a thrown error. The pages are
    written against all three; the `AuthContext` wrappers produce only the
    first two, always with a message. */
module AuthReply {
  datatype Reply = Succeeded | Refused(message: string) | Threw

  /** `message || fallback`. */
  function MessageOr(message: string, fallback: string): (m: string)
    ensures message != [] ==> m == message
    ensures message == [] ==> m == fallback
  {
    if message != [] then message else fallback
  }

  const GENERIC_FAILURE: string := "Une erreur est survenue"

  /** An `AuthContext` wrapper: a resolved service call is a success; a
      rejected one is caught and becomes a refusal carrying the server's
      message, or the generic one when the server gave none. `serverMessage`
      is `error.response?.data?.message` ("" when absent). */
  function FromContext(resolved: bool, serverMessage: string): (r: Reply)
    ensures r.Succeeded? <==> resolved
    ensures !r.Threw?
    ensures r.Refused? ==> r.message != []
    ensures r.Refused? && serverMessage != [] ==> r.message == serverMessage
  {
    if resolved then Succeeded else Refused(MessageOr(serverMessage, GENERIC_FAILURE))
  }

  /** A page's own fallback is never shown for a reply that came through
      the wrappers: the refusal always carries a message. */
  lemma PageFallbackUnused(resolved: bool, serverMessage: string, fallback: string)
    requires !resolved
    ensures MessageOr(FromContext(resolved, serverMessage).message, fallback)
            == MessageOr(serverMessage, GENERIC_FAILURE)
  {
  }
}
