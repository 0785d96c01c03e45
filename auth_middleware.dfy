/** The bearer-token gate in front of the protected routes. The header
    parsing is a loose reading of the `Authorization: Bearer <token>` form
    of section 2.1 of RFC 6750: the header need only start with "Bearer",
    and the token is the second space-separated field. JWT verification and
    the user lookup are inputs. */
module AuthMiddleware {
  import opened Wrappers
  import opened Text

  const NOT_AUTHORIZED: string := "Non autorisé à accéder à cette route"
  const INVALID_TOKEN: string := "Token non valide"
  const USER_NOT_FOUND: string := "Utilisateur non trouvé"

  /** `authorization.split(' ')[1]` when the header starts with "Bearer";
      an absent, empty or missing field gives no token. An absent header is
      the empty string. */
  function ExtractToken(header: string): (t: Option<string>)
    ensures t.Some? ==> StartsWith(header, "Bearer") && t.value != [] && ' ' !in t.value
    ensures t.Some? <==> StartsWith(header, "Bearer") && |Split(header, ' ')| >= 2 && Split(header, ' ')[1] != []
    ensures t.Some? ==> t.value == Split(header, ' ')[1]
  {
    if !StartsWith(header, "Bearer") then None
    else
      var fields := Split(header, ' ');
      SplitPiecesFree(header, ' ');
      if |fields| < 2 || fields[1] == [] then None else Some(fields[1])
  }

  /** The standard form `Bearer <token>` yields the token. */
  lemma StandardHeader(token: string)
    requires token != [] && ' ' !in token
    ensures ExtractToken("Bearer " + token) == Some(token)
  {
    assert "Bearer" + " " + token + [] == "Bearer " + token;
    LooseScheme("Bearer", token, []);
  }

  /** Looser than RFC 6750: any first word that begins with "Bearer" is
      taken as the scheme, and whatever follows the token after a space is
      ignored. */
  lemma LooseScheme(scheme: string, token: string, rest: string)
    requires StartsWith(scheme, "Bearer") && ' ' !in scheme
    requires token != [] && ' ' !in token
    requires rest == [] || rest[0] == ' '
    ensures ExtractToken(scheme + " " + token + rest) == Some(token)
  {
    var h := scheme + " " + token + rest;
    var tail := token + rest;
    assert h == scheme + [' '] + tail;
    SplitFirst(scheme, ' ', tail);
    SplitHeadIs(token, rest);
    assert h[..6] == scheme[..6];
    assert StartsWith(h, "Bearer");
  }

  lemma SplitHeadIs(token: string, rest: string)
    requires ' ' !in token
    requires rest == [] || rest[0] == ' '
    ensures Split(token + rest, ' ')[0] == token
  {
    if rest == [] {
      assert token + rest == token;
      SplitWithout(token, ' ');
    } else {
      assert token + rest == token + [' '] + rest[1..];
      SplitFirst(token, ' ', rest[1..]);
    }
  }

  /** A header with no space, such as "Bearerxyz", carries no token. */
  lemma NoSpaceNoToken(header: string)
    requires ' ' !in header
    ensures ExtractToken(header) == None
  {
    SplitWithout(header, ' ');
  }

  /** Two spaces after the first word, as in "Bearer  x", leave an empty
      second field: no token. */
  lemma DoubleSpaceNoToken(scheme: string, rest: string)
    requires ' ' !in scheme
    ensures ExtractToken(scheme + "  " + rest) == None
  {
    var h := scheme + "  " + rest;
    var tail := [] + [' '] + rest;
    TwoSpaces(scheme, rest);
    SplitFirst(scheme, ' ', tail);
    SplitFirst([], ' ', rest);
    EmptySecondField(h);
  }

  lemma TwoSpaces(scheme: string, rest: string)
    ensures scheme + "  " + rest == scheme + [' '] + ([] + [' '] + rest)
  {
  }

  /** An empty second field gives no token. */
  lemma EmptySecondField(header: string)
    requires |Split(header, ' ')| >= 2 && Split(header, ' ')[1] == []
    ensures ExtractToken(header) == None
  {
  }

  /** What `User.findByPk(decoded.id)` gave: the user, nothing, or a throw. */
  datatype Lookup = Found | NotFound | LookupFailed

  /** `next()` with the user's id, or a 401 with its message. */
  datatype Decision = Next(userId: nat) | Unauthorized(message: string)

  /** `authMiddleware`: `verify` is `jwt.verify` (None when it throws),
      `lookup` the user query. A failing lookup lands in the same catch as a
      failing verification. */
  function Authenticate(header: string, verify: string -> Option<nat>, lookup: nat -> Lookup): (d: Decision)
    ensures d.Next? <==>
      && ExtractToken(header).Some?
      && verify(ExtractToken(header).value).Some?
      && lookup(verify(ExtractToken(header).value).value) == Found
    ensures d.Next? ==> d.userId == verify(ExtractToken(header).value).value
    ensures ExtractToken(header).None? ==> d == Unauthorized(NOT_AUTHORIZED)
    ensures d == Unauthorized(USER_NOT_FOUND) <==>
      && ExtractToken(header).Some?
      && verify(ExtractToken(header).value).Some?
      && lookup(verify(ExtractToken(header).value).value) == NotFound
    ensures d == Unauthorized(INVALID_TOKEN) <==>
      && ExtractToken(header).Some?
      && (|| verify(ExtractToken(header).value).None?
          || lookup(verify(ExtractToken(header).value).value) == LookupFailed)
    ensures d.Unauthorized? ==> d.message in {NOT_AUTHORIZED, INVALID_TOKEN, USER_NOT_FOUND}
  {
    var token := ExtractToken(header);
    if token.None? then Unauthorized(NOT_AUTHORIZED)
    else
      var decoded := verify(token.value);
      if decoded.None? then Unauthorized(INVALID_TOKEN)
      else
        match lookup(decoded.value)
        case Found => Next(decoded.value)
        case NotFound => Unauthorized(USER_NOT_FOUND)
        case LookupFailed => Unauthorized(INVALID_TOKEN)
  }
}
