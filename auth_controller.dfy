/** The account controller: registration, login, the password-reset token
    flow and the profile query, as operations on the users table. Password
    hashing, JWT signing, the random generator and mail delivery are inputs. */
module AuthController {
  import opened Wrappers

  type Byte = b: int | 0 <= b < 256

  /** `resetTokenExpiry` is one hour (in milliseconds) after the request. */
  const RESET_TOKEN_LIFETIME: int := 3600000
  const RESET_TOKEN_BYTES: nat := 32

  // --------------------------------------------------------- reset tokens

  function HexDigit(n: int): (c: char)
    requires 0 <= n < 16
  {
    if n < 10 then ('0' as int + n) as char else ('a' as int + n - 10) as char
  }

  predicate IsHexDigit(c: char)
  {
    '0' <= c <= '9' || 'a' <= c <= 'f'
  }

  function HexValue(c: char): (n: int)
    requires IsHexDigit(c)
    ensures 0 <= n < 16 && HexDigit(n) == c
  {
    if c <= '9' then c as int - '0' as int else c as int - 'a' as int + 10
  }

  /** `Buffer.toString('hex')`: two lower-case hexadecimal digits per byte,
      high nibble first. */
  function ToHex(bytes: seq<Byte>): (s: string)
    ensures |s| == 2 * |bytes|
    ensures forall i :: 0 <= i < |s| ==> IsHexDigit(s[i])
  {
    if bytes == [] then []
    else [HexDigit(bytes[0] / 16), HexDigit(bytes[0] % 16)] + ToHex(bytes[1..])
  }

  function FromHex(s: string): seq<Byte>
    requires |s| % 2 == 0
    requires forall i :: 0 <= i < |s| ==> IsHexDigit(s[i])
  {
    if s == [] then []
    else [HexValue(s[0]) * 16 + HexValue(s[1])] + FromHex(s[2..])
  }

  lemma HexDigitInjective(a: int, b: int)
    requires 0 <= a < 16 && 0 <= b < 16 && HexDigit(a) == HexDigit(b)
    ensures a == b
  {
  }

  /** The hex form loses nothing: the bytes can be read back from it. */
  lemma {:induction false} HexRoundTrip(bytes: seq<Byte>)
    ensures FromHex(ToHex(bytes)) == bytes
  {
    if bytes != [] {
      var s := ToHex(bytes);
      var hi := bytes[0] / 16;
      var lo := bytes[0] % 16;
      HexDigitInjective(HexValue(s[0]), hi);
      HexDigitInjective(HexValue(s[1]), lo);
      assert s[2..] == ToHex(bytes[1..]);
      HexRoundTrip(bytes[1..]);
    }
  }

  /** Different random draws give different tokens. */
  lemma HexInjective(a: seq<Byte>, b: seq<Byte>)
    requires ToHex(a) == ToHex(b)
    ensures a == b
  {
    HexRoundTrip(a);
    HexRoundTrip(b);
  }

  /** The link mailed by `forgotPassword`: the token is a path segment. */
  function ResetLink(frontendUrl: string, token: string): (url: string)
    ensures |url| >= |token| && url[|url| - |token|..] == token
    ensures '?' !in frontendUrl && '?' !in token ==> '?' !in url
  {
    frontendUrl + "/reset-password/" + token
  }

  // ---------------------------------------------------------------- table

  datatype User = User(id: nat, name: string, email: string, password: string,
                       resetToken: Option<string>, resetTokenExpiry: Option<int>)

  /** What the answers expose of a user. */
  datatype Profile = Profile(id: nat, name: string, email: string)

  function ProfileOf(u: User): Profile
  {
    Profile(u.id, u.name, u.email)
  }

  /** The error answers, each with its status. */
  datatype AuthError =
    | EmailTaken            // 400 'Cet email est déjà utilisé'
    | RegisterFailed        // 500 'Erreur lors de l'inscription'
    | BadCredentials        // 401 'Email ou mot de passe incorrect'
    | NoAccount             // 404 'Aucun compte associé à cet email'
    | ResetMailFailed       // 500 'Erreur lors de l'envoi de l'email de réinitialisation'
    | InvalidToken          // 400 'Token invalide ou expiré'
    | ResetFailed           // 500 'Erreur lors de la réinitialisation du mot de passe'
    | UserNotFound          // 404 'Utilisateur non trouvé'
  {
    function Status(): int
    {
      match this
      case EmailTaken => 400
      case InvalidToken => 400
      case BadCredentials => 401
      case NoAccount => 404
      case UserNotFound => 404
      case RegisterFailed => 500
      case ResetMailFailed => 500
      case ResetFailed => 500
    }

    function Message(): string
    {
      match this
      case EmailTaken => "Cet email est déjà utilisé"
      case RegisterFailed => "Erreur lors de l'inscription"
      case BadCredentials => "Email ou mot de passe incorrect"
      case NoAccount => "Aucun compte associé à cet email"
      case ResetMailFailed => "Erreur lors de l'envoi de l'email de réinitialisation"
      case InvalidToken => "Token invalide ou expiré"
      case ResetFailed => "Erreur lors de la réinitialisation du mot de passe"
      case UserNotFound => "Utilisateur non trouvé"
    }
  }

  predicate UniqueEmails(users: seq<User>)
  {
    forall i, j :: 0 <= i < j < |users| ==> users[i].email != users[j].email
  }

  /** `User.findOne({ where: { email } })`: the position of the user, or -1. */
  function FindByEmail(users: seq<User>, email: string): (k: int)
    ensures -1 <= k < |users|
    ensures k >= 0 ==> users[k].email == email
    ensures k == -1 <==> forall i :: 0 <= i < |users| ==> users[i].email != email
  {
    if users == [] then -1
    else if users[0].email == email then 0
    else
      var k := FindByEmail(users[1..], email);
      if k < 0 then -1 else k + 1
  }

  /** The user a reset token opens: the first whose stored token is `token`
      and whose expiry is strictly later than `now`; -1 if there is none. */
  function FindResetTarget(users: seq<User>, token: string, now: int): (k: int)
    ensures -1 <= k < |users|
    ensures k >= 0 ==> TokenOpens(users[k], token, now)
    ensures k >= 0 ==> forall i :: 0 <= i < k ==> !TokenOpens(users[i], token, now)
    ensures k == -1 <==> forall i :: 0 <= i < |users| ==> !TokenOpens(users[i], token, now)
  {
    if users == [] then -1
    else if TokenOpens(users[0], token, now) then 0
    else
      var k := FindResetTarget(users[1..], token, now);
      if k < 0 then -1 else k + 1
  }

  predicate TokenOpens(u: User, token: string, now: int)
  {
    u.resetToken == Some(token) && u.resetTokenExpiry.Some? && u.resetTokenExpiry.value > now
  }

  /** `findByPk`: the user with that id, if any. */
  function FindById(users: seq<User>, id: nat): (r: Option<User>)
    ensures r.Some? ==> r.value in users && r.value.id == id
    ensures r.None? <==> forall i :: 0 <= i < |users| ==> users[i].id != id
  {
    if users == [] then None
    else if users[0].id == id then Some(users[0])
    else FindById(users[1..], id)
  }

  /** The users table. `Valid` is the database's guarantee that emails and
      ids are unique. */
  class UserTable {
    var users: seq<User>
    var nextId: nat

    ghost predicate Valid()
      reads this
    {
      && UniqueEmails(users)
      && (forall i :: 0 <= i < |users| ==> users[i].id < nextId)
      && (forall i, j :: 0 <= i < j < |users| ==> users[i].id != users[j].id)
    }

    constructor ()
      ensures Valid() && users == []
    {
      users := [];
      nextId := 0;
    }

    /** `register`: a taken email is a 400 that creates nothing. Otherwise
        the user is created first and the welcome mail sent after, so a mail
        failure (`mailSent` false) answers 500 with the account kept. */
    method Register(name: string, email: string, password: string, mailSent: bool)
      returns (r: Result<Profile, AuthError>)
      requires Valid()
      modifies this
      ensures Valid()
      ensures FindByEmail(old(users), email) >= 0 ==>
        r == Err(EmailTaken) && users == old(users) && nextId == old(nextId)
      ensures FindByEmail(old(users), email) < 0 ==>
        && users == old(users) + [User(old(nextId), name, email, password, None, None)]
        && nextId == old(nextId) + 1
        && r == (if mailSent then Ok(Profile(old(nextId), name, email)) else Err(RegisterFailed))
    {
      if FindByEmail(users, email) >= 0 {
        return Err(EmailTaken);
      }
      var u := User(nextId, name, email, password, None, None);
      users := users + [u];
      nextId := nextId + 1;
      r := if mailSent then Ok(ProfileOf(u)) else Err(RegisterFailed);
    }

    /** `login`: `matches(stored, given)` is the model's `validatePassword`.
        An unknown email and a wrong password give the same answer. */
    function Login(email: string, password: string, matches: (string, string) -> bool): (r: Result<Profile, AuthError>)
      requires Valid()
      reads this
      ensures r.Ok? <==> exists i :: 0 <= i < |users| && users[i].email == email && matches(users[i].password, password)
      ensures r.Ok? ==> exists i :: 0 <= i < |users| && users[i].email == email && matches(users[i].password, password)
                                    && r.value == ProfileOf(users[i])
      ensures r.Err? ==> r.error == BadCredentials
    {
      var k := FindByEmail(users, email);
      if k < 0 then Err(BadCredentials)
      else if !matches(users[k].password, password) then Err(BadCredentials)
      else Ok(ProfileOf(users[k]))
    }

    /** `forgotPassword`: an unknown email is a 404 that changes nothing;
        otherwise the hex form of the 32 random bytes is stored with an
        expiry one hour after `now`, replacing any earlier token, and then
        the mail is sent (`mailSent` false: 500, the token stays). The
        token returned is the one put in the mail; the HTTP answer itself
        carries only a confirmation message, never the token. */
    method ForgotPassword(email: string, random: seq<Byte>, now: int, mailSent: bool)
      returns (r: Result<string, AuthError>)
      requires Valid()
      requires |random| == RESET_TOKEN_BYTES
      modifies this
      ensures Valid() && nextId == old(nextId) && |users| == |old(users)|
      ensures FindByEmail(old(users), email) < 0 ==> r == Err(NoAccount) && users == old(users)
      ensures FindByEmail(old(users), email) >= 0 ==>
        var k := FindByEmail(old(users), email);
        && users == old(users)[k := old(users)[k].(resetToken := Some(ToHex(random)),
                                                  resetTokenExpiry := Some(now + RESET_TOKEN_LIFETIME))]
        && r == (if mailSent then Ok(ToHex(random)) else Err(ResetMailFailed))
    {
      var k := FindByEmail(users, email);
      if k < 0 {
        return Err(NoAccount);
      }
      var token := ToHex(random);
      users := users[k := users[k].(resetToken := Some(token), resetTokenExpiry := Some(now + RESET_TOKEN_LIFETIME))];
      r := if mailSent then Ok(token) else Err(ResetMailFailed);
    }

    /** `resetPassword`: with no user holding the token unexpired, a 400 that
        changes nothing. Otherwise the password is replaced and the token and
        its expiry cleared before the confirmation mail is sent. */
    method ResetPassword(token: string, password: string, now: int, mailSent: bool)
      returns (r: Result<(), AuthError>)
      requires Valid()
      modifies this
      ensures Valid() && nextId == old(nextId) && |users| == |old(users)|
      ensures FindResetTarget(old(users), token, now) < 0 ==> r == Err(InvalidToken) && users == old(users)
      ensures FindResetTarget(old(users), token, now) >= 0 ==>
        var k := FindResetTarget(old(users), token, now);
        && users == old(users)[k := old(users)[k].(password := password, resetToken := None, resetTokenExpiry := None)]
        && r == (if mailSent then Ok(()) else Err(ResetFailed))
    {
      var k := FindResetTarget(users, token, now);
      if k < 0 {
        return Err(InvalidToken);
      }
      users := users[k := users[k].(password := password, resetToken := None, resetTokenExpiry := None)];
      r := if mailSent then Ok(()) else Err(ResetFailed);
    }

    /** `getMe`: the profile of the authenticated id, or 404. */
    function GetMe(id: nat): (r: Result<Profile, AuthError>)
      reads this
      ensures r.Ok? ==> r.value.id == id && exists i :: 0 <= i < |users| && ProfileOf(users[i]) == r.value
      ensures r.Err? <==> forall i :: 0 <= i < |users| ==> users[i].id != id
      ensures r.Err? ==> r.error == UserNotFound
    {
      var u := FindById(users, id);
      if u.None? then Err(UserNotFound) else Ok(ProfileOf(u.value))
    }
  }

  /** A token stored by `forgotPassword` opens the account until, and not
      at, its expiry instant. */
  lemma TokenLifetime(u: User, random: seq<Byte>, issued: int, now: int)
    ensures TokenOpens(u.(resetToken := Some(ToHex(random)), resetTokenExpiry := Some(issued + RESET_TOKEN_LIFETIME)),
                       ToHex(random), now)
            <==> now < issued + RESET_TOKEN_LIFETIME
  {
  }

  /** The token is 64 hexadecimal characters. */
  lemma TokenShape(random: seq<Byte>)
    requires |random| == RESET_TOKEN_BYTES
    ensures |ToHex(random)| == 64
    ensures forall i :: 0 <= i < 64 ==> IsHexDigit(ToHex(random)[i])
  {
  }

  /** At most one user stores `token`. Nothing in the table enforces this;
      64 random hex digits make a collision unlikely, not impossible. */
  predicate HeldOnce(users: seq<User>, token: string)
  {
    forall i, j :: 0 <= i < j < |users| && users[i].resetToken == Some(token) ==> users[j].resetToken != Some(token)
  }

  /** A reset is single-use: once `resetPassword` has applied it, that user
      no longer matches the token, at any time; and when no other user holds
      the same token, the token opens no account at all any more. */
  lemma ResetIsSingleUse(users: seq<User>, token: string, password: string, now: int, later: int)
    requires FindResetTarget(users, token, now) >= 0
    ensures var k := FindResetTarget(users, token, now);
      var after := users[k := users[k].(password := password, resetToken := None, resetTokenExpiry := None)];
      && !TokenOpens(after[k], token, later)
      && (HeldOnce(users, token) ==> FindResetTarget(after, token, later) == -1)
  {
    var k := FindResetTarget(users, token, now);
    var after := users[k := users[k].(password := password, resetToken := None, resetTokenExpiry := None)];
    if HeldOnce(users, token) {
      forall i | 0 <= i < |after| ensures !TokenOpens(after[i], token, later) {
        if i < k {
          assert users[i].resetToken != Some(token);
        } else if i > k {
          assert users[i].resetToken != Some(token);
        }
      }
    }
  }

  /** Registration never admits a second account with the same email. */
  lemma {:induction false} RegisterKeepsEmailsUnique(users: seq<User>, u: User)
    requires UniqueEmails(users) && FindByEmail(users, u.email) < 0
    ensures UniqueEmails(users + [u])
  {
    forall i, j | 0 <= i < j < |users + [u]| ensures (users + [u])[i].email != (users + [u])[j].email {
      if j == |users| {
        assert users[i].email != u.email;
      }
    }
  }
}
