/**
 * `authenticateToken`: the bearer token is read from the Authorization header and
 * verified; the request then either goes on to the handler with the token's payload as
 * its user, or is stopped with 401 or 403. Verification (`JwtUtils.verifyToken`) is
 * foreign code and is a parameter: `None` stands for a token it throws on.
 */
module AuthMiddleware {
  import opened Wrappers
  import opened Text
  import opened Messages
  import opened AuthService
  import opened Http

  /** What the middleware does with a request. */
  datatype Decision = Next(user: JwtPayload) | Stop(reply: Reply<()>)

  /**
   * `authHeader && authHeader.split(' ')[1]`, kept only when it is a non-empty string: an
   * absent header, a header with no space and an empty second field all give `None`.
   */
  function BearerToken(header: Option<string>): (t: Option<string>)
    ensures t.Some? ==> t.value != "" && ' ' !in t.value
    ensures t.Some? ==> header.Some? && |Split(header.value, ' ')| >= 2 && Split(header.value, ' ')[1] == t.value
  {
    match header
    case None => None
    case Some(h) =>
      var fields := Split(h, ' ');
      if |fields| >= 2 && fields[1] != "" then Some(fields[1]) else None
  }

  /** `authenticateToken`. */
  function Authenticate(header: Option<string>, verify: string -> Option<JwtPayload>): Decision {
    match BearerToken(header)
    case None => Stop(Refuse(401, TokenRequired))
    case Some(token) =>
      match verify(token)
      case None => Stop(Refuse(403, TokenInvalid))
      case Some(payload) => Next(payload)
  }

  /** The token is the second space-separated field, whatever the first one says and whatever follows. */
  lemma TokenIsSecondField(scheme: string, token: string, rest: seq<string>)
    requires ' ' !in scheme && ' ' !in token && token != ""
    requires forall i :: 0 <= i < |rest| ==> ' ' !in rest[i]
    ensures BearerToken(Some(Join([scheme, token] + rest, ' '))) == Some(token)
  {
    var parts := [scheme, token] + rest;
    SplitJoin(parts, ' ');
  }

  /** A header with no space, or whose second field is empty ('Bearer ' or a double space), yields no token. */
  lemma NoSecondFieldNoToken(header: string)
    requires ' ' !in header || exists scheme, rest :: ' ' !in scheme && header == scheme + " " + rest && (rest == "" || rest[0] == ' ')
    ensures BearerToken(Some(header)) == None
  {
    if ' ' !in header {
      SplitWord(header, ' ');
    } else {
      var scheme, rest :| ' ' !in scheme && header == scheme + " " + rest && (rest == "" || rest[0] == ' ');
      assert header == scheme + [' '] + rest;
      SplitWordThen(scheme, rest, ' ');
    }
  }

  /**
   * Without a token the answer is 401 'Token de acesso requerido'; with one, 403 'Token
   * inválido' when verification fails, and otherwise the handler runs with the payload.
   */
  lemma AuthenticateDecides(header: Option<string>, verify: string -> Option<JwtPayload>)
    ensures header.None? ==> Authenticate(header, verify) == Stop(Reply(401, Error(TokenRequired, None)))
    ensures Authenticate(header, verify).Next? <==> exists t :: BearerToken(header) == Some(t) && verify(t).Some?
    ensures Authenticate(header, verify).Next? ==> Some(Authenticate(header, verify).user) == verify(BearerToken(header).value)
    ensures Authenticate(header, verify).Stop? ==>
      Authenticate(header, verify).reply == Reply(401, Error(TokenRequired, None))
      || Authenticate(header, verify).reply == Reply(403, Error(TokenInvalid, None))
  {
  }

  /** Any scheme word is accepted: `<scheme> <token>` runs the handler exactly when the token verifies. */
  lemma SchemeNeverChecked(scheme: string, token: string, verify: string -> Option<JwtPayload>)
    requires ' ' !in scheme && ' ' !in token && token != ""
    ensures var d := Authenticate(Some(scheme + " " + token), verify);
      && (verify(token).None? ==> d == Stop(Reply(403, Error(TokenInvalid, None))))
      && (verify(token).Some? ==> d == Next(verify(token).value))
  {
    TokenIsSecondField(scheme, token, []);
    var parts := [scheme, token] + [];
    assert parts[1..] == [token] && [token][1..] == [];
    assert JoinTail([token], ' ') == [' '] + token;
    assert Join(parts, ' ') == scheme + " " + token;
  }
}
