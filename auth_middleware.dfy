/**
 * The authentication middleware of the API server
 * (apps/api/src/middlewares/auth.middleware.ts), as a decision on the
 * `Authorization` header: pass the request on (`next()`), or answer 401
 * with one of three messages. The header must be "Bearer", one space and a
 * non-empty token: the scheme of section 2.1 of RFC 6750, compared
 * case-sensitively and with exactly one space.
 */
module AuthMiddleware {
  import opened Wrappers
  import Strings

  datatype ErrorBody = ErrorBody(status: int, message: string)

  /** Exactly one of: `next()` is called, or a single 401 answer is sent. */
  datatype Outcome = Next | Unauthorized(body: ErrorBody)

  const MissingHeaderMessage: string := "Acceso no autorizado. Se requiere autenticación."
  const BadFormatMessage: string := "Formato de token inválido. Se espera: Bearer <token>"
  const InvalidTokenMessage: string := "Token inválido"

  /** `requireAuth(req, res, next)` for the header value (`undefined` when absent). */
  function RequireAuth(authorization: Option<string>): (o: Outcome)
    ensures o.Unauthorized? ==> o.body.status == 401
  {
    if authorization.None? || authorization.value == "" then
      Unauthorized(ErrorBody(401, MissingHeaderMessage))
    else
      var parts := Strings.Split(authorization.value, ' ');
      if |parts| != 2 || parts[0] != "Bearer" then Unauthorized(ErrorBody(401, BadFormatMessage))
      else if parts[1] == "" then Unauthorized(ErrorBody(401, InvalidTokenMessage))
      else Next
  }

  /** The header "Bearer <token>" for a token without spaces. */
  predicate IsBearer(header: string, token: string) {
    token != "" && ' ' !in token && header == "Bearer " + token
  }

  /**
   * The middleware lets a request through exactly when its header is
   * "Bearer", one space and a non-empty token without spaces; lower-case
   * "bearer", doubled spaces and extra words are all refused.
   */
  lemma {:induction false} AcceptsExactlyBearer(header: string)
    ensures RequireAuth(Some(header)) == Next <==> exists token :: IsBearer(header, token)
  {
    var parts := Strings.Split(header, ' ');
    if RequireAuth(Some(header)) == Next {
      Strings.JoinSplit(header, ' ');
      Strings.SplitPiecesFree(header, ' ');
      assert Strings.Join(parts, ' ') == parts[0] + " " + parts[1];
      assert IsBearer(header, parts[1]);
    }
    if exists token :: IsBearer(header, token) {
      var token :| IsBearer(header, token);
      BearerSplits(token);
    }
  }

  /** "Bearer <token>" splits into the scheme and the token. */
  lemma BearerSplits(token: string)
    requires ' ' !in token
    ensures Strings.Split("Bearer " + token, ' ') == ["Bearer", token]
  {
    Strings.SplitAt("Bearer", ' ', token);
    Strings.SplitWithout(token, ' ');
    assert "Bearer " + token == "Bearer" + [' '] + token;
  }

  /** A missing or empty header is refused as unauthenticated. */
  lemma MissingHeaderRefused(authorization: Option<string>)
    requires authorization.None? || authorization == Some("")
    ensures RequireAuth(authorization) == Unauthorized(ErrorBody(401, MissingHeaderMessage))
  {
  }

  /** "Bearer " with nothing after it has the right shape but an empty token. */
  lemma EmptyTokenRefused()
    ensures RequireAuth(Some("Bearer ")) == Unauthorized(ErrorBody(401, InvalidTokenMessage))
  {
    BearerSplits("");
    assert "Bearer " + "" == "Bearer ";
  }

  /** A header whose split does not give exactly two pieces, the first "Bearer", is refused for its format. */
  lemma WrongShapeRefused(header: string)
    requires header != ""
    requires |Strings.Split(header, ' ')| != 2 || Strings.Split(header, ' ')[0] != "Bearer"
    ensures RequireAuth(Some(header)) == Unauthorized(ErrorBody(401, BadFormatMessage))
  {
  }

  /** Three or more space-separated pieces (a doubled space, extra words) never pass. */
  lemma {:induction false} ExtraSpacesRefused(a: string, b: string, c: string)
    requires ' ' !in a
    ensures RequireAuth(Some(a + " " + b + " " + c)) == Unauthorized(ErrorBody(401, BadFormatMessage))
  {
    var h := a + " " + b + " " + c;
    assert h == a + [' '] + (b + " " + c);
    Strings.SplitAt(a, ' ', b + " " + c);
    SplitHasTwoMore(b, c);
  }

  lemma {:induction false} SplitHasTwoMore(b: string, c: string)
    ensures |Strings.Split(b + " " + c, ' ')| >= 2
    decreases |b|
  {
    if b == [] {
      assert b + " " + c == [' '] + c;
    } else {
      assert (b + " " + c)[1..] == b[1..] + " " + c;
      SplitHasTwoMore(b[1..], c);
    }
  }
}
