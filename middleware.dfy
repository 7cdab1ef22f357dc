/** The authentication middleware. `requireAuth` reads the Authorization
    header, takes the second space-separated field as the token, verifies it
    and stores the payload on the request; `requireAdmin` and
    `requireDocente` check the stored payload's role. Token verification is
    a function parameter that answers the payload or None. */
module AuthMiddleware {
  import opened Wrappers
  import opened Models
  import Text
  import opened AuthController

  const MsgNoHeader: string := "No se proporcionó el token de autenticación"
  const MsgBadToken: string := "Token inválido"
  const MsgExpired: string := "Token no válido o expirado"
  const MsgNoAuth: string := "No autenticado"
  const MsgAdminOnly: string := "Acceso solo para administradores"
  const MsgDocenteOnly: string := "Acceso solo para docentes"

  /** `const [, token] = authHeader.split(" ")`: the second field, if
      there is one. The first field (the scheme word) is not looked at. */
  function TokenOf(header: string): (r: Option<string>)
    ensures r.Some? <==> |Text.Split(header, ' ')| >= 2
    ensures r.Some? ==> r.value == Text.Split(header, ' ')[1]
  {
    var parts := Text.Split(header, ' ');
    if |parts| >= 2 then Some(parts[1]) else None
  }

  /** A header made of any word, a space and a space-free token yields
      that token, whatever the word says. */
  lemma {:induction false} TokenOfSchemeAndToken(scheme: string, token: string)
    requires ' ' !in scheme && ' ' !in token
    ensures TokenOf(scheme + " " + token) == Some(token)
  {
    Text.SplitJoin([scheme, token], ' ');
    assert Text.Join([scheme, token], [' ']) == scheme + " " + token by {
      assert [scheme, token][1..] == [token];
    }
  }

  /** The decision `requireAuth` takes: 401 with its own message for a
      missing or empty header, a missing or empty token, and a token that
      does not verify; otherwise the verified payload. */
  function AuthDecision(header: Option<string>, verify: string -> Option<Payload>): (r: Result<Payload>)
    ensures !Truthy(header) ==> r == Fail(401, MsgNoHeader)
    ensures Truthy(header) && !Truthy(TokenOf(header.value)) ==> r == Fail(401, MsgBadToken)
    ensures Truthy(header) && Truthy(TokenOf(header.value)) && verify(TokenOf(header.value).value).None?
      ==> r == Fail(401, MsgExpired)
    ensures r.Ok? <==> Truthy(header) && Truthy(TokenOf(header.value)) && verify(TokenOf(header.value).value).Some?
    ensures r.Ok? ==> r == Ok(verify(TokenOf(header.value).value).value)
  {
    if !Truthy(header) then Fail(401, MsgNoHeader)
    else
      var token := TokenOf(header.value);
      if !Truthy(token) then Fail(401, MsgBadToken)
      else match verify(token.value)
        case None => Fail(401, MsgExpired)
        case Some(p) => Ok(p)
  }

  /** The request as the middleware chain sees it. */
  class Request {
    const authorization: Option<string>
    var user: Option<Payload>

    constructor (authorization: Option<string>)
      ensures this.authorization == authorization && user == None
    {
      this.authorization := authorization;
      user := None;
    }

    /** `requireAuth`: on success the payload is stored in `user` and the
        chain goes on; on failure `user` is left as it was. */
    method RequireAuth(verify: string -> Option<Payload>) returns (r: Result<()>)
      modifies this
      ensures r.Ok? <==> AuthDecision(authorization, verify).Ok?
      ensures r.Err? ==> r.failure == AuthDecision(authorization, verify).failure && user == old(user)
      ensures r.Ok? ==> user == Some(AuthDecision(authorization, verify).value)
    {
      var d := AuthDecision(authorization, verify);
      match d
      case Err(f) =>
        r := Err(f);
      case Ok(p) =>
        user := Some(p);
        r := Ok(());
    }
  }

  /** The role check shared by `requireAdmin` and `requireDocente`. */
  function RequireRole(user: Option<Payload>, rol: Rol, message: string): (r: Result<Payload>)
    ensures user.None? ==> r == Fail(401, MsgNoAuth)
    ensures user.Some? && user.value.rol != rol ==> r == Fail(403, message)
    ensures r.Ok? <==> user.Some? && user.value.rol == rol
    ensures r.Ok? ==> r.value == user.value
  {
    match user
    case None => Fail(401, MsgNoAuth)
    case Some(p) => if p.rol != rol then Fail(403, message) else Ok(p)
  }

  /** `requireAdmin`: 401 without a user, 403 for any role but ADMIN. */
  function RequireAdmin(user: Option<Payload>): (r: Result<Payload>)
    ensures user.None? ==> r == Fail(401, MsgNoAuth)
    ensures user.Some? && user.value.rol != ADMIN ==> r == Fail(403, MsgAdminOnly)
    ensures r.Ok? <==> user.Some? && user.value.rol == ADMIN
  {
    RequireRole(user, ADMIN, MsgAdminOnly)
  }

  /** `requireDocente`: 401 without a user, 403 for any role but DOCENTE. */
  function RequireDocente(user: Option<Payload>): (r: Result<Payload>)
    ensures user.None? ==> r == Fail(401, MsgNoAuth)
    ensures user.Some? && user.value.rol != DOCENTE ==> r == Fail(403, MsgDocenteOnly)
    ensures r.Ok? <==> user.Some? && user.value.rol == DOCENTE
  {
    RequireRole(user, DOCENTE, MsgDocenteOnly)
  }

  /** `requireAuth` followed by `requireAdmin` lets a request through
      exactly when its header carries a token that verifies to an ADMIN
      payload. No header at all ends at the first guard, so the role is
      never looked at. */
  lemma AdminChain(header: Option<string>, verify: string -> Option<Payload>)
    ensures var a := AuthDecision(header, verify);
      var user := if a.Ok? then Some(a.value) else None;
      (a.Ok? && RequireAdmin(user).Ok?)
      <==> (Truthy(header) && Truthy(TokenOf(header.value))
            && verify(TokenOf(header.value).value).Some?
            && verify(TokenOf(header.value).value).value.rol == ADMIN)
  {
  }
}
