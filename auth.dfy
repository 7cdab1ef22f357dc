/** `register` and `login`. bcrypt's `hash`/`compare` and JWT's `sign` are
    function parameters; the token payload is the id, role and name of the
    user. */
module AuthController {
  import opened Wrappers
  import opened Models
  import UserRoutes
  import Queries

  const MsgMissing: string := "Faltan datos obligatorios"
  const MsgBadCredentials: string := "Credenciales inválidas"
  const MsgBlocked: string := "Usuario bloqueado"

  /** What the token carries. */
  datatype Payload = Payload(id: Id, rol: Rol, nombre: string)

  datatype UserSummary = UserSummary(id: Id, nombre: string, email: string, rol: Rol)

  datatype LoginOk = LoginOk(token: string, usuario: UserSummary)

  /** `POST /api/auth/register`: the shared creation chain with its own
      message for missing fields. */
  function Register(users: map<Id, User>, id: Id,
                    nombre: Option<string>, email: Option<string>, password: Option<string>, rol: Option<string>,
                    hash: string -> string): (r: Result<User>)
    ensures !(Truthy(nombre) && Truthy(email) && Truthy(password)) ==> r == Fail(400, MsgMissing)
    ensures r.Ok? ==> (r.value.estado == Activo && r.value.email == email.value
                       && (!Truthy(rol) ==> r.value.rol == ESTUDIANTE))
  {
    UserRoutes.CreateUser(users, id, nombre, email, password, rol, hash, MsgMissing)
  }

  /** `POST /api/auth/login` on the user `findOne({ email })` found: an
      unknown email and a wrong password get the same 400; an absent
      password makes `bcrypt.compare` reject, which the catch answers with
      500; a blocked user is refused with 403 only once the password has
      matched. */
  function Login(found: Option<User>, password: Option<string>,
                 compare: (string, string) -> bool, sign: Payload -> string): (r: Result<LoginOk>)
    ensures found.None? ==> r == Fail(400, MsgBadCredentials)
    ensures found.Some? && password.None? ==> r == Fail(500, UserRoutes.MsgServer)
    ensures found.Some? && password.Some? && !compare(password.value, found.value.password)
      ==> r == Fail(400, MsgBadCredentials)
    ensures found.Some? && password.Some? && compare(password.value, found.value.password) && found.value.estado == Bloqueado
      ==> r == Fail(403, MsgBlocked)
    ensures r.Ok? <==> found.Some? && password.Some? && compare(password.value, found.value.password)
                       && found.value.estado != Bloqueado
    ensures r.Ok? ==> var u := found.value;
      r.value.token == sign(Payload(u.id, u.rol, u.nombre))
      && r.value.usuario == UserSummary(u.id, u.nombre, u.email, u.rol)
  {
    match found
    case None => Fail(400, MsgBadCredentials)
    case Some(u) =>
      if password.None? then Fail(500, UserRoutes.MsgServer)
      else if !compare(password.value, u.password) then Fail(400, MsgBadCredentials)
      else if u.estado == Bloqueado then Fail(403, MsgBlocked)
      else Ok(LoginOk(sign(Payload(u.id, u.rol, u.nombre)), UserSummary(u.id, u.nombre, u.email, u.rol)))
  }

  /** Whoever registers can log in straight away with the same email and
      password, provided `compare` accepts a password against its own hash:
      the lookup finds the new user, and the token names them. */
  lemma RegisterThenLogin(users: map<Id, User>, id: Id,
                          nombre: Option<string>, email: Option<string>, password: Option<string>, rol: Option<string>,
                          hash: string -> string, compare: (string, string) -> bool, sign: Payload -> string, bound: nat)
    requires EmailsUnique(users) && id !in users && id < bound
    requires Register(users, id, nombre, email, password, rol, hash).Ok?
    requires forall pw :: compare(pw, hash(pw))
    ensures var u := Register(users, id, nombre, email, password, rol, hash).value;
      var users2 := users[id := u];
      var found := UserRoutes.FindByEmail(users2, email.value, bound);
      found == Some(id)
      && Login(Some(users2[id]), password, compare, sign)
         == Ok(LoginOk(sign(Payload(id, u.rol, u.nombre)), UserSummary(id, u.nombre, u.email, u.rol)))
  {
    var u := Register(users, id, nombre, email, password, rol, hash).value;
    var users2 := users[id := u];
    assert !EmailTaken(users, email.value);
    forall j | j in users ensures users[j].email != email.value {
    }
    Queries.FindFirstUnique(users2, (x: User) => x.email == email.value, bound, id);
  }
}
