/** The admin user routes and the user-creation logic that registration
    shares with them: the status and role validators, the delete guards and
    the creation chain (required fields, duplicate email, role default,
    schema validation). Password hashing is a function parameter. */
module UserRoutes {
  import opened Wrappers
  import opened Models
  import Queries

  const MsgEstadoInvalido: string := "Estado inválido. Use 'Activo' o 'Bloqueado'"
  const MsgRolInvalido: string := "Rol inválido"
  const MsgNotFound: string := "Usuario no encontrado"
  const MsgNoAdminDelete: string := "No puedes eliminar usuarios con rol ADMIN"
  const MsgNoSelfDelete: string := "No puedes eliminar tu propio usuario"
  const MsgAllRequired: string := "Todos los campos son obligatorios"
  const MsgEmailTaken: string := "El email ya está registrado"
  const MsgServer: string := "Error en el servidor"

  /** A user as the routes answer it, `select("-password")`. */
  datatype UserView = UserView(id: Id, nombre: string, email: string, rol: Rol, estado: UserEstado)

  function View(u: User): (v: UserView)
    ensures v.id == u.id && v.nombre == u.nombre && v.email == u.email && v.rol == u.rol && v.estado == u.estado
  {
    UserView(u.id, u.nombre, u.email, u.rol, u.estado)
  }

  /** The answer does not depend on the stored hash: two users that differ
      only in their password are shown alike. */
  lemma ViewHidesPassword(u: User, password: string)
    ensures View(u.(password := password)) == View(u)
  {
  }

  /** `PATCH /:id/estado`: the value is checked first (400, nothing
      looked up), then the user is looked up (404); only the status changes. */
  function PatchEstado(users: map<Id, User>, id: Id, estado: Option<string>): (r: Result<User>)
    ensures (estado.None? || ParseUserEstado(estado.value).None?) ==> r == Fail(400, MsgEstadoInvalido)
    ensures estado.Some? && ParseUserEstado(estado.value).Some? && id !in users ==> r == Fail(404, MsgNotFound)
    ensures r.Ok? ==> (id in users && estado.Some?
                       && UserEstadoName(r.value.estado) == estado.value
                       && r.value == users[id].(estado := r.value.estado))
  {
    if estado.None? || ParseUserEstado(estado.value).None? then Fail(400, MsgEstadoInvalido)
    else if id !in users then Fail(404, MsgNotFound)
    else Ok(users[id].(estado := ParseUserEstado(estado.value).value))
  }

  /** `PATCH /:id/rol`: the same chain for the role. */
  function PatchRol(users: map<Id, User>, id: Id, rol: Option<string>): (r: Result<User>)
    ensures (rol.None? || ParseRol(rol.value).None?) ==> r == Fail(400, MsgRolInvalido)
    ensures rol.Some? && ParseRol(rol.value).Some? && id !in users ==> r == Fail(404, MsgNotFound)
    ensures r.Ok? ==> (id in users && rol.Some?
                       && RolName(r.value.rol) == rol.value
                       && r.value == users[id].(rol := r.value.rol))
  {
    if rol.None? || ParseRol(rol.value).None? then Fail(400, MsgRolInvalido)
    else if id !in users then Fail(404, MsgNotFound)
    else Ok(users[id].(rol := ParseRol(rol.value).value))
  }

  /** Setting a status and then setting the same status again is the same
      as setting it once; in particular a status patch never touches the
      role. */
  lemma PatchEstadoIdempotent(users: map<Id, User>, id: Id, estado: Option<string>)
    requires PatchEstado(users, id, estado).Ok?
    ensures var u := PatchEstado(users, id, estado).value;
      PatchEstado(users[id := u], id, estado) == Ok(u) && u.rol == users[id].rol
  {
    var u := PatchEstado(users, id, estado).value;
    assert ParseUserEstado(estado.value) == Some(u.estado);
  }

  /** `DELETE /:id`: 404 for a missing user, then an ADMIN is never
      deleted, then a caller never deletes themselves. The ADMIN check
      comes first, so an admin deleting themselves hears about the role. */
  function DeleteGuard(users: map<Id, User>, id: Id, caller: Id): (r: Result<User>)
    ensures id !in users ==> r == Fail(404, MsgNotFound)
    ensures id in users && users[id].rol == ADMIN ==> r == Fail(400, MsgNoAdminDelete)
    ensures id in users && users[id].rol != ADMIN && id == caller ==> r == Fail(400, MsgNoSelfDelete)
    ensures r.Ok? <==> id in users && users[id].rol != ADMIN && id != caller
    ensures r.Ok? ==> r.value == users[id]
  {
    if id !in users then Fail(404, MsgNotFound)
    else if users[id].rol == ADMIN then Fail(400, MsgNoAdminDelete)
    else if id == caller then Fail(400, MsgNoSelfDelete)
    else Ok(users[id])
  }

  /** After any sequence of guarded deletes every ADMIN is still there:
      deleting what the guard admits keeps the admins. */
  lemma DeleteKeepsAdmins(users: map<Id, User>, id: Id, caller: Id)
    requires DeleteGuard(users, id, caller).Ok?
    ensures forall k :: k in users && users[k].rol == ADMIN ==> k in users - {id} && (users - {id})[k] == users[k]
  {
  }

  /** `findOne({ email })`: the first stored user with that email, or none
      when no user below the bound has it. */
  function FindByEmail(users: map<Id, User>, email: string, bound: nat): (r: Option<Id>)
    ensures r.Some? ==> r.value < bound && r.value in users && users[r.value].email == email
    ensures r.None? ==> forall k :: k < bound && k in users ==> users[k].email != email
  {
    Queries.FindFirst(users, (u: User) => u.email == email, bound)
  }

  /** With unique emails the lookup finds the one user holding the email. */
  lemma FindByEmailUnique(users: map<Id, User>, email: string, bound: nat, k: Id)
    requires EmailsUnique(users) && k < bound && k in users && users[k].email == email
    ensures FindByEmail(users, email, bound) == Some(k)
  {
    var r := FindByEmail(users, email, bound);
    if r.Some? {
      assert users[r.value].email == users[k].email;
    }
  }

  /** The creation chain of both `POST /api/users` and `register`: all of
      name, email and password truthy (else 400 with the route's message),
      then no user with that email (400), then `User.create` with the hashed
      password, role `rol || "ESTUDIANTE"` and status Activo; the schema
      refuses an unknown role and an empty hash (500). */
  function CreateUser(users: map<Id, User>, id: Id,
                      nombre: Option<string>, email: Option<string>, password: Option<string>, rol: Option<string>,
                      hash: string -> string, missing: string): (r: Result<User>)
    ensures !(Truthy(nombre) && Truthy(email) && Truthy(password)) ==> r == Fail(400, missing)
    ensures Truthy(nombre) && Truthy(email) && Truthy(password) && EmailTaken(users, email.value) ==> r == Fail(400, MsgEmailTaken)
    ensures Truthy(nombre) && Truthy(email) && Truthy(password) && !EmailTaken(users, email.value) && RoleOrDefault(rol).None?
      ==> r == Fail(500, MsgServer)
    ensures r.Ok? ==>
      Truthy(nombre) && Truthy(email) && Truthy(password) && !EmailTaken(users, email.value)
      && RoleOrDefault(rol).Some? && hash(password.value) != ""
      && r.value == User(id, nombre.value, email.value, hash(password.value), RoleOrDefault(rol).value, Activo)
  {
    if !(Truthy(nombre) && Truthy(email) && Truthy(password)) then Fail(400, missing)
    else if EmailTaken(users, email.value) then Fail(400, MsgEmailTaken)
    else
      var hashed := hash(password.value);
      match RoleOrDefault(rol)
      case None => Fail(500, MsgServer)
      case Some(role) =>
        if hashed == "" then Fail(500, MsgServer)
        else Ok(User(id, nombre.value, email.value, hashed, role, Activo))
  }

  /** Storing what `CreateUser` accepts, under a fresh id, keeps emails
      unique. */
  lemma CreateKeepsEmailsUnique(users: map<Id, User>, id: Id,
                                nombre: Option<string>, email: Option<string>, password: Option<string>, rol: Option<string>,
                                hash: string -> string, missing: string)
    requires EmailsUnique(users) && id !in users
    requires CreateUser(users, id, nombre, email, password, rol, hash, missing).Ok?
    ensures EmailsUnique(users[id := CreateUser(users, id, nombre, email, password, rol, hash, missing).value])
  {
    var u := CreateUser(users, id, nombre, email, password, rol, hash, missing).value;
    InsertUserKeepsEmailsUnique(users, u);
  }

  /** `POST /api/users`. */
  function AdminCreate(users: map<Id, User>, id: Id,
                       nombre: Option<string>, email: Option<string>, password: Option<string>, rol: Option<string>,
                       hash: string -> string): (r: Result<User>)
    ensures !(Truthy(nombre) && Truthy(email) && Truthy(password)) ==> r == Fail(400, MsgAllRequired)
    ensures r.Ok? ==> r.value.id == id && r.value.estado == Activo && !EmailTaken(users, r.value.email)
  {
    CreateUser(users, id, nombre, email, password, rol, hash, MsgAllRequired)
  }
}
