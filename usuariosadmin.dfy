/** The administrator's user list: the role and text filter, the status
    toggle, role changes, user creation with its required-fields check,
    and the list kept in step with the server's answers. */
module UsuariosAdmin {
  import opened Wrappers
  import opened Models
  import Text
  import Seqs
  import FrontCommon
  import UserRoutes

  const MsgEstadoFallo: string := "No se pudo actualizar el estado."
  const MsgEliminarFallo: string := "No se pudo eliminar el usuario."
  const MsgRolFallo: string := "No se pudo cambiar el rol."
  const MsgTodosObligatorios: string := "Todos los campos son obligatorios"
  const MsgCrearFallo: string := "No se pudo crear el usuario. Inténtalo de nuevo."

  function UsuarioId(u: UserRoutes.UserView): Id {
    u.id
  }

  /** The role selector: every role, or one. */
  datatype FiltroRol = Todos | Solo(rol: Rol)

  predicate CoincideRol(u: UserRoutes.UserView, filtro: FiltroRol) {
    filtro.Todos? || u.rol == filtro.rol
  }

  /** An empty term passes everyone; otherwise the term must occur in the
      lower-cased name or email. */
  predicate CoincideTexto(u: UserRoutes.UserView, texto: string) {
    texto == "" || FrontCommon.Incluye(u.nombre, texto) || FrontCommon.Incluye(u.email, texto)
  }

  function VisibleCon(texto: string, filtro: FiltroRol): UserRoutes.UserView -> bool {
    u => CoincideRol(u, filtro) && CoincideTexto(u, texto)
  }

  /** `usuariosFiltrados`: the users whose role and text both match, in
      list order. */
  function Visibles(usuarios: seq<UserRoutes.UserView>, busqueda: string, filtro: FiltroRol): (r: seq<UserRoutes.UserView>)
    ensures forall i :: 0 <= i < |r| ==>
      r[i] in usuarios && CoincideRol(r[i], filtro) && CoincideTexto(r[i], FrontCommon.Termino(busqueda))
    ensures forall i :: 0 <= i < |usuarios| ==>
      (CoincideRol(usuarios[i], filtro) && CoincideTexto(usuarios[i], FrontCommon.Termino(busqueda)) ==> usuarios[i] in r)
  {
    Seqs.Filter(VisibleCon(FrontCommon.Termino(busqueda), filtro), usuarios)
  }

  /** With every role selected and nothing typed, everyone is shown; a
      blank search shows exactly the selected role. */
  lemma VisiblesUnfiltered(usuarios: seq<UserRoutes.UserView>, busqueda: string, filtro: FiltroRol)
    requires Text.Blank(busqueda)
    ensures filtro.Todos? ==> Visibles(usuarios, busqueda, filtro) == usuarios
    ensures forall i :: 0 <= i < |usuarios| ==> (usuarios[i] in Visibles(usuarios, busqueda, filtro) <==> CoincideRol(usuarios[i], filtro))
  {
    if filtro.Todos? {
      Seqs.FilterAll(VisibleCon(FrontCommon.Termino(busqueda), filtro), usuarios);
    }
  }

  /** The status toggle: Activo becomes Bloqueado, Bloqueado becomes
      Activo. */
  function AlternarEstado(e: UserEstado): (r: UserEstado)
    ensures r != e
  {
    if e == Activo then Bloqueado else Activo
  }

  /** Toggling through the server's status route never meets its
      "invalid status" refusal, flips the status and, done twice, restores
      the stored user. */
  lemma AlternarWithServer(users: map<Id, User>, id: Id)
    requires id in users
    ensures var r := UserRoutes.PatchEstado(users, id, Some(UserEstadoName(AlternarEstado(users[id].estado))));
      r.Ok? && r.value.estado == AlternarEstado(users[id].estado) && r.value.rol == users[id].rol
      && UserRoutes.PatchEstado(users[id := r.value], id, Some(UserEstadoName(AlternarEstado(r.value.estado)))) == Ok(users[id])
  {
    var e := AlternarEstado(users[id].estado);
    assert ParseUserEstado(UserEstadoName(e)) == Some(e);
    var u := users[id].(estado := e);
    assert ParseUserEstado(UserEstadoName(AlternarEstado(e))) == Some(users[id].estado);
    assert u.(estado := users[id].estado) == users[id];
  }

  /** `handleCrearUsuario`'s check: all three fields non-empty, as typed
      (nothing is trimmed). */
  predicate CamposCompletos(nombre: string, email: string, password: string) {
    nombre != "" && email != "" && password != ""
  }

  /** A create the page sends never meets the server's "all fields are
      required" refusal; with a free email and a hash that is not empty it
      succeeds with exactly the fields typed, the chosen role and status
      Activo. */
  lemma CrearWithServer(users: map<Id, User>, id: Id, nombre: string, email: string, password: string, rol: Rol,
                        hash: string -> string)
    requires CamposCompletos(nombre, email, password)
    ensures UserRoutes.AdminCreate(users, id, Some(nombre), Some(email), Some(password), Some(RolName(rol)), hash)
         != Fail(400, UserRoutes.MsgAllRequired)
    ensures !EmailTaken(users, email) && hash(password) != "" ==>
      UserRoutes.AdminCreate(users, id, Some(nombre), Some(email), Some(password), Some(RolName(rol)), hash)
        == Ok(User(id, nombre, email, hash(password), rol, Activo))
  {
    assert Truthy(Some(RolName(rol)));
    assert RoleOrDefault(Some(RolName(rol))) == Some(rol);
    assert UserRoutes.MsgAllRequired != UserRoutes.MsgEmailTaken;
  }

  /** The page's state: the user list, the role dialog, the new-user
      dialog with its inputs and error, and the last alert. */
  class Panel {
    var usuarios: seq<UserRoutes.UserView>
    var seleccionado: Option<UserRoutes.UserView>
    var rolSeleccionado: Rol
    var mostrandoNuevo: bool
    var nuevoNombre: string
    var nuevoEmail: string
    var nuevoPassword: string
    var nuevoRol: Rol
    var errorNuevo: Option<string>
    var alerta: Option<string>

    constructor (cargados: seq<UserRoutes.UserView>)
      ensures usuarios == cargados && seleccionado == None && rolSeleccionado == ESTUDIANTE && !mostrandoNuevo
      ensures nuevoNombre == "" && nuevoEmail == "" && nuevoPassword == "" && nuevoRol == ESTUDIANTE
      ensures errorNuevo == None && alerta == None
    {
      usuarios := cargados;
      seleccionado := None;
      rolSeleccionado := ESTUDIANTE;
      mostrandoNuevo := false;
      nuevoNombre := "";
      nuevoEmail := "";
      nuevoPassword := "";
      nuevoRol := ESTUDIANTE;
      errorNuevo := None;
      alerta := None;
    }

    /** `handleToggleEstado`, given the server's answer to the request for
        `AlternarEstado(u.estado)`: the answer replaces the user with the
        requested id. */
    method Alternar(u: UserRoutes.UserView, respuesta: Result<UserRoutes.UserView>)
      modifies this`usuarios, this`alerta
      ensures respuesta.Ok? ==>
        usuarios == Seqs.ReplaceByKey(old(usuarios), UsuarioId, u.id, respuesta.value) && alerta == old(alerta)
      ensures respuesta.Err? ==> usuarios == old(usuarios) && alerta == Some(MsgEstadoFallo)
    {
      if respuesta.Ok? {
        usuarios := Seqs.ReplaceByKey(usuarios, UsuarioId, u.id, respuesta.value);
      } else {
        alerta := Some(MsgEstadoFallo);
      }
    }

    /** `handleEliminar`, given the confirmation and the server's answer. */
    method Eliminar(u: UserRoutes.UserView, confirmado: bool, respuesta: Result<UserRoutes.UserView>)
      modifies this`usuarios, this`alerta
      ensures !confirmado ==> unchanged(this)
      ensures confirmado && respuesta.Ok? ==>
        usuarios == Seqs.RemoveByKey(old(usuarios), UsuarioId, u.id) && alerta == old(alerta)
      ensures confirmado && respuesta.Err? ==> usuarios == old(usuarios) && alerta == Some(MsgEliminarFallo)
    {
      if !confirmado {
        return;
      }
      if respuesta.Ok? {
        usuarios := Seqs.RemoveByKey(usuarios, UsuarioId, u.id);
      } else {
        alerta := Some(MsgEliminarFallo);
      }
    }

    /** Opening the role dialog on a user, with their role selected. */
    method AbrirRol(u: UserRoutes.UserView)
      modifies this`seleccionado, this`rolSeleccionado
      ensures seleccionado == Some(u) && rolSeleccionado == u.rol
    {
      seleccionado := Some(u);
      rolSeleccionado := u.rol;
    }

    /** `handleGuardarRol`, given the server's answer: the answer replaces
        the user with its id and the dialog closes. */
    method GuardarRol(respuesta: Result<UserRoutes.UserView>)
      modifies this`usuarios, this`seleccionado, this`alerta
      ensures old(seleccionado).None? ==> unchanged(this)
      ensures old(seleccionado).Some? && respuesta.Ok? ==>
        usuarios == Seqs.ReplaceByKey(old(usuarios), UsuarioId, respuesta.value.id, respuesta.value)
        && seleccionado == None && alerta == old(alerta)
      ensures old(seleccionado).Some? && respuesta.Err? ==>
        usuarios == old(usuarios) && seleccionado == old(seleccionado) && alerta == Some(MsgRolFallo)
    {
      if seleccionado.None? {
        return;
      }
      if respuesta.Ok? {
        usuarios := Seqs.ReplaceByKey(usuarios, UsuarioId, respuesta.value.id, respuesta.value);
        seleccionado := None;
      } else {
        alerta := Some(MsgRolFallo);
      }
    }

    /** Opening the new-user dialog: empty inputs, role ESTUDIANTE, no
        error. */
    method AbrirNuevo()
      modifies this`nuevoNombre, this`nuevoEmail, this`nuevoPassword, this`nuevoRol, this`errorNuevo, this`mostrandoNuevo
      ensures nuevoNombre == "" && nuevoEmail == "" && nuevoPassword == "" && nuevoRol == ESTUDIANTE
      ensures errorNuevo == None && mostrandoNuevo
    {
      nuevoNombre := "";
      nuevoEmail := "";
      nuevoPassword := "";
      nuevoRol := ESTUDIANTE;
      errorNuevo := None;
      mostrandoNuevo := true;
    }

    /** `handleCrearUsuario`, given the server's answer to the request with
        the fields as typed: a missing field is reported in the dialog; a
        created user goes to the front of the list and the dialog closes; a
        refusal shows the server's message, or the fixed one. */
    method Crear(respuesta: Result<UserRoutes.UserView>)
      modifies this`usuarios, this`mostrandoNuevo, this`errorNuevo
      ensures !CamposCompletos(nuevoNombre, nuevoEmail, nuevoPassword) ==>
        errorNuevo == Some(MsgTodosObligatorios) && usuarios == old(usuarios) && mostrandoNuevo == old(mostrandoNuevo)
      ensures CamposCompletos(nuevoNombre, nuevoEmail, nuevoPassword) && respuesta.Ok? ==>
        usuarios == [respuesta.value] + old(usuarios) && !mostrandoNuevo && errorNuevo == None
      ensures CamposCompletos(nuevoNombre, nuevoEmail, nuevoPassword) && respuesta.Err? ==>
        usuarios == old(usuarios) && mostrandoNuevo == old(mostrandoNuevo)
        && errorNuevo == Some(FrontCommon.ErrorMessage(Some(respuesta.failure.message), MsgCrearFallo))
    {
      if !CamposCompletos(nuevoNombre, nuevoEmail, nuevoPassword) {
        errorNuevo := Some(MsgTodosObligatorios);
        return;
      }
      errorNuevo := None;
      if respuesta.Ok? {
        usuarios := [respuesta.value] + usuarios;
        mostrandoNuevo := false;
      } else {
        errorNuevo := Some(FrontCommon.ErrorMessage(Some(respuesta.failure.message), MsgCrearFallo));
      }
    }
  }

  /** A server refusal of a create the page sends, such as a taken email,
      is shown with the server's own words. */
  lemma CrearShowsReason(users: map<Id, User>, id: Id, nombre: string, email: string, password: string, rol: Rol,
                         hash: string -> string)
    requires CamposCompletos(nombre, email, password) && EmailTaken(users, email)
    ensures var r := UserRoutes.AdminCreate(users, id, Some(nombre), Some(email), Some(password), Some(RolName(rol)), hash);
      r.Err? && FrontCommon.ErrorMessage(Some(r.failure.message), MsgCrearFallo) == UserRoutes.MsgEmailTaken
  {
  }
}
