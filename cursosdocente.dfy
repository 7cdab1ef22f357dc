/** The teacher's course list: the search box, course creation and
    editing with their checks, the state toggle, and the list kept in step
    with the server's answers. */
module CursosDocente {
  import opened Wrappers
  import opened Models
  import Text
  import Seqs
  import FrontCommon
  import DocenteCourseRoutes

  const MsgNombreObligatorio: string := "El nombre del curso es obligatorio."
  const MsgCrearFallo: string := "No se pudo crear el curso."
  const MsgActualizarFallo: string := "No se pudo actualizar el curso."
  const MsgEstadoFallo: string := "No se pudo cambiar el estado del curso."
  const MsgEliminarFallo: string := "No se pudo eliminar el curso."

  function CursoId(c: Course): Id {
    c.id
  }

  /** A course matches a (lower-cased, trimmed) term in its name or in its
      description, a missing description counting as empty. */
  predicate Coincide(c: Course, texto: string) {
    FrontCommon.Incluye(c.nombre, texto) || FrontCommon.Incluye(c.descripcion.GetOr(""), texto)
  }

  /** `cursosFiltrados`. */
  function Filtrados(cursos: seq<Course>, busqueda: string): seq<Course> {
    FrontCommon.Buscar(cursos, busqueda, Coincide)
  }

  /** A course holding the search text in its description is listed, even
      when its name does not. */
  lemma FiltradosFindsDescription(cursos: seq<Course>, busqueda: string, i: nat)
    requires i < |cursos| && cursos[i].descripcion.Some?
    requires Text.Lower(cursos[i].descripcion.value) == FrontCommon.Termino(busqueda)
    ensures cursos[i] in Filtrados(cursos, busqueda)
  {
    var t := FrontCommon.Termino(busqueda);
    assert Text.StartsWith(Text.Lower(cursos[i].descripcion.value), t);
  }

  /** What "Crear curso" sends: nothing (the page alerts) for a blank
      name; otherwise the trimmed name and the trimmed description, a
      blank description being left out. */
  function PlanCrear(nombre: string, descripcion: string): (r: Option<(string, Option<string>)>)
    ensures r.None? <==> Text.Blank(nombre)
    ensures r.Some? ==> r.value.0 == Text.Trim(nombre) && r.value.0 != ""
    ensures r.Some? ==> r.value.1 == (if Text.Blank(descripcion) then None else Some(Text.Trim(descripcion)))
  {
    var n := Text.Trim(nombre);
    var d := Text.Trim(descripcion);
    if n == "" then None else Some((n, if d == "" then None else Some(d)))
  }

  /** What the server makes of a create the page sends: an Activo course
      of the caller with exactly the name and description sent. */
  lemma PlanCrearWithServer(id: Id, nombre: string, descripcion: string, caller: string)
    requires PlanCrear(nombre, descripcion).Some?
    ensures var p := PlanCrear(nombre, descripcion).value;
      DocenteCourseRoutes.Create(id, Some(p.0), p.1, caller)
        == Ok(Course(id, p.0, p.1, CursoActivo, DocenteCourseRoutes.OwnerName(caller), [], 0, 0))
  {
  }

  /** What "Guardar" sends for an edit: nothing for a blank name;
      otherwise the trimmed name, the trimmed description (possibly empty)
      and the chosen state. */
  function PlanEditar(nombre: string, descripcion: string, estado: string): (r: Option<(string, string, string)>)
    ensures r.None? <==> Text.Blank(nombre)
    ensures r.Some? ==> r.value == (Text.Trim(nombre), Text.Trim(descripcion), estado) && r.value.0 != ""
  {
    var n := Text.Trim(nombre);
    if n == "" then None else Some((n, Text.Trim(descripcion), estado))
  }

  /** The update route skips schema validation, so the page's check is
      what keeps an edited course's name non-empty: an owned course
      edited through the page keeps a valid name and its owner. */
  lemma PlanEditarKeepsName(found: Option<Course>, caller: string, nombre: string, descripcion: string, estado: string)
    requires PlanEditar(nombre, descripcion, estado).Some?
    requires found.Some? && DocenteCourseRoutes.OwnedBy(found.value, caller)
    ensures var p := PlanEditar(nombre, descripcion, estado).value;
      var r := DocenteCourseRoutes.Update(found, caller, Some(p.0), Some(p.1), Some(p.2));
      r.Ok? && r.value.nombre == p.0 && r.value.nombre != "" && DocenteCourseRoutes.OwnedBy(r.value, caller)
  {
  }

  /** The page's state: the course list, the creation inputs, the course
      being edited with its inputs, and the last alert. */
  class Lista {
    var cursos: seq<Course>
    var nuevoNombre: string
    var nuevaDescripcion: string
    var editando: Option<Course>
    var nombreEdit: string
    var descripcionEdit: string
    var estadoEdit: string
    var alerta: Option<string>

    constructor (cargados: seq<Course>)
      ensures cursos == cargados && nuevoNombre == "" && nuevaDescripcion == "" && editando == None
      ensures nombreEdit == "" && descripcionEdit == "" && estadoEdit == CursoActivo && alerta == None
    {
      cursos := cargados;
      nuevoNombre := "";
      nuevaDescripcion := "";
      editando := None;
      nombreEdit := "";
      descripcionEdit := "";
      estadoEdit := CursoActivo;
      alerta := None;
    }

    /** `handleCrearCurso`, given the server's answer to the request
        `PlanCrear` describes: a blank name alerts; a created course goes to
        the front of the list and both inputs are cleared; a failure
        alerts. */
    method Crear(respuesta: Result<Course>)
      modifies this`cursos, this`nuevoNombre, this`nuevaDescripcion, this`alerta
      ensures PlanCrear(old(nuevoNombre), old(nuevaDescripcion)).None? ==>
        alerta == Some(MsgNombreObligatorio) && cursos == old(cursos)
        && nuevoNombre == old(nuevoNombre) && nuevaDescripcion == old(nuevaDescripcion)
      ensures PlanCrear(old(nuevoNombre), old(nuevaDescripcion)).Some? && respuesta.Ok? ==>
        cursos == [respuesta.value] + old(cursos) && nuevoNombre == "" && nuevaDescripcion == "" && alerta == old(alerta)
      ensures PlanCrear(old(nuevoNombre), old(nuevaDescripcion)).Some? && respuesta.Err? ==>
        alerta == Some(MsgCrearFallo) && cursos == old(cursos)
        && nuevoNombre == old(nuevoNombre) && nuevaDescripcion == old(nuevaDescripcion)
    {
      var plan := PlanCrear(nuevoNombre, nuevaDescripcion);
      if plan.None? {
        alerta := Some(MsgNombreObligatorio);
        return;
      }
      if respuesta.Ok? {
        cursos := [respuesta.value] + cursos;
        nuevoNombre := "";
        nuevaDescripcion := "";
      } else {
        alerta := Some(MsgCrearFallo);
      }
    }

    /** Opening the edit dialog: the inputs show the course's fields, a
        missing description as empty. */
    method AbrirEditar(c: Course)
      modifies this`editando, this`nombreEdit, this`descripcionEdit, this`estadoEdit
      ensures editando == Some(c) && nombreEdit == c.nombre
      ensures descripcionEdit == c.descripcion.GetOr("") && estadoEdit == c.estado
    {
      editando := Some(c);
      nombreEdit := c.nombre;
      descripcionEdit := c.descripcion.GetOr("");
      estadoEdit := c.estado;
    }

    /** `handleGuardarEdicion`, given the server's answer to the request
        `PlanEditar` describes: the updated course replaces the course with
        its id and the dialog closes. */
    method GuardarEdicion(respuesta: Result<Course>)
      modifies this`cursos, this`editando, this`alerta
      ensures old(editando).None? ==> unchanged(this)
      ensures old(editando).Some? && Text.Blank(old(nombreEdit)) ==>
        alerta == Some(MsgNombreObligatorio) && cursos == old(cursos) && editando == old(editando)
      ensures old(editando).Some? && !Text.Blank(old(nombreEdit)) && respuesta.Ok? ==>
        cursos == Seqs.ReplaceByKey(old(cursos), CursoId, respuesta.value.id, respuesta.value)
        && editando == None && alerta == old(alerta)
      ensures old(editando).Some? && !Text.Blank(old(nombreEdit)) && respuesta.Err? ==>
        alerta == Some(MsgActualizarFallo) && cursos == old(cursos) && editando == old(editando)
    {
      if editando.None? {
        return;
      }
      var plan := PlanEditar(nombreEdit, descripcionEdit, estadoEdit);
      if plan.None? {
        alerta := Some(MsgNombreObligatorio);
      } else if respuesta.Ok? {
        cursos := Seqs.ReplaceByKey(cursos, CursoId, respuesta.value.id, respuesta.value);
        editando := None;
      } else {
        alerta := Some(MsgActualizarFallo);
      }
    }

    /** `handleToggleEstado`, given the server's answer to the request for
        `FrontCommon.AlternarCurso(curso.estado)`. */
    method Alternar(respuesta: Result<Course>)
      modifies this`cursos, this`alerta
      ensures respuesta.Ok? ==>
        cursos == Seqs.ReplaceByKey(old(cursos), CursoId, respuesta.value.id, respuesta.value) && alerta == old(alerta)
      ensures respuesta.Err? ==> cursos == old(cursos) && alerta == Some(MsgEstadoFallo)
    {
      match respuesta {
        case Ok(actualizado) =>
          cursos := Seqs.ReplaceByKey(cursos, CursoId, actualizado.id, actualizado);
        case Err(_) =>
          alerta := Some(MsgEstadoFallo);
      }
    }

    /** `handleEliminar`, given the confirmation and the server's answer:
        the deleted course's id leaves the list; a refusal shows the
        server's message, or the fixed one. */
    method Eliminar(curso: Course, confirmado: bool, respuesta: Result<()>)
      modifies this`cursos, this`alerta
      ensures !confirmado ==> unchanged(this)
      ensures confirmado && respuesta.Ok? ==>
        cursos == Seqs.RemoveByKey(old(cursos), CursoId, curso.id) && alerta == old(alerta)
      ensures confirmado && respuesta.Err? ==>
        cursos == old(cursos) && alerta == Some(FrontCommon.ErrorMessage(Some(respuesta.failure.message), MsgEliminarFallo))
    {
      if !confirmado {
        return;
      }
      match respuesta {
        case Ok(_) =>
          cursos := Seqs.RemoveByKey(cursos, CursoId, curso.id);
        case Err(f) =>
          alerta := Some(FrontCommon.ErrorMessage(Some(f.message), MsgEliminarFallo));
      }
    }
  }

  /** Toggling an owned course through the server flips its state, and
      toggling twice restores it; nothing else about the course changes. */
  lemma AlternarWithServer(c: Course, caller: string)
    requires DocenteCourseRoutes.OwnedBy(c, caller) && CourseEstadoValid(c.estado)
    ensures var r := DocenteCourseRoutes.SetEstado(Some(c), caller, Some(FrontCommon.AlternarCurso(c.estado)));
      r.Ok? && (r.value.estado == CursoActivo <==> c.estado != CursoActivo)
      && DocenteCourseRoutes.SetEstado(Some(r.value), caller, Some(FrontCommon.AlternarCurso(r.value.estado))) == Ok(c)
  {
    FrontCommon.AlternarCursoInvolution(c.estado);
  }

  /** A delete the server refuses because students are enrolled shows the
      server's own explanation. */
  lemma EliminarShowsReason(c: Course, caller: string)
    requires DocenteCourseRoutes.OwnedBy(c, caller) && c.totalEstudiantes > 0
    ensures var r := DocenteCourseRoutes.Delete(Some(c), caller);
      r.Err? && FrontCommon.ErrorMessage(Some(r.failure.message), MsgEliminarFallo) == DocenteCourseRoutes.MsgHasStudents
  {
  }
}
