/** The administrator's course list: the search box, editing with its
    check and its teacher default, the state toggle, and the list kept in
    step with the server's answers. */
module CursosAdmin {
  import opened Wrappers
  import opened Models
  import Text
  import Seqs
  import FrontCommon
  import CourseRoutes

  const MsgNombreObligatorio: string := "El nombre del curso es obligatorio."
  const MsgActualizarFallo: string := "No se pudo actualizar el curso."
  const MsgEstadoFallo: string := "No se pudo cambiar el estado del curso."
  const MsgEliminarFallo: string := "No se pudo eliminar el curso."
  const SinAsignar: string := "Sin asignar"

  function CursoId(c: Course): Id {
    c.id
  }

  /** A course matches a (lower-cased, trimmed) term in its name or in its
      teacher's name. */
  predicate Coincide(c: Course, texto: string) {
    FrontCommon.Incluye(c.nombre, texto) || FrontCommon.Incluye(c.docenteNombre, texto)
  }

  /** `cursosFiltrados`. */
  function Filtrados(cursos: seq<Course>, busqueda: string): seq<Course> {
    FrontCommon.Buscar(cursos, busqueda, Coincide)
  }

  /** Searching the search results again with the same text changes
      nothing, and a course whose name is the search text is found. */
  lemma FiltradosLaws(cursos: seq<Course>, busqueda: string, i: nat)
    ensures Filtrados(Filtrados(cursos, busqueda), busqueda) == Filtrados(cursos, busqueda)
    ensures i < |cursos| && Text.Lower(cursos[i].nombre) == FrontCommon.Termino(busqueda) ==>
      cursos[i] in Filtrados(cursos, busqueda)
  {
    var t := FrontCommon.Termino(busqueda);
    FrontCommon.BuscarIdempotent(cursos, busqueda, Coincide);
    if i < |cursos| && Text.Lower(cursos[i].nombre) == t {
      assert Text.StartsWith(Text.Lower(cursos[i].nombre), t);
    }
  }

  /** What "Guardar" sends: nothing (the page alerts) for a blank name;
      otherwise the trimmed name and description, the trimmed teacher name
      or "Sin asignar" when it is blank, and the chosen state. */
  function PlanEditar(nombre: string, descripcion: string, docente: string, estado: string): (r: Option<CourseRoutes.CourseBody>)
    ensures r.None? <==> Text.Blank(nombre)
    ensures r.Some? ==> r.value == CourseRoutes.CourseBody(
      Some(Text.Trim(nombre)), Some(Text.Trim(descripcion)),
      Some(estado), Some(if Text.Blank(docente) then SinAsignar else Text.Trim(docente)), None, None)
  {
    var n := Text.Trim(nombre);
    var d := Text.Trim(docente);
    if n == "" then None
    else Some(CourseRoutes.CourseBody(Some(n), Some(Text.Trim(descripcion)), Some(estado),
                                      Some(if d == "" then SinAsignar else d), None, None))
  }

  /** The admin update route writes what it is sent without validating, so
      the page's checks are what keep an edited course's name and teacher
      non-empty; enrolment and counters are kept. */
  lemma PlanEditarWithServer(c: Course, nombre: string, descripcion: string, docente: string, estado: string)
    requires PlanEditar(nombre, descripcion, docente, estado).Some?
    ensures var r := CourseRoutes.ApplyPatch(c, PlanEditar(nombre, descripcion, docente, estado).value);
      r.nombre == Text.Trim(nombre) && r.nombre != "" && r.docenteNombre != ""
      && r.estado == estado && r.id == c.id && r.estudiantes == c.estudiantes
      && r.totalEstudiantes == c.totalEstudiantes && r.totalQuizzes == c.totalQuizzes
  {
  }

  /** The page's state: the course list, the course being edited with its
      inputs, and the last alert. */
  class Lista {
    var cursos: seq<Course>
    var editando: Option<Course>
    var nombreEdit: string
    var descripcionEdit: string
    var docenteEdit: string
    var estadoEdit: string
    var alerta: Option<string>

    constructor (cargados: seq<Course>)
      ensures cursos == cargados && editando == None && nombreEdit == "" && descripcionEdit == ""
      ensures docenteEdit == "" && estadoEdit == CursoActivo && alerta == None
    {
      cursos := cargados;
      editando := None;
      nombreEdit := "";
      descripcionEdit := "";
      docenteEdit := "";
      estadoEdit := CursoActivo;
      alerta := None;
    }

    /** Opening the edit dialog: the inputs show the course's fields, a
        missing description as empty. */
    method AbrirEditar(c: Course)
      modifies this`editando, this`nombreEdit, this`descripcionEdit, this`docenteEdit, this`estadoEdit
      ensures editando == Some(c) && nombreEdit == c.nombre && descripcionEdit == c.descripcion.GetOr("")
      ensures docenteEdit == c.docenteNombre && estadoEdit == c.estado
    {
      editando := Some(c);
      nombreEdit := c.nombre;
      descripcionEdit := c.descripcion.GetOr("");
      docenteEdit := c.docenteNombre;
      estadoEdit := c.estado;
    }

    /** `handleGuardarEdicion`, given the server's answer to the request
        `PlanEditar` describes: the updated course replaces the course with
        its id and the dialog closes; a failure alerts. */
    method GuardarEdicion(respuesta: Result<Course>)
      modifies this`cursos, this`editando, this`alerta
      ensures old(editando).None? ==> unchanged(this)
      ensures old(editando).Some? && Text.Blank(old(nombreEdit)) ==>
        alerta == Some(MsgNombreObligatorio) && cursos == old(cursos) && editando == old(editando)
      ensures old(editando).Some? && !Text.Blank(old(nombreEdit))
              && respuesta.Ok? ==>
        cursos == Seqs.ReplaceByKey(old(cursos), CursoId, respuesta.value.id, respuesta.value)
        && editando == None && alerta == old(alerta)
      ensures old(editando).Some? && !Text.Blank(old(nombreEdit))
              && respuesta.Err? ==>
        alerta == Some(MsgActualizarFallo) && cursos == old(cursos) && editando == old(editando)
    {
      if editando.None? {
        return;
      }
      var blank := Text.Blank(nombreEdit);
      assert blank == Text.Blank(old(nombreEdit));
      if blank {
        alerta := Some(MsgNombreObligatorio);
      } else if respuesta.Ok? {
        cursos := Seqs.ReplaceByKey(cursos, CursoId, respuesta.value.id, respuesta.value);
        editando := None;
      } else {
        alerta := Some(MsgActualizarFallo);
      }
    }

    /** `handleEliminar`, given the confirmation and the server's answer:
        the deleted course's id leaves the list; a failure shows the fixed
        message. */
    method Eliminar(curso: Course, confirmado: bool, respuesta: Result<string>)
      modifies this`cursos, this`alerta
      ensures !confirmado ==> unchanged(this)
      ensures confirmado && respuesta.Ok? ==>
        cursos == Seqs.RemoveByKey(old(cursos), CursoId, curso.id) && alerta == old(alerta)
      ensures confirmado && respuesta.Err? ==> cursos == old(cursos) && alerta == Some(MsgEliminarFallo)
    {
      if !confirmado {
        return;
      }
      if respuesta.Ok? {
        cursos := Seqs.RemoveByKey(cursos, CursoId, curso.id);
      } else {
        alerta := Some(MsgEliminarFallo);
      }
    }

    /** `handleToggleEstado`, given the server's answer to the request for
        `FrontCommon.AlternarCurso(curso.estado)`. */
    method Alternar(respuesta: Result<Course>)
      modifies this`cursos, this`alerta
      ensures respuesta.Ok? ==>
        cursos == Seqs.ReplaceByKey(old(cursos), CursoId, respuesta.value.id, respuesta.value) && alerta == old(alerta)
      ensures respuesta.Err? ==> cursos == old(cursos) && alerta == Some(MsgEstadoFallo)
    {
      if respuesta.Ok? {
        cursos := Seqs.ReplaceByKey(cursos, CursoId, respuesta.value.id, respuesta.value);
      } else {
        alerta := Some(MsgEstadoFallo);
      }
    }
  }

  /** Toggling through the server's state route flips the state, and
      toggling twice restores the course. */
  lemma AlternarWithServer(c: Course)
    requires CourseEstadoValid(c.estado)
    ensures var r := CourseRoutes.SetEstado(c, Some(FrontCommon.AlternarCurso(c.estado)));
      (r.estado == CursoActivo <==> c.estado != CursoActivo)
      && CourseRoutes.SetEstado(r, Some(FrontCommon.AlternarCurso(r.estado))) == c
  {
    FrontCommon.AlternarCursoInvolution(c.estado);
  }
}
