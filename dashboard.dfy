/** The student's dashboard: the course list split into enrolled and
    available courses, the name in the header, and joining a course. */
module EstudianteDashboard {
  import opened Wrappers
  import opened Models
  import Seqs
  import FrontCommon
  import CourseRoutes

  const MsgUnido: string := "Te uniste al curso correctamente 🎉"
  const MsgUnirseFallo: string := "No se pudo unir al curso. Intenta nuevamente."

  predicate Inscrito(v: CourseRoutes.CourseView) {
    v.yaInscrito
  }

  predicate Disponible(v: CourseRoutes.CourseView) {
    !v.yaInscrito
  }

  function CursoId(v: CourseRoutes.CourseView): Id {
    v.curso.id
  }

  function Inscritos(cursos: seq<CourseRoutes.CourseView>): seq<CourseRoutes.CourseView> {
    Seqs.Filter(Inscrito, cursos)
  }

  function Disponibles(cursos: seq<CourseRoutes.CourseView>): seq<CourseRoutes.CourseView> {
    Seqs.Filter(Disponible, cursos)
  }

  /** The two columns split the list: every course is in exactly one of
      them, and the two counters add up to the number of courses. */
  lemma ColumnsPartition(cursos: seq<CourseRoutes.CourseView>)
    ensures |Inscritos(cursos)| + |Disponibles(cursos)| == |cursos|
    ensures multiset(Inscritos(cursos)) + multiset(Disponibles(cursos)) == multiset(cursos)
    ensures forall i :: 0 <= i < |cursos| ==> (cursos[i] in Inscritos(cursos) <==> cursos[i].yaInscrito)
    ensures forall i :: 0 <= i < |cursos| ==> (cursos[i] in Disponibles(cursos) <==> !cursos[i].yaInscrito)
  {
    Seqs.FilterPartition(Inscrito, Disponible, cursos);
  }

  /** The header name: the user's non-empty `nombre`, else their non-empty
      `email`, else "Estudiante" (also without a user). */
  function NombreMostrado(user: Option<(Option<string>, Option<string>)>): (n: string)
    ensures n != ""
    ensures user.Some? && Truthy(user.value.0) ==> n == user.value.0.value
    ensures user.Some? && !Truthy(user.value.0) && Truthy(user.value.1) ==> n == user.value.1.value
    ensures user.None? || (!Truthy(user.value.0) && !Truthy(user.value.1)) ==> n == "Estudiante"
  {
    match user
    case None => "Estudiante"
    case Some((nombre, email)) =>
      if Truthy(nombre) then nombre.value else if Truthy(email) then email.value else "Estudiante"
  }

  /** The join button is disabled while that course's join is in flight
      and for a course that is not Activo. */
  predicate UnirseDeshabilitado(v: CourseRoutes.CourseView, unirseLoading: Option<Id>) {
    unirseLoading == Some(v.curso.id) || v.curso.estado != CursoActivo
  }

  /** A join the page lets the student press is never refused by the
      server as "not available". */
  lemma EnabledJoinIsAvailable(v: CourseRoutes.CourseView, unirseLoading: Option<Id>, user: Id)
    requires !UnirseDeshabilitado(v, unirseLoading)
    ensures CourseRoutes.Unirse(v.curso, user) != Fail(400, CourseRoutes.MsgUnavailable)
  {
  }

  /** The server's join answer as the page reads it: the saved course
      marked as enrolled. */
  function Respuesta(r: Result<Course>): (v: Result<CourseRoutes.CourseView>)
    ensures v.Ok? <==> r.Ok?
    ensures r.Ok? ==> v.value == CourseRoutes.CourseView(r.value, true)
    ensures r.Err? ==> v.failure == r.failure
  {
    match r
    case Ok(c) => Ok(CourseRoutes.CourseView(c, true))
    case Err(f) => Err(f)
  }

  /** A successful join of an available course, replaced in the list by
      the server's answer, moves that course from the available column to
      the enrolled one, with the student among its students. */
  lemma JoinMovesCourse(cursos: seq<CourseRoutes.CourseView>, i: nat, user: Id)
    requires Seqs.UniqueKeys(cursos, CursoId) && i < |cursos| && !cursos[i].yaInscrito
    requires CourseRoutes.Unirse(cursos[i].curso, user).Ok?
    ensures var after := Seqs.ReplaceByKey(cursos, CursoId, cursos[i].curso.id, Respuesta(CourseRoutes.Unirse(cursos[i].curso, user)).value);
      |Inscritos(after)| == |Inscritos(cursos)| + 1
      && |Disponibles(after)| + 1 == |Disponibles(cursos)|
      && after[i].yaInscrito && user in after[i].curso.estudiantes
  {
    var v := Respuesta(CourseRoutes.Unirse(cursos[i].curso, user)).value;
    Seqs.ByUniqueKey(cursos, CursoId, i, v);
    var after := cursos[i := v];
    Seqs.FilterCountFlip(Inscrito, cursos, i, v);
    ColumnsPartition(cursos);
    ColumnsPartition(after);
  }

  /** The dashboard's state: the loaded courses, the course whose join is
      in flight, and the last alert shown. */
  class Panel {
    var cursos: seq<CourseRoutes.CourseView>
    var unirseLoading: Option<Id>
    var alerta: Option<string>

    constructor (cargados: seq<CourseRoutes.CourseView>)
      ensures cursos == cargados && unirseLoading == None && alerta == None
    {
      cursos := cargados;
      unirseLoading := None;
      alerta := None;
    }

    /** Pressing "Unirme al curso": that course's join is in flight. */
    method EmpezarUnirse(cursoId: Id)
      modifies this`unirseLoading
      ensures unirseLoading == Some(cursoId)
    {
      unirseLoading := Some(cursoId);
    }

    /** The join request answered: on success the course with the
        requested id is replaced by the answer and the success alert is
        shown; on failure the list is kept and the server's message (or
        the fixed one) is shown. Either way nothing is in flight after. */
    method TerminarUnirse(cursoId: Id, respuesta: Result<CourseRoutes.CourseView>)
      modifies this
      ensures unirseLoading == None
      ensures respuesta.Ok? ==>
        cursos == Seqs.ReplaceByKey(old(cursos), CursoId, cursoId, respuesta.value) && alerta == Some(MsgUnido)
      ensures respuesta.Err? ==>
        cursos == old(cursos)
        && alerta == Some(FrontCommon.ErrorMessage(Some(respuesta.failure.message), MsgUnirseFallo))
    {
      match respuesta {
        case Ok(actualizado) =>
          cursos := Seqs.ReplaceByKey(cursos, CursoId, cursoId, actualizado);
          alerta := Some(MsgUnido);
        case Err(f) =>
          var mensaje := MsgUnirseFallo;
          if f.message != "" {
            mensaje := f.message;
          }
          alerta := Some(mensaje);
      }
      unirseLoading := None;
    }
  }
}
