/** The value-level logic of the admin and student course routes: the
    `yaInscrito` listing, the enrolled-only detail, admin creation with its
    defaults, joining and leaving (which resynchronise the enrolment
    counter), partial updates and the delete guard. `Backend.Store` applies
    them to the stored collection. */
module CourseRoutes {
  import opened Wrappers
  import opened Models
  import Seqs

  const MsgNotFoundDot: string := "Curso no encontrado."
  const MsgNotFound: string := "Curso no encontrado"
  const MsgNotEnrolledDetail: string := "No estás inscrito en este curso."
  const MsgUnavailable: string := "Este curso no está disponible actualmente."
  const MsgAlreadyEnrolled: string := "Ya estás inscrito en este curso."
  const MsgNotEnrolledLeave: string := "No estabas inscrito en este curso."
  const MsgLeaveFailed: string := "Error al intentar salir del curso."
  const MsgHasStudents: string := "No se puede eliminar el curso porque tiene estudiantes inscritos."
  const MsgServer: string := "Error en el servidor"
  const MsgJoined: string := "Te uniste correctamente al curso."
  const MsgLeft: string := "Has salido del curso correctamente."
  const MsgDeleted: string := "Curso eliminado correctamente"

  /** A course as a student sees it, flagged with whether they are enrolled. */
  datatype CourseView = CourseView(curso: Course, yaInscrito: bool)

  predicate Enrolled(c: Course, user: Id) {
    user in c.estudiantes
  }

  predicate IsActivo(c: Course) {
    c.estado == CursoActivo
  }

  /** `GET /estudiante/mis-cursos` over the active courses the query found:
      the same courses in the same order, each flagged exactly when the
      student's id is among its enrolled ids. */
  function MisCursos(activos: seq<Course>, user: Id): (r: seq<CourseView>)
    ensures |r| == |activos|
    ensures forall i :: 0 <= i < |r| ==> r[i].curso == activos[i]
    ensures forall i :: 0 <= i < |r| ==> (r[i].yaInscrito <==> user in activos[i].estudiantes)
  {
    seq(|activos|, i requires 0 <= i < |activos| => CourseView(activos[i], Enrolled(activos[i], user)))
  }

  /** `GET /estudiante/curso/:id`: 404 for no course, 403 for a student
      who is not enrolled, otherwise the course flagged as enrolled. */
  function StudentDetail(found: Option<Course>, user: Id): (r: Result<CourseView>)
    ensures found.None? ==> r == Fail(404, MsgNotFoundDot)
    ensures found.Some? && !Enrolled(found.value, user) ==> r == Fail(403, MsgNotEnrolledDetail)
    ensures r.Ok? <==> found.Some? && Enrolled(found.value, user)
    ensures r.Ok? ==> r.value == CourseView(found.value, true)
  {
    match found
    case None => Fail(404, MsgNotFoundDot)
    case Some(c) => if Enrolled(c, user) then Ok(CourseView(c, true)) else Fail(403, MsgNotEnrolledDetail)
  }

  /** The body fields of the admin create and update routes; None is a
      field left undefined. */
  datatype CourseBody = CourseBody(
    nombre: Option<string>,
    descripcion: Option<string>,
    estado: Option<string>,
    docenteNombre: Option<string>,
    totalEstudiantes: Option<int>,
    totalQuizzes: Option<int>)

  /** `POST /` (admin): state `estado || "Activo"`, teacher
      `docenteNombre || "Sin asignar"`, counters `?? 0`, nobody enrolled.
      `Course.create` refuses a missing or empty name and an unknown state,
      which the route reports as a 500. */
  function AdminCreate(id: Id, body: CourseBody): (r: Result<Course>)
    ensures r.Ok? <==> Truthy(body.nombre) && (!Truthy(body.estado) || CourseEstadoValid(body.estado.value))
    ensures r.Err? ==> r == Fail(500, MsgServer)
    ensures r.Ok? ==> var c := r.value;
      c.id == id && c.nombre == body.nombre.value && c.descripcion == body.descripcion
      && c.estado == (if Truthy(body.estado) then body.estado.value else CursoActivo)
      && c.docenteNombre == (if Truthy(body.docenteNombre) then body.docenteNombre.value else "Sin asignar")
      && c.estudiantes == []
      && c.totalEstudiantes == body.totalEstudiantes.GetOr(0)
      && c.totalQuizzes == body.totalQuizzes.GetOr(0)
      && CourseValid(c)
  {
    var estado := if Truthy(body.estado) then body.estado.value else CursoActivo;
    var docente := if Truthy(body.docenteNombre) then body.docenteNombre.value else "Sin asignar";
    var c := DefaultCourse(id, body.nombre.GetOr(""), body.descripcion).(
      estado := estado, docenteNombre := docente,
      totalEstudiantes := body.totalEstudiantes.GetOr(0), totalQuizzes := body.totalQuizzes.GetOr(0));
    if CourseValid(c) then Ok(c) else Fail(500, MsgServer)
  }

  /** `POST /:id/unirse` on a found course: refused when it is not Activo
      or the student is already enrolled; otherwise the student is appended
      and the counter is set to the list's length. The document is then
      saved, and validation refuses a course whose name is empty. */
  function Unirse(c: Course, user: Id): (r: Result<Course>)
    ensures !IsActivo(c) ==> r == Fail(400, MsgUnavailable)
    ensures IsActivo(c) && Enrolled(c, user) ==> r == Fail(400, MsgAlreadyEnrolled)
    ensures IsActivo(c) && !Enrolled(c, user) && c.nombre == "" ==> r == Fail(500, MsgServer)
    ensures r.Ok? <==> IsActivo(c) && !Enrolled(c, user) && c.nombre != ""
    ensures r.Ok? ==> r.value == c.(estudiantes := c.estudiantes + [user], totalEstudiantes := |c.estudiantes| + 1)
  {
    if !IsActivo(c) then Fail(400, MsgUnavailable)
    else if Enrolled(c, user) then Fail(400, MsgAlreadyEnrolled)
    else
      var estudiantes := c.estudiantes + [user];
      var c2 := c.(estudiantes := estudiantes, totalEstudiantes := |estudiantes|);
      if CourseValid(c2) then Ok(c2) else Fail(500, MsgServer)
  }

  /** `POST /:id/salir` on a found course: refused when the student is not
      enrolled; otherwise every occurrence of the student is removed and the
      counter is set to the list's length, after which the save validates. */
  function Salir(c: Course, user: Id): (r: Result<Course>)
    ensures !Enrolled(c, user) ==> r == Fail(400, MsgNotEnrolledLeave)
    ensures Enrolled(c, user) && !CourseValid(c) ==> r == Fail(500, MsgLeaveFailed)
    ensures r.Ok? <==> Enrolled(c, user) && CourseValid(c)
    ensures r.Ok? ==> var estudiantes := Seqs.Filter((e: Id) => e != user, c.estudiantes);
      r.value == c.(estudiantes := estudiantes, totalEstudiantes := |estudiantes|)
  {
    if !Enrolled(c, user) then Fail(400, MsgNotEnrolledLeave)
    else
      var estudiantes := Seqs.Filter((e: Id) => e != user, c.estudiantes);
      var c2 := c.(estudiantes := estudiantes, totalEstudiantes := |estudiantes|);
      if CourseValid(c2) then Ok(c2) else Fail(500, MsgLeaveFailed)
  }

  /** A successful join enrols the student, never twice, and leaves the
      counter equal to the list's length; other students stay enrolled. */
  lemma UnirseEnrols(c: Course, user: Id)
    requires Unirse(c, user).Ok?
    ensures var c2 := Unirse(c, user).value;
      Enrolled(c2, user) && CounterAgrees(c2) && |c2.estudiantes| == |c.estudiantes| + 1
      && (forall e :: e in c.estudiantes ==> e in c2.estudiantes)
      && (Seqs.NoDuplicates(c.estudiantes) ==> Seqs.NoDuplicates(c2.estudiantes))
  {
  }

  /** A successful leave removes every occurrence of the student and only
      them, and leaves the counter equal to the list's length. */
  lemma SalirRemoves(c: Course, user: Id)
    requires Salir(c, user).Ok?
    ensures var c2 := Salir(c, user).value;
      !Enrolled(c2, user) && CounterAgrees(c2) && |c2.estudiantes| < |c.estudiantes|
      && forall e :: e != user ==> (e in c2.estudiantes <==> e in c.estudiantes)
  {
    var p := (e: Id) => e != user;
    var kept := Seqs.Filter(p, c.estudiantes);
    Seqs.FilterPartition(p, (e: Id) => !p(e), c.estudiantes);
    var i :| 0 <= i < |c.estudiantes| && c.estudiantes[i] == user;
    assert c.estudiantes[i] in Seqs.Filter((e: Id) => !p(e), c.estudiantes);
    forall e | e != user && e in c.estudiantes ensures e in kept {
      var j :| 0 <= j < |c.estudiantes| && c.estudiantes[j] == e;
      assert p(c.estudiantes[j]);
    }
  }

  /** Joining and then leaving returns the course to where it was, apart
      from the counter, which now agrees with the list. */
  lemma UnirseThenSalir(c: Course, user: Id)
    requires Unirse(c, user).Ok?
    ensures Salir(Unirse(c, user).value, user) == Ok(c.(totalEstudiantes := |c.estudiantes|))
  {
    var c2 := Unirse(c, user).value;
    var p := (e: Id) => e != user;
    Seqs.FilterConcat(p, c.estudiantes, [user]);
    forall i | 0 <= i < |c.estudiantes| ensures p(c.estudiantes[i]) {
    }
    Seqs.FilterAll(p, c.estudiantes);
    assert Seqs.Filter(p, [user]) == [];
    assert c2.estudiantes == c.estudiantes + [user];
    assert Seqs.Filter(p, c2.estudiantes) == c.estudiantes;
    assert c2.estudiantes[|c.estudiantes|] == user;
    assert Enrolled(c2, user) && CourseValid(c2);
  }

  /** `PUT /:id` (admin): every field present in the body is written and
      every other field is kept; enrolment is never touched. */
  function ApplyPatch(c: Course, body: CourseBody): (r: Course)
    ensures r.id == c.id && r.estudiantes == c.estudiantes
    ensures r.nombre == (if body.nombre.Some? then body.nombre.value else c.nombre)
    ensures r.descripcion == (if body.descripcion.Some? then body.descripcion else c.descripcion)
    ensures r.estado == (if body.estado.Some? then body.estado.value else c.estado)
    ensures r.docenteNombre == (if body.docenteNombre.Some? then body.docenteNombre.value else c.docenteNombre)
    ensures r.totalEstudiantes == (if body.totalEstudiantes.Some? then body.totalEstudiantes.value else c.totalEstudiantes)
    ensures r.totalQuizzes == (if body.totalQuizzes.Some? then body.totalQuizzes.value else c.totalQuizzes)
  {
    Course(
      c.id,
      body.nombre.GetOr(c.nombre),
      if body.descripcion.Some? then body.descripcion else c.descripcion,
      body.estado.GetOr(c.estado),
      body.docenteNombre.GetOr(c.docenteNombre),
      c.estudiantes,
      body.totalEstudiantes.GetOr(c.totalEstudiantes),
      body.totalQuizzes.GetOr(c.totalQuizzes))
  }

  const EmptyBody: CourseBody := CourseBody(None, None, None, None, None, None)

  /** An empty body changes nothing, and applying the same body twice is
      applying it once. */
  lemma ApplyPatchLaws(c: Course, body: CourseBody)
    ensures ApplyPatch(c, EmptyBody) == c
    ensures ApplyPatch(ApplyPatch(c, body), body) == ApplyPatch(c, body)
  {
  }

  /** `PATCH /:id/estado`: writes the body's `estado` (an absent one leaves
      the course as it is). */
  function SetEstado(c: Course, estado: Option<string>): (r: Course)
    ensures r.estado == estado.GetOr(c.estado)
    ensures r.(estado := c.estado) == c
  {
    ApplyPatch(c, EmptyBody.(estado := estado))
  }

  /** The delete guard of both course routers: a course whose enrolment
      counter is positive is kept. The guard reads the counter, not the
      list. */
  function DeleteGuard(c: Course, message: string): (r: Result<()>)
    ensures r.Ok? <==> c.totalEstudiantes <= 0
    ensures r.Err? ==> r == Fail(400, message)
  {
    if c.totalEstudiantes > 0 then Fail(400, message) else Ok(())
  }

  /** While the counter agrees with the list, the guard admits exactly the
      courses nobody is enrolled in. */
  lemma DeleteGuardMeansEmpty(c: Course, message: string)
    requires CounterAgrees(c)
    ensures DeleteGuard(c, message).Ok? <==> c.estudiantes == []
  {
  }
}
