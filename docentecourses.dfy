/** The teacher's course routes. A course belongs to the teacher whose
    name (taken from the token) equals its `docenteNombre`; every route but
    creation looks the course up by id and owner together, so another
    teacher's course answers exactly like a missing one. */
module DocenteCourseRoutes {
  import opened Wrappers
  import opened Models
  import CourseRoutes
  import Queries

  const MsgNombreRequired: string := "El nombre del curso es obligatorio."
  const MsgNotOwned: string := "Curso no encontrado o no te pertenece."
  const MsgHasStudents: string := "No puedes eliminar este curso porque ya tiene estudiantes inscritos."
  const MsgDeleted: string := "Curso eliminado correctamente."
  const SinNombre: string := "Docente sin nombre"

  /** `req.user?.nombre || "Docente sin nombre"`. */
  function OwnerName(caller: string): (r: string)
    ensures r != ""
    ensures caller != "" ==> r == caller
  {
    if caller != "" then caller else SinNombre
  }

  /** `POST /`: a course needs a truthy name; it starts Activo, owned by the
      caller, with nobody enrolled and both counters 0. The schema then has
      nothing left to refuse. */
  function Create(id: Id, nombre: Option<string>, descripcion: Option<string>, caller: string): (r: Result<Course>)
    ensures !Truthy(nombre) ==> r == Fail(400, MsgNombreRequired)
    ensures Truthy(nombre) ==> r == Ok(Course(id, nombre.value, descripcion, CursoActivo, OwnerName(caller), [], 0, 0))
    ensures r.Ok? ==> CourseValid(r.value) && CounterAgrees(r.value)
  {
    if !Truthy(nombre) then Fail(400, MsgNombreRequired)
    else Ok(Course(id, nombre.value, descripcion, CursoActivo, OwnerName(caller), [], 0, 0))
  }

  /** The `{ _id: id, docenteNombre }` filter. */
  predicate OwnedBy(c: Course, caller: string) {
    c.docenteNombre == caller
  }

  /** `GET /`: `Course.find({ docenteNombre }).sort({ creadoEn: -1 })`,
      exactly the caller's courses, newest first. */
  function MisCursos(courses: map<Id, Course>, caller: string, bound: nat): (r: seq<Course>)
    ensures forall i :: 0 <= i < |r| ==> OwnedBy(r[i], caller)
    ensures forall k :: k < bound && k in courses && OwnedBy(courses[k], caller) ==> courses[k] in r
    ensures forall i :: 0 <= i < |r| ==> r[i] in courses.Values
    ensures forall i, j :: 0 <= i < j < |r| && (forall k :: k in courses ==> courses[k].id == k) ==> r[i].id > r[j].id
  {
    Queries.FindNewestFirst(courses, (c: Course) => OwnedBy(c, caller), bound)
  }

  /** The lookup every id-taking route opens with: found and owned, or 404. */
  function Owned(found: Option<Course>, caller: string): (r: Result<Course>)
    ensures r.Ok? <==> found.Some? && OwnedBy(found.value, caller)
    ensures r.Ok? ==> r.value == found.value
    ensures r.Err? ==> r == Fail(404, MsgNotOwned)
  {
    if found.Some? && OwnedBy(found.value, caller) then Ok(found.value) else Fail(404, MsgNotOwned)
  }

  /** `PUT /:id`: only `nombre`, `descripcion` and `estado` can change, so
      the owner, the enrolment and both counters are kept. */
  function Update(found: Option<Course>, caller: string,
                  nombre: Option<string>, descripcion: Option<string>, estado: Option<string>): (r: Result<Course>)
    ensures r.Ok? <==> found.Some? && OwnedBy(found.value, caller)
    ensures r.Err? ==> r == Fail(404, MsgNotOwned)
    ensures r.Ok? ==> var c := found.value;
      r.value.id == c.id && r.value.docenteNombre == c.docenteNombre && r.value.estudiantes == c.estudiantes
      && r.value.totalEstudiantes == c.totalEstudiantes && r.value.totalQuizzes == c.totalQuizzes
      && r.value.nombre == nombre.GetOr(c.nombre)
      && r.value.descripcion == (if descripcion.Some? then descripcion else c.descripcion)
      && r.value.estado == estado.GetOr(c.estado)
  {
    match Owned(found, caller)
    case Err(f) => Err(f)
    case Ok(c) => Ok(CourseRoutes.ApplyPatch(c, CourseRoutes.CourseBody(nombre, descripcion, estado, None, None, None)))
  }

  /** An updated course stays the caller's, so the teacher can go on
      editing it. */
  lemma UpdateKeepsOwner(found: Option<Course>, caller: string,
                         nombre: Option<string>, descripcion: Option<string>, estado: Option<string>)
    requires Update(found, caller, nombre, descripcion, estado).Ok?
    ensures Owned(Some(Update(found, caller, nombre, descripcion, estado).value), caller).Ok?
  {
  }

  /** `PATCH /:id/estado` on an owned course. */
  function SetEstado(found: Option<Course>, caller: string, estado: Option<string>): (r: Result<Course>)
    ensures r.Ok? <==> found.Some? && OwnedBy(found.value, caller)
    ensures r.Ok? ==> r.value == found.value.(estado := estado.GetOr(found.value.estado))
  {
    match Owned(found, caller)
    case Err(f) => Err(f)
    case Ok(c) => Ok(CourseRoutes.SetEstado(c, estado))
  }

  /** `DELETE /:id`: the ownership lookup, then the enrolment-counter guard. */
  function Delete(found: Option<Course>, caller: string): (r: Result<()>)
    ensures !(found.Some? && OwnedBy(found.value, caller)) ==> r == Fail(404, MsgNotOwned)
    ensures found.Some? && OwnedBy(found.value, caller) && found.value.totalEstudiantes > 0 ==> r == Fail(400, MsgHasStudents)
    ensures r.Ok? <==> found.Some? && OwnedBy(found.value, caller) && found.value.totalEstudiantes <= 0
  {
    match Owned(found, caller)
    case Err(f) => Err(f)
    case Ok(c) => CourseRoutes.DeleteGuard(c, MsgHasStudents)
  }

  /** A teacher with a name owns what they create: the create-then-get round
      trip succeeds and answers the created course. */
  lemma CreateThenOwned(id: Id, nombre: Option<string>, descripcion: Option<string>, caller: string)
    requires caller != "" && Truthy(nombre)
    ensures Owned(Some(Create(id, nombre, descripcion, caller).value), caller) == Create(id, nombre, descripcion, caller)
  {
  }

  /** A freshly created course can always be deleted again. */
  lemma CreateThenDelete(id: Id, nombre: Option<string>, descripcion: Option<string>, caller: string)
    requires caller != "" && Truthy(nombre)
    ensures Delete(Some(Create(id, nombre, descripcion, caller).value), caller) == Ok(())
  {
  }
}
