/** The four document schemas of the backend (`Quiz`, `Course`,
    `StudentQuizProgress`, `User`) as datatypes, with the defaults the
    schemas fill in, the enumerations they accept and the checks Mongoose's
    `create`/`save` validation applies. Document ids are natural numbers. */
module Models {
  import opened Wrappers

  type Id = nat

  /** A request-body string field is truthy when present and non-empty. */
  predicate Truthy(o: Option<string>) {
    o.Some? && o.value != ""
  }

  // ---------------------------------------------------------------------
  // Enumerations

  datatype QuizEstado = Borrador | Publicado

  function QuizEstadoName(e: QuizEstado): string {
    match e
    case Borrador => "Borrador"
    case Publicado => "Publicado"
  }

  datatype ProgressStatus = pendiente | completado

  function ProgressStatusName(s: ProgressStatus): string {
    match s
    case pendiente => "pendiente"
    case completado => "completado"
  }

  datatype Rol = ADMIN | DOCENTE | ESTUDIANTE

  function RolName(r: Rol): string {
    match r
    case ADMIN => "ADMIN"
    case DOCENTE => "DOCENTE"
    case ESTUDIANTE => "ESTUDIANTE"
  }

  /** The role enumeration check: a string names a role exactly when it is
      one of the three role names. */
  function ParseRol(s: string): (r: Option<Rol>)
    ensures forall x :: r == Some(x) <==> s == RolName(x)
  {
    if s == "ADMIN" then Some(ADMIN)
    else if s == "DOCENTE" then Some(DOCENTE)
    else if s == "ESTUDIANTE" then Some(ESTUDIANTE)
    else None
  }

  datatype UserEstado = Activo | Bloqueado

  function UserEstadoName(e: UserEstado): string {
    match e
    case Activo => "Activo"
    case Bloqueado => "Bloqueado"
  }

  /** The user-status enumeration check. */
  function ParseUserEstado(s: string): (r: Option<UserEstado>)
    ensures forall x :: r == Some(x) <==> s == UserEstadoName(x)
  {
    if s == "Activo" then Some(Activo)
    else if s == "Bloqueado" then Some(Bloqueado)
    else None
  }

  /** Course states. The course `estado` is kept as a string because the
      update routes write it without running the schema's enum check. */
  const CursoActivo: string := "Activo"
  const CursoInactivo: string := "Inactivo"

  predicate CourseEstadoValid(s: string) {
    s == CursoActivo || s == CursoInactivo
  }

  // ---------------------------------------------------------------------
  // Quiz

  datatype Question = Question(
    enunciado: string,
    opciones: seq<string>,
    indiceCorrecta: int,
    tiempoSegundos: int,
    puntos: int)

  /** A question as the schema stores it when only the three required
      fields are given: a 30-second limit and 1000 points. */
  function NewQuestion(enunciado: string, opciones: seq<string>, indiceCorrecta: int): Question
  {
    Question(enunciado, opciones, indiceCorrecta, 30, 1000)
  }

  /** What validation demands of a question: a non-empty statement (a
      required string rejects "") and at least two options. */
  predicate QuestionValid(q: Question) {
    q.enunciado != "" && |q.opciones| >= 2
  }

  datatype Quiz = Quiz(
    id: Id,
    titulo: string,
    curso: Option<Id>,
    preguntas: seq<Question>,
    estado: QuizEstado,
    codigoAcceso: Option<string>)

  /** A quiz as `Quiz.create` stores it: a draft with no access code. */
  function NewQuiz(id: Id, titulo: string, curso: Option<Id>, preguntas: seq<Question>): Quiz
  {
    Quiz(id, titulo, curso, preguntas, Borrador, None)
  }

  /** Schema validation of a whole quiz, as `create` and `save` run it. */
  predicate QuizValid(q: Quiz) {
    q.titulo != "" && forall i :: 0 <= i < |q.preguntas| ==> QuestionValid(q.preguntas[i])
  }

  /** The sparse unique index on `codigoAcceso`: no two quizzes share a
      code; quizzes without one are unconstrained. */
  predicate CodesUnique(quizzes: map<Id, Quiz>) {
    forall a, b :: a in quizzes && b in quizzes && a != b && quizzes[a].codigoAcceso.Some?
      ==> quizzes[a].codigoAcceso != quizzes[b].codigoAcceso
  }

  // ---------------------------------------------------------------------
  // Course

  datatype Course = Course(
    id: Id,
    nombre: string,
    descripcion: Option<string>,
    estado: string,
    docenteNombre: string,
    estudiantes: seq<Id>,
    totalEstudiantes: int,
    totalQuizzes: int)

  /** A course with the schema defaults for every field not given: Activo,
      teacher "Sin asignar", nobody enrolled, both counters 0. */
  function DefaultCourse(id: Id, nombre: string, descripcion: Option<string>): Course
  {
    Course(id, nombre, descripcion, CursoActivo, "Sin asignar", [], 0, 0)
  }

  /** Schema validation of a course: a non-empty name and a known state. */
  predicate CourseValid(c: Course) {
    c.nombre != "" && CourseEstadoValid(c.estado)
  }

  /** The enrolment counter agrees with the enrolment list. */
  predicate CounterAgrees(c: Course) {
    c.totalEstudiantes == |c.estudiantes|
  }

  // ---------------------------------------------------------------------
  // Student progress

  /** One progress record. Nothing makes (user, quiz) or (user, quiz,
      course) unique, so several records may share a key. */
  datatype Progress = Progress(
    user: Id,
    quiz: Id,
    course: Id,
    status: ProgressStatus,
    score: Option<int>,
    finishedAt: Option<int>)

  /** A record created with only its three required references. */
  function NewProgress(user: Id, quiz: Id, course: Id): Progress
  {
    Progress(user, quiz, course, pendiente, None, None)
  }

  // ---------------------------------------------------------------------
  // User

  datatype User = User(
    id: Id,
    nombre: string,
    email: string,
    password: string,
    rol: Rol,
    estado: UserEstado)

  /** The unique index on `email`. */
  predicate EmailsUnique(users: map<Id, User>) {
    forall a, b :: a in users && b in users && a != b ==> users[a].email != users[b].email
  }

  /** Whether some stored user already has this email (`findOne({email})`). */
  predicate EmailTaken(users: map<Id, User>, email: string) {
    exists k :: k in users && users[k].email == email
  }

  /** Registration's role: the body's role when truthy, else ESTUDIANTE;
      a truthy string that is not a role fails the enum check. */
  function RoleOrDefault(rol: Option<string>): (r: Option<Rol>)
    ensures !Truthy(rol) ==> r == Some(ESTUDIANTE)
    ensures Truthy(rol) ==> forall x :: r == Some(x) <==> rol.value == RolName(x)
  {
    if Truthy(rol) then ParseRol(rol.value) else Some(ESTUDIANTE)
  }

  // ---------------------------------------------------------------------
  // Schema defaults and the indexes

  /** A question created from its required fields gets the default limit
      and points, and passes validation exactly when its statement is
      non-empty and it has at least two options. */
  lemma NewQuestionDefaults(enunciado: string, opciones: seq<string>, indiceCorrecta: int)
    ensures var q := NewQuestion(enunciado, opciones, indiceCorrecta);
      q.tiempoSegundos == 30 && q.puntos == 1000
      && (QuestionValid(q) <==> enunciado != "" && |opciones| >= 2)
  {
  }

  /** A new quiz is a code-less draft, valid with no questions exactly
      when its title is non-empty; and since the code index is sparse,
      adding it never breaks code uniqueness. */
  lemma NewQuizDefaults(quizzes: map<Id, Quiz>, id: Id, titulo: string, curso: Option<Id>)
    requires CodesUnique(quizzes)
    ensures var q := NewQuiz(id, titulo, curso, []);
      q.estado == Borrador && q.codigoAcceso.None? && (QuizValid(q) <==> titulo != "")
      && CodesUnique(quizzes[id := q])
  {
  }

  /** A course with the defaults is Activo, taught by "Sin asignar", has
      nobody enrolled with a counter that agrees, and is valid exactly when
      its name is non-empty. */
  lemma DefaultCourseDefaults(id: Id, nombre: string, descripcion: Option<string>)
    ensures var c := DefaultCourse(id, nombre, descripcion);
      c.estado == CursoActivo && c.docenteNombre == "Sin asignar" && c.estudiantes == []
      && c.totalQuizzes == 0 && CounterAgrees(c) && (CourseValid(c) <==> nombre != "")
  {
  }

  /** A new progress record is pendiente, with no score and no finishing
      time. */
  lemma NewProgressDefaults(user: Id, quiz: Id, course: Id)
    ensures var p := NewProgress(user, quiz, course);
      p.status == pendiente && p.score.None? && p.finishedAt.None?
      && p.user == user && p.quiz == quiz && p.course == course
  {
  }

  /** Adding a user with a free email under a new id keeps emails unique,
      and the email is taken afterwards. */
  lemma InsertUserKeepsEmailsUnique(users: map<Id, User>, u: User)
    requires EmailsUnique(users) && !EmailTaken(users, u.email) && u.id !in users
    ensures EmailsUnique(users[u.id := u]) && EmailTaken(users[u.id := u], u.email)
  {
    assert users[u.id := u][u.id].email == u.email;
  }
}
