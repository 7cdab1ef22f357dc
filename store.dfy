/** The backend's document store and the routes that change it.

    The four collections are fields of one object; every route handler that
    writes is a method which reads the request's fields as parameters,
    answers a `Result` and updates the collections in place. Document ids
    come from one counter shared by every collection, so a new document's id
    is above every stored one and ascending id order is creation order.

    `Valid` holds the constraints the schemas and indexes keep: every
    document is stored under its own id, a quiz has an access code exactly
    when it is published, codes are six digits and unique, and emails are
    unique. Every route keeps them. */
module Backend {
  import opened Wrappers
  import opened Models
  import opened Json
  import Text
  import Seqs
  import AccessCode
  import QuizLogic
  import CourseRoutes
  import DocenteCourseRoutes
  import UserRoutes
  import AuthController

  /** An access code as the generator produces it. */
  predicate CodeWellFormed(code: string) {
    |code| == 6 && Text.AllDigits(code) && code[0] != '0'
  }

  /** The quiz collection's constraints: codes are unique (the sparse
      unique index), held exactly by the published quizzes, and six digits
      long. */
  predicate QuizzesValid(quizzes: map<Id, Quiz>) {
    CodesUnique(quizzes)
    && (forall k :: k in quizzes ==> (quizzes[k].codigoAcceso.Some? <==> quizzes[k].estado == Publicado))
    && (forall k :: k in quizzes && quizzes[k].codigoAcceso.Some? ==> CodeWellFormed(quizzes[k].codigoAcceso.value))
  }

  /** `findById`. */
  function Lookup<T>(m: map<Id, T>, id: Id): (r: Option<T>)
    ensures r.Some? <==> id in m
    ensures r.Some? ==> r.value == m[id]
  {
    if id in m then Some(m[id]) else None
  }

  /** `Course.findByIdAndUpdate(id, { $inc: { totalQuizzes: d } })`: the
      course's quiz counter moves by `d` and nothing else changes; a missing
      course (or no course at all) leaves the collection as it is. */
  function IncQuizzes(courses: map<Id, Course>, id: Option<Id>, d: int): (r: map<Id, Course>)
    ensures r.Keys == courses.Keys
    ensures forall k :: k in courses && (id.None? || k != id.value) ==> r[k] == courses[k]
    ensures id.Some? && id.value in courses ==>
      r[id.value] == courses[id.value].(totalQuizzes := courses[id.value].totalQuizzes + d)
  {
    if id.Some? && id.value in courses then
      courses[id.value := courses[id.value].(totalQuizzes := courses[id.value].totalQuizzes + d)]
    else courses
  }

  /** Creating a quiz and deleting it again restores both collections: the
      counter goes up by one and back down by one. */
  lemma CreateThenDeleteRestores(quizzes: map<Id, Quiz>, courses: map<Id, Course>, q: Quiz)
    requires q.id !in quizzes
    ensures (quizzes[q.id := q]) - {q.id} == quizzes
    ensures IncQuizzes(IncQuizzes(courses, q.curso, 1), q.curso, -1) == courses
  {
    if q.curso.Some? && q.curso.value in courses {
      var c := courses[q.curso.value];
      assert c.(totalQuizzes := c.totalQuizzes + 1).(totalQuizzes := c.totalQuizzes + 1 - 1) == c;
    }
  }

  /** The access code the generator settles on for these draws. */
  function Drawn(quizzes: map<Id, Quiz>, draws: seq<real>): (code: string)
    requires AccessCode.DrawsInRange(draws) && AccessCode.SomeDrawFree(quizzes, draws)
    ensures CodeWellFormed(code) && !AccessCode.CodeTaken(quizzes, code)
  {
    AccessCode.CandidateText(draws[AccessCode.FirstFreeDraw(quizzes, draws, 0)])
  }

  /** Storing a quiz over an existing one that keeps its id, state and code
      keeps the quiz constraints. */
  lemma ReplaceKeepsQuizzesValid(quizzes: map<Id, Quiz>, id: Id, q: Quiz)
    requires QuizzesValid(quizzes) && id in quizzes
    requires q.estado == quizzes[id].estado && q.codigoAcceso == quizzes[id].codigoAcceso
    ensures QuizzesValid(quizzes[id := q])
  {
  }

  /** Storing a new draft, which has no code, keeps the quiz constraints. */
  lemma AddDraftKeepsQuizzesValid(quizzes: map<Id, Quiz>, q: Quiz)
    requires QuizzesValid(quizzes) && q.id !in quizzes
    requires q.estado == Borrador && q.codigoAcceso.None?
    ensures QuizzesValid(quizzes[q.id := q])
  {
  }

  /** Publishing with a code nobody holds keeps the quiz constraints. */
  lemma PublishKeepsQuizzesValid(quizzes: map<Id, Quiz>, id: Id, code: string)
    requires QuizzesValid(quizzes) && id in quizzes
    requires CodeWellFormed(code) && !AccessCode.CodeTaken(quizzes, code)
    ensures QuizzesValid(quizzes[id := QuizLogic.PublishQuiz(quizzes[id], code)])
  {
    var q2 := QuizLogic.PublishQuiz(quizzes[id], code);
    var qs := quizzes[id := q2];
    forall a, b | a in qs && b in qs && a != b && qs[a].codigoAcceso.Some?
      ensures qs[a].codigoAcceso != qs[b].codigoAcceso
    {
      if quizzes[id].codigoAcceso.None? {
        if a == id {
          assert qs[b] == quizzes[b];
          assert quizzes[b].codigoAcceso != Some(code);
        } else if b == id {
          assert qs[a] == quizzes[a];
          assert quizzes[a].codigoAcceso != Some(code);
        }
      }
    }
  }

  /** Replacing a quiz by one with the same id keeps every quiz keyed by
      its own id and below the id counter. */
  lemma ReplaceKeepsIds(quizzes: map<Id, Quiz>, id: Id, q2: Quiz, bound: nat, qs: map<Id, Quiz>)
    requires forall k :: k in quizzes ==> quizzes[k].id == k && k < bound
    requires id in quizzes && q2.id == id && qs == quizzes[id := q2]
    ensures forall k :: k in qs ==> qs[k].id == k && k < bound
  {
  }

  /** The whole backend state. */
  class Store {
    var quizzes: map<Id, Quiz>
    var courses: map<Id, Course>
    var users: map<Id, User>
    var progress: seq<Progress>
    var nextId: nat

    predicate Valid()
      reads this
    {
      (forall k :: k in quizzes ==> quizzes[k].id == k && k < nextId)
      && (forall k :: k in courses ==> courses[k].id == k && k < nextId)
      && (forall k :: k in users ==> users[k].id == k && k < nextId)
      && QuizzesValid(quizzes)
      && EmailsUnique(users)
    }

    /** An empty database. */
    constructor ()
      ensures Valid()
      ensures quizzes == map[] && courses == map[] && users == map[] && progress == [] && nextId == 0
    {
      quizzes := map[];
      courses := map[];
      users := map[];
      progress := [];
      nextId := 0;
    }

    // -------------------------------------------------------------------
    // Quizzes

    /** `POST /api/quizzes`: a truthy title and a course (400), an existing
        course (404); the new quiz is a draft with no questions and no
        code, and the course's quiz counter goes up by one. */
    method CrearQuiz(titulo: Option<string>, curso: Option<Id>) returns (r: Result<Quiz>)
      requires Valid()
      modifies this`quizzes, this`courses, this`nextId
      ensures Valid()
      ensures !Truthy(titulo) || curso.None? ==> r == Fail(400, QuizLogic.MsgCreateMissing)
      ensures Truthy(titulo) && curso.Some? && curso.value !in old(courses) ==> r == Fail(404, QuizLogic.MsgCourseMissing)
      ensures r.Ok? <==> Truthy(titulo) && curso.Some? && curso.value in old(courses)
      ensures r.Err? ==> unchanged(this)
      ensures r.Ok? ==>
        (r.value == NewQuiz(old(nextId), titulo.value, curso, []) && QuizValid(r.value)
         && quizzes == old(quizzes)[old(nextId) := r.value]
         && courses == IncQuizzes(old(courses), curso, 1)
         && nextId == old(nextId) + 1)
    {
      if !Truthy(titulo) || curso.None? {
        return Fail(400, QuizLogic.MsgCreateMissing);
      }
      if curso.value !in courses {
        return Fail(404, QuizLogic.MsgCourseMissing);
      }
      NewQuizDefaults(quizzes, nextId, titulo.value, curso);
      var q := NewQuiz(nextId, titulo.value, curso, []);
      InsertDraft(q);
      r := Ok(q);
    }

    /** `Quiz.create` of a new draft followed by the `$inc` of its course's
        quiz counter. */
    method InsertDraft(q: Quiz)
      requires Valid()
      requires q.id == nextId && q.estado == Borrador && q.codigoAcceso.None?
      modifies this`quizzes, this`courses, this`nextId
      ensures Valid()
      ensures quizzes == old(quizzes)[old(nextId) := q]
      ensures courses == IncQuizzes(old(courses), q.curso, 1)
      ensures nextId == old(nextId) + 1
    {
      AddDraftKeepsQuizzesValid(quizzes, q);
      quizzes := quizzes[nextId := q];
      courses := IncQuizzes(courses, q.curso, 1);
      nextId := nextId + 1;
    }

    /** `POST /api/quizzes/generar-desde-texto`: a truthy title, course id
        and text (400), an existing course (404), then the AI's reply goes
        through `AiQuestions`; its errors leave the store untouched, and a
        reply it accepts becomes a draft quiz with those questions and one
        more quiz on the course. The AI is given the first 5000 characters
        of the text and the question count. */
    method CrearQuizIA(titulo: Option<string>, cursoId: Option<Id>, texto: Option<string>, numPreguntas: Option<Json>,
                       ai: (string, int) -> string, parse: string -> Option<Json>) returns (r: Result<Quiz>)
      requires Valid()
      modifies this`quizzes, this`courses, this`nextId
      ensures Valid()
      ensures !Truthy(titulo) || cursoId.None? || !Truthy(texto) ==> r == Fail(400, QuizLogic.MsgAiMissing)
      ensures Truthy(titulo) && cursoId.Some? && Truthy(texto) && cursoId.value !in old(courses)
        ==> r == Fail(404, QuizLogic.MsgCourseMissing)
      ensures Truthy(titulo) && cursoId.Some? && Truthy(texto) && cursoId.value in old(courses) ==>
        (var qs := QuizLogic.AiQuestions(ai(Seqs.JsSlice(texto.value, 5000), QuizLogic.CantidadPreguntas(numPreguntas)), parse);
         (qs.Err? ==> r.Err? && r.failure == qs.failure)
         && (qs.Ok? ==> r == Ok(NewQuiz(old(nextId), titulo.value, cursoId, qs.value))))
      ensures r.Err? ==> unchanged(this)
      ensures r.Ok? ==>
        (QuizValid(r.value) && r.value.estado == Borrador
         && quizzes == old(quizzes)[old(nextId) := r.value]
         && courses == IncQuizzes(old(courses), cursoId, 1)
         && nextId == old(nextId) + 1)
    {
      if !Truthy(titulo) || cursoId.None? || !Truthy(texto) {
        return Fail(400, QuizLogic.MsgAiMissing);
      }
      var cantidad := QuizLogic.CantidadPreguntas(numPreguntas);
      if cursoId.value !in courses {
        return Fail(404, QuizLogic.MsgCourseMissing);
      }
      var raw := ai(Seqs.JsSlice(texto.value, 5000), cantidad);
      var qs := QuizLogic.AiQuestions(raw, parse);
      if qs.Err? {
        return Err(qs.failure);
      }
      var q := NewQuiz(nextId, titulo.value, cursoId, qs.value);
      assert QuizValid(q) by {
        assert forall i :: 0 <= i < |qs.value| ==> QuestionValid(qs.value[i]);
      }
      InsertDraft(q);
      r := Ok(q);
    }

    /** `PUT /api/quizzes/:id`: 404 for a missing quiz; otherwise the given
        title and questions are written without validation and nothing else
        about the quiz changes. */
    method EditarQuiz(id: Id, titulo: Option<string>, preguntas: Option<seq<Question>>) returns (r: Result<Quiz>)
      requires Valid()
      modifies this`quizzes
      ensures Valid()
      ensures id !in old(quizzes) ==> r == Fail(404, QuizLogic.MsgQuizNotFound) && unchanged(this)
      ensures r.Ok? <==> id in old(quizzes)
      ensures r.Ok? ==>
        (r.value == QuizLogic.EditQuiz(old(quizzes)[id], titulo, preguntas)
         && quizzes == old(quizzes)[id := r.value])
    {
      if id !in quizzes {
        return Fail(404, QuizLogic.MsgQuizNotFound);
      }
      var q := QuizLogic.EditQuiz(quizzes[id], titulo, preguntas);
      ReplaceKeepsQuizzesValid(quizzes, id, q);
      quizzes := quizzes[id := q];
      r := Ok(q);
    }

    /** `PATCH /api/quizzes/:id/publicar`, with `draws` the values
        `Math.random` will return. 404 for a missing quiz; a published quiz
        with a code is answered as it is; otherwise the quiz becomes
        Publicado, a code is generated only if it has none, and `save`
        validates the whole document (500 when it fails, for instance after
        an edit stored a question with fewer than two options). Whatever it
        answers, the published quiz is the one its code finds afterwards. */
    method PublicarQuiz(id: Id, draws: seq<real>) returns (r: Result<Quiz>)
      requires Valid()
      requires AccessCode.DrawsInRange(draws) && AccessCode.SomeDrawFree(quizzes, draws)
      modifies this`quizzes
      ensures Valid()
      ensures id !in old(quizzes) ==> r == Fail(404, QuizLogic.MsgQuizNotFoundShort)
      ensures id in old(quizzes) && old(quizzes)[id].estado == Publicado && old(quizzes)[id].codigoAcceso.Some?
        ==> r == Ok(old(quizzes)[id]) && unchanged(this)
      ensures id in old(quizzes) && old(quizzes)[id].estado == Borrador && !QuizValid(old(quizzes)[id])
        ==> r == Fail(500, QuizLogic.MsgServer)
      ensures r.Err? ==> unchanged(this)
      ensures r.Ok? <==> id in old(quizzes) && (old(quizzes)[id].estado == Publicado || QuizValid(old(quizzes)[id]))
      ensures r.Ok? ==>
        (r.value == QuizLogic.PublishQuiz(old(quizzes)[id], Drawn(old(quizzes), draws))
         && quizzes == old(quizzes)[id := r.value]
         && QuizLogic.BuscarPorCodigo(quizzes, r.value.codigoAcceso.value, nextId) == Ok(r.value))
    {
      if id !in quizzes {
        return Fail(404, QuizLogic.MsgQuizNotFoundShort);
      }
      var q := quizzes[id];
      if q.estado == Publicado && q.codigoAcceso.Some? {
        QuizLogic.BuscarPorCodigoUnique(quizzes, q.codigoAcceso.value, nextId, id);
        return Ok(q);
      }
      // A draft has no code (Valid), so the generator always runs here.
      var code := "";
      if q.codigoAcceso.None? {
        var used;
        code, used := AccessCode.GenerarCodigo(quizzes, draws);
      }
      var q2 := QuizLogic.PublishQuiz(q, code);
      if !QuizValid(q2) {
        return Fail(500, QuizLogic.MsgServer);
      }
      PublishKeepsQuizzesValid(quizzes, id, code);
      ReplaceKeepsIds(quizzes, id, q2, nextId, quizzes[id := q2]);
      quizzes := quizzes[id := q2];
      QuizLogic.BuscarPorCodigoUnique(quizzes, q2.codigoAcceso.value, nextId, id);
      r := Ok(q2);
    }

    /** `POST /api/quizzes/:quizId/submit`: a course id and a non-null score
        (400), an existing quiz (404); then the record for (user, quiz,
        course) is upserted as completado with that score and time. Neither
        the course nor the score's range is checked. */
    method Enviar(quizId: Id, user: Id, courseId: Option<Id>, score: Option<int>, now: int) returns (r: Result<int>)
      requires Valid()
      modifies this`progress
      ensures Valid()
      ensures courseId.None? || score.None? ==> r == Fail(400, QuizLogic.MsgSubmitMissing)
      ensures courseId.Some? && score.Some? && quizId !in old(quizzes) ==> r == Fail(404, QuizLogic.MsgQuizNotFoundShort)
      ensures r.Ok? <==> courseId.Some? && score.Some? && quizId in old(quizzes)
      ensures r.Err? ==> unchanged(this)
      ensures r.Ok? ==>
        (r.value == score.value
         && progress == QuizLogic.Upsert(old(progress), user, quizId, courseId.value, score.value, now))
    {
      if courseId.None? || score.None? {
        return Fail(400, QuizLogic.MsgSubmitMissing);
      }
      if quizId !in quizzes {
        return Fail(404, QuizLogic.MsgQuizNotFoundShort);
      }
      progress := QuizLogic.Upsert(progress, user, quizId, courseId.value, score.value, now);
      r := Ok(score.value);
    }

    /** `DELETE /api/quizzes/:id`: 404 for a missing quiz; otherwise the
        quiz is removed and its course, if it has one that still exists,
        has one quiz less. Progress records on the quiz are kept. */
    method EliminarQuiz(id: Id) returns (r: Result<string>)
      requires Valid()
      modifies this`quizzes, this`courses
      ensures Valid()
      ensures id !in old(quizzes) ==> r == Fail(404, QuizLogic.MsgQuizNotFound) && unchanged(this)
      ensures id in old(quizzes) ==>
        (r == Ok(QuizLogic.MsgDeleted)
         && quizzes == old(quizzes) - {id}
         && courses == IncQuizzes(old(courses), old(quizzes)[id].curso, -1))
    {
      if id !in quizzes {
        return Fail(404, QuizLogic.MsgQuizNotFound);
      }
      var curso := quizzes[id].curso;
      quizzes := quizzes - {id};
      courses := IncQuizzes(courses, curso, -1);
      r := Ok(QuizLogic.MsgDeleted);
    }

    // -------------------------------------------------------------------
    // Courses: admin and student routes

    /** `POST /api/cursos` (admin): the course `AdminCreate` builds, under
        a fresh id. */
    method AdminCrearCurso(body: CourseRoutes.CourseBody) returns (r: Result<Course>)
      requires Valid()
      modifies this`courses, this`nextId
      ensures Valid()
      ensures r == CourseRoutes.AdminCreate(old(nextId), body)
      ensures r.Err? ==> unchanged(this)
      ensures r.Ok? ==> courses == old(courses)[old(nextId) := r.value] && nextId == old(nextId) + 1
    {
      r := CourseRoutes.AdminCreate(nextId, body);
      if r.Ok? {
        courses := courses[nextId := r.value];
        nextId := nextId + 1;
      }
    }

    /** `POST /api/cursos/:id/unirse`: 404 for a missing course, then the
        checks of `Unirse`; the course it answers is saved. */
    method Unirse(id: Id, user: Id) returns (r: Result<Course>)
      requires Valid()
      modifies this`courses
      ensures Valid()
      ensures id !in old(courses) ==> r == Fail(404, CourseRoutes.MsgNotFoundDot)
      ensures id in old(courses) ==> r == CourseRoutes.Unirse(old(courses)[id], user)
      ensures r.Err? ==> unchanged(this)
      ensures r.Ok? ==> courses == old(courses)[id := r.value] && CounterAgrees(r.value) && user in r.value.estudiantes
    {
      if id !in courses {
        return Fail(404, CourseRoutes.MsgNotFoundDot);
      }
      r := CourseRoutes.Unirse(courses[id], user);
      if r.Ok? {
        courses := courses[id := r.value];
      }
    }

    /** `POST /api/cursos/:id/salir`: 404 for a missing course, then the
        checks of `Salir`; the course it answers is saved. */
    method Salir(id: Id, user: Id) returns (r: Result<Course>)
      requires Valid()
      modifies this`courses
      ensures Valid()
      ensures id !in old(courses) ==> r == Fail(404, CourseRoutes.MsgNotFoundDot)
      ensures id in old(courses) ==> r == CourseRoutes.Salir(old(courses)[id], user)
      ensures r.Err? ==> unchanged(this)
      ensures r.Ok? ==> courses == old(courses)[id := r.value] && CounterAgrees(r.value) && user !in r.value.estudiantes
    {
      if id !in courses {
        return Fail(404, CourseRoutes.MsgNotFoundDot);
      }
      r := CourseRoutes.Salir(courses[id], user);
      if r.Ok? {
        CourseRoutes.SalirRemoves(courses[id], user);
        courses := courses[id := r.value];
      }
    }

    /** `PUT /api/cursos/:id` (admin): 404 for a missing course; otherwise
        the fields present in the body are written, without validation. */
    method AdminActualizarCurso(id: Id, body: CourseRoutes.CourseBody) returns (r: Result<Course>)
      requires Valid()
      modifies this`courses
      ensures Valid()
      ensures id !in old(courses) ==> r == Fail(404, CourseRoutes.MsgNotFound) && unchanged(this)
      ensures id in old(courses) ==>
        (r == Ok(CourseRoutes.ApplyPatch(old(courses)[id], body)) && courses == old(courses)[id := r.value])
    {
      if id !in courses {
        return Fail(404, CourseRoutes.MsgNotFound);
      }
      var c := CourseRoutes.ApplyPatch(courses[id], body);
      courses := courses[id := c];
      r := Ok(c);
    }

    /** `PATCH /api/cursos/:id/estado` (admin). */
    method AdminEstadoCurso(id: Id, estado: Option<string>) returns (r: Result<Course>)
      requires Valid()
      modifies this`courses
      ensures Valid()
      ensures id !in old(courses) ==> r == Fail(404, CourseRoutes.MsgNotFound) && unchanged(this)
      ensures id in old(courses) ==>
        (r == Ok(old(courses)[id].(estado := estado.GetOr(old(courses)[id].estado)))
         && courses == old(courses)[id := r.value])
    {
      if id !in courses {
        return Fail(404, CourseRoutes.MsgNotFound);
      }
      var c := CourseRoutes.SetEstado(courses[id], estado);
      courses := courses[id := c];
      r := Ok(c);
    }

    /** `DELETE /api/cursos/:id` (admin): 404 for a missing course, 400
        while its enrolment counter is positive; otherwise it is removed. */
    method AdminEliminarCurso(id: Id) returns (r: Result<string>)
      requires Valid()
      modifies this`courses
      ensures Valid()
      ensures id !in old(courses) ==> r == Fail(404, CourseRoutes.MsgNotFound)
      ensures id in old(courses) && old(courses)[id].totalEstudiantes > 0 ==> r == Fail(400, CourseRoutes.MsgHasStudents)
      ensures r.Ok? <==> id in old(courses) && old(courses)[id].totalEstudiantes <= 0
      ensures r.Err? ==> unchanged(this)
      ensures r.Ok? ==> r.value == CourseRoutes.MsgDeleted && courses == old(courses) - {id}
    {
      if id !in courses {
        return Fail(404, CourseRoutes.MsgNotFound);
      }
      var g := CourseRoutes.DeleteGuard(courses[id], CourseRoutes.MsgHasStudents);
      if g.Err? {
        return Err(g.failure);
      }
      courses := courses - {id};
      r := Ok(CourseRoutes.MsgDeleted);
    }

    // -------------------------------------------------------------------
    // Courses: teacher routes

    /** `POST /api/docente/cursos`. */
    method DocenteCrearCurso(nombre: Option<string>, descripcion: Option<string>, caller: string) returns (r: Result<Course>)
      requires Valid()
      modifies this`courses, this`nextId
      ensures Valid()
      ensures r == DocenteCourseRoutes.Create(old(nextId), nombre, descripcion, caller)
      ensures r.Err? ==> unchanged(this)
      ensures r.Ok? ==> courses == old(courses)[old(nextId) := r.value] && nextId == old(nextId) + 1
    {
      r := DocenteCourseRoutes.Create(nextId, nombre, descripcion, caller);
      if r.Ok? {
        courses := courses[nextId := r.value];
        nextId := nextId + 1;
      }
    }

    /** `PUT /api/docente/cursos/:id`: only the caller's course is updated;
        anyone else's answers 404 and stays as it is. */
    method DocenteActualizarCurso(id: Id, caller: string,
                                  nombre: Option<string>, descripcion: Option<string>, estado: Option<string>)
      returns (r: Result<Course>)
      requires Valid()
      modifies this`courses
      ensures Valid()
      ensures r == DocenteCourseRoutes.Update(Lookup(old(courses), id), caller, nombre, descripcion, estado)
      ensures r.Err? ==> unchanged(this)
      ensures r.Ok? ==> courses == old(courses)[id := r.value]
    {
      r := DocenteCourseRoutes.Update(Lookup(courses, id), caller, nombre, descripcion, estado);
      if r.Ok? {
        courses := courses[id := r.value];
      }
    }

    /** `PATCH /api/docente/cursos/:id/estado`. */
    method DocenteEstadoCurso(id: Id, caller: string, estado: Option<string>) returns (r: Result<Course>)
      requires Valid()
      modifies this`courses
      ensures Valid()
      ensures r == DocenteCourseRoutes.SetEstado(Lookup(old(courses), id), caller, estado)
      ensures r.Err? ==> unchanged(this)
      ensures r.Ok? ==> courses == old(courses)[id := r.value]
    {
      r := DocenteCourseRoutes.SetEstado(Lookup(courses, id), caller, estado);
      if r.Ok? {
        courses := courses[id := r.value];
      }
    }

    /** `DELETE /api/docente/cursos/:id`. */
    method DocenteEliminarCurso(id: Id, caller: string) returns (r: Result<string>)
      requires Valid()
      modifies this`courses
      ensures Valid()
      ensures DocenteCourseRoutes.Delete(Lookup(old(courses), id), caller).Err? ==>
        r.Err? && r.failure == DocenteCourseRoutes.Delete(Lookup(old(courses), id), caller).failure && unchanged(this)
      ensures r.Ok? <==> DocenteCourseRoutes.Delete(Lookup(old(courses), id), caller).Ok?
      ensures r.Ok? ==> r.value == DocenteCourseRoutes.MsgDeleted && courses == old(courses) - {id}
    {
      var d := DocenteCourseRoutes.Delete(Lookup(courses, id), caller);
      if d.Err? {
        return Err(d.failure);
      }
      courses := courses - {id};
      r := Ok(DocenteCourseRoutes.MsgDeleted);
    }

    // -------------------------------------------------------------------
    // Users

    /** `PATCH /api/users/:id/estado`. */
    method CambiarEstadoUsuario(id: Id, estado: Option<string>) returns (r: Result<UserRoutes.UserView>)
      requires Valid()
      modifies this`users
      ensures Valid()
      ensures UserRoutes.PatchEstado(old(users), id, estado).Err? ==>
        r.Err? && r.failure == UserRoutes.PatchEstado(old(users), id, estado).failure && unchanged(this)
      ensures r.Ok? <==> UserRoutes.PatchEstado(old(users), id, estado).Ok?
      ensures r.Ok? ==> (var u := UserRoutes.PatchEstado(old(users), id, estado).value;
                         r.value == UserRoutes.View(u) && users == old(users)[id := u])
    {
      var p := UserRoutes.PatchEstado(users, id, estado);
      if p.Err? {
        return Err(p.failure);
      }
      users := users[id := p.value];
      r := Ok(UserRoutes.View(p.value));
    }

    /** `PATCH /api/users/:id/rol`. */
    method CambiarRolUsuario(id: Id, rol: Option<string>) returns (r: Result<UserRoutes.UserView>)
      requires Valid()
      modifies this`users
      ensures Valid()
      ensures UserRoutes.PatchRol(old(users), id, rol).Err? ==>
        r.Err? && r.failure == UserRoutes.PatchRol(old(users), id, rol).failure && unchanged(this)
      ensures r.Ok? <==> UserRoutes.PatchRol(old(users), id, rol).Ok?
      ensures r.Ok? ==> (var u := UserRoutes.PatchRol(old(users), id, rol).value;
                         r.value == UserRoutes.View(u) && users == old(users)[id := u])
    {
      var p := UserRoutes.PatchRol(users, id, rol);
      if p.Err? {
        return Err(p.failure);
      }
      users := users[id := p.value];
      r := Ok(UserRoutes.View(p.value));
    }

    /** `DELETE /api/users/:id`, by the admin `caller`. ADMIN users and the
        caller are never removed. */
    method EliminarUsuario(id: Id, caller: Id) returns (r: Result<UserRoutes.UserView>)
      requires Valid()
      modifies this`users
      ensures Valid()
      ensures UserRoutes.DeleteGuard(old(users), id, caller).Err? ==>
        r.Err? && r.failure == UserRoutes.DeleteGuard(old(users), id, caller).failure && unchanged(this)
      ensures r.Ok? <==> UserRoutes.DeleteGuard(old(users), id, caller).Ok?
      ensures r.Ok? ==> r.value == UserRoutes.View(old(users)[id]) && users == old(users) - {id}
      ensures forall k :: k in old(users) && old(users)[k].rol == ADMIN ==> k in users && users[k] == old(users)[k]
      ensures caller in old(users) ==> caller in users
    {
      var g := UserRoutes.DeleteGuard(users, id, caller);
      if g.Err? {
        return Err(g.failure);
      }
      users := users - {id};
      r := Ok(UserRoutes.View(g.value));
    }

    /** `POST /api/users` (admin): the creation chain, under a fresh id. */
    method CrearUsuario(nombre: Option<string>, email: Option<string>, password: Option<string>, rol: Option<string>,
                        hash: string -> string) returns (r: Result<UserRoutes.UserView>)
      requires Valid()
      modifies this`users, this`nextId
      ensures Valid()
      ensures UserRoutes.AdminCreate(old(users), old(nextId), nombre, email, password, rol, hash).Err? ==>
        r.Err? && r.failure == UserRoutes.AdminCreate(old(users), old(nextId), nombre, email, password, rol, hash).failure
        && unchanged(this)
      ensures r.Ok? <==> UserRoutes.AdminCreate(old(users), old(nextId), nombre, email, password, rol, hash).Ok?
      ensures r.Ok? ==>
        (var u := UserRoutes.AdminCreate(old(users), old(nextId), nombre, email, password, rol, hash).value;
         r.value == UserRoutes.View(u) && users == old(users)[old(nextId) := u] && nextId == old(nextId) + 1)
    {
      var c := UserRoutes.AdminCreate(users, nextId, nombre, email, password, rol, hash);
      if c.Err? {
        return Err(c.failure);
      }
      UserRoutes.CreateKeepsEmailsUnique(users, nextId, nombre, email, password, rol, hash, UserRoutes.MsgAllRequired);
      users := users[nextId := c.value];
      nextId := nextId + 1;
      r := Ok(UserRoutes.View(c.value));
    }

    /** `POST /api/auth/register`. */
    method Registrar(nombre: Option<string>, email: Option<string>, password: Option<string>, rol: Option<string>,
                     hash: string -> string) returns (r: Result<AuthController.UserSummary>)
      requires Valid()
      modifies this`users, this`nextId
      ensures Valid()
      ensures AuthController.Register(old(users), old(nextId), nombre, email, password, rol, hash).Err? ==>
        r.Err? && r.failure == AuthController.Register(old(users), old(nextId), nombre, email, password, rol, hash).failure
        && unchanged(this)
      ensures r.Ok? <==> AuthController.Register(old(users), old(nextId), nombre, email, password, rol, hash).Ok?
      ensures r.Ok? ==>
        (var u := AuthController.Register(old(users), old(nextId), nombre, email, password, rol, hash).value;
         r.value == AuthController.UserSummary(u.id, u.nombre, u.email, u.rol)
         && users == old(users)[old(nextId) := u] && nextId == old(nextId) + 1)
    {
      var c := AuthController.Register(users, nextId, nombre, email, password, rol, hash);
      if c.Err? {
        return Err(c.failure);
      }
      UserRoutes.CreateKeepsEmailsUnique(users, nextId, nombre, email, password, rol, hash, AuthController.MsgMissing);
      users := users[nextId := c.value];
      nextId := nextId + 1;
      r := Ok(AuthController.UserSummary(c.value.id, c.value.nombre, c.value.email, c.value.rol));
    }

    /** `POST /api/auth/login`: the user `findOne({ email })` finds, then
        the decision chain of `Login`. It changes nothing. */
    method IniciarSesion(email: string, password: Option<string>,
                         compare: (string, string) -> bool, sign: AuthController.Payload -> string)
      returns (r: Result<AuthController.LoginOk>)
      requires Valid()
      ensures !EmailTaken(users, email) ==> r == Fail(400, AuthController.MsgBadCredentials)
      ensures forall k :: k in users && users[k].email == email ==>
        r == AuthController.Login(Some(users[k]), password, compare, sign)
    {
      var found := UserRoutes.FindByEmail(users, email, nextId);
      var u := if found.Some? then Some(users[found.value]) else None;
      r := AuthController.Login(u, password, compare, sign);
      forall k | k in users && users[k].email == email
        ensures r == AuthController.Login(Some(users[k]), password, compare, sign)
      {
        UserRoutes.FindByEmailUnique(users, email, nextId, k);
      }
    }
  }
}
