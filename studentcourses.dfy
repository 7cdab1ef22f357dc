/** The student's course routes: the active-course list and the course
    detail, which lists the course's quizzes newest first, each merged with
    the student's progress on it. */
module StudentCourseRoutes {
  import opened Wrappers
  import opened Models
  import Seqs
  import Queries

  const MsgNotFound: string := "Curso no encontrado."

  /** `Course.find({ estado: "Activo" })`. */
  function Activos(courses: map<Id, Course>, bound: nat): (r: seq<Course>)
    ensures forall i :: 0 <= i < |r| ==> r[i].estado == CursoActivo
    ensures forall k :: k < bound && k in courses && courses[k].estado == CursoActivo ==> courses[k] in r
    ensures forall i :: 0 <= i < |r| ==> r[i] in courses.Values
    ensures forall i, j :: 0 <= i < j < |r| && (forall k :: k in courses ==> courses[k].id == k) ==> r[i].id < r[j].id
  {
    var ids := Queries.FindIds(courses, (c: Course) => c.estado == CursoActivo, bound);
    var r := Queries.Values(courses, ids);
    assert forall i :: 0 <= i < |r| ==> ids[i] < bound && ids[i] in courses && r[i] == courses[ids[i]];
    r
  }

  /** The entry of the progress map: status and score. */
  type Entry = (ProgressStatus, Option<int>)

  function EntryOf(p: Progress): Entry {
    (p.status, p.score)
  }

  /** The progress map the route builds with `forEach` and `Map.set`:
      records are taken in the order the query returned them, so a later
      record for the same quiz replaces an earlier one. */
  function ProgresoMap(docs: seq<Progress>): map<Id, Entry>
    decreases |docs|
  {
    if docs == [] then map[]
    else
      var last := docs[|docs| - 1];
      ProgresoMap(docs[..|docs| - 1])[last.quiz := EntryOf(last)]
  }

  /** The loop itself. */
  method BuildProgresoMap(docs: seq<Progress>) returns (m: map<Id, Entry>)
    ensures m == ProgresoMap(docs)
  {
    m := map[];
    var i := 0;
    while i < |docs|
      invariant 0 <= i <= |docs|
      invariant m == ProgresoMap(docs[..i])
    {
      assert docs[..i + 1][..i] == docs[..i];
      m := m[docs[i].quiz := EntryOf(docs[i])];
      i := i + 1;
    }
    assert docs[..i] == docs;
  }

  /** The record at `i` is the last one for its quiz. */
  predicate LastFor(docs: seq<Progress>, i: int) {
    0 <= i < |docs| && forall j :: i < j < |docs| ==> docs[j].quiz != docs[i].quiz
  }

  /** The map holds exactly the quizzes some record names. */
  lemma {:induction false} ProgresoMapDomain(docs: seq<Progress>, q: Id)
    ensures q in ProgresoMap(docs) <==> exists i :: 0 <= i < |docs| && docs[i].quiz == q
    decreases |docs|
  {
    if docs != [] {
      var n := |docs| - 1;
      var init := docs[..n];
      ProgresoMapDomain(init, q);
      assert ProgresoMap(docs) == ProgresoMap(init)[docs[n].quiz := EntryOf(docs[n])];
      if docs[n].quiz != q {
        if exists i :: 0 <= i < |docs| && docs[i].quiz == q {
          var i :| 0 <= i < |docs| && docs[i].quiz == q;
          assert init[i].quiz == q;
        }
        if exists i :: 0 <= i < |init| && init[i].quiz == q {
          var i :| 0 <= i < |init| && init[i].quiz == q;
          assert docs[i].quiz == q;
        }
      }
    }
  }

  /** Each quiz in the map maps to the last record naming it. */
  lemma {:induction false} ProgresoMapLastWins(docs: seq<Progress>, i: int)
    requires LastFor(docs, i)
    ensures docs[i].quiz in ProgresoMap(docs)
    ensures ProgresoMap(docs)[docs[i].quiz] == EntryOf(docs[i])
    decreases |docs|
  {
    var n := |docs| - 1;
    var init := docs[..n];
    assert ProgresoMap(docs) == ProgresoMap(init)[docs[n].quiz := EntryOf(docs[n])];
    if i < n {
      assert docs[n].quiz != docs[i].quiz;
      assert init[i] == docs[i];
      assert LastFor(init, i);
      ProgresoMapLastWins(init, i);
    }
  }

  /** A quiz of the course as the student sees it. */
  datatype QuizView = QuizView(quiz: Quiz, estadoEstudiante: ProgressStatus, puntaje: Option<int>)

  /** `estadoEstudiante: progreso?.status ?? "pendiente"`,
      `puntaje: progreso?.score ?? null`. */
  function Merge(quizzes: seq<Quiz>, m: map<Id, Entry>): (r: seq<QuizView>)
    ensures |r| == |quizzes|
    ensures forall i :: 0 <= i < |r| ==> r[i].quiz == quizzes[i]
    ensures forall i :: 0 <= i < |r| ==> quizzes[i].id in m ==>
      (r[i].estadoEstudiante, r[i].puntaje) == m[quizzes[i].id]
    ensures forall i :: 0 <= i < |r| ==> quizzes[i].id !in m ==>
      r[i].estadoEstudiante == pendiente && r[i].puntaje == None
  {
    seq(|quizzes|, i requires 0 <= i < |quizzes| =>
      var e := if quizzes[i].id in m then m[quizzes[i].id] else (pendiente, None);
      QuizView(quizzes[i], e.0, e.1))
  }

  datatype Detail = Detail(curso: Course, quizzes: seq<QuizView>)

  /** `StudentQuizProgress.find({ user, quiz: { $in: ids }, course })`. */
  function ProgressDocs(progress: seq<Progress>, user: Id, quizIds: seq<Id>, course: Id): seq<Progress> {
    Seqs.Filter((p: Progress) => p.user == user && p.quiz in quizIds && p.course == course, progress)
  }

  function Ids(qs: seq<Quiz>): (r: seq<Id>)
    ensures |r| == |qs| && forall i :: 0 <= i < |qs| ==> r[i] == qs[i].id
  {
    seq(|qs|, i requires 0 <= i < |qs| => qs[i].id)
  }

  /** `Quiz.find({ curso: id }).sort({ creadoEn: -1 })`. */
  function CourseQuizzes(quizzes: map<Id, Quiz>, course: Id, bound: nat): (r: seq<Quiz>)
    ensures forall i :: 0 <= i < |r| ==> r[i] in quizzes.Values && r[i].curso == Some(course)
    ensures forall k :: k < bound && k in quizzes && quizzes[k].curso == Some(course) ==> quizzes[k] in r
    ensures forall i, j :: 0 <= i < j < |r| && (forall k :: k in quizzes ==> quizzes[k].id == k) ==> r[i].id > r[j].id
  {
    Queries.FindNewestFirst(quizzes, (q: Quiz) => q.curso == Some(course), bound)
  }

  /** `GET /curso/:id`: 404 for a missing course; with no quizzes the list
      is empty; otherwise every quiz of the course, newest first, with the
      student's last progress record on it in this course. */
  function CursoDetalle(courses: map<Id, Course>, quizzes: map<Id, Quiz>, bound: nat,
                        progress: seq<Progress>, user: Id, id: Id): (r: Result<Detail>)
    ensures id !in courses ==> r == Fail(404, MsgNotFound)
    ensures id in courses ==> r.Ok?
    ensures r.Ok? ==> r.value.curso == courses[id]
    ensures r.Ok? ==> (|r.value.quizzes| == |CourseQuizzes(quizzes, id, bound)|
      && forall i :: 0 <= i < |r.value.quizzes| ==> r.value.quizzes[i].quiz == CourseQuizzes(quizzes, id, bound)[i])
  {
    if id !in courses then Fail(404, MsgNotFound)
    else
      var qs := CourseQuizzes(quizzes, id, bound);
      if qs == [] then Ok(Detail(courses[id], []))
      else
        var docs := ProgressDocs(progress, user, Ids(qs), id);
        Ok(Detail(courses[id], Merge(qs, ProgresoMap(docs))))
  }

  /** What a quiz view reports: completado with the score exactly when the
      last of the student's records on that quiz in this course says so;
      a quiz the student never touched is pendiente with no score. */
  lemma CursoDetalleReportsLastRecord(courses: map<Id, Course>, quizzes: map<Id, Quiz>, bound: nat,
                                      progress: seq<Progress>, user: Id, id: Id, i: nat)
    requires CursoDetalle(courses, quizzes, bound, progress, user, id).Ok?
    requires i < |CursoDetalle(courses, quizzes, bound, progress, user, id).value.quizzes|
    ensures var d := CursoDetalle(courses, quizzes, bound, progress, user, id).value;
      var qs := CourseQuizzes(quizzes, id, bound);
      var docs := ProgressDocs(progress, user, Ids(qs), id);
      var v := d.quizzes[i];
      v.quiz == qs[i] && v.quiz.curso == Some(id)
      && ((forall j :: 0 <= j < |docs| ==> docs[j].quiz != v.quiz.id) ==> v.estadoEstudiante == pendiente && v.puntaje == None)
      && (forall j :: LastFor(docs, j) && docs[j].quiz == v.quiz.id ==> (v.estadoEstudiante, v.puntaje) == EntryOf(docs[j]))
  {
    var qs := CourseQuizzes(quizzes, id, bound);
    var ids := Queries.FindIdsNewestFirst(quizzes, (q: Quiz) => q.curso == Some(id), bound);
    assert qs[i] == quizzes[ids[i]];
    var docs := ProgressDocs(progress, user, Ids(qs), id);
    ProgresoMapDomain(docs, qs[i].id);
    forall j | LastFor(docs, j) && docs[j].quiz == qs[i].id
      ensures ProgresoMap(docs)[qs[i].id] == EntryOf(docs[j])
    {
      ProgresoMapLastWins(docs, j);
    }
  }
}
