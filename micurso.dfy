/** The student's course page: the two shapes the detail response may
    take, the progress bar, and what each quiz card offers. */
module MiCurso {
  import opened Wrappers
  import opened Json
  import opened Models
  import Text
  import Seqs
  import FrontCommon
  import StudentCourseRoutes
  import CourseRoutes

  /** `key in data` on a parsed object. */
  predicate HasKey(v: Json, key: string) {
    v.JObj? && exists i :: 0 <= i < |v.fields| && v.fields[i].0 == key
  }

  /** What loading the page makes of a response. */
  datatype Carga =
    | Cargado(curso: Json, quizzes: seq<Json>)
    /** `"curso" in data` throws on a value that is not an object; the
        page shows its load error. */
    | Falla
    /** `quizzes` is kept as it came, and rendering a value that is not a
        list and whose `length` is not the number 0 throws: a value whose
        `length` is above 0 (a non-empty string, say) at the `filter` of
        the progress line, any other at the `map` of the quiz list. */
    | NoEsLista

  /** `data.quizzes ?? []`. */
  function QuizzesOrEmpty(v: Option<Json>): (r: Option<seq<Json>>)
    ensures v.None? || v == Some(JNull) ==> r == Some([])
    ensures v.Some? && v.value.JArr? ==> r == Some(v.value.items)
    ensures r.None? <==> v.Some? && !v.value.JNull? && !v.value.JArr?
  {
    match v
    case None => Some([])
    case Some(JNull) => Some([])
    case Some(JArr(items)) => Some(items)
    case Some(_) => None
  }

  /** `v.length` on a parsed value: the length of a string or a list, the
      `length` member of an object, undefined otherwise. */
  function JsLength(v: Json): (r: Option<Json>)
    ensures v.JStr? ==> r == Some(JNum(|v.s|))
    ensures v.JArr? ==> r == Some(JNum(|v.items|))
    ensures v.JObj? ==> r == Prop(v, "length")
    ensures v.JNull? || v.JBool? || v.JNum? ==> r.None?
  {
    match v
    case JStr(s) => Some(JNum(|s|))
    case JArr(items) => Some(JNum(|items|))
    case JObj(_) => Prop(v, "length")
    case _ => None
  }

  /** A kept value the page renders as an empty course: its `length` is
      exactly the number 0, so the progress line skips `filter` and the
      list shows "Este curso aún no tiene quizzes." without calling `map`. */
  predicate LengthCero(v: Json) {
    JsLength(v) == Some(JNum(0))
  }

  /** The normalisation: `{ curso, quizzes }` when both keys are there,
      otherwise the response is the course itself with its optional
      `quizzes`; missing or null quizzes become the empty list, and a kept
      value of length 0 that is not a list renders as one. */
  function Normalizar(data: Json): (r: Carga)
    ensures !data.JObj? && !data.JArr? ==> r == Falla
    ensures HasKey(data, "curso") && HasKey(data, "quizzes") && r.Cargado? ==> Some(r.curso) == Prop(data, "curso")
    ensures (data.JObj? || data.JArr?) && !(HasKey(data, "curso") && HasKey(data, "quizzes")) && r.Cargado? ==> r.curso == data
    ensures r.Cargado? && QuizzesOrEmpty(Prop(data, "quizzes")).Some? ==> Some(r.quizzes) == QuizzesOrEmpty(Prop(data, "quizzes"))
    ensures r.Cargado? && QuizzesOrEmpty(Prop(data, "quizzes")).None? ==> r.quizzes == []
    ensures (data.JObj? || data.JArr?) ==>
      (r.NoEsLista? <==> QuizzesOrEmpty(Prop(data, "quizzes")).None? && !LengthCero(Prop(data, "quizzes").value))
  {
    if !data.JObj? && !data.JArr? then Falla
    else
      var kept := QuizzesOrEmpty(Prop(data, "quizzes"));
      if kept.None? && !LengthCero(Prop(data, "quizzes").value) then NoEsLista
      else
        var qs := if kept.Some? then kept.value else [];
        if HasKey(data, "curso") && HasKey(data, "quizzes") then
          PropFound(data, "curso");
          Cargado(Prop(data, "curso").value, qs)
        else Cargado(data, qs)
  }

  /** A `quizzes` of "" or `{ "length": 0 }` loads the page as a course
      without quizzes at 0 %, while a non-empty string or a number is a
      render error. */
  lemma NormalizarLengthCero(curso: Json)
    requires curso.JObj?
    ensures Normalizar(JObj([("curso", curso), ("quizzes", JStr(""))])) == Cargado(curso, [])
    ensures Normalizar(JObj([("curso", curso), ("quizzes", JObj([("length", JNum(0))]))])) == Cargado(curso, [])
    ensures Normalizar(JObj([("curso", curso), ("quizzes", JStr("x"))])) == NoEsLista
    ensures Normalizar(JObj([("curso", curso), ("quizzes", JNum(0))])) == NoEsLista
    ensures Progreso([]) == 0
  {
    var fs := [("curso", curso), ("quizzes", JStr(""))];
    assert fs[..1] == [("curso", curso)];
    assert LastField(fs[..1], "curso") == Some(curso);
    assert Prop(JObj(fs), "quizzes") == Some(JStr(""));
    assert HasKey(JObj(fs), "curso") && HasKey(JObj(fs), "quizzes") by {
      assert fs[0].0 == "curso" && fs[1].0 == "quizzes";
    }
    var len := JObj([("length", JNum(0))]);
    assert Prop(len, "length") == Some(JNum(0));
    var gs := [("curso", curso), ("quizzes", len)];
    assert gs[..1] == [("curso", curso)];
    assert Prop(JObj(gs), "quizzes") == Some(len);
    assert HasKey(JObj(gs), "curso") && HasKey(JObj(gs), "quizzes") by {
      assert gs[0].0 == "curso" && gs[1].0 == "quizzes";
    }
    assert Prop(JObj([("curso", curso), ("quizzes", JStr("x"))]), "quizzes") == Some(JStr("x"));
    assert Prop(JObj([("curso", curso), ("quizzes", JNum(0))]), "quizzes") == Some(JNum(0));
  }

  /** Both shapes load the same course and the same quizzes: the detail
      response, and a bare course object carrying its quizzes or none. */
  lemma NormalizarShapes(curso: Json, qs: seq<Json>)
    requires curso.JObj? && !HasKey(curso, "curso") && !HasKey(curso, "quizzes")
    ensures Normalizar(JObj([("curso", curso), ("quizzes", JArr(qs))])) == Cargado(curso, qs)
    ensures Normalizar(JObj(curso.fields + [("quizzes", JArr(qs))])) == Cargado(JObj(curso.fields + [("quizzes", JArr(qs))]), qs)
    ensures Normalizar(curso) == Cargado(curso, [])
  {
    var detail := JObj([("curso", curso), ("quizzes", JArr(qs))]);
    assert detail.fields[0].0 == "curso" && detail.fields[1].0 == "quizzes";
    assert detail.fields[..1] == [("curso", curso)];
    assert Prop(detail, "quizzes") == Some(JArr(qs));
    assert LastField(detail.fields[..1], "curso") == Some(curso);
    assert Prop(detail, "curso") == Some(curso);
    var bare := JObj(curso.fields + [("quizzes", JArr(qs))]);
    assert bare.fields[..|bare.fields| - 1] == curso.fields;
    PropFound(curso, "quizzes");
    PropFound(bare, "curso");
  }

  // ---------------------------------------------------------------------
  // Progress and quiz cards

  predicate Completado(v: StudentCourseRoutes.QuizView) {
    v.estadoEstudiante == completado
  }

  /** `Math.round(completed / total * 100)`, or 0 with no quizzes. */
  function Progreso(quizzes: seq<StudentCourseRoutes.QuizView>): (p: int)
    ensures 0 <= p <= 100
    ensures quizzes == [] ==> p == 0
  {
    if |quizzes| > 0 then
      var c := Seqs.Count(Completado, quizzes);
      FrontCommon.RoundRatioLaws(c, |quizzes|, 100);
      FrontCommon.RoundRatio(c, |quizzes|, 100)
    else 0
  }

  /** Progress is full when every quiz is completed and empty when none
      is. */
  lemma ProgresoExtremes(quizzes: seq<StudentCourseRoutes.QuizView>)
    ensures quizzes != [] && (forall j :: 0 <= j < |quizzes| ==> Completado(quizzes[j])) ==> Progreso(quizzes) == 100
    ensures (forall j :: 0 <= j < |quizzes| ==> !Completado(quizzes[j])) ==> Progreso(quizzes) == 0
  {
    if quizzes != [] && forall j :: 0 <= j < |quizzes| ==> Completado(quizzes[j]) {
      Seqs.FilterAll(Completado, quizzes);
      FrontCommon.RoundRatioLaws(|quizzes|, |quizzes|, 100);
    }
    if quizzes != [] && forall j :: 0 <= j < |quizzes| ==> !Completado(quizzes[j]) {
      Seqs.FilterNone(Completado, quizzes);
      FrontCommon.RoundRatioLaws(0, |quizzes|, 100);
    }
  }

  /** Completing one more quiz never lowers the progress. */
  lemma ProgresoMonotone(quizzes: seq<StudentCourseRoutes.QuizView>, i: nat)
    requires i < |quizzes| && !Completado(quizzes[i])
    ensures Progreso(quizzes) <= Progreso(quizzes[i := quizzes[i].(estadoEstudiante := completado)])
  {
    var v := quizzes[i].(estadoEstudiante := completado);
    var after := quizzes[i := v];
    Seqs.FilterCountFlip(Completado, quizzes, i, v);
    var a := Seqs.Count(Completado, quizzes);
    var b := Seqs.Count(Completado, after);
    assert a <= b;
    FrontCommon.RoundRatioMonotone(a, b, |quizzes|, 100);
    assert Progreso(quizzes) == FrontCommon.RoundRatio(a, |quizzes|, 100);
    assert Progreso(after) == FrontCommon.RoundRatio(b, |after|, 100);
  }

  /** What a quiz card shows: a start button, the completed badge, or the
      "not published yet" badge. */
  datatype Accion = Empezar(destino: FrontCommon.Destino) | Insignia(texto: string) | NoPublicado

  /** "✔ Quiz completado", followed by " · p/10" when the score is not null. */
  function InsigniaTexto(puntaje: Option<int>): (t: string)
    ensures puntaje.None? ==> t == "✔ Quiz completado"
    ensures puntaje.Some? ==> t == "✔ Quiz completado · " + Text.IntToString(puntaje.value) + "/10"
  {
    "✔ Quiz completado" + (if puntaje.Some? then " · " + Text.IntToString(puntaje.value) + "/10" else "")
  }

  function AccionQuiz(v: StudentCourseRoutes.QuizView): (a: Accion)
    ensures a.Empezar? <==> v.quiz.estado == Publicado && !Completado(v)
    ensures a.Empezar? ==> a.destino == FrontCommon.JugarQuiz(v.quiz.id)
    ensures a.Insignia? <==> v.quiz.estado == Publicado && Completado(v)
    ensures a.Insignia? ==> a.texto == InsigniaTexto(v.puntaje)
    ensures a.NoPublicado? <==> v.quiz.estado != Publicado
  {
    if v.quiz.estado == Publicado then
      if Completado(v) then Insignia(InsigniaTexto(v.puntaje)) else Empezar(FrontCommon.JugarQuiz(v.quiz.id))
    else NoPublicado
  }

  // ---------------------------------------------------------------------
  // Leaving the course

  const MsgSalirFallo: string := "No se pudo salir del curso. Inténtalo nuevamente."

  datatype Salida = SinCambio | Ir(destino: FrontCommon.Destino) | Error(mensaje: string)

  /** `handleSalirCurso`: nothing happens without a loaded course or
      without the student's confirmation; a successful request goes back
      to the dashboard, a failed one shows the fixed message. */
  function SalirCurso(cursoId: Option<Id>, confirmado: bool, respuesta: Result<Course>): (r: Salida)
    ensures r == SinCambio <==> cursoId.None? || !confirmado
    ensures r.Ir? <==> cursoId.Some? && confirmado && respuesta.Ok?
    ensures r.Ir? ==> r.destino == FrontCommon.Dashboard
    ensures r.Error? ==> r.mensaje == MsgSalirFallo && respuesta.Err?
  {
    if cursoId.None? || !confirmado then SinCambio
    else if respuesta.Ok? then Ir(FrontCommon.Dashboard)
    else Error(MsgSalirFallo)
  }

  /** Against the server's route: an enrolled student of a valid course
      who confirms is taken back to the dashboard; one who is not enrolled
      sees the fixed message. */
  lemma SalirCursoWithServer(c: Course, user: Id)
    ensures CourseValid(c) && CourseRoutes.Enrolled(c, user) ==>
      SalirCurso(Some(c.id), true, CourseRoutes.Salir(c, user)) == Ir(FrontCommon.Dashboard)
    ensures !CourseRoutes.Enrolled(c, user) ==>
      SalirCurso(Some(c.id), true, CourseRoutes.Salir(c, user)) == Error(MsgSalirFallo)
  {
  }
}
