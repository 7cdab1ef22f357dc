/** The value-level logic of the quiz routes: the AI pipeline (fence
    stripping, parsing, question normalisation), publishing and editing a
    quiz document, and the progress records behind the submit and status
    routes. The routes that apply these to the stored collections are in
    `Backend.Store`. */
module QuizLogic {
  import opened Wrappers
  import opened Models
  import opened Json
  import Text
  import Seqs
  import Queries

  const MsgCreateMissing: string := "El título y el curso son obligatorios."
  const MsgCourseMissing: string := "El curso no existe."
  const MsgAiMissing: string := "Titulo, cursoId y texto son obligatorios."
  const MsgAiEmpty: string := "La IA no devolvió texto válido. Intenta nuevamente con otro documento."
  const MsgAiUnparsable: string := "No se pudo interpretar la respuesta de la IA como JSON. Revisa el texto de entrada o intenta nuevamente."
  const MsgAiNoQuestions: string := "La IA no generó preguntas válidas. Intenta con otro texto o con menos contenido."
  const MsgAiFailed: string := "Error al generar el quiz con IA."
  const MsgQuizNotFound: string := "Quiz no encontrado."
  const MsgQuizNotFoundShort: string := "Quiz no encontrado"
  const MsgServer: string := "Error en el servidor"
  const MsgCodeNotFound: string := "No se encontró un quiz con ese código."
  const MsgSubmitMissing: string := "courseId y score son obligatorios"
  const MsgSubmitted: string := "Quiz completado correctamente"
  const MsgDeleted: string := "Quiz eliminado correctamente."

  // ---------------------------------------------------------------------
  // AI quiz generation

  /** `Number(numPreguntas) || 5`: the number of questions the prompt asks
      for. It is never 0. */
  function CantidadPreguntas(numPreguntas: Option<Json>): (n: int)
    ensures n != 0
    ensures n == 5 || ToNumber(numPreguntas) == Some(n)
    ensures ToNumber(numPreguntas).None? ==> n == 5
    ensures ToNumber(numPreguntas) == Some(0) ==> n == 5
    ensures ToNumber(numPreguntas).Some? && ToNumber(numPreguntas).value != 0 ==> n == ToNumber(numPreguntas).value
  {
    NumberOr(numPreguntas, 5)
  }

  /** The cleaning chain applied to the model's reply: every "```json" in
      any letter case is removed, then every "```", then the ends are
      trimmed. */
  function StripFences(raw: string): string {
    Text.Trim(Text.RemoveAll(Text.RemoveAll(raw, "```json", true), Text.Fence, false))
  }

  /** The cleaned reply contains no fence at all and has no whitespace at
      its ends. */
  lemma StripFencesClean(raw: string)
    ensures !Text.Contains(StripFences(raw), Text.Fence)
    ensures Text.Trim(StripFences(raw)) == StripFences(raw)
  {
    var x := Text.RemoveAll(Text.RemoveAll(raw, "```json", true), Text.Fence, false);
    Text.RemoveFenceComplete(Text.RemoveAll(raw, "```json", true));
    if Text.Contains(Text.Trim(x), Text.Fence) {
      Text.TrimContains(x, Text.Fence);
    }
    Text.TrimIdempotent(x);
  }

  /** `String(v ?? "")`: undefined and null both become "". */
  function StringOrEmpty(v: Option<Json>): (s: string)
    ensures v.None? || v == Some(JNull) ==> s == ""
    ensures v.Some? && v.value.JStr? ==> s == v.value.s
  {
    if v.None? || v.value.JNull? then "" else ToJsString(v.value)
  }

  /** One generated question as it is handed to `Quiz.create`: the
      statement and each option coerced to strings (a missing or non-array
      option list becomes empty), the correct index taken as is when it is
      a number and otherwise `Number(x) || 0`; the schema adds the 30-second
      limit and 1000 points. */
  function NormalizeQuestion(p: Json): (q: Question)
    ensures q.enunciado == StringOrEmpty(Prop(p, "enunciado"))
    ensures match Prop(p, "opciones")
      case Some(JArr(xs)) => |q.opciones| == |xs| && forall i :: 0 <= i < |xs| ==> q.opciones[i] == ToJsString(xs[i])
      case _ => q.opciones == []
    ensures match Prop(p, "indiceCorrecta")
      case Some(JNum(n)) => q.indiceCorrecta == n
      case v => q.indiceCorrecta == NumberOr(v, 0)
    ensures q.tiempoSegundos == 30 && q.puntos == 1000
  {
    var opciones :=
      match Prop(p, "opciones")
      case Some(JArr(xs)) => seq(|xs|, i requires 0 <= i < |xs| => ToJsString(xs[i]))
      case _ => [];
    var indice :=
      match Prop(p, "indiceCorrecta")
      case Some(JNum(n)) => n
      case v => NumberOr(v, 0);
    NewQuestion(StringOrEmpty(Prop(p, "enunciado")), opciones, indice)
  }

  /** The JSON form of a question as the prompt asks for it. */
  function QuestionJson(enunciado: string, opciones: seq<string>, indice: int): Json {
    JObj([("enunciado", JStr(enunciado)),
          ("opciones", JArr(seq(|opciones|, i requires 0 <= i < |opciones| => JStr(opciones[i])))),
          ("indiceCorrecta", JNum(indice))])
  }

  /** A question in the requested shape is normalised to exactly itself. */
  lemma NormalizeWellFormed(enunciado: string, opciones: seq<string>, indice: int)
    ensures NormalizeQuestion(QuestionJson(enunciado, opciones, indice)) == NewQuestion(enunciado, opciones, indice)
  {
    var j := QuestionJson(enunciado, opciones, indice);
    var xs := seq(|opciones|, i requires 0 <= i < |opciones| => JStr(opciones[i]));
    var f := j.fields;
    assert f[..2] == [("enunciado", JStr(enunciado)), ("opciones", JArr(xs))];
    assert f[..|f| - 1] == f[..2];
    assert f[..2][..1] == [("enunciado", JStr(enunciado))];
    assert LastField(f, "enunciado") == LastField(f[..2], "enunciado");
    assert Prop(j, "indiceCorrecta") == Some(JNum(indice));
    assert Prop(j, "opciones") == LastField(f[..2], "opciones") == Some(JArr(xs));
    assert Prop(j, "enunciado") == LastField(f[..2][..1], "enunciado") == Some(JStr(enunciado));
    assert NormalizeQuestion(j).opciones == opciones;
  }

  /** `Array.isArray(parsed.preguntas) ? parsed.preguntas : []`. */
  function PreguntasIA(parsed: Json): (r: seq<Json>)
    ensures !parsed.JObj? ==> r == []
    ensures r != [] ==> Prop(parsed, "preguntas") == Some(JArr(r))
  {
    match Prop(parsed, "preguntas")
    case Some(JArr(xs)) => xs
    case _ => []
  }

  /** The questions the AI route will store, or the error it answers with.
      `parse` stands for `JSON.parse` (None: it throws). */
  function AiQuestions(raw: string, parse: string -> Option<Json>): (r: Result<seq<Question>>)
    ensures raw == "" ==> r == Fail(500, MsgAiEmpty)
    ensures raw != "" && parse(StripFences(raw)).None? ==> r == Fail(500, MsgAiUnparsable)
    ensures (raw != "" && parse(StripFences(raw)).Some? && parse(StripFences(raw)).value != JNull
             && PreguntasIA(parse(StripFences(raw)).value) == []) ==> r == Fail(500, MsgAiNoQuestions)
    ensures r.Err? ==> r.failure.status == 500
    ensures r.Ok? ==>
      raw != "" && parse(StripFences(raw)).Some?
      && var xs := PreguntasIA(parse(StripFences(raw)).value);
         |r.value| == |xs| > 0
         && (forall i :: 0 <= i < |xs| ==> r.value[i] == NormalizeQuestion(xs[i]))
         && (forall i :: 0 <= i < |xs| ==> QuestionValid(r.value[i]))
  {
    if raw == "" then Fail(500, MsgAiEmpty)
    else
      match parse(StripFences(raw))
      case None => Fail(500, MsgAiUnparsable)
      case Some(parsed) => QuestionsOfReply(parsed)
  }

  /** The questions of a parsed reply: reading `preguntas` of `null`
      throws, which ends in the route's generic error. */
  function QuestionsOfReply(parsed: Json): (r: Result<seq<Question>>)
    ensures parsed.JNull? ==> r == Fail(500, MsgAiFailed)
    ensures !parsed.JNull? && PreguntasIA(parsed) == [] ==> r == Fail(500, MsgAiNoQuestions)
    ensures r.Err? ==> r.failure.status == 500
    ensures r.Ok? ==> (|r.value| == |PreguntasIA(parsed)| > 0
      && forall i :: 0 <= i < |r.value| ==> r.value[i] == NormalizeQuestion(PreguntasIA(parsed)[i]))
  {
    if parsed.JNull? then Fail(500, MsgAiFailed) else QuestionsOfItems(PreguntasIA(parsed))
  }

  /** The listed questions normalised and checked by the schema: none is
      an error of its own, and a `null` item (whose properties cannot be
      read) or a question the schema refuses is the generic error. */
  function QuestionsOfItems(xs: seq<Json>): (r: Result<seq<Question>>)
    ensures xs == [] ==> r == Fail(500, MsgAiNoQuestions)
    ensures r.Err? ==> r.failure.status == 500
    ensures r.Ok? <==> |xs| > 0 && forall i :: 0 <= i < |xs| ==> Acceptable(xs[i])
    ensures r.Ok? ==>
      |r.value| == |xs|
      && (forall i :: 0 <= i < |xs| ==> r.value[i] == NormalizeQuestion(xs[i]))
      && (forall i :: 0 <= i < |xs| ==> QuestionValid(r.value[i]))
  {
    if |xs| == 0 then Fail(500, MsgAiNoQuestions)
    else if exists i :: 0 <= i < |xs| && xs[i].JNull? then Fail(500, MsgAiFailed)
    else
      var qs := NormalizeAll(xs);
      if forall i :: 0 <= i < |qs| ==> QuestionValid(qs[i]) then Ok(qs)
      else Fail(500, MsgAiFailed)
  }

  /** A listed question that is stored as it is normalised. */
  predicate Acceptable(x: Json) {
    x != JNull && QuestionValid(NormalizeQuestion(x))
  }

  /** `preguntas.map(normalizarPregunta)`. */
  function NormalizeAll(xs: seq<Json>): (r: seq<Question>)
    ensures |r| == |xs|
    ensures forall i :: 0 <= i < |xs| ==> r[i] == NormalizeQuestion(xs[i])
  {
    if xs == [] then [] else [NormalizeQuestion(xs[0])] + NormalizeAll(xs[1..])
  }

  /** A reply in the requested shape, fenced or not, with at least one
      question of at least two options and a non-empty statement, is turned
      into exactly those questions. */
  lemma AiQuestionsAccepts(raw: string, parse: string -> Option<Json>, qs: seq<Json>)
    requires raw != "" && parse(StripFences(raw)) == Some(JObj([("preguntas", JArr(qs))]))
    requires |qs| > 0
    requires forall i :: 0 <= i < |qs| ==> qs[i] != JNull && QuestionValid(NormalizeQuestion(qs[i]))
    ensures AiQuestions(raw, parse).Ok?
    ensures |AiQuestions(raw, parse).value| == |qs|
    ensures forall i :: 0 <= i < |qs| ==> AiQuestions(raw, parse).value[i] == NormalizeQuestion(qs[i])
  {
    var parsed := JObj([("preguntas", JArr(qs))]);
    assert PreguntasIA(parsed) == qs by {
      assert Prop(parsed, "preguntas") == Some(JArr(qs));
    }
    assert forall i :: 0 <= i < |qs| ==> Acceptable(qs[i]);
  }

  // ---------------------------------------------------------------------
  // Publishing and editing

  /** `PATCH /:id/publicar` on one document: a quiz already published with
      a (truthy) code is returned as it is; otherwise it becomes Publicado
      and keeps its code, receiving `drawn` only when it has none or an
      empty one. */
  function PublishQuiz(q: Quiz, drawn: string): (r: Quiz)
    ensures r.estado == Publicado && r.codigoAcceso.Some?
    ensures Truthy(q.codigoAcceso) ==> r.codigoAcceso == q.codigoAcceso
    ensures !Truthy(q.codigoAcceso) ==> r.codigoAcceso == Some(drawn)
    ensures r.id == q.id && r.titulo == q.titulo && r.curso == q.curso && r.preguntas == q.preguntas
  {
    if q.estado == Publicado && Truthy(q.codigoAcceso) then q
    else
      var code := if Truthy(q.codigoAcceso) then q.codigoAcceso else Some(drawn);
      q.(estado := Publicado, codigoAcceso := code)
  }

  /** Publishing an already published quiz changes nothing, whatever code
      would have been drawn. A drawn code is six digits, never empty. */
  lemma PublishIdempotent(q: Quiz, c1: string, c2: string)
    requires c1 != ""
    ensures PublishQuiz(PublishQuiz(q, c1), c2) == PublishQuiz(q, c1)
  {
  }

  /** `findByIdAndUpdate(id, { titulo, preguntas })`: a field left
      undefined is dropped from the update. */
  function EditQuiz(q: Quiz, titulo: Option<string>, preguntas: Option<seq<Question>>): (r: Quiz)
    ensures r.id == q.id && r.curso == q.curso && r.estado == q.estado && r.codigoAcceso == q.codigoAcceso
    ensures r.titulo == (if titulo.Some? then titulo.value else q.titulo)
    ensures r.preguntas == (if preguntas.Some? then preguntas.value else q.preguntas)
  {
    q.(titulo := titulo.GetOr(q.titulo), preguntas := preguntas.GetOr(q.preguntas))
  }

  /** An edit with nothing in it is the identity, and repeating an edit has
      no further effect. */
  lemma EditLaws(q: Quiz, titulo: Option<string>, preguntas: Option<seq<Question>>)
    ensures EditQuiz(q, None, None) == q
    ensures EditQuiz(EditQuiz(q, titulo, preguntas), titulo, preguntas) == EditQuiz(q, titulo, preguntas)
  {
  }

  /** `GET /join/:codigo`: `Quiz.findOne({ codigoAcceso: codigo })`, or
      404 when no quiz holds the code. */
  function BuscarPorCodigo(quizzes: map<Id, Quiz>, codigo: string, bound: nat): (r: Result<Quiz>)
    requires forall k :: k in quizzes ==> quizzes[k].id == k
    ensures r.Ok? ==> r.value.codigoAcceso == Some(codigo) && r.value.id in quizzes && quizzes[r.value.id] == r.value
    ensures r.Err? <==> forall k :: k < bound && k in quizzes ==> quizzes[k].codigoAcceso != Some(codigo)
    ensures r.Err? ==> r == Fail(404, MsgCodeNotFound)
  {
    match Queries.FindFirst(quizzes, (q: Quiz) => q.codigoAcceso == Some(codigo), bound)
    case None => Fail(404, MsgCodeNotFound)
    case Some(k) => Ok(quizzes[k])
  }

  /** Codes being unique, the quiz found by a code is the one quiz that
      holds it. */
  lemma BuscarPorCodigoUnique(quizzes: map<Id, Quiz>, codigo: string, bound: nat, k: Id)
    requires forall j :: j in quizzes ==> quizzes[j].id == j
    requires CodesUnique(quizzes)
    requires k < bound && k in quizzes && quizzes[k].codigoAcceso == Some(codigo)
    ensures BuscarPorCodigo(quizzes, codigo, bound) == Ok(quizzes[k])
  {
    var p := (q: Quiz) => q.codigoAcceso == Some(codigo);
    forall j | j < bound && j in quizzes && p(quizzes[j]) ensures j == k {
    }
    Queries.FindFirstUnique(quizzes, p, bound, k);
  }

  // ---------------------------------------------------------------------
  // Progress records

  predicate OfUserQuiz(p: Progress, user: Id, quiz: Id) {
    p.user == user && p.quiz == quiz
  }

  predicate HasKey(p: Progress, user: Id, quiz: Id, course: Id) {
    p.user == user && p.quiz == quiz && p.course == course
  }

  /** `a` sorts before `b` under `sort({ finishedAt: -1 })`: a later time
      first, and a missing time after every present one. */
  predicate SortsBefore(a: Progress, b: Progress) {
    a.finishedAt.Some? && (b.finishedAt.None? || a.finishedAt.value > b.finishedAt.value)
  }

  /** The record `findOne(...).sort({ finishedAt: -1 })` returns: no record
      sorts before it, and it sorts strictly before every record stored
      ahead of it (ties go to the one stored first). */
  function LatestIndex(ps: seq<Progress>): (k: nat)
    requires |ps| > 0
    ensures k < |ps|
    ensures forall i :: 0 <= i < |ps| ==> !SortsBefore(ps[i], ps[k])
    ensures forall i :: 0 <= i < k ==> SortsBefore(ps[k], ps[i])
    decreases |ps|
  {
    if |ps| == 1 then 0
    else
      var k := LatestIndex(ps[..|ps| - 1]);
      if SortsBefore(ps[|ps| - 1], ps[k]) then |ps| - 1 else k
  }

  /** `GET /:quizId/estado-estudiante`: with no record for (user, quiz),
      status pendiente and a null score; otherwise the status and score of
      the record that sorts first. */
  function StatusLookup(ps: seq<Progress>, user: Id, quiz: Id): (r: (ProgressStatus, Option<int>))
    ensures (forall i :: 0 <= i < |ps| ==> !OfUserQuiz(ps[i], user, quiz)) ==> r == (pendiente, None)
    ensures (exists i :: 0 <= i < |ps| && OfUserQuiz(ps[i], user, quiz)) ==>
      exists p :: p in ps && OfUserQuiz(p, user, quiz) && r == (p.status, p.score)
        && forall i :: 0 <= i < |ps| && OfUserQuiz(ps[i], user, quiz) ==> !SortsBefore(ps[i], p)
  {
    var mine := Seqs.Filter((p: Progress) => OfUserQuiz(p, user, quiz), ps);
    if mine == [] then (pendiente, None)
    else
      var p := mine[LatestIndex(mine)];
      assert forall i :: 0 <= i < |ps| && OfUserQuiz(ps[i], user, quiz) ==> ps[i] in mine;
      (p.status, p.score)
  }

  /** Position of the first record with key (user, quiz, course), or -1. */
  function FirstWithKey(ps: seq<Progress>, user: Id, quiz: Id, course: Id): (i: int)
    ensures -1 <= i < |ps|
    ensures i >= 0 ==> HasKey(ps[i], user, quiz, course)
    ensures forall j :: 0 <= j < |ps| && (i == -1 || j < i) ==> !HasKey(ps[j], user, quiz, course)
    decreases |ps|
  {
    if ps == [] then -1
    else if HasKey(ps[0], user, quiz, course) then 0
    else
      var i := FirstWithKey(ps[1..], user, quiz, course);
      if i == -1 then -1 else i + 1
  }

  /** The submitted state of a record. */
  function Completed(p: Progress, score: int, now: int): Progress {
    p.(status := completado, score := Some(score), finishedAt := Some(now))
  }

  /** `findOneAndUpdate({ user, quiz, course }, { completado, score,
      finishedAt }, { upsert: true })`: the first record with the key is
      updated; when there is none, a new record is appended. */
  function Upsert(ps: seq<Progress>, user: Id, quiz: Id, course: Id, score: int, now: int): (r: seq<Progress>)
    ensures FirstWithKey(ps, user, quiz, course) == -1 ==>
      r == ps + [Completed(NewProgress(user, quiz, course), score, now)]
    ensures FirstWithKey(ps, user, quiz, course) >= 0 ==>
      var i := FirstWithKey(ps, user, quiz, course); r == ps[i := Completed(ps[i], score, now)]
  {
    var i := FirstWithKey(ps, user, quiz, course);
    if i == -1 then ps + [Completed(NewProgress(user, quiz, course), score, now)]
    else ps[i := Completed(ps[i], score, now)]
  }

  /** A submission leaves exactly one record more for its key when there
      was none and the same number otherwise; every record with another key
      is untouched. */
  lemma UpsertRecordCount(ps: seq<Progress>, user: Id, quiz: Id, course: Id, score: int, now: int)
    ensures var key := (p: Progress) => HasKey(p, user, quiz, course);
      var r := Upsert(ps, user, quiz, course, score, now);
      |Seqs.Filter(key, r)| == (if |Seqs.Filter(key, ps)| == 0 then 1 else |Seqs.Filter(key, ps)|)
    ensures var r := Upsert(ps, user, quiz, course, score, now);
      |ps| <= |r| <= |ps| + 1
      && forall j :: 0 <= j < |ps| && !HasKey(ps[j], user, quiz, course) ==> r[j] == ps[j]
  {
    var key := (p: Progress) => HasKey(p, user, quiz, course);
    var i := FirstWithKey(ps, user, quiz, course);
    var x := Completed(NewProgress(user, quiz, course), score, now);
    if i == -1 {
      Seqs.FilterConcat(key, ps, [x]);
      Seqs.FilterNone(key, ps);
    } else {
      Seqs.FilterCountUpdate(key, ps, i, Completed(ps[i], score, now));
      assert ps[i] in Seqs.Filter(key, ps);
    }
  }

  /** Submitting again for the same key is the same as submitting once with
      the later values: the second submission overwrites the first. */
  lemma ResubmitOverwrites(ps: seq<Progress>, user: Id, quiz: Id, course: Id, s1: int, t1: int, s2: int, t2: int)
    ensures Upsert(Upsert(ps, user, quiz, course, s1, t1), user, quiz, course, s2, t2)
         == Upsert(ps, user, quiz, course, s2, t2)
  {
    var i := FirstWithKey(ps, user, quiz, course);
    var once := Upsert(ps, user, quiz, course, s1, t1);
    var j := if i == -1 then |ps| else i;
    assert |once| > j && HasKey(once[j], user, quiz, course);
    assert forall k :: 0 <= k < j ==> once[k] == ps[k];
    var f := FirstWithKey(once, user, quiz, course);
    assert f == j;
    if i == -1 {
      assert once[j := Completed(once[j], s2, t2)] == ps + [Completed(NewProgress(user, quiz, course), s2, t2)];
    }
  }

  /** After a submission stamped later than every earlier finish time of
      that user on that quiz, the status route reports it: completado, with
      the submitted score. */
  lemma SubmitThenStatus(ps: seq<Progress>, user: Id, quiz: Id, course: Id, score: int, now: int)
    requires forall i :: 0 <= i < |ps| && OfUserQuiz(ps[i], user, quiz) && ps[i].finishedAt.Some? ==>
               ps[i].finishedAt.value < now
    ensures StatusLookup(Upsert(ps, user, quiz, course, score, now), user, quiz) == (completado, Some(score))
  {
    var r := Upsert(ps, user, quiz, course, score, now);
    var i := FirstWithKey(ps, user, quiz, course);
    var j := if i == -1 then |ps| else i;
    assert 0 <= j < |r| && OfUserQuiz(r[j], user, quiz);
    assert r[j].status == completado && r[j].score == Some(score) && r[j].finishedAt == Some(now);
    forall m | 0 <= m < |r| && m != j && OfUserQuiz(r[m], user, quiz)
      ensures SortsBefore(r[j], r[m])
    {
      assert r[m] == ps[m];
    }
    var p :| p in r && OfUserQuiz(p, user, quiz) && StatusLookup(r, user, quiz) == (p.status, p.score)
      && forall m :: 0 <= m < |r| && OfUserQuiz(r[m], user, quiz) ==> !SortsBefore(r[m], p);
    var m :| 0 <= m < |r| && r[m] == p;
    assert m == j;
  }
}
