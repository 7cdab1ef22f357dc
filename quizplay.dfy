/** The student's quiz screen: the play state the page advances one answer
    at a time, the score out of ten sent at the end, and the gate that
    shows a quiz already completed instead of playing it again. The pause
    between an answer and the next question is not modelled: answering and
    advancing are one step, and the option buttons are disabled in
    between. */
module QuizPlay {
  import opened Wrappers
  import opened Models
  import FrontCommon
  import QuizLogic

  /** Number of answers that match the key, question by question. */
  function Aciertos(claves: seq<int>, respuestas: seq<int>): (n: nat)
    requires |respuestas| <= |claves|
    ensures n <= |respuestas|
    decreases |respuestas|
  {
    if respuestas == [] then 0
    else
      var k := |respuestas| - 1;
      Aciertos(claves, respuestas[..k]) + (if respuestas[k] == claves[k] then 1 else 0)
  }

  /** Answering every question right scores all of them, and answering
      none right scores none. */
  lemma {:induction false} AciertosExtremes(claves: seq<int>, respuestas: seq<int>)
    requires |respuestas| <= |claves|
    ensures (forall i :: 0 <= i < |respuestas| ==> respuestas[i] == claves[i]) ==> Aciertos(claves, respuestas) == |respuestas|
    ensures (forall i :: 0 <= i < |respuestas| ==> respuestas[i] != claves[i]) ==> Aciertos(claves, respuestas) == 0
    decreases |respuestas|
  {
    if respuestas != [] {
      AciertosExtremes(claves, respuestas[..|respuestas| - 1]);
    }
  }

  /** `Math.round((correctas / total) * 10)`. */
  function PuntajeSobreDiez(correctas: nat, total: nat): (p: int)
    requires 0 < total && correctas <= total
    ensures 0 <= p <= 10
    ensures correctas == total ==> p == 10
    ensures correctas == 0 ==> p == 0
  {
    FrontCommon.RoundRatioLaws(correctas, total, 10);
    FrontCommon.RoundRatio(correctas, total, 10)
  }

  /** What the page hands to the results screen after the last answer. */
  datatype Resultado = Resultado(total: nat, correctas: nat, puntaje: int, cursoId: Option<Id>)

  /** The result a whole sequence of answers leads to. */
  function ResultadoDe(claves: seq<int>, respuestas: seq<int>, curso: Option<Id>): (r: Resultado)
    requires |claves| > 0 && |respuestas| == |claves|
    ensures r.total == |claves| && r.correctas <= r.total && 0 <= r.puntaje <= 10 && r.cursoId == curso
  {
    var c := Aciertos(claves, respuestas);
    Resultado(|claves|, c, PuntajeSobreDiez(c, |claves|), curso)
  }

  /** One play of a quiz: the correct index of each question, the position
      of the question on screen, the running count of right answers, the
      answers given so far, and the result once the last one is given. */
  class Partida {
    const claves: seq<int>
    const curso: Option<Id>
    var indice: nat
    var correctas: nat
    ghost var respuestas: seq<int>
    var resultado: Option<Resultado>

    ghost predicate Valid()
      reads this
    {
      |claves| > 0 && indice < |claves|
      && |respuestas| == (if resultado.None? then indice else |claves|)
      && correctas == Aciertos(claves, respuestas)
      && (resultado.Some? ==> resultado.value == ResultadoDe(claves, respuestas, curso))
    }

    /** The play screen of a loaded quiz with at least one question: the
        first question, no right answers yet. */
    constructor (quiz: Quiz)
      requires |quiz.preguntas| > 0
      ensures Valid()
      ensures |claves| == |quiz.preguntas| && forall i :: 0 <= i < |claves| ==> claves[i] == quiz.preguntas[i].indiceCorrecta
      ensures curso == quiz.curso && indice == 0 && correctas == 0 && respuestas == [] && resultado == None
    {
      claves := seq(|quiz.preguntas|, i requires 0 <= i < |quiz.preguntas| => quiz.preguntas[i].indiceCorrecta);
      curso := quiz.curso;
      indice := 0;
      correctas := 0;
      respuestas := [];
      resultado := None;
    }

    /** `manejarRespuesta`: a right answer (the chosen index is the
        question's `indiceCorrecta`) adds one to the count; then the next
        question is shown, or, after the last one, the final count and the
        score out of ten are computed. */
    method Responder(opcion: int) returns (fin: Option<Resultado>)
      requires Valid() && resultado.None?
      modifies this
      ensures Valid()
      ensures respuestas == old(respuestas) + [opcion]
      ensures correctas == old(correctas) + (if opcion == claves[old(indice)] then 1 else 0)
      ensures old(indice) + 1 < |claves| ==> indice == old(indice) + 1 && fin == None && resultado == None
      ensures old(indice) + 1 >= |claves| ==>
        indice == old(indice) && fin == resultado
        && fin == Some(Resultado(|claves|, correctas, PuntajeSobreDiez(correctas, |claves|), curso))
      ensures fin.Some? ==> fin == Some(ResultadoDe(claves, respuestas, curso))
    {
      var esCorrecta := opcion == claves[indice];
      respuestas := respuestas + [opcion];
      assert respuestas[..|respuestas| - 1] == old(respuestas);
      if esCorrecta {
        correctas := correctas + 1;
      }
      if indice + 1 < |claves| {
        indice := indice + 1;
        fin := None;
      } else {
        var total := |claves|;
        var puntaje := PuntajeSobreDiez(correctas, total);
        fin := Some(Resultado(total, correctas, puntaje, curso));
        resultado := fin;
      }
    }
  }

  /** The body posted on finishing: the quiz's course (an empty string,
      which the server treats as missing, when it has none) and the score. */
  function Envio(r: Resultado): (body: (Option<Id>, Option<int>))
    ensures body.0 == r.cursoId && body.1 == Some(r.puntaje)
  {
    (r.cursoId, Some(r.puntaje))
  }

  /** What the page shows once the status request has answered (None when
      it failed): the "already completed" screen, with the stored score,
      exactly when the status is completado; the play screen otherwise. */
  datatype Pantalla = Jugar | YaCompletado(score: Option<int>)

  function Gate(estado: Option<(ProgressStatus, Option<int>)>): (p: Pantalla)
    ensures p.YaCompletado? <==> estado.Some? && estado.value.0 == completado
    ensures p.YaCompletado? ==> p.score == estado.value.1
  {
    if estado.Some? && estado.value.0 == completado then YaCompletado(estado.value.1) else Jugar
  }

  /** A student whose submission was stored (with a time later than their
      earlier finishes on the quiz) opens the quiz again and gets the
      completed screen with the score they were given. */
  lemma SubmittedQuizIsBlocked(ps: seq<Progress>, user: Id, quiz: Id, course: Id, score: int, now: int)
    requires forall i :: 0 <= i < |ps| && QuizLogic.OfUserQuiz(ps[i], user, quiz) && ps[i].finishedAt.Some? ==>
               ps[i].finishedAt.value < now
    ensures Gate(Some(QuizLogic.StatusLookup(QuizLogic.Upsert(ps, user, quiz, course, score, now), user, quiz)))
         == YaCompletado(Some(score))
  {
    QuizLogic.SubmitThenStatus(ps, user, quiz, course, score, now);
  }
}
