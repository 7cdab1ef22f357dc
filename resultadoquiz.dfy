/** The results screen: the percentage of right answers and the message
    chosen for it, from what the quiz screen passed on. */
module ResultadoQuiz {
  import opened Wrappers
  import opened Models
  import FrontCommon
  import QuizPlay

  const MsgPerfecto: string := "¡Perfecto! 🌟 Lo hiciste increíble"
  const MsgExcelente: string := "¡Excelente trabajo! 🔥"
  const MsgMuyBien: string := "¡Muy bien! Puedes mejorar aún más 💪"
  const MsgAnimo: string := "Ánimo, sigue practicando ✨"
  const MsgNoTeRindas: string := "No te rindas, tú puedes 💜"

  /** `state?.total || 0` and `state?.correctas || 0`: a missing value
      (no navigation state, or no such entry) counts as 0. */
  function OrZero(v: Option<int>): (n: int)
    ensures v.None? ==> n == 0
    ensures v.Some? ==> n == v.value
  {
    v.GetOr(0)
  }

  /** `Math.round((correctas / total) * 100)` when `total > 0`, else 0. */
  function Porcentaje(total: int, correctas: int): (p: int)
    ensures total <= 0 ==> p == 0
    ensures 0 <= correctas <= total ==> 0 <= p <= 100
    ensures 0 < total && correctas == total ==> p == 100
    ensures 0 < total && correctas == 0 ==> p == 0
  {
    if total > 0 then
      FrontCommon.RoundRatioLaws(correctas, total, 100);
      FrontCommon.RoundRatio(correctas, total, 100)
    else 0
  }

  /** The message tiers: exactly 100, then the thresholds 80, 60 and 40. */
  function Mensaje(porcentaje: int): (m: string)
    ensures porcentaje == 100 ==> m == MsgPerfecto
    ensures porcentaje != 100 && porcentaje >= 80 ==> m == MsgExcelente
    ensures 60 <= porcentaje < 80 ==> m == MsgMuyBien
    ensures 40 <= porcentaje < 60 ==> m == MsgAnimo
    ensures porcentaje < 40 ==> m == MsgNoTeRindas
  {
    if porcentaje == 100 then MsgPerfecto
    else if porcentaje >= 80 then MsgExcelente
    else if porcentaje >= 60 then MsgMuyBien
    else if porcentaje >= 40 then MsgAnimo
    else MsgNoTeRindas
  }

  /** The five messages are different, so the message tells which tier the
      percentage falls in. */
  lemma MensajeDistinguishesTiers(p: int, q: int)
    requires Mensaje(p) == Mensaje(q)
    ensures p == 100 <==> q == 100
    ensures (p >= 80 && p != 100) <==> (q >= 80 && q != 100)
    ensures 60 <= p < 80 <==> 60 <= q < 80
    ensures 40 <= p < 60 <==> 40 <= q < 60
  {
    assert MsgPerfecto[1] != MsgExcelente[1] && MsgPerfecto[1] != MsgMuyBien[1];
    assert MsgExcelente[1] != MsgMuyBien[1] && MsgAnimo[0] != MsgNoTeRindas[0];
    assert MsgPerfecto[0] != MsgAnimo[0] && MsgPerfecto[0] != MsgNoTeRindas[0];
    assert MsgExcelente[0] != MsgAnimo[0] && MsgExcelente[0] != MsgNoTeRindas[0];
    assert MsgMuyBien[0] != MsgAnimo[0] && MsgMuyBien[0] != MsgNoTeRindas[0];
  }

  /** Because of rounding, "Perfecto" is shown whenever at least 199 of
      every 200 answers are right, not only when all of them are. */
  lemma PerfectoThreshold(total: int, correctas: int)
    requires 0 < total && 0 <= correctas <= total
    ensures Porcentaje(total, correctas) == 100 <==> 200 * correctas >= 199 * total
  {
    var r := FrontCommon.RoundRatio(correctas, total, 100);
    FrontCommon.RoundRatioLaws(correctas, total, 100);
    assert Porcentaje(total, correctas) == r;
    if r == 100 {
      assert 2 * total * 100 <= 200 * correctas + total;
    } else {
      assert r <= 99;
      FrontCommon.MulLe(2 * total, r, 99);
      assert 200 * correctas + total < 2 * total * 99 + 2 * total;
    }
  }

  lemma PerfectoWithAMistake()
    ensures Porcentaje(200, 199) == 100 && Mensaje(Porcentaje(200, 199)) == MsgPerfecto
  {
    PerfectoThreshold(200, 199);
  }

  /** The results screen of a play: the percentage is in [0, 100], a play
      with every answer right reads "Perfecto" with 10 points, and the
      "Volver" button leads to the quiz's course when it has one. */
  lemma ResultadoOfPlay(claves: seq<int>, respuestas: seq<int>, curso: Option<Id>)
    requires |claves| > 0 && |respuestas| == |claves|
    ensures var r := QuizPlay.ResultadoDe(claves, respuestas, curso);
      0 <= Porcentaje(r.total, r.correctas) <= 100
      && FrontCommon.Volver(r.cursoId) == (if curso.Some? then FrontCommon.CursoEstudiante(curso.value) else FrontCommon.Dashboard)
    ensures respuestas == claves ==>
      var r := QuizPlay.ResultadoDe(claves, respuestas, curso);
      Mensaje(Porcentaje(r.total, r.correctas)) == MsgPerfecto && r.puntaje == 10
  {
    if respuestas == claves {
      QuizPlay.AciertosExtremes(claves, respuestas);
    }
  }
}
