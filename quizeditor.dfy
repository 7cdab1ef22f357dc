/** The teacher's question editor: the list of questions held by the page,
    the updaters its inputs apply to that list, the validation run before saving
    and the normalisation of what is sent. Questions come back from the
    server as they were stored, so the options may be missing and the
    correct index may be any JSON value. */
module QuizEditor {
  import opened Wrappers
  import opened Json
  import opened Models
  import Text
  import Seqs
  import QuizLogic

  const MsgNoQuestions: string := "El quiz debe tener al menos 1 pregunta."
  const MsgTitleRequired: string := "El título del quiz es obligatorio."

  /** One question as the page holds it. */
  datatype EditorQuestion = EditorQuestion(enunciado: string, opciones: Option<seq<string>>, indiceCorrecta: Json)

  /** The question the page offers when adding one: no statement, four
      empty options, the first one marked correct. */
  const BlankQuestion: EditorQuestion := EditorQuestion("", Some(["", "", "", ""]), JNum(0))

  /** The list the page starts from: the loaded questions, or a single
      blank question when the quiz has none. */
  function Inicial(loaded: Option<seq<EditorQuestion>>): (r: seq<EditorQuestion>)
    ensures |r| >= 1
    ensures loaded.Some? && loaded.value != [] ==> r == loaded.value
    ensures loaded.None? || loaded.value == [] ==> r == [BlankQuestion]
  {
    if loaded.Some? && |loaded.value| > 0 then loaded.value else [BlankQuestion]
  }

  // ---------------------------------------------------------------------
  // Updaters

  /** The statement input of question `idx`. */
  function ActualizarEnunciado(ps: seq<EditorQuestion>, idx: int, valor: string): (r: seq<EditorQuestion>)
    ensures |r| == |ps|
    ensures 0 <= idx < |ps| ==> r[idx].enunciado == valor && r[idx].opciones == ps[idx].opciones
                                && r[idx].indiceCorrecta == ps[idx].indiceCorrecta
    ensures forall i :: 0 <= i < |ps| && i != idx ==> r[i] == ps[i]
  {
    seq(|ps|, i requires 0 <= i < |ps| => if i == idx then ps[i].(enunciado := valor) else ps[i])
  }

  /** Writing back the statement a question had undoes an edit. */
  lemma ActualizarEnunciadoUndo(ps: seq<EditorQuestion>, idx: int, valor: string)
    requires 0 <= idx < |ps|
    ensures ActualizarEnunciado(ActualizarEnunciado(ps, idx, valor), idx, ps[idx].enunciado) == ps
  {
    var r := ActualizarEnunciado(ActualizarEnunciado(ps, idx, valor), idx, ps[idx].enunciado);
    assert forall i :: 0 <= i < |ps| ==> r[i] == ps[i];
  }

  /** A list of options filled up with "" to at least four entries. */
  function Padded(xs: seq<string>): (r: seq<string>)
    ensures |r| == if |xs| < 4 then 4 else |xs|
    ensures r[..|xs|] == xs
    ensures forall i :: |xs| <= i < |r| ==> r[i] == ""
  {
    if |xs| < 4 then xs + seq(4 - |xs|, _ => "") else xs
  }

  /** The padding loop of the option updater: a copy of the options with
      "" pushed until there are four. */
  method PadOpciones(xs: seq<string>) returns (r: seq<string>)
    ensures r == Padded(xs)
  {
    r := xs;
    while |r| < 4
      invariant |xs| <= |r| && r[..|xs|] == xs
      invariant |xs| < 4 ==> |r| <= 4
      invariant |xs| >= 4 ==> r == xs
      invariant forall i :: |xs| <= i < |r| ==> r[i] == ""
      decreases 4 - |r|
    {
      r := r + [""];
    }
  }

  /** The option input `idxOpcion` of question `idxPregunta`: that
      question's options are padded to four and the slot overwritten. The
      page renders four option inputs, so the slot is one of them. */
  function ActualizarOpcion(ps: seq<EditorQuestion>, idxPregunta: int, idxOpcion: nat, valor: string): (r: seq<EditorQuestion>)
    requires idxOpcion < 4
    ensures |r| == |ps|
    ensures forall i :: 0 <= i < |ps| && i != idxPregunta ==> r[i] == ps[i]
    ensures 0 <= idxPregunta < |ps| ==>
      var before := ps[idxPregunta].opciones.GetOr([]);
      var q := r[idxPregunta];
      q.enunciado == ps[idxPregunta].enunciado && q.indiceCorrecta == ps[idxPregunta].indiceCorrecta
      && q.opciones.Some? && |q.opciones.value| == (if |before| < 4 then 4 else |before|)
      && q.opciones.value[idxOpcion] == valor
      && (forall j :: 0 <= j < |before| && j != idxOpcion ==> q.opciones.value[j] == before[j])
      && (forall j :: |before| <= j < |q.opciones.value| && j != idxOpcion ==> q.opciones.value[j] == "")
  {
    seq(|ps|, i requires 0 <= i < |ps| =>
      if i == idxPregunta then ps[i].(opciones := Some(Padded(ps[i].opciones.GetOr([]))[idxOpcion := valor]))
      else ps[i])
  }

  /** Repeating an option edit changes nothing further. */
  lemma ActualizarOpcionIdempotent(ps: seq<EditorQuestion>, idxPregunta: int, idxOpcion: nat, valor: string)
    requires idxOpcion < 4
    ensures ActualizarOpcion(ActualizarOpcion(ps, idxPregunta, idxOpcion, valor), idxPregunta, idxOpcion, valor)
         == ActualizarOpcion(ps, idxPregunta, idxOpcion, valor)
  {
    var once := ActualizarOpcion(ps, idxPregunta, idxOpcion, valor);
    var twice := ActualizarOpcion(once, idxPregunta, idxOpcion, valor);
    forall i | 0 <= i < |ps| ensures twice[i] == once[i] {
      if i == idxPregunta {
        var o := once[i].opciones.value;
        assert Padded(o) == o;
        assert o[idxOpcion := valor] == o;
      }
    }
  }

  /** The four option inputs a question card shows: the first four
      options, padded with "". */
  function VisibleOpciones(q: EditorQuestion): (r: seq<string>)
    ensures |r| == 4
  {
    Padded(Seqs.JsSlice(q.opciones.GetOr([]), 4))
  }

  /** The card's own copy-and-push loop computes the same four slots. */
  method VisibleOpcionesLoop(q: EditorQuestion) returns (r: seq<string>)
    ensures r == VisibleOpciones(q)
  {
    r := Seqs.JsSlice(q.opciones.GetOr([]), 4);
    r := PadOpciones(r);
  }

  /** After editing an option, its input shows the new text and every
      other input of the card shows what it showed before. */
  lemma ActualizarOpcionShown(ps: seq<EditorQuestion>, idxPregunta: int, idxOpcion: nat, valor: string)
    requires idxOpcion < 4 && 0 <= idxPregunta < |ps|
    ensures var shown := VisibleOpciones(ActualizarOpcion(ps, idxPregunta, idxOpcion, valor)[idxPregunta]);
      shown == VisibleOpciones(ps[idxPregunta])[idxOpcion := valor]
  {
    var before := ps[idxPregunta].opciones.GetOr([]);
    var after := ActualizarOpcion(ps, idxPregunta, idxOpcion, valor)[idxPregunta].opciones.value;
    var shown := VisibleOpciones(ActualizarOpcion(ps, idxPregunta, idxOpcion, valor)[idxPregunta]);
    var expected := VisibleOpciones(ps[idxPregunta])[idxOpcion := valor];
    assert Seqs.JsSlice(after, 4) == after[..4];
    forall j | 0 <= j < 4 ensures shown[j] == expected[j] {
      if j < |before| {
        assert Seqs.JsSlice(before, 4)[j] == before[j];
      }
    }
  }

  /** The radio button of option `idxCorrecta` on question `idxPregunta`. */
  function CambiarCorrecta(ps: seq<EditorQuestion>, idxPregunta: int, idxCorrecta: int): (r: seq<EditorQuestion>)
    ensures |r| == |ps|
    ensures 0 <= idxPregunta < |ps| ==>
      r[idxPregunta].indiceCorrecta == JNum(idxCorrecta)
      && r[idxPregunta].enunciado == ps[idxPregunta].enunciado && r[idxPregunta].opciones == ps[idxPregunta].opciones
    ensures forall i :: 0 <= i < |ps| && i != idxPregunta ==> r[i] == ps[i]
  {
    seq(|ps|, i requires 0 <= i < |ps| => if i == idxPregunta then ps[i].(indiceCorrecta := JNum(idxCorrecta)) else ps[i])
  }

  /** "Agregar pregunta": a blank question at the end. */
  function Agregar(ps: seq<EditorQuestion>): (r: seq<EditorQuestion>)
    ensures |r| == |ps| + 1 && r[..|ps|] == ps && r[|ps|] == BlankQuestion
  {
    ps + [BlankQuestion]
  }

  /** Removing the question just added gives the list back. */
  lemma AgregarThenEliminar(ps: seq<EditorQuestion>)
    ensures Seqs.RemoveAt(Agregar(ps), |ps|) == ps
  {
    assert Agregar(ps)[..|ps|] == ps;
  }

  // ---------------------------------------------------------------------
  // Validation before saving

  predicate Filled(s: string) {
    s != ""
  }

  /** `(p.opciones ?? []).map(o => o.trim())`. */
  function TrimmedOpciones(q: EditorQuestion): (r: seq<string>)
    ensures |r| == |q.opciones.GetOr([])|
    ensures forall i :: 0 <= i < |r| ==> r[i] == Text.Trim(q.opciones.GetOr([])[i])
  {
    Seqs.Map(Text.Trim, q.opciones.GetOr([]))
  }

  /** Every character is whitespace: what trimming leaves empty. */
  predicate AllWhitespace(s: string)
    decreases |s|
  {
    s == [] || (Text.IsJsWhitespace(s[0]) && AllWhitespace(s[1..]))
  }

  lemma {:induction false} AllWhitespaceEvery(s: string)
    ensures AllWhitespace(s) <==> forall i :: 0 <= i < |s| ==> Text.IsJsWhitespace(s[i])
    decreases |s|
  {
    if s != [] {
      AllWhitespaceEvery(s[1..]);
      assert forall i :: 1 <= i < |s| ==> s[1..][i - 1] == s[i];
    }
  }

  lemma AllWhitespaceIsBlank(s: string)
    ensures AllWhitespace(s) <==> Text.Blank(s)
  {
    AllWhitespaceEvery(s);
    Text.BlankIffAllWhitespace(s);
  }

  /** How many options are non-empty once trimmed. */
  function FilledCount(o: seq<string>): (n: nat)
    ensures n <= |o|
    decreases |o|
  {
    if o == [] then 0 else (if AllWhitespace(o[0]) then 0 else 1) + FilledCount(o[1..])
  }

  /** `FilledCount` is what the page computes: the length of the list of
      trimmed options filtered on being non-empty. */
  lemma {:induction false} FilledCountIsFilterLength(o: seq<string>)
    ensures FilledCount(o) == Seqs.Count(Filled, Seqs.Map(Text.Trim, o))
    decreases |o|
  {
    if o != [] {
      var t := Seqs.Map(Text.Trim, o);
      assert t == [Text.Trim(o[0])] + Seqs.Map(Text.Trim, o[1..]);
      assert t[1..] == Seqs.Map(Text.Trim, o[1..]);
      FilledCountIsFilterLength(o[1..]);
      AllWhitespaceIsBlank(o[0]);
    }
  }

  /** `!p.enunciado.trim()` fails. */
  predicate HasStatement(q: EditorQuestion) {
    !AllWhitespace(q.enunciado)
  }

  /** At least two options, and at least two of them non-empty once trimmed. */
  predicate HasTwoOptions(q: EditorQuestion) {
    |q.opciones.GetOr([])| >= 2 && FilledCount(q.opciones.GetOr([])) >= 2
  }

  /** The two predicates are the page's tests as written. */
  lemma QuestionChecksAsWritten(q: EditorQuestion)
    ensures HasStatement(q) <==> !Text.Blank(q.enunciado)
    ensures HasTwoOptions(q) <==> !(|TrimmedOpciones(q)| < 2 || Seqs.Count(Filled, TrimmedOpciones(q)) < 2)
  {
    AllWhitespaceIsBlank(q.enunciado);
    FilledCountIsFilterLength(q.opciones.GetOr([]));
  }

  predicate QuestionOk(q: EditorQuestion) {
    HasStatement(q) && HasTwoOptions(q)
  }

  /** The message for question number `n` (counting from 1), checking the
      statement first. */
  function QuestionError(q: EditorQuestion, n: nat): (r: Option<string>)
    ensures r.None? <==> QuestionOk(q)
  {
    if !HasStatement(q) then Some("La pregunta " + Text.NatToString(n) + " no tiene enunciado.")
    else if !HasTwoOptions(q) then Some("La pregunta " + Text.NatToString(n) + " debe tener al menos 2 opciones.")
    else None
  }

  /** Which questions pass validation, one flag per question. */
  function Oks(ps: seq<EditorQuestion>): (r: seq<bool>)
    ensures |r| == |ps| && forall i :: 0 <= i < |ps| ==> r[i] == QuestionOk(ps[i])
  {
    seq(|ps|, i requires 0 <= i < |ps| => QuestionOk(ps[i]))
  }

  /** Position of the first false flag from `from` on. */
  function FirstFalse(oks: seq<bool>, from: nat): (r: Option<nat>)
    requires from <= |oks|
    ensures r.Some? ==> from <= r.value < |oks| && !oks[r.value] && forall j :: from <= j < r.value ==> oks[j]
    ensures r.None? ==> forall j :: from <= j < |oks| ==> oks[j]
    decreases |oks| - from
  {
    if from == |oks| then None
    else if !oks[from] then Some(from)
    else FirstFalse(oks, from + 1)
  }

  /** What `validarPreguntas` reports: the message for an empty list, the
      message of the first failing question, or nothing. */
  function ValidationError(ps: seq<EditorQuestion>): (r: Option<string>)
    ensures ps == [] ==> r == Some(MsgNoQuestions)
  {
    if ps == [] then Some(MsgNoQuestions)
    else
      match FirstFalse(Oks(ps), 0)
      case None => None
      case Some(i) => QuestionError(ps[i], i + 1)
  }

  /** Validation passes exactly when the list is non-empty and every
      question passes; a failure on a non-empty list is the message of the
      first question that fails. */
  lemma ValidationErrorMeaning(ps: seq<EditorQuestion>)
    ensures ValidationError(ps).None? <==> ps != [] && forall i :: 0 <= i < |ps| ==> QuestionOk(ps[i])
    ensures ps != [] && ValidationError(ps).Some? ==>
      exists i :: 0 <= i < |ps| && !QuestionOk(ps[i]) && (forall j :: 0 <= j < i ==> QuestionOk(ps[j]))
                  && ValidationError(ps) == QuestionError(ps[i], i + 1)
  {
    if ps != [] {
      var oks := Oks(ps);
      match FirstFalse(oks, 0)
      case None =>
        assert forall i :: 0 <= i < |ps| ==> oks[i];
      case Some(i) =>
        assert !oks[i] && forall j :: 0 <= j < i ==> oks[j];
        assert ValidationError(ps) == QuestionError(ps[i], i + 1);
    }
  }

  /** The loop of `validarPreguntas`, returning at the first failure. */
  method ValidarPreguntas(ps: seq<EditorQuestion>) returns (error: Option<string>)
    ensures error == ValidationError(ps)
  {
    if |ps| == 0 {
      return Some(MsgNoQuestions);
    }
    for i := 0 to |ps|
      invariant FirstFalse(Oks(ps), 0) == FirstFalse(Oks(ps), i)
    {
      var p := ps[i];
      QuestionChecksAsWritten(p);
      if Text.Blank(p.enunciado) {
        return Some("La pregunta " + Text.NatToString(i + 1) + " no tiene enunciado.");
      }
      var opciones := TrimmedOpciones(p);
      if |opciones| < 2 || Seqs.Count(Filled, opciones) < 2 {
        return Some("La pregunta " + Text.NatToString(i + 1) + " debe tener al menos 2 opciones.");
      }
    }
    return None;
  }

  // ---------------------------------------------------------------------
  // Saving

  /** The correct index as sent: a number as it is, anything else through
      `Number(v) || 0`. */
  function IndiceNumero(v: Json): (n: int)
    ensures v.JNum? ==> n == v.n
    ensures !v.JNum? && ToNumber(Some(v)).None? ==> n == 0
  {
    if v.JNum? then v.n else NumberOr(Some(v), 0)
  }

  /** A question as sent: statement and options trimmed. */
  function Normalizada(q: EditorQuestion): (r: Question)
    ensures r.enunciado == Text.Trim(q.enunciado) && r.opciones == TrimmedOpciones(q)
    ensures r.indiceCorrecta == IndiceNumero(q.indiceCorrecta)
  {
    NewQuestion(Text.Trim(q.enunciado), TrimmedOpciones(q), IndiceNumero(q.indiceCorrecta))
  }

  datatype SaveOutcome = Refused(message: string) | Request(titulo: string, preguntas: seq<Question>)

  /** "Guardar cambios": a blank title is refused before the questions are
      looked at, then the question check; otherwise the trimmed title and
      the normalised questions are sent. */
  function Guardar(titulo: string, ps: seq<EditorQuestion>): (r: SaveOutcome)
    ensures Text.Blank(titulo) ==> r == Refused(MsgTitleRequired)
    ensures !Text.Blank(titulo) && ValidationError(ps).Some? ==> r == Refused(ValidationError(ps).value)
    ensures r.Request? <==> !Text.Blank(titulo) && ValidationError(ps).None?
    ensures r.Request? ==> r.titulo == Text.Trim(titulo) && |r.preguntas| == |ps|
                           && forall i :: 0 <= i < |ps| ==> r.preguntas[i] == Normalizada(ps[i])
  {
    if Text.Blank(titulo) then Refused(MsgTitleRequired)
    else
      match ValidationError(ps)
      case Some(m) => Refused(m)
      case None => Request(Text.Trim(titulo), seq(|ps|, i requires 0 <= i < |ps| => Normalizada(ps[i])))
  }

  /** A question that passes validation is one the schema accepts once
      normalised. */
  lemma NormalizadaValid(q: EditorQuestion)
    requires QuestionOk(q)
    ensures QuestionValid(Normalizada(q))
  {
    QuestionChecksAsWritten(q);
  }

  /** Whatever the page sends, storing it with `PUT /quizzes/:id` leaves a
      quiz with at least one question that the schema validates, so a later
      publish (which saves the document) does not fail on validation. */
  lemma GuardarYieldsValidQuiz(q: Quiz, titulo: string, ps: seq<EditorQuestion>)
    requires Guardar(titulo, ps).Request?
    ensures var r := Guardar(titulo, ps);
      var stored := QuizLogic.EditQuiz(q, Some(r.titulo), Some(r.preguntas));
      QuizValid(stored) && |stored.preguntas| >= 1
  {
    var r := Guardar(titulo, ps);
    forall i | 0 <= i < |ps| ensures QuestionValid(r.preguntas[i]) {
      NormalizadaValid(ps[i]);
    }
  }
}
