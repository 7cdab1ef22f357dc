/** The student's "join by code" form: the code is trimmed and looked up,
    the student's status on the quiz found is asked for, and a quiz already
    completed refuses entry. The two requests are parameters: the answer
    of the code lookup for a code, and the answer of the status request for
    a quiz id (an `Err` is any failed request). */
module IngresarQuiz {
  import opened Wrappers
  import opened Models
  import Text
  import Seqs
  import FrontCommon
  import QuizLogic
  import Backend

  const MsgCodigoInvalido: string := "Ingresa un código válido."
  const MsgNoEncontrado: string := "No se encontró un quiz con ese código."
  const MsgYaCompletado: string := "Ya completaste este quiz. No puedes resolverlo otra vez."

  /** The input's `maxLength`. */
  const MaxLength: nat := 6

  /** The score sentence appended when the stored score is not null. */
  function PuntajeTexto(score: Option<int>): (t: string)
    ensures score.None? ==> t == ""
    ensures score.Some? ==> t == " Tu puntaje fue " + Text.IntToString(score.value) + "/10."
  {
    match score
    case None => ""
    case Some(s) => " Tu puntaje fue " + Text.IntToString(s) + "/10."
  }

  datatype Salida = Aviso(mensaje: string) | Ir(destino: FrontCommon.Destino)

  /** `handleSubmit`: a code that is blank once trimmed is refused before
      any request; a failed lookup or status request reads "not found"; a
      completed quiz refuses entry (with the score when there is one);
      otherwise the page goes to the quiz found. */
  function Entrar(codigo: string, buscar: string -> Result<Quiz>,
                  estadoDe: Id -> Result<(ProgressStatus, Option<int>)>): (r: Salida)
    ensures Text.Blank(codigo) ==> r == Aviso(MsgCodigoInvalido)
    ensures !Text.Blank(codigo) && buscar(Text.Trim(codigo)).Err? ==> r == Aviso(MsgNoEncontrado)
    ensures !Text.Blank(codigo) && buscar(Text.Trim(codigo)).Ok? ==>
      var q := buscar(Text.Trim(codigo)).value;
      (estadoDe(q.id).Err? ==> r == Aviso(MsgNoEncontrado))
      && (estadoDe(q.id).Ok? && estadoDe(q.id).value.0 == completado ==>
            r == Aviso(MsgYaCompletado + PuntajeTexto(estadoDe(q.id).value.1)))
      && (estadoDe(q.id).Ok? && estadoDe(q.id).value.0 != completado ==> r == Ir(FrontCommon.JugarQuiz(q.id)))
    ensures r.Ir? <==> !Text.Blank(codigo) && buscar(Text.Trim(codigo)).Ok?
                       && estadoDe(buscar(Text.Trim(codigo)).value.id).Ok?
                       && estadoDe(buscar(Text.Trim(codigo)).value.id).value.0 != completado
  {
    var limpio := Text.Trim(codigo);
    if limpio == "" then Aviso(MsgCodigoInvalido)
    else
      match buscar(limpio)
      case Err(_) => Aviso(MsgNoEncontrado)
      case Ok(q) =>
        match estadoDe(q.id)
        case Err(_) => Aviso(MsgNoEncontrado)
        case Ok(estado) =>
          if estado.0 == completado then Aviso(MsgYaCompletado + PuntajeTexto(estado.1))
          else Ir(FrontCommon.JugarQuiz(q.id))
  }

  /** A six-digit code is its own trim. */
  lemma TrimCode(code: string)
    requires Backend.CodeWellFormed(code)
    ensures Text.Trim(code) == code && !Text.Blank(code)
  {
    assert Text.TrimStart(code) == code;
    assert Text.TrimEnd(code) == code;
  }

  /** The server's lookup and status routes as the page sees them. */
  function Buscar(quizzes: map<Id, Quiz>, bound: nat): string -> Result<Quiz>
    requires forall k :: k in quizzes ==> quizzes[k].id == k
  {
    (c: string) requires forall k :: k in quizzes ==> quizzes[k].id == k => QuizLogic.BuscarPorCodigo(quizzes, c, bound)
  }

  function Estado(progress: seq<Progress>, user: Id): Id -> Result<(ProgressStatus, Option<int>)> {
    (quiz: Id) => Ok(QuizLogic.StatusLookup(progress, user, quiz))
  }

  /** Against the server's lookup, the code of a published quiz finds
      that quiz. */
  lemma BuscarPublished(quizzes: map<Id, Quiz>, bound: nat, k: Id)
    requires forall j :: j in quizzes ==> quizzes[j].id == j
    requires Backend.QuizzesValid(quizzes)
    requires k < bound && k in quizzes && quizzes[k].codigoAcceso.Some?
    ensures var code := quizzes[k].codigoAcceso.value;
      Text.Trim(code) == code && !Text.Blank(code) && Buscar(quizzes, bound)(code) == Ok(quizzes[k])
  {
    var code := quizzes[k].codigoAcceso.value;
    assert Buscar(quizzes, bound)(code) == Ok(quizzes[k]) by {
      QuizLogic.BuscarPorCodigoUnique(quizzes, code, bound, k);
    }
    TrimCode(code);
  }

  /** Typing the code of a published quiz the student has not completed
      leads into that quiz. */
  lemma EntrarPending(quizzes: map<Id, Quiz>, bound: nat, progress: seq<Progress>, user: Id, k: Id)
    requires forall j :: j in quizzes ==> quizzes[j].id == j
    requires Backend.QuizzesValid(quizzes)
    requires k < bound && k in quizzes && quizzes[k].codigoAcceso.Some?
    requires QuizLogic.StatusLookup(progress, user, k).0 == pendiente
    ensures Entrar(quizzes[k].codigoAcceso.value, Buscar(quizzes, bound), Estado(progress, user))
         == Ir(FrontCommon.JugarQuiz(k))
  {
    BuscarPublished(quizzes, bound, k);
  }

  /** Once the student's submission has been stored (with a time later
      than their earlier finishes on the quiz), typing the code again is
      refused, quoting the stored score. */
  lemma EntrarAfterSubmit(quizzes: map<Id, Quiz>, bound: nat, progress: seq<Progress>, user: Id, k: Id,
                          course: Id, score: int, now: int)
    requires forall j :: j in quizzes ==> quizzes[j].id == j
    requires Backend.QuizzesValid(quizzes)
    requires k < bound && k in quizzes && quizzes[k].codigoAcceso.Some?
    requires forall i :: 0 <= i < |progress| && QuizLogic.OfUserQuiz(progress[i], user, k) && progress[i].finishedAt.Some? ==>
               progress[i].finishedAt.value < now
    ensures Entrar(quizzes[k].codigoAcceso.value, Buscar(quizzes, bound),
                   Estado(QuizLogic.Upsert(progress, user, k, course, score, now), user))
         == Aviso(MsgYaCompletado + " Tu puntaje fue " + Text.IntToString(score) + "/10.")
  {
    var code := quizzes[k].codigoAcceso.value;
    var after := QuizLogic.Upsert(progress, user, k, course, score, now);
    BuscarPublished(quizzes, bound, k);
    QuizLogic.SubmitThenStatus(progress, user, k, course, score, now);
    var estado := Estado(after, user);
    assert estado(k) == Ok((completado, Some(score)));
    assert Entrar(code, Buscar(quizzes, bound), estado) == Aviso(MsgYaCompletado + PuntajeTexto(Some(score)));
  }

  /** The form's state: the text in the input, the error on display, and
      where the page went, if anywhere. */
  class Formulario {
    var codigo: string
    var error: Option<string>
    var destino: Option<FrontCommon.Destino>
    var cargando: bool

    constructor ()
      ensures codigo == "" && error == None && destino == None && !cargando
    {
      codigo := "";
      error := None;
      destino := None;
      cargando := false;
    }

    /** Typing or pasting into the input: at most six characters are kept. */
    method Escribir(valor: string)
      modifies this`codigo
      ensures codigo == Seqs.JsSlice(valor, MaxLength)
      ensures |codigo| <= MaxLength && codigo == valor[..|codigo|]
    {
      codigo := Seqs.JsSlice(valor, MaxLength);
    }

    /** Submitting the form (the button is disabled while loading): the
        error is cleared, then set to the refusal if there is one, or the
        page moves to the quiz; loading ends either way. */
    method Enviar(buscar: string -> Result<Quiz>, estadoDe: Id -> Result<(ProgressStatus, Option<int>)>)
      requires !cargando
      modifies this`error, this`destino, this`cargando
      ensures !cargando
      ensures Entrar(codigo, buscar, estadoDe).Aviso? ==>
        error == Some(Entrar(codigo, buscar, estadoDe).mensaje) && destino == old(destino)
      ensures Entrar(codigo, buscar, estadoDe).Ir? ==>
        error == None && destino == Some(Entrar(codigo, buscar, estadoDe).destino)
    {
      error := None;
      var limpio := Text.Trim(codigo);
      if limpio == "" {
        error := Some(MsgCodigoInvalido);
        return;
      }
      cargando := true;
      var salida := Entrar(codigo, buscar, estadoDe);
      match salida {
        case Aviso(m) => error := Some(m);
        case Ir(d) => destino := Some(d);
      }
      cargando := false;
    }
  }
}
