/** The teacher's course page: the course's quiz list, kept in step with
    the server's answers to create, rename, delete and publish, and the
    course's local quiz counter. */
module CursoDocenteDetalle {
  import opened Wrappers
  import opened Models
  import Text
  import Seqs
  import QuizLogic

  const MsgTituloObligatorio: string := "El título del quiz es obligatorio."
  const MsgCrearFallo: string := "No se pudo crear el quiz."
  const MsgActualizarFallo: string := "No se pudo actualizar el quiz."
  const MsgEliminarFallo: string := "No se pudo eliminar el quiz."
  const MsgPublicarFallo: string := "No se pudo publicar el quiz."

  function QuizId(q: Quiz): Id {
    q.id
  }

  /** The title sent for a new quiz or a rename: None (the page alerts and
      sends nothing) for a title that is blank once trimmed, otherwise the
      trimmed title. */
  function TituloEnviado(titulo: string): (r: Option<string>)
    ensures r.None? <==> Text.Blank(titulo)
    ensures r.Some? ==> r.value == Text.Trim(titulo) && Truthy(r)
  {
    var t := Text.Trim(titulo);
    if t == "" then None else Some(t)
  }

  /** A title the page sends passes the server's own title check and is
      sent unchanged if sent again. */
  lemma TituloEnviadoStable(titulo: string)
    requires TituloEnviado(titulo).Some?
    ensures TituloEnviado(TituloEnviado(titulo).value) == TituloEnviado(titulo)
  {
    Text.TrimIdempotent(titulo);
  }

  /** `{ ...prev, totalQuizzes: (prev.totalQuizzes ?? 0) + 1 }`. */
  function Incrementado(c: Course): (r: Course)
    ensures r.totalQuizzes == c.totalQuizzes + 1
    ensures r.(totalQuizzes := c.totalQuizzes) == c
  {
    c.(totalQuizzes := c.totalQuizzes + 1)
  }

  /** `Math.max((prev.totalQuizzes ?? 1) - 1, 0)`: one less, never below 0. */
  function Decrementado(c: Course): (r: Course)
    ensures r.totalQuizzes >= 0
    ensures c.totalQuizzes >= 1 ==> r.totalQuizzes == c.totalQuizzes - 1
    ensures c.totalQuizzes < 1 ==> r.totalQuizzes == 0
    ensures r == c.(totalQuizzes := r.totalQuizzes)
  {
    var t := c.totalQuizzes - 1;
    c.(totalQuizzes := if t > 0 then t else 0)
  }

  /** Creating a quiz and then deleting it restores the list and, from a
      non-negative counter, the course. */
  lemma CreateThenDelete(c: Course, quizzes: seq<Quiz>, q: Quiz)
    requires c.totalQuizzes >= 0
    requires forall i :: 0 <= i < |quizzes| ==> quizzes[i].id != q.id
    ensures Decrementado(Incrementado(c)) == c
    ensures Seqs.RemoveByKey([q] + quizzes, QuizId, q.id) == quizzes
  {
    Seqs.RemoveByKeyAbsent(quizzes, QuizId, q.id, q);
  }

  /** The "Publicar y generar código" button is offered for drafts only. */
  predicate PublicarOfrecido(q: Quiz) {
    q.estado == Borrador
  }

  /** The code is shown for a published quiz with a non-empty code. */
  predicate CodigoVisible(q: Quiz) {
    q.estado == Publicado && Truthy(q.codigoAcceso)
  }

  /** A quiz the server has just created offers publishing and shows no
      code. */
  lemma NewQuizIsDraft(id: Id, titulo: string, curso: Option<Id>)
    ensures PublicarOfrecido(NewQuiz(id, titulo, curso, [])) && !CodigoVisible(NewQuiz(id, titulo, curso, []))
  {
  }

  /** After the server publishes a quiz (keeping a non-empty code or
      drawing one), the page no longer offers publishing it and shows its
      code; publishing and the code display exclude each other. */
  lemma PublishedShowsCode(q: Quiz, drawn: string)
    requires drawn != ""
    ensures !PublicarOfrecido(QuizLogic.PublishQuiz(q, drawn)) && CodigoVisible(QuizLogic.PublishQuiz(q, drawn))
    ensures !(PublicarOfrecido(q) && CodigoVisible(q))
  {
  }

  /** The page's state: the course (with its local counter), its quiz
      list, the title typed for a new quiz, the quiz being renamed and its
      new title, the quiz being published, and the last alert. */
  class Detalle {
    var curso: Option<Course>
    var quizzes: seq<Quiz>
    var nuevoTitulo: string
    var editando: Option<Quiz>
    var tituloEdit: string
    var publicandoId: Option<Id>
    var alerta: Option<string>

    constructor (c: Option<Course>, qs: seq<Quiz>)
      ensures curso == c && quizzes == qs && nuevoTitulo == "" && editando == None
      ensures tituloEdit == "" && publicandoId == None && alerta == None
    {
      curso := c;
      quizzes := qs;
      nuevoTitulo := "";
      editando := None;
      tituloEdit := "";
      publicandoId := None;
      alerta := None;
    }

    /** `handleCrearQuiz`, given the server's answer to the create request
        for `TituloEnviado(nuevoTitulo)`: without a course nothing happens;
        a blank title alerts; a created quiz goes to the front of the list,
        the counter goes up by one and the input is cleared; a failure
        alerts. */
    method Crear(respuesta: Result<Quiz>)
      modifies this`curso, this`quizzes, this`nuevoTitulo, this`alerta
      ensures old(curso).None? ==> unchanged(this)
      ensures old(curso).Some? && Text.Blank(old(nuevoTitulo)) ==>
        alerta == Some(MsgTituloObligatorio) && curso == old(curso) && quizzes == old(quizzes) && nuevoTitulo == old(nuevoTitulo)
      ensures old(curso).Some? && !Text.Blank(old(nuevoTitulo)) && respuesta.Ok? ==>
        quizzes == [respuesta.value] + old(quizzes) && curso == Some(Incrementado(old(curso).value))
        && nuevoTitulo == "" && alerta == old(alerta)
      ensures old(curso).Some? && !Text.Blank(old(nuevoTitulo)) && respuesta.Err? ==>
        alerta == Some(MsgCrearFallo) && curso == old(curso) && quizzes == old(quizzes) && nuevoTitulo == old(nuevoTitulo)
    {
      if curso.None? {
        return;
      }
      if Text.Blank(nuevoTitulo) {
        alerta := Some(MsgTituloObligatorio);
        return;
      }
      match respuesta {
        case Ok(creado) =>
          quizzes := [creado] + quizzes;
          curso := Some(Incrementado(curso.value));
          nuevoTitulo := "";
        case Err(_) =>
          alerta := Some(MsgCrearFallo);
      }
    }

    /** Opening the rename dialog on a quiz, with its title filled in. */
    method AbrirEditar(q: Quiz)
      modifies this`editando, this`tituloEdit
      ensures editando == Some(q) && tituloEdit == q.titulo
    {
      editando := Some(q);
      tituloEdit := q.titulo;
    }

    /** `handleGuardarQuiz`, given the server's answer to the rename
        request: a blank title alerts; the renamed quiz replaces the quiz
        with the answer's id and the dialog closes; a failure alerts and
        keeps the dialog. */
    method Guardar(respuesta: Result<Quiz>)
      modifies this`quizzes, this`editando, this`tituloEdit, this`alerta
      ensures old(editando).None? ==> unchanged(this)
      ensures old(editando).Some? && Text.Blank(old(tituloEdit)) ==>
        alerta == Some(MsgTituloObligatorio) && quizzes == old(quizzes)
        && editando == old(editando) && tituloEdit == old(tituloEdit)
      ensures old(editando).Some? && !Text.Blank(old(tituloEdit)) && respuesta.Ok? ==>
        quizzes == Seqs.ReplaceByKey(old(quizzes), QuizId, respuesta.value.id, respuesta.value)
        && editando == None && tituloEdit == "" && alerta == old(alerta)
      ensures old(editando).Some? && !Text.Blank(old(tituloEdit)) && respuesta.Err? ==>
        alerta == Some(MsgActualizarFallo) && quizzes == old(quizzes)
        && editando == old(editando) && tituloEdit == old(tituloEdit)
    {
      if editando.None? {
        return;
      }
      var blank := Text.Blank(tituloEdit);
      assert blank == Text.Blank(old(tituloEdit));
      if blank {
        alerta := Some(MsgTituloObligatorio);
        return;
      }
      match respuesta {
        case Ok(actualizado) =>
          quizzes := Seqs.ReplaceByKey(quizzes, QuizId, actualizado.id, actualizado);
          editando := None;
          tituloEdit := "";
        case Err(_) =>
          alerta := Some(MsgActualizarFallo);
      }
    }

    /** `handleEliminarQuiz`, given the teacher's confirmation and the
        server's answer: a confirmed, successful delete removes the quiz's
        id from the list and lowers the counter, never below zero. */
    method Eliminar(quiz: Quiz, confirmado: bool, respuesta: Result<()>)
      modifies this`curso, this`quizzes, this`alerta
      ensures !confirmado ==> unchanged(this)
      ensures confirmado && respuesta.Ok? ==>
        quizzes == Seqs.RemoveByKey(old(quizzes), QuizId, quiz.id)
        && curso == (if old(curso).Some? then Some(Decrementado(old(curso).value)) else None)
        && alerta == old(alerta)
      ensures confirmado && respuesta.Err? ==>
        alerta == Some(MsgEliminarFallo) && quizzes == old(quizzes) && curso == old(curso)
    {
      if !confirmado {
        return;
      }
      match respuesta {
        case Ok(_) =>
          quizzes := Seqs.RemoveByKey(quizzes, QuizId, quiz.id);
          if curso.Some? {
            curso := Some(Decrementado(curso.value));
          }
        case Err(_) =>
          alerta := Some(MsgEliminarFallo);
      }
    }

    /** Pressing "Publicar y generar código" on a quiz. */
    method EmpezarPublicar(quiz: Quiz)
      modifies this`publicandoId
      ensures publicandoId == Some(quiz.id)
    {
      publicandoId := Some(quiz.id);
    }

    /** `handlePublicarQuiz` once the server has answered: the published
        quiz replaces the quiz with its id, or the failure alerts; nothing
        is being published afterwards. */
    method TerminarPublicar(respuesta: Result<Quiz>)
      modifies this`quizzes, this`publicandoId, this`alerta
      ensures publicandoId == None
      ensures respuesta.Ok? ==>
        quizzes == Seqs.ReplaceByKey(old(quizzes), QuizId, respuesta.value.id, respuesta.value) && alerta == old(alerta)
      ensures respuesta.Err? ==> quizzes == old(quizzes) && alerta == Some(MsgPublicarFallo)
    {
      match respuesta {
        case Ok(actualizado) =>
          quizzes := Seqs.ReplaceByKey(quizzes, QuizId, actualizado.id, actualizado);
        case Err(_) =>
          alerta := Some(MsgPublicarFallo);
      }
      publicandoId := None;
    }
  }

  /** In a list without repeated ids, replacing by the server's published
      copy of the quiz at `i` changes only that entry, which then shows its
      code and no publish button. */
  lemma PublishReplacesOne(quizzes: seq<Quiz>, i: nat, drawn: string)
    requires Seqs.UniqueKeys(quizzes, QuizId) && i < |quizzes|
    requires drawn != ""
    ensures var p := QuizLogic.PublishQuiz(quizzes[i], drawn);
      var after := Seqs.ReplaceByKey(quizzes, QuizId, p.id, p);
      after == quizzes[i := p] && CodigoVisible(after[i]) && !PublicarOfrecido(after[i])
  {
    var p := QuizLogic.PublishQuiz(quizzes[i], drawn);
    Seqs.ByUniqueKey(quizzes, QuizId, i, p);
    PublishedShowsCode(quizzes[i], drawn);
  }
}
