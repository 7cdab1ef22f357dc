/** Pieces the student and teacher pages share: `Math.round` of a ratio,
    the places a page navigates to, and the message shown when a request
    fails. */
module FrontCommon {
  import opened Wrappers
  import opened Models
  import Text
  import Seqs

  /** `Math.round(num / den * scale)` on the exact rational: the largest
      integer not above `num * scale / den + 1/2`. */
  function RoundRatio(num: int, den: int, scale: nat): int
    requires den > 0
  {
    (2 * scale * num + den) / (2 * den)
  }

  lemma DivBounds(x: int, d: int)
    requires d > 0
    ensures d * (x / d) <= x < d * (x / d) + d
  {
  }

  lemma MulLe(c: int, a: int, b: int)
    requires c >= 0 && a <= b
    ensures c * a <= c * b
  {
    assert c * b - c * a == c * (b - a);
  }

  /** The rounded value is within half a unit of the exact one, and for a
      ratio in [0, 1] it lies in [0, scale], reaching both ends. */
  lemma RoundRatioLaws(num: int, den: int, scale: nat)
    requires den > 0
    ensures 2 * den * RoundRatio(num, den, scale) <= 2 * scale * num + den < 2 * den * RoundRatio(num, den, scale) + 2 * den
    ensures 0 <= num <= den ==> 0 <= RoundRatio(num, den, scale) <= scale
    ensures num == 0 ==> RoundRatio(num, den, scale) == 0
    ensures num == den ==> RoundRatio(num, den, scale) == scale
  {
    var d := 2 * den;
    var x := 2 * scale * num + den;
    var r := x / d;
    DivBounds(x, d);
    if 0 <= num <= den {
      MulLe(2 * scale, num, den);
      assert 0 < x <= 2 * scale * den + den;
      if r < 0 {
        MulLe(d, r, -1);
      }
      assert d * (scale + 1) == 2 * scale * den + 2 * den;
      if r > scale {
        MulLe(d, scale + 1, r);
      }
    }
    if num == 0 {
      assert x == den;
      if r > 0 {
        MulLe(d, 1, r);
      }
    }
    if num == den {
      assert x == d * scale + den;
      if r < scale {
        MulLe(d, r + 1, scale);
      }
    }
  }

  /** Rounding does not reverse the order of two ratios with the same
      denominator. */
  lemma RoundRatioMonotone(a: int, b: int, den: int, scale: nat)
    requires den > 0 && a <= b
    ensures RoundRatio(a, den, scale) <= RoundRatio(b, den, scale)
  {
    var d := 2 * den;
    var ra := RoundRatio(a, den, scale);
    var rb := RoundRatio(b, den, scale);
    DivBounds(2 * scale * a + den, d);
    DivBounds(2 * scale * b + den, d);
    MulLe(2 * scale, a, b);
    if ra > rb {
      MulLe(d, rb + 1, ra);
    }
  }

  /** Where a page sends the student. */
  datatype Destino = CursoEstudiante(curso: Id) | Dashboard | JugarQuiz(quiz: Id)

  /** "Volver": the course page when the quiz has a course, else the
      student's dashboard. */
  function Volver(cursoId: Option<Id>): (d: Destino)
    ensures d.CursoEstudiante? <==> cursoId.Some?
    ensures cursoId.Some? ==> d == CursoEstudiante(cursoId.value)
    ensures cursoId.None? ==> d == Dashboard
  {
    match cursoId
    case Some(c) => CursoEstudiante(c)
    case None => Dashboard
  }

  /** `err.response?.data?.message || fallback`: the server's message when
      the failed response carries a non-empty one. */
  function ErrorMessage(serverMessage: Option<string>, fallback: string): (m: string)
    ensures m == fallback || serverMessage == Some(m)
    ensures fallback != "" ==> m != ""
    ensures Truthy(serverMessage) ==> m == serverMessage.value
  {
    if Truthy(serverMessage) then serverMessage.value else fallback
  }

  // ---------------------------------------------------------------------
  // List pages: the search box and the state toggle

  /** `busqueda.trim().toLowerCase()`. */
  function Termino(busqueda: string): (t: string)
    ensures t == "" <==> Text.Blank(busqueda)
    ensures |t| == |Text.Trim(busqueda)|
  {
    Text.Lower(Text.Trim(busqueda))
  }

  /** `campo.toLowerCase().includes(texto)`. */
  predicate Incluye(campo: string, texto: string) {
    Text.Contains(Text.Lower(campo), texto)
  }

  /** The search box of the course lists (`cursosFiltrados`): a blank
      search shows every element; otherwise the elements the page's match
      accepts for the lower-cased trimmed term, in list order. */
  function Buscar<T>(xs: seq<T>, busqueda: string, coincide: (T, string) -> bool): (r: seq<T>)
    ensures Text.Blank(busqueda) ==> r == xs
    ensures !Text.Blank(busqueda) ==> forall i :: 0 <= i < |r| ==> r[i] in xs && coincide(r[i], Termino(busqueda))
    ensures forall i :: 0 <= i < |xs| && coincide(xs[i], Termino(busqueda)) ==> xs[i] in r
    ensures |r| <= |xs|
  {
    var t := Termino(busqueda);
    if t == "" then xs else Seqs.Filter(CoincideCon(coincide, t), xs)
  }

  function CoincideCon<T>(coincide: (T, string) -> bool, t: string): T -> bool {
    x => coincide(x, t)
  }

  /** Searching the search results again with the same text changes
      nothing. */
  lemma BuscarIdempotent<T>(xs: seq<T>, busqueda: string, coincide: (T, string) -> bool)
    ensures Buscar(Buscar(xs, busqueda, coincide), busqueda, coincide) == Buscar(xs, busqueda, coincide)
  {
    var t := Termino(busqueda);
    if t != "" {
      Seqs.FilterAll(CoincideCon(coincide, t), Buscar(xs, busqueda, coincide));
    }
  }

  /** Every field matches the empty term. */
  lemma IncluyeVacio(campo: string)
    ensures Incluye(campo, "")
  {
    Text.ContainsEmpty(Text.Lower(campo));
  }

  /** The course toggle: Activo becomes Inactivo, anything else Activo. */
  function AlternarCurso(estado: string): (r: string)
    ensures CourseEstadoValid(r)
    ensures r == CursoActivo <==> estado != CursoActivo
  {
    if estado == CursoActivo then CursoInactivo else CursoActivo
  }

  /** On the two known states the toggle is an involution. */
  lemma AlternarCursoInvolution(estado: string)
    requires CourseEstadoValid(estado)
    ensures AlternarCurso(AlternarCurso(estado)) == estado
  {
  }
}
