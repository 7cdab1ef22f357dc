/** The slide-generation handler: request validation, the source text sent
    to the AI, the mapping from the page's style options to the generator's
    style, and the download file name. The AI's answer is a function of the
    title, the source text and the slide limit. */
module PptController {
  import opened Wrappers
  import opened Json
  import Text
  import Seqs
  import PptGenerator

  const MsgMissing: string := "Faltan datos: tituloPresentacion o secciones."
  const MsgNoSections: string := "Debe haber al menos una sección para generar el PPT."
  const MsgFailed: string := "Error al generar el PPT."

  /** The style options the page sends. */
  datatype FrontEstilo = FrontEstilo(modo: string, fuente: Option<string>, conclusiones: bool, slides: Option<int>)

  function FirstTruthy(o: Option<string>, d: string): string {
    if o.Some? && o.value != "" then o.value else d
  }

  /** `mapearEstilo`: every field is set, the theme is always oscuro and
      the colour #4F46E5; the font is `fuente || default`, the slide limit
      `slides ?? 7`. */
  function MapearEstilo(front: Option<FrontEstilo>): (r: PptGenerator.PptEstilo)
    ensures r.tema == Some(PptGenerator.Oscuro) && r.colorPrincipal == Some("#4F46E5")
    ensures front.None? ==> r.fuenteTitulo == Some("Poppins") && r.fuenteTexto == Some("Inter") && r.maxSlides == Some(7)
    ensures front.Some? ==>
      (r.fuenteTitulo == Some(FirstTruthy(front.value.fuente, "Poppins"))
       && r.fuenteTexto == Some(FirstTruthy(front.value.fuente, "Inter"))
       && r.maxSlides == Some(front.value.slides.GetOr(7)))
  {
    match front
    case None => PptGenerator.PptEstilo(Some(PptGenerator.Oscuro), Some("#4F46E5"), Some("Poppins"), Some("Inter"), Some(7))
    case Some(f) =>
      PptGenerator.PptEstilo(Some(PptGenerator.Oscuro), Some("#4F46E5"), Some(FirstTruthy(f.fuente, "Poppins")),
                             Some(FirstTruthy(f.fuente, "Inter")), Some(f.slides.GetOr(7)))
  }

  /** `modo` and `conclusiones` have no effect, and with no options the
      generator's own defaults are what it gets. */
  lemma MapearEstiloLaws(f: FrontEstilo, modo: string, conclusiones: bool)
    ensures MapearEstilo(Some(f)) == MapearEstilo(Some(f.(modo := modo, conclusiones := conclusiones)))
    ensures PptGenerator.Resolve(MapearEstilo(None)) == PptGenerator.Resolve(PptGenerator.PptEstilo(None, None, None, None, None))
  {
  }

  /** The validation: a truthy title and an array of sections (400), and
      at least one section (400). */
  function Validate(titulo: Option<string>, secciones: Option<Json>): (r: Result<seq<Json>>)
    ensures r.Ok? <==> titulo.Some? && titulo.value != "" && secciones.Some? && secciones.value.JArr?
                       && secciones.value.items != []
    ensures r.Ok? ==> r.value == secciones.value.items
    ensures !(titulo.Some? && titulo.value != "" && secciones.Some? && secciones.value.JArr?) ==> r == Fail(400, MsgMissing)
    ensures r.Err? && secciones.Some? && secciones.value.JArr? && titulo.Some? && titulo.value != "" ==> r == Fail(400, MsgNoSections)
  {
    if !(titulo.Some? && titulo.value != "") || !(secciones.Some? && secciones.value.JArr?) then Fail(400, MsgMissing)
    else if secciones.value.items == [] then Fail(400, MsgNoSections)
    else Ok(secciones.value.items)
  }

  /** `${v}` in a template literal; None is `undefined`. */
  function TemplateText(v: Option<Json>): string {
    match v
    case None => "undefined"
    case Some(j) => ToJsString(j)
  }

  /** The bullets of a section for the source text: each one printed and
      trimmed, the empty ones dropped, each prefixed with "- " (the
      `map`/`filter`/`map` chain, one bullet at a time). */
  function BulletLines(items: seq<Json>): (r: seq<string>)
    ensures |r| <= |items|
  {
    if items == [] then []
    else
      var t := Text.Trim(PptGenerator.ElementText(items[0]));
      (if t != "" then ["- " + t] else []) + BulletLines(items[1..])
  }

  /** One section of the source text: "titulo:" on its own line, then the
      bullet lines. Reading from `null`, or a truthy non-array `bullets`,
      throws. */
  function SectionText(sec: Json): (r: Result<string>)
    ensures sec.JNull? ==> r.Err?
    ensures sec.JObj? && Prop(sec, "bullets").Some? && Prop(sec, "bullets").value.JArr? ==>
      r == Ok(TemplateText(Prop(sec, "titulo")) + ":\n" + Text.Join(BulletLines(Prop(sec, "bullets").value.items), "\n"))
  {
    if sec.JNull? then Fail(500, PptGenerator.MsgTypeError)
    else
      var head := TemplateText(Prop(sec, "titulo")) + ":\n";
      match Prop(sec, "bullets")
      case None => Ok(head)
      case Some(v) =>
        if Falsy(v) then Ok(head)
        else if v.JArr? then Ok(head + Text.Join(BulletLines(v.items), "\n"))
        else Fail(500, PptGenerator.MsgTypeError)
  }

  /** The text of a section is its heading line followed by one line per
      kept bullet, provided no title or bullet holds a line break. */
  lemma SectionTextLines(sec: Json)
    requires sec.JObj? && Prop(sec, "bullets").Some? && Prop(sec, "bullets").value.JArr?
    requires '\n' !in TemplateText(Prop(sec, "titulo"))
    requires forall i :: 0 <= i < |Prop(sec, "bullets").value.items| ==>
      '\n' !in PptGenerator.ElementText(Prop(sec, "bullets").value.items[i])
    ensures var lines := BulletLines(Prop(sec, "bullets").value.items);
      Text.Split(SectionText(sec).value, '\n')
        == [TemplateText(Prop(sec, "titulo")) + ":"] + (if lines == [] then [""] else lines)
  {
    var items := Prop(sec, "bullets").value.items;
    var titulo := TemplateText(Prop(sec, "titulo"));
    var lines := BulletLines(items);
    assert SectionText(sec).value == titulo + ":\n" + Text.Join(lines, "\n");
    BulletLinesNoBreak(items);
    HeadingLines(titulo, lines);
  }

  /** The heading line and the bullet lines, split at line breaks. */
  lemma HeadingLines(titulo: string, lines: seq<string>)
    requires '\n' !in titulo
    requires forall i :: 0 <= i < |lines| ==> '\n' !in lines[i]
    ensures Text.Split(titulo + ":\n" + Text.Join(lines, "\n"), '\n')
      == [titulo + ":"] + (if lines == [] then [""] else lines)
  {
    var first := titulo + ":";
    assert '\n' !in first;
    assert titulo + ":\n" == first + ['\n'];
    Text.SplitHeading(first, lines, '\n');
  }

  /** No line holds a line break when no bullet does. */
  lemma {:induction false} BulletLinesNoBreak(items: seq<Json>)
    requires forall i :: 0 <= i < |items| ==> '\n' !in PptGenerator.ElementText(items[i])
    ensures forall i :: 0 <= i < |BulletLines(items)| ==> '\n' !in BulletLines(items)[i]
  {
    if items != [] {
      var t := Text.Trim(PptGenerator.ElementText(items[0]));
      TrimmedNoBreak(PptGenerator.ElementText(items[0]));
      var head := if t != "" then ["- " + t] else [];
      BulletLinesNoBreak(items[1..]);
      assert BulletLines(items) == head + BulletLines(items[1..]);
      NoBreakConcat(head, BulletLines(items[1..]));
    }
  }

  /** A bullet without a line break gives a line without one. */
  lemma TrimmedNoBreak(e: string)
    requires '\n' !in e
    ensures '\n' !in "- " + Text.Trim(e)
  {
    assert forall i :: 0 <= i < |e| ==> NotBreak(e[i]);
    Text.TrimKeepsAll(e, NotBreak);
  }

  lemma NoBreakConcat(a: seq<string>, b: seq<string>)
    requires forall i :: 0 <= i < |a| ==> '\n' !in a[i]
    requires forall i :: 0 <= i < |b| ==> '\n' !in b[i]
    ensures forall i :: 0 <= i < |a + b| ==> '\n' !in (a + b)[i]
  {
    forall i | 0 <= i < |a + b| ensures '\n' !in (a + b)[i] {
      if i >= |a| {
        assert (a + b)[i] == b[i - |a|];
      }
    }
  }

  predicate NotBreak(c: char) {
    c != '\n'
  }

  /** `textoOriginal`: the section texts separated by a blank line. */
  function TextoOriginal(secs: seq<Json>): (r: Result<string>)
    ensures r.Ok? <==> forall i :: 0 <= i < |secs| ==> SectionText(secs[i]).Ok?
    ensures r.Ok? ==> r.value == Text.Join(seq(|secs|, i requires 0 <= i < |secs| => SectionText(secs[i]).value), "\n\n")
  {
    if forall i :: 0 <= i < |secs| ==> SectionText(secs[i]).Ok? then
      Ok(Text.Join(seq(|secs|, i requires 0 <= i < |secs| => SectionText(secs[i]).value), "\n\n"))
    else Fail(500, PptGenerator.MsgTypeError)
  }

  /** The characters `[/\\?%*:|"<>]` matches. */
  predicate Forbidden(c: char) {
    c == '/' || c == '\\' || c == '?' || c == '%' || c == '*' || c == ':' || c == '|' || c == '"' || c == '<' || c == '>'
  }

  /** Every forbidden character replaced by "_", every other one kept. */
  function Sanitize(s: string): (r: string)
    ensures |r| == |s|
    ensures forall i :: 0 <= i < |s| ==> r[i] == if Forbidden(s[i]) then '_' else s[i]
    ensures forall i :: 0 <= i < |r| ==> !Forbidden(r[i])
  {
    seq(|s|, i requires 0 <= i < |s| => if Forbidden(s[i]) then '_' else s[i])
  }

  /** Sanitising leaves no forbidden character, so doing it twice is doing
      it once. */
  lemma SanitizeIdempotent(s: string)
    ensures Sanitize(Sanitize(s)) == Sanitize(s)
  {
  }

  /** `${tituloPresentacion || "presentacion"}` sanitised, plus ".pptx". */
  function FileName(titulo: string): (r: string)
    ensures |r| == (if titulo == "" then 12 else |titulo|) + 5
    ensures r[|r| - 5..] == ".pptx"
  {
    Sanitize(if titulo == "" then "presentacion" else titulo) + ".pptx"
  }

  datatype Download = Download(fileName: string, deck: PptGenerator.Deck)

  /** `generarPptHandler`: validation answers 400; everything that fails
      afterwards (a section that throws, an answer without brackets or that
      does not parse to an array, a slide that throws) answers 500. */
  function Handler(titulo: Option<string>, secciones: Option<Json>, estilo: Option<FrontEstilo>,
                   ai: (string, string, int) -> string, parse: string -> Option<Json>): (r: Result<Download>)
    ensures Validate(titulo, secciones).Err? ==> r.Err? && r.failure == Validate(titulo, secciones).failure
    ensures Validate(titulo, secciones).Ok? && r.Err? ==> r == Fail(500, MsgFailed)
    ensures r.Ok? ==> (r.value.fileName == FileName(titulo.value) && r.value.deck.portada == titulo.value
                       && r.value.deck.estilo.tema == PptGenerator.Oscuro)
    ensures Validate(titulo, secciones).Ok? && TextoOriginal(secciones.value.items).Err? ==> r == Fail(500, MsgFailed)
    ensures Validate(titulo, secciones).Ok? && TextoOriginal(secciones.value.items).Ok? ==>
      var e := MapearEstilo(estilo);
      var deck := PptGenerator.Generar(titulo.value,
                    ai(titulo.value, TextoOriginal(secciones.value.items).value, PptGenerator.Resolve(e).maxSlides), parse, e);
      (r.Ok? <==> deck.Ok?) && (r.Ok? ==> r.value.deck == deck.value)
  {
    match Validate(titulo, secciones)
    case Err(f) => Err(f)
    case Ok(secs) =>
      match TextoOriginal(secs)
      case Err(_) => Fail(500, MsgFailed)
      case Ok(texto) =>
        var e := MapearEstilo(estilo);
        var raw := ai(titulo.value, texto, PptGenerator.Resolve(e).maxSlides);
        match PptGenerator.Generar(titulo.value, raw, parse, e)
        case Err(_) => Fail(500, MsgFailed)
        case Ok(deck) => Ok(Download(FileName(titulo.value), deck))
  }
}
