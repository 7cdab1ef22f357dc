/** The text side of the slide generator: `limpiarTextoPpt`, the
    bracket slice taken from the AI answer, the cut to `maxSlides` sections
    and, per section, the badge, the cleaned title with its fallback and
    the cleaned, capped bullet list. The AI answer is a parameter and
    `JSON.parse` is an oracle; the slide layout itself is left out. */
module PptGenerator {
  import opened Wrappers
  import opened Json
  import Text
  import Seqs

  const MsgNoBrackets: string := "La IA no devolvió un JSON con corchetes [ ]."
  const MsgNotArray: string := "La IA no devolvió un array de secciones."
  const MsgTypeError: string := "TypeError"
  const Ellipsis: char := '…'
  const MaxBullets: int := 8
  const MaxTitle: nat := 120
  const MaxBullet: nat := 300

  // ---------------------------------------------------------------------
  // limpiarTextoPpt

  /** The characters `[^\x09\x0A\x0D\x20-￿]` does not match: tab,
      line feed, carriage return and everything from the space up. */
  predicate Kept(c: char) {
    c == '\t' || c == '\n' || c == '\r' || c >= ' '
  }

  /** `limpiarTextoPpt(texto, maxLen)`: the empty string stays empty;
      otherwise the control characters are removed, the result trimmed and,
      when longer than `maxLen`, cut to `maxLen` characters followed by "…". */
  function Limpiar(texto: string, maxLen: nat): (r: string)
    ensures texto == "" ==> r == ""
    ensures var t := Text.Trim(Seqs.Filter(Kept, texto));
      if |t| > maxLen then r == t[..maxLen] + [Ellipsis] else r == t
    ensures |r| <= maxLen + 1
  {
    if texto == "" then ""
    else
      var limpio := Text.Trim(Seqs.Filter(Kept, texto));
      if |limpio| > maxLen then limpio[..maxLen] + [Ellipsis] else limpio
  }

  /** No control character other than tab, line feed and carriage return
      survives cleaning. */
  lemma LimpiarClean(texto: string, maxLen: nat)
    ensures forall i :: 0 <= i < |Limpiar(texto, maxLen)| ==> Kept(Limpiar(texto, maxLen)[i])
  {
    var f := Seqs.Filter(Kept, texto);
    Text.TrimKeepsAll(f, Kept);
    var t := Text.Trim(f);
    if texto != "" && |t| > maxLen {
      var r := t[..maxLen] + [Ellipsis];
      forall i | 0 <= i < |r| ensures Kept(r[i]) {
        if i < maxLen {
          assert r[i] == t[i];
        }
      }
    }
  }

  /** Cleaning what was not cut changes nothing more. */
  lemma LimpiarIdempotent(texto: string, maxLen: nat)
    requires |Text.Trim(Seqs.Filter(Kept, texto))| <= maxLen
    ensures Limpiar(Limpiar(texto, maxLen), maxLen) == Limpiar(texto, maxLen)
  {
    var r := Limpiar(texto, maxLen);
    LimpiarClean(texto, maxLen);
    Seqs.FilterAll(Kept, r);
    Text.TrimIdempotent(Seqs.Filter(Kept, texto));
  }

  // ---------------------------------------------------------------------
  // The AI answer

  /** `cleaned.slice(cleaned.indexOf("["), cleaned.lastIndexOf("]") + 1)` on
      the trimmed answer, refused when either bracket is missing. When the
      last "]" comes before the first "[", `slice` gives "". */
  function ExtractBrackets(raw: string): (r: Result<string>)
    ensures r.Err? <==> '[' !in Text.Trim(raw) || ']' !in Text.Trim(raw)
    ensures r.Err? ==> r.failure == Failure(500, MsgNoBrackets)
    ensures r.Ok? ==> Brackets(Text.Trim(raw), r.value)
  {
    SliceBrackets(Text.Trim(raw))
  }

  /** The slice itself, on the trimmed answer `cleaned`. */
  function SliceBrackets(cleaned: string): (r: Result<string>)
    ensures r.Err? <==> '[' !in cleaned || ']' !in cleaned
    ensures r.Err? ==> r.failure == Failure(500, MsgNoBrackets)
    ensures r.Ok? ==> Brackets(cleaned, r.value)
  {
    var first := Text.IndexOf(cleaned, '[');
    var last := Text.LastIndexOf(cleaned, ']');
    if first == -1 || last == -1 then Fail(500, MsgNoBrackets)
    else if first <= last then
      BracketSlice(cleaned);
      Ok(cleaned[first..last + 1])
    else Ok("")
  }

  lemma BracketSlice(t: string)
    requires 0 <= Text.IndexOf(t, '[') <= Text.LastIndexOf(t, ']')
    ensures Brackets(t, t[Text.IndexOf(t, '[')..Text.LastIndexOf(t, ']') + 1])
  {
    var a := Text.IndexOf(t, '[');
    var b := Text.LastIndexOf(t, ']');
    SliceEnds(t, a, b);
  }

  lemma SliceEnds(t: string, a: nat, b: nat)
    requires a <= b < |t|
    ensures t[a..b + 1][0] == t[a] && t[a..b + 1][b - a] == t[b]
  {
  }

  /** `v` is the bracket slice of the trimmed answer `t`: from the first
      "[" to the last "]" inclusive, so no "[" comes before it and no "]"
      after it; "" when the last "]" precedes the first "[". */
  predicate Brackets(t: string, v: string) {
    var a := Text.IndexOf(t, '[');
    var b := Text.LastIndexOf(t, ']');
    0 <= a && 0 <= b
    && (a <= b ==> v == t[a..b + 1] && v[0] == '[' && v[|v| - 1] == ']'
                   && (forall j :: 0 <= j < a ==> t[j] != '[') && (forall j :: b < j < |t| ==> t[j] != ']'))
    && (b < a ==> v == "")
  }

  /** An answer that is already a bracketed text, with nothing round it,
      is taken whole. */
  lemma ExtractBracketsWhole(s: string)
    requires |s| >= 2 && s[0] == '[' && s[|s| - 1] == ']'
    ensures ExtractBrackets(s) == Ok(s)
  {
    assert !Text.IsJsWhitespace(s[0]) && !Text.IsJsWhitespace(s[|s| - 1]);
    assert Text.TrimStart(s) == s;
    assert Text.TrimEnd(s) == s;
  }

  /** `generarEstructuraIA` once the answer `raw` is in: the bracket slice
      must parse, and parse to an array. */
  function Estructura(raw: string, parse: string -> Option<Json>): (r: Result<seq<Json>>)
    ensures ExtractBrackets(raw).Err? ==> r.Err? && r.failure == ExtractBrackets(raw).failure
    ensures r.Ok? ==> ExtractBrackets(raw).Ok? && parse(ExtractBrackets(raw).value) == Some(JArr(r.value))
  {
    match ExtractBrackets(raw)
    case Err(f) => Err(f)
    case Ok(cleaned) =>
      match parse(cleaned)
      case None => Fail(500, "SyntaxError")
      case Some(JArr(items)) => Ok(items)
      case Some(_) => Fail(500, MsgNotArray)
  }

  // ---------------------------------------------------------------------
  // One content slide

  /** The texts of one content slide. */
  datatype SlideText = SlideText(badge: string, titulo: string, cuerpo: string, pie: string)

  /** `String(index + 1).padStart(2, "0")`. */
  function Badge(index: nat): string {
    Text.PadStart2(Text.NatToString(index + 1))
  }

  /** The first 99 badges are two digits that read as the slide's
      position. */
  lemma BadgeDigits(index: nat)
    requires index < 99
    ensures |Badge(index)| == 2 && Text.AllDigits(Badge(index)) && Text.DigitsValue(Badge(index)) == index + 1
  {
    Text.PadStart2Digits(index + 1);
  }

  /** `limpiarTextoPpt(sec.titulo, 120) || "Sección n"`: an absent or
      falsy title cleans to nothing; a title that is some other non-string
      value makes `replace` throw. Reading a field of `null` throws too. */
  function Titulo(sec: Json, index: nat): (r: Result<string>)
    ensures sec.JNull? ==> r.Err?
    ensures sec.JObj? && Prop(sec, "titulo").Some? && Prop(sec, "titulo").value.JStr?
      && Limpiar(Prop(sec, "titulo").value.s, MaxTitle) != ""
      ==> r == Ok(Limpiar(Prop(sec, "titulo").value.s, MaxTitle))
    ensures sec.JObj? && (Prop(sec, "titulo").None? || Falsy(Prop(sec, "titulo").value))
      ==> r == Ok("Sección " + Text.NatToString(index + 1))
    ensures r.Ok? ==> r.value != ""
  {
    if sec.JNull? then Fail(500, MsgTypeError)
    else
      var fallback := "Sección " + Text.NatToString(index + 1);
      match Prop(sec, "titulo")
      case None => Ok(fallback)
      case Some(v) =>
        if Falsy(v) then Ok(fallback)
        else if v.JStr? then
          var t := Limpiar(v.s, MaxTitle);
          Ok(if t == "" then fallback else t)
        else Fail(500, MsgTypeError)
  }

  /** `String(b ?? "")` for one array element. */
  function ElementText(b: Json): string {
    if b.JNull? then "" else ToJsString(b)
  }

  predicate NonEmpty(s: string) {
    |s| > 0
  }

  function CleanAll(items: seq<Json>): (r: seq<string>)
    ensures |r| == |items|
    ensures forall i :: 0 <= i < |items| ==> r[i] == Limpiar(ElementText(items[i]), MaxBullet)
  {
    seq(|items|, i requires 0 <= i < |items| => Limpiar(ElementText(items[i]), MaxBullet))
  }

  /** `(sec.bullets || []).map(limpiar).filter(b => b.length > 0).slice(0, 8)`:
      an absent or falsy list is empty; a truthy value that is not an array
      has no `map` and throws. */
  function Bullets(sec: Json): (r: Result<seq<string>>)
    ensures sec.JNull? ==> r.Err?
    ensures r.Ok? ==> |r.value| <= MaxBullets && forall i :: 0 <= i < |r.value| ==> r.value[i] != ""
    ensures !sec.JNull? && (Prop(sec, "bullets").None? || Falsy(Prop(sec, "bullets").value)) ==> r == Ok([])
    ensures sec.JObj? && Prop(sec, "bullets").Some? && Prop(sec, "bullets").value.JArr? ==>
      r == Ok(KeptBullets(Prop(sec, "bullets").value.items))
    ensures Prop(sec, "bullets").Some? && !Falsy(Prop(sec, "bullets").value) && !Prop(sec, "bullets").value.JArr? ==>
      r == Fail(500, MsgTypeError)
  {
    if sec.JNull? then Fail(500, MsgTypeError)
    else
      match Prop(sec, "bullets")
      case None => Ok([])
      case Some(v) =>
        if Falsy(v) then Ok([])
        else if v.JArr? then Ok(KeptBullets(v.items))
        else Fail(500, MsgTypeError)
  }

  /** The cleaned, non-empty bullets of an array, at most eight. */
  function KeptBullets(items: seq<Json>): (r: seq<string>)
    ensures |r| <= MaxBullets && forall i :: 0 <= i < |r| ==> r[i] != ""
  {
    FirstNonEmpty(CleanAll(items))
  }

  /** `.filter(b => b.length > 0).slice(0, 8)`. */
  function FirstNonEmpty(xs: seq<string>): (r: seq<string>)
    ensures |r| <= MaxBullets && forall i :: 0 <= i < |r| ==> r[i] != ""
  {
    var kept := Seqs.Filter(NonEmpty, xs);
    var r := Seqs.JsSlice(kept, MaxBullets);
    assert forall i :: 0 <= i < |r| ==> r[i] == kept[i] && NonEmpty(kept[i]);
    r
  }

  /** The kept bullets are the first non-empty cleaned ones, in order: when
      there are at most eight, all of them. */
  lemma BulletsKeepOrder(items: seq<Json>)
    ensures var kept := Seqs.Filter(NonEmpty, CleanAll(items));
      var r := KeptBullets(items);
      r == kept[..|r|] && (|kept| <= MaxBullets ==> r == kept) && (|kept| > MaxBullets ==> |r| == MaxBullets)
  {
  }

  /** `bulletsLimpios.map((b) => `• ${b}`)`. */
  function BodyLines(bullets: seq<string>): (r: seq<string>)
    ensures |r| == |bullets| && forall i :: 0 <= i < |bullets| ==> r[i] == "• " + bullets[i]
  {
    seq(|bullets|, i requires 0 <= i < |bullets| => "• " + bullets[i])
  }

  /** `bulletsTexto || "Contenido no disponible."`: with no bullets the
      placeholder; otherwise the text opens with the first bullet's line. */
  function Cuerpo(bullets: seq<string>): (r: string)
    ensures bullets == [] ==> r == "Contenido no disponible."
    ensures bullets != [] ==> Text.StartsWith(r, "• " + bullets[0])
  {
    var lines := BodyLines(bullets);
    var text := Text.Join(lines, "\n");
    assert |lines| > 1 ==> text == lines[0] + "\n" + Text.Join(lines[1..], "\n");
    if text == "" then "Contenido no disponible." else text
  }

  /** The body of a slide with bullets reads back, line by line, as the
      bullets each after "• ", when no bullet holds a line break. */
  lemma CuerpoLines(bullets: seq<string>)
    requires bullets != [] && forall i :: 0 <= i < |bullets| ==> '\n' !in bullets[i]
    ensures Text.Split(Cuerpo(bullets), '\n') == BodyLines(bullets)
  {
    var lines := BodyLines(bullets);
    forall i | 0 <= i < |lines| ensures '\n' !in lines[i] {
      assert lines[i] == "• " + bullets[i];
    }
    assert Cuerpo(bullets) == Text.Join(lines, "\n");
    Text.SplitJoin(lines, '\n');
  }

  function Slide(sec: Json, index: nat): (r: Result<SlideText>)
    ensures r.Ok? <==> Titulo(sec, index).Ok? && Bullets(sec).Ok?
    ensures r.Ok? ==> (r.value.badge == Badge(index) && r.value.titulo == Titulo(sec, index).value
                       && r.value.cuerpo == Cuerpo(Bullets(sec).value)
                       && r.value.pie == "Diapositiva " + Text.NatToString(index + 1))
  {
    match Titulo(sec, index)
    case Err(f) => Err(f)
    case Ok(t) =>
      match Bullets(sec)
      case Err(f) => Err(f)
      case Ok(bs) => Ok(SlideText(Badge(index), t, Cuerpo(bs), "Diapositiva " + Text.NatToString(index + 1)))
  }

  /** The `forEach` over the kept sections, from index `from` on; the first
      section that throws ends the generation. */
  function Slides(secs: seq<Json>, from: nat): (r: Result<seq<SlideText>>)
    requires from <= |secs|
    ensures r.Ok? ==> |r.value| == |secs| - from
    decreases |secs| - from
  {
    if from == |secs| then Ok([])
    else
      var head := Slide(secs[from], from);
      if head.Err? then Err(head.failure)
      else
        var tail := Slides(secs, from + 1);
        if tail.Err? then Err(tail.failure) else Ok([head.value] + tail.value)
  }

  /** The deck holds one slide per section, each the slide of that section
      at its position. */
  lemma {:induction false} SlidesOk(secs: seq<Json>, from: nat)
    requires from <= |secs| && Slides(secs, from).Ok?
    ensures forall i :: from <= i < |secs| ==> Slide(secs[i], i) == Ok(Slides(secs, from).value[i - from])
    decreases |secs| - from
  {
    if from < |secs| {
      var r := Slides(secs, from).value;
      var tail := Slides(secs, from + 1);
      assert tail.Ok? && r == [Slide(secs[from], from).value] + tail.value;
      SlidesOk(secs, from + 1);
      forall i | from <= i < |secs| ensures Slide(secs[i], i) == Ok(r[i - from]) {
        if i > from {
          assert r[i - from] == tail.value[i - (from + 1)];
        }
      }
    }
  }

  /** The generation fails exactly when some section's slide does. */
  lemma {:induction false} SlidesErr(secs: seq<Json>, from: nat)
    requires from <= |secs|
    ensures Slides(secs, from).Err? <==> exists i :: from <= i < |secs| && Slide(secs[i], i).Err?
    decreases |secs| - from
  {
    if from < |secs| {
      SlidesErr(secs, from + 1);
      if Slide(secs[from], from).Ok? {
        assert Slides(secs, from).Err? <==> Slides(secs, from + 1).Err?;
        if exists i :: from <= i < |secs| && Slide(secs[i], i).Err? {
          var i :| from <= i < |secs| && Slide(secs[i], i).Err?;
          assert i > from;
        }
      }
    }
  }

  /** Some section's slide fails. */
  predicate SomeSlideFails(secs: seq<Json>) {
    exists i :: 0 <= i < |secs| && Slide(secs[i], i).Err?
  }

  /** The slides are, one per section, the slide of the section at its
      position. */
  predicate SlidesOf(secs: seq<Json>, slides: seq<SlideText>) {
    |slides| == |secs| && forall i :: 0 <= i < |secs| ==> Slide(secs[i], i) == Ok(slides[i])
  }

  /** The whole generation from the first section: it fails exactly when
      some slide does, and otherwise yields each section's slide. */
  lemma SlidesSpec(secs: seq<Json>)
    ensures Slides(secs, 0).Err? <==> SomeSlideFails(secs)
    ensures Slides(secs, 0).Ok? ==> SlidesOf(secs, Slides(secs, 0).value)
  {
    SlidesErr(secs, 0);
    if Slides(secs, 0).Ok? {
      SlidesOk(secs, 0);
    }
  }

  // ---------------------------------------------------------------------
  // The whole deck

  datatype Tema = Claro | Oscuro

  /** `PptEstilo`: every field may be left out. */
  datatype PptEstilo = PptEstilo(
    tema: Option<Tema>,
    colorPrincipal: Option<string>,
    fuenteTitulo: Option<string>,
    fuenteTexto: Option<string>,
    maxSlides: Option<int>)

  /** The style after the destructuring defaults: oscuro, #4F46E5,
      Poppins, Inter, 7. */
  datatype Resolved = Resolved(tema: Tema, colorPrincipal: string, fuenteTitulo: string, fuenteTexto: string, maxSlides: int)

  function Resolve(e: PptEstilo): (r: Resolved)
    ensures r.tema == e.tema.GetOr(Oscuro) && r.colorPrincipal == e.colorPrincipal.GetOr("#4F46E5")
    ensures r.fuenteTitulo == e.fuenteTitulo.GetOr("Poppins") && r.fuenteTexto == e.fuenteTexto.GetOr("Inter")
    ensures r.maxSlides == e.maxSlides.GetOr(7)
  {
    Resolved(e.tema.GetOr(Oscuro), e.colorPrincipal.GetOr("#4F46E5"), e.fuenteTitulo.GetOr("Poppins"),
             e.fuenteTexto.GetOr("Inter"), e.maxSlides.GetOr(7))
  }

  /** Background and text colours of a theme. */
  function ColorFondo(t: Tema): string {
    if t == Oscuro then "#020617" else "#f8fafc"
  }

  function ColorTexto(t: Tema): string {
    if t == Oscuro then "#e2e8f0" else "#0f172a"
  }

  datatype Deck = Deck(estilo: Resolved, portada: string, slides: seq<SlideText>)

  /** `generarPptDesdeContenido` given the AI's answer: at most `maxSlides`
      sections (`slice(0, maxSlides)`, so a negative limit counts from the
      end) become content slides after the cover. */
  function Generar(tituloPresentacion: string, raw: string, parse: string -> Option<Json>, estilo: PptEstilo): (r: Result<Deck>)
    ensures r.Ok? ==> (Estructura(raw, parse).Ok?
                       && r.value.portada == tituloPresentacion && r.value.estilo == Resolve(estilo)
                       && |r.value.slides| == |Seqs.JsSlice(Estructura(raw, parse).value, Resolve(estilo).maxSlides)|)
    ensures r.Ok? && Resolve(estilo).maxSlides >= 0 ==> |r.value.slides| <= Resolve(estilo).maxSlides
    ensures Estructura(raw, parse).Err? ==> r == Err(Estructura(raw, parse).failure)
    ensures Estructura(raw, parse).Ok? ==>
      (r.Err? <==> SomeSlideFails(Seqs.JsSlice(Estructura(raw, parse).value, Resolve(estilo).maxSlides)))
    ensures r.Ok? ==> SlidesOf(Seqs.JsSlice(Estructura(raw, parse).value, Resolve(estilo).maxSlides), r.value.slides)
  {
    var e := Resolve(estilo);
    match Estructura(raw, parse)
    case Err(f) => Err(f)
    case Ok(items) =>
      var estructura := Seqs.JsSlice(items, e.maxSlides);
      SlidesSpec(estructura);
      match Slides(estructura, 0)
      case Err(f) => Err(f)
      case Ok(slides) => Ok(Deck(e, tituloPresentacion, slides))
  }
}
