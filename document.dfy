/** The generated Quarto document (`build_qmd_content`, its copy
    `_build_qmd_content`, and the same template written inline in the web
    endpoint): a fixed YAML front-matter block with title, subtitle and
    institute spliced in verbatim, followed by the body. */
module Document {
  import opened Wrappers
  import opened Text

  /** The four user-supplied fields. */
  datatype Fields = Fields(titulo: string, subtitulo: string, instituto: string, conteudo: string)

  const TitleOpen: string := "---\ntitle: \""
  const SubtitleOpen: string := "\"\nsubtitle: \""
  const InstituteOpen: string := "\"\ninstitute: \""

  /** The fixed presentation options between the institute and the body. */
  const FixedOptions: string :=
    "date: today\n"
    + "date-format: \"D [de] MMMM [de] YYYY\"\n"
    + "lang: pt-BR\n"
    + "title-slide-attributes:\n"
    + "  class: title-slide\n"
    + "format:\n"
    + "  revealjs:\n"
    + "    theme: [simple, assets/ufs.scss]\n"
    + "    css: assets/custom.css\n"
    + "    logo: assets/logo_IFS.png\n"
    + "    footer: \"IFS | Apresentação do TCC\"\n"
    + "    slide-number: true\n"
    + "    controls: true\n"
    + "    width: 1280\n"
    + "    height: 720\n"
    + "    transition: slide\n"
    + "    background-transition: fade\n"
    + "    preview-links: auto\n"

  /** What follows the institute field: its closing quote, the options, and the end of the front matter. */
  const HeaderClose: string := "\"\n" + FixedOptions + "---\n\n"

  /** The document text for the four fields. */
  function BuildQmdContent(titulo: string, subtitulo: string, instituto: string, conteudo: string): string
  {
    TitleOpen + titulo + SubtitleOpen + subtitulo + InstituteOpen + instituto + HeaderClose + conteudo + "\n"
  }

  /** The title sits right after the opening text, and a double quote right after the title. */
  lemma TitleSpan(titulo: string, subtitulo: string, instituto: string, conteudo: string, k: nat)
    requires k <= |titulo|
    ensures var doc := BuildQmdContent(titulo, subtitulo, instituto, conteudo);
      |TitleOpen| + k < |doc| && doc[|TitleOpen| + k] == (titulo + SubtitleOpen)[k]
  {
    var head := TitleOpen + titulo + SubtitleOpen;
    assert head[|TitleOpen| + k] == (titulo + SubtitleOpen)[k];
    var p := head + subtitulo;
    var q := p + InstituteOpen + instituto;
    var r := q + HeaderClose + conteudo;
    assert BuildQmdContent(titulo, subtitulo, instituto, conteudo) == r + "\n";
    assert r[|TitleOpen| + k] == q[|TitleOpen| + k] == p[|TitleOpen| + k] == head[|TitleOpen| + k];
  }

  /** A field that contains no double quote. */
  predicate NoQuote(s: string) {
    forall i :: 0 <= i < |s| ==> s[i] != '"'
  }

  /** The text up to the first double quote, and the rest starting at that quote. */
  function SplitAtQuote(s: string): (r: Option<(string, string)>)
    ensures r.Some? ==> NoQuote(r.value.0) && r.value.0 + r.value.1 == s
                        && r.value.1 != [] && r.value.1[0] == '"'
    ensures r.None? <==> NoQuote(s)
  {
    if s == [] then None
    else if s[0] == '"' then Some(([], s))
    else match SplitAtQuote(s[1..])
      case None => None
      case Some((a, b)) => Some(([s[0]] + a, b))
  }

  /** Strips the opening text `open` and splits the rest at its first double quote. */
  function QuotedField(s: string, open: string): Option<(string, string)>
  {
    if StartsWith(s, open) then SplitAtQuote(s[|open|..]) else None
  }

  /** Reads the four fields back from a document laid out as `open1 + titulo +
      open2 + subtitulo + open3 + instituto + close + conteudo + "\n"`. */
  function ParseLaidOut(doc: string, open1: string, open2: string, open3: string, close: string): Option<Fields>
  {
    match QuotedField(doc, open1)
    case None => None
    case Some((titulo, r1)) =>
      match QuotedField(r1, open2)
      case None => None
      case Some((subtitulo, r2)) =>
        match QuotedField(r2, open3)
        case None => None
        case Some((instituto, r3)) =>
          if !StartsWith(r3, close) then None
          else
            var body := r3[|close|..];
            if !EndsWith(body, "\n") then None
            else Some(Fields(titulo, subtitulo, instituto, body[..|body| - 1]))
  }

  /** Reads the four fields back from a generated document, when its title,
      subtitle and institute hold no double quote. */
  function ParseQmdContent(doc: string): Option<Fields>
  {
    ParseLaidOut(doc, TitleOpen, SubtitleOpen, InstituteOpen, HeaderClose)
  }

  /** Splitting `a + b` where `a` has no quote and `b` starts with one gives back `a` and `b`. */
  lemma {:induction false} SplitAtQuoteOfJoin(a: string, b: string)
    requires NoQuote(a) && b != [] && b[0] == '"'
    ensures SplitAtQuote(a + b) == Some((a, b))
  {
    if a == [] {
      assert a + b == b;
    } else {
      assert (a + b)[0] == a[0] != '"';
      assert (a + b)[1..] == a[1..] + b;
      SplitAtQuoteOfJoin(a[1..], b);
      assert [a[0]] + a[1..] == a;
    }
  }

  /** A quote-free field after its opening text is read back, with the rest of the document. */
  lemma QuotedFieldOfJoin(open: string, a: string, rest: string)
    requires NoQuote(a) && rest != [] && rest[0] == '"'
    ensures QuotedField(open + a + rest, open) == Some((a, rest))
  {
    var s := open + a + rest;
    assert s[..|open|] == open;
    assert s[|open|..] == a + rest;
    SplitAtQuoteOfJoin(a, rest);
  }

  /** The round trip for any layout whose second, third and fourth texts open with a quote. */
  lemma ParseLaidOutRoundTrip(open1: string, open2: string, open3: string, close: string, f: Fields)
    requires NoQuote(f.titulo) && NoQuote(f.subtitulo) && NoQuote(f.instituto)
    requires open2 != [] && open2[0] == '"' && open3 != [] && open3[0] == '"' && close != [] && close[0] == '"'
    ensures ParseLaidOut(open1 + f.titulo + open2 + f.subtitulo + open3 + f.instituto + close + f.conteudo + "\n",
                         open1, open2, open3, close) == Some(f)
  {
    var body := f.conteudo + "\n";
    var r3 := close + body;
    var r2 := open3 + f.instituto + r3;
    var r1 := open2 + f.subtitulo + r2;
    assert open1 + f.titulo + open2 + f.subtitulo + open3 + f.instituto + close + f.conteudo + "\n"
           == open1 + f.titulo + r1;
    QuotedFieldOfJoin(open1, f.titulo, r1);
    QuotedFieldOfJoin(open2, f.subtitulo, r2);
    QuotedFieldOfJoin(open3, f.instituto, r3);
    assert r3[..|close|] == close;
    assert r3[|close|..] == body;
    assert body[|body| - 1..] == "\n";
    assert body[..|body| - 1] == f.conteudo;
  }

  /** The round trip: the fields of a document built from quote-free fields are recovered exactly. */
  lemma ParseBuildRoundTrip(titulo: string, subtitulo: string, instituto: string, conteudo: string)
    requires NoQuote(titulo) && NoQuote(subtitulo) && NoQuote(instituto)
    ensures ParseQmdContent(BuildQmdContent(titulo, subtitulo, instituto, conteudo))
            == Some(Fields(titulo, subtitulo, instituto, conteudo))
  {
    assert SubtitleOpen[0] == '"' && InstituteOpen[0] == '"' && HeaderClose[0] == '"';
    ParseLaidOutRoundTrip(TitleOpen, SubtitleOpen, InstituteOpen, HeaderClose,
                          Fields(titulo, subtitulo, instituto, conteudo));
  }

  /** The layout of the document: it begins with the three quoted fields, ends
      with the close of the front matter, the body and a newline, and between
      them holds only the fixed options. */
  lemma QmdLayout(titulo: string, subtitulo: string, instituto: string, conteudo: string)
    ensures var doc := BuildQmdContent(titulo, subtitulo, instituto, conteudo);
      var head := "---\ntitle: \"" + titulo + "\"\nsubtitle: \"" + subtitulo + "\"\ninstitute: \"" + instituto + "\"\n";
      var tail := "---\n\n" + conteudo + "\n";
      && StartsWith(doc, head)
      && EndsWith(doc, tail)
      && doc == head + FixedOptions + tail
      && |doc| == |titulo| + |subtitulo| + |instituto| + |conteudo| + 459
  {
    var head := "---\ntitle: \"" + titulo + "\"\nsubtitle: \"" + subtitulo + "\"\ninstitute: \"" + instituto + "\"\n";
    var tail := "---\n\n" + conteudo + "\n";
    LayoutRegroup(TitleOpen, titulo, SubtitleOpen, subtitulo, InstituteOpen, instituto,
                  "\"\n", FixedOptions, "---\n\n", conteudo, "\n");
    FixedOptionsLength();
    Framing(head, FixedOptions, tail);
  }

  lemma LayoutRegroup(o1: string, t: string, o2: string, s: string, o3: string, i: string,
                      q: string, options: string, d: string, c: string, n: string)
    ensures o1 + t + o2 + s + o3 + i + (q + options + d) + c + n
            == (o1 + t + o2 + s + o3 + i + q) + options + (d + c + n)
  {
    var h := o1 + t + o2 + s + o3 + i;
    assert h + (q + options + d) + c + n == (h + q) + options + (d + c + n);
  }

  lemma FixedOptionsLength()
    ensures |FixedOptions| == 412
  {
  }

  lemma Framing(head: string, middle: string, tail: string)
    ensures StartsWith(head + middle + tail, head) && EndsWith(head + middle + tail, tail)
  {
    var doc := head + middle + tail;
    assert doc[..|head|] == head;
    assert doc[|doc| - |tail|..] == tail;
  }

  /** The fields are inserted without escaping: a title that holds the
      subtitle's opening text yields the same document as a different split of
      the fields, so the document does not determine the fields. */
  lemma FieldsAreNotEscaped(a: string, b: string, c: string, instituto: string, conteudo: string)
    ensures Fields(a + SubtitleOpen + b, c, instituto, conteudo) != Fields(a, b + SubtitleOpen + c, instituto, conteudo)
    ensures BuildQmdContent(a + SubtitleOpen + b, c, instituto, conteudo)
            == BuildQmdContent(a, b + SubtitleOpen + c, instituto, conteudo)
  {
    assert |a + SubtitleOpen + b| != |a|;
    Regroup(TitleOpen, a, SubtitleOpen, b, c);
  }

  lemma Regroup(t: string, a: string, s: string, b: string, c: string)
    ensures t + (a + s + b) + s + c == t + a + s + (b + s + c)
  {
    assert t + (a + s + b) + s + c == t + a + s + b + s + c;
  }
}
