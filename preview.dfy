/** The Streamlit page's preview and download sections. The preview keeps its
    state across reruns of the script in `st.session_state["preview_quarto"]`,
    a dictionary the script updates in place: modelled as a class whose fields
    are its four entries. A render happens when the button is clicked, or in
    automatic mode when the fields' digest differs from the stored one. */
module Preview {
  import opened Wrappers
  import opened Text
  import opened Effects
  import opened Document
  import opened Uploads
  import opened Render

  /** The text whose SHA-256 digest keys the preview: the four fields joined by newlines. */
  function PreviewInput(f: Fields): string {
    f.titulo + "\n" + f.subtitulo + "\n" + f.instituto + "\n" + f.conteudo
  }

  /** `sha256(...).hexdigest()`; the digest itself is a parameter. */
  function PreviewKey(digest: string -> string, f: Fields): string {
    digest(PreviewInput(f))
  }

  predicate NoNewline(s: string) {
    forall i :: 0 <= i < |s| ==> s[i] != '\n'
  }

  /** A text without newline followed by a newline is read back unambiguously. */
  lemma SplitAtNewline(a: string, b: string, c: string, d: string)
    requires NoNewline(a) && NoNewline(c)
    requires a + "\n" + b == c + "\n" + d
    ensures a == c && b == d
  {
    var s := a + "\n" + b;
    assert s[|a|] == '\n';
    assert s == c + "\n" + d;
    assert s[|c|] == '\n';
    assert forall k :: 0 <= k < |a| ==> s[k] != '\n' by {
      forall k | 0 <= k < |a| ensures s[k] != '\n' { assert s[k] == a[k]; }
    }
    assert forall k :: 0 <= k < |c| ==> s[k] != '\n' by {
      forall k | 0 <= k < |c| ensures s[k] != '\n' { assert s[k] == c[k]; }
    }
    assert |a| == |c|;
    assert a == s[..|a|];
    assert c == s[..|c|];
    assert b == s[|a| + 1..];
    assert d == s[|c| + 1..];
  }

  /** Different fields give different digest inputs, as long as the first
      three hold no newline. */
  lemma PreviewInputInjective(f: Fields, g: Fields)
    requires NoNewline(f.titulo) && NoNewline(f.subtitulo) && NoNewline(f.instituto)
    requires NoNewline(g.titulo) && NoNewline(g.subtitulo) && NoNewline(g.instituto)
    requires PreviewInput(f) == PreviewInput(g)
    ensures f == g
  {
    var r1 := f.subtitulo + "\n" + f.instituto + "\n" + f.conteudo;
    var r2 := g.subtitulo + "\n" + g.instituto + "\n" + g.conteudo;
    assert PreviewInput(f) == f.titulo + "\n" + r1;
    assert PreviewInput(g) == g.titulo + "\n" + r2;
    SplitAtNewline(f.titulo, r1, g.titulo, r2);
    var q1 := f.instituto + "\n" + f.conteudo;
    var q2 := g.instituto + "\n" + g.conteudo;
    assert r1 == f.subtitulo + "\n" + q1;
    assert r2 == g.subtitulo + "\n" + q2;
    SplitAtNewline(f.subtitulo, q1, g.subtitulo, q2);
    SplitAtNewline(f.instituto, f.conteudo, g.instituto, g.conteudo);
  }

  /** With a collision-free digest, an edit to newline-free fields changes the key. */
  lemma PreviewKeyDetectsEdits(digest: string -> string, f: Fields, g: Fields)
    requires forall x, y :: digest(x) == digest(y) ==> x == y
    requires NoNewline(f.titulo) && NoNewline(f.subtitulo) && NoNewline(f.instituto)
    requires NoNewline(g.titulo) && NoNewline(g.subtitulo) && NoNewline(g.instituto)
    requires f != g
    ensures PreviewKey(digest, f) != PreviewKey(digest, g)
  {
    if PreviewInput(f) == PreviewInput(g) {
      PreviewInputInjective(f, g);
    }
  }

  /** The title and subtitle are multi-line text areas: moving a line from the
      end of the title to the start of the subtitle keeps the key, so automatic
      mode does not refresh although the slides differ. */
  lemma PreviewKeyIgnoresMovedLine(digest: string -> string)
    ensures var f := Fields("A\nB", "C", "I", "X");
      var g := Fields("A", "B\nC", "I", "X");
      f != g && PreviewKey(digest, f) == PreviewKey(digest, g)
      && BuildQmdContent(f.titulo, f.subtitulo, f.instituto, f.conteudo)
         != BuildQmdContent(g.titulo, g.subtitulo, g.instituto, g.conteudo)
  {
    var f := Fields("A\nB", "C", "I", "X");
    var g := Fields("A", "B\nC", "I", "X");
    assert PreviewInput(f) == PreviewInput(g);
    assert f.titulo != g.titulo;
    var d1 := BuildQmdContent(f.titulo, f.subtitulo, f.instituto, f.conteudo);
    var d2 := BuildQmdContent(g.titulo, g.subtitulo, g.instituto, g.conteudo);
    TitleSpan(f.titulo, f.subtitulo, f.instituto, f.conteudo, 1);
    TitleSpan(g.titulo, g.subtitulo, g.instituto, g.conteudo, 1);
    assert (f.titulo + SubtitleOpen)[1] == '\n';
    assert (g.titulo + SubtitleOpen)[1] == '"';
  }

  /** `err or ""` */
  function ErrorText(error: Option<string>): string {
    if error.Some? then error.value else ""
  }

  /** `html_bytes.decode("utf-8", errors="replace") if html_bytes else ""`; the decoder is a parameter. */
  function HtmlText(html: Option<Bytes>, decode: Bytes -> string): string {
    if html.Some? && html.value != [] then decode(html.value) else ""
  }

  /** The text of "Ver detalhes técnicos": a missing entry reads as empty, a
      missing exit code as `None`. */
  function DetailsText(debug: Debug): (text: string)
    ensures debug.Debug? ==> Contains(text, debug.stdout) && Contains(text, debug.stderr)
    ensures debug.Debug? && debug.exitCode.Some? ==> EndsWith(text, IntToString(debug.exitCode.value))
    ensures debug.NoDebug? || debug.exitCode.None? ==> EndsWith(text, "None")
  {
    var out := if debug.Debug? then debug.stdout else "";
    var err := if debug.Debug? then debug.stderr else "";
    var code := if debug.Debug? && debug.exitCode.Some? then IntToString(debug.exitCode.value) else "None";
    HolesAreKept(StdoutLabel, out, StderrLabel, err, ExitCodeLabel, code);
    StdoutLabel + out + StderrLabel + err + ExitCodeLabel + code
  }

  const StdoutLabel: string := "STDOUT:\n"
  const StderrLabel: string := "\n\nSTDERR:\n"
  const ExitCodeLabel: string := "\n\nExitCode: "

  /** The session's preview entry. */
  class PreviewState {
    var hash: string
    var html: string
    var error: string
    var debug: Debug

    /** `{"hash": "", "html": "", "error": "", "debug": {}}` */
    constructor()
      ensures hash == "" && html == "" && error == "" && debug == NoDebug
    {
      hash := "";
      html := "";
      error := "";
      debug := NoDebug;
    }

    /** `should_render`: the button was clicked, or automatic mode is on and the key changed. */
    predicate ShouldRender(clicked: bool, auto: bool, key: string)
      reads this
    {
      clicked || (auto && hash != key)
    }

    /** One run of the preview section: render when due, then store the key,
        the debug entry, the error text and the decoded page. A render that
        raises ends the script run before anything is stored. */
    method Refresh(clicked: bool, auto: bool, digest: string -> string, decode: Bytes -> string,
                   f: Fields, uploads: seq<Upload>, template: TemplateState, basePath: string, ws: Workspace)
      returns (effects: seq<Effect>)
      modifies this
      ensures var key := PreviewKey(digest, f);
        var spec := RenderSpec(template, TemplatePath(basePath), f, "quarto",
                               AllUploadWrites(FigurasDir(ws.tmp), uploads), None, ws);
        && (old(ShouldRender(clicked, auto, key)) ==> effects == spec.0)
        && (!old(ShouldRender(clicked, auto, key)) ==> effects == [] && unchanged(this))
        && (old(ShouldRender(clicked, auto, key)) && spec.1.Raised? ==> unchanged(this))
        && (old(ShouldRender(clicked, auto, key)) && spec.1.Returned? ==>
              && hash == key
              && debug == spec.1.value.debug
              && error == ErrorText(spec.1.value.error)
              && html == HtmlText(spec.1.value.html, decode)
              && !ShouldRender(false, auto, key))
    {
      var chave := PreviewKey(digest, f);
      effects := [];
      var shouldRender := clicked || (auto && hash != chave);
      if shouldRender {
        var outcome;
        effects, outcome := StreamlitRenderQuarto(f, uploads, template, basePath, ws);
        if outcome.Returned? {
          var r := outcome.value;
          hash := chave;
          debug := r.debug;
          error := if r.error.Some? then r.error.value else "";
          html := if r.html.Some? && r.html.value != [] then decode(r.html.value) else "";
        }
      }
    }
  }

  /** What the download section shows after its own render. */
  datatype DownloadView = ShowError(message: string, details: string) | Offer(data: Bytes, fileName: string)

  /** `if err: ... else: assert html_bytes is not None; ...` */
  function Download(r: Rendered, stamp: string): DownloadView
    requires ErrorText(r.error) != "" || r.html.Some?
  {
    if ErrorText(r.error) != "" then ShowError(r.error.value, DetailsText(r.debug))
    else Offer(r.html.value, "apresentacao_" + stamp + ".html")
  }

  /** The page's assertion holds for every result the Streamlit render
      returns: it carries a non-empty error or the bytes; and the download
      offers exactly those bytes, or shows exactly that error. */
  lemma StreamlitDownloadIsDefined(template: TemplateState, templatePath: string, f: Fields, writes: seq<Effect>,
                                   ws: Workspace, stamp: string)
    requires RenderSpec(template, templatePath, f, "quarto", writes, None, ws).1.Returned?
    ensures var r := RenderSpec(template, templatePath, f, "quarto", writes, None, ws).1.value;
      && (ErrorText(r.error) != "" || r.html.Some?)
      && (Download(r, stamp).Offer? <==> r.html.Some?)
      && (Download(r, stamp).Offer? ==> Download(r, stamp).data == r.html.value)
      && (Download(r, stamp).ShowError? ==> Some(Download(r, stamp).message) == r.error)
  {
    assert |TemplateMissing| > 0 && |QuartoMissing| > 0 && |HtmlNotGenerated| > 0;
    if template == Directory {
      RenderResults(template, templatePath, f, "quarto", writes, None, ws);
    }
  }
}
