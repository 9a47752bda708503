/** The render pipeline shared by the build script (`render_quarto`) and the
    Streamlit app (`_render_quarto`): check the template, make a scratch
    directory, copy the template into `<tmp>/projeto`, create `Figuras`, write
    the uploads (Streamlit only), write `apresentacao.qmd`, run the renderer,
    locate its output and return the bytes, an error message and debug
    information; the scratch directory is deleted on every path out.

    The world is an input: `Workspace` says which directory `mkdtemp` made, how
    the renderer run ends, what the output directory then holds, what a file
    read returns, and how the deletion attempts end. Each front end returns the
    calls it made, in order, and its outcome: a result tuple, or the exception
    raised by the deletion in the `finally` clause, which replaces it. */
module Render {
  import opened Wrappers
  import opened Text
  import opened Effects
  import opened Locator
  import opened Document
  import opened Reaper
  import opened Uploads

  const TemplateMissing: string := "Pasta 'template' não encontrada dentro do projeto."
  const QuartoMissing: string := "Comando 'quarto' não encontrado. Instale o Quarto CLI no servidor."
  const HtmlNotGenerated: string := "Arquivo HTML não foi gerado."

  /** The renderer release the build script installs under the home directory. */
  const QuartoVersion: string := "1.8.27"

  /** What is found at `<base>/template`. */
  datatype TemplateState = Missing | NotADirectory | Directory

  /** The host facts `get_quarto_binary` consults: `os.name == 'posix'`, the
      home directory, and whether the local install's executable exists. */
  datatype Host = Host(isPosix: bool, home: string, localInstalled: bool)

  /** How `subprocess.run` ends: the executable is not found, or the process
      completes with its captured output and exit status. */
  datatype QuartoRun = ExecutableMissing | Completed(stdout: string, stderr: string, returncode: int)

  /** The debug dictionary: `{}`, or stdout, stderr and the exit code (`None`
      when the executable was not found). */
  datatype Debug = NoDebug | Debug(stdout: string, stderr: string, exitCode: Option<int>)

  /** The triple `(html_bytes, error, debug)`. */
  datatype Rendered = Rendered(html: Option<Bytes>, error: Option<string>, debug: Debug)

  /** What the world answers during one render. */
  datatype Workspace = Workspace(
    tmp: string,                 // the directory `mkdtemp` creates
    run: QuartoRun,              // how the renderer run ends
    existing: set<string>,       // the paths that exist after the run
    walk: seq<WalkEntry>,        // the files of the work directory after the run, in walk order
    read: string -> Bytes,       // the content of a file
    reap: nat -> Attempt,        // how each strict deletion of `tmp` ends
    forcedRaises: bool)          // whether the forced deletion raises

  function TemplatePath(basePath: string): string { JoinRelative(basePath, "template") }
  function WorkDir(tmp: string): string { JoinRelative(tmp, "projeto") }
  function FigurasDir(tmp: string): string { JoinRelative(WorkDir(tmp), "Figuras") }
  function QmdPath(tmp: string): string { JoinRelative(WorkDir(tmp), "apresentacao.qmd") }

  /** `if output_dir:` -- neither `None` nor empty. */
  predicate Truthy(outputDir: Option<string>) {
    outputDir.Some? && outputDir.value != []
  }

  /** Where the build script's local install puts the executable. */
  function LocalQuarto(home: string): string {
    JoinRelative(LocalQuartoBin(home), "quarto")
  }

  /** `Path.home() / ".quarto_local" / f"quarto-{QUARTO_VERSION}-linux-amd64" / "bin"` */
  function LocalQuartoBin(home: string): string {
    JoinRelative(JoinRelative(JoinRelative(home, ".quarto_local"), "quarto-" + QuartoVersion + "-linux-amd64"), "bin")
  }

  /** `get_quarto_binary()`: the local install on a POSIX host when its
      executable exists, otherwise the bare name, whether or not it is on the
      `PATH`. */
  function GetQuartoBinary(host: Host): string {
    if host.isPosix && host.localInstalled then LocalQuarto(host.home) else "quarto"
  }

  /** Either way the executable is called `quarto`, and the local install is
      chosen exactly on a POSIX host where it exists. */
  lemma QuartoBinaryChoice(host: Host)
    ensures Basename(GetQuartoBinary(host)) == "quarto"
    ensures GetQuartoBinary(host) != "quarto" <==> host.isPosix && host.localInstalled
  {
    LocalQuartoShape(host.home);
    QuartoIsAName();
    BasenameOfJoin("", "quarto");
  }

  /** The local executable is a `quarto` file under the install's `bin` directory. */
  lemma LocalQuartoShape(home: string)
    ensures Basename(LocalQuarto(home)) == "quarto"
    ensures LocalQuarto(home) != "quarto"
  {
    var dir := LocalQuartoBin(home);
    QuartoIsAName();
    BasenameOfJoin(dir, "quarto");
    assert dir[|dir| - 1] == 'n' by { assert dir[|dir| - 3..] == "bin"; }
    assert LocalQuarto(home) == dir + [Sep] + "quarto";
  }

  lemma QuartoIsAName()
    ensures IsName("quarto")
  {
  }

  /** The calls from copying the template up to starting the renderer. */
  function Prelude(templatePath: string, tmp: string, writes: seq<Effect>, f: Fields, binary: string): seq<Effect>
  {
    [CopyTemplate(templatePath, WorkDir(tmp)), MakeDirs(FigurasDir(tmp))]
    + writes
    + [WriteText(QmdPath(tmp), BuildQmdContent(f.titulo, f.subtitulo, f.instituto, f.conteudo)),
       RunQuarto(QuartoCommand(binary), WorkDir(tmp))]
  }

  /** The calls and the result after the renderer run. */
  function AfterRun(ws: Workspace, outputDir: Option<string>): (seq<Effect>, Rendered)
  {
    match ws.run
    case ExecutableMissing => ([], Rendered(None, Some(QuartoMissing), Debug("", "", None)))
    case Completed(out, err, code) =>
      var debug := Debug(out, err, Some(code));
      match Located(WorkDir(ws.tmp), ws.existing, ws.walk)
      case None => ([], Rendered(None, Some(HtmlNotGenerated), debug))
      case Some(html) =>
        if Truthy(outputDir) then
          ([MakeDirs(outputDir.value), CopyFile(html, JoinRelative(outputDir.value, "index.html"))], Rendered(None, None, debug))
        else ([], Rendered(Some(ws.read(html)), None, debug))
  }

  /** The whole render: nothing at all without a template directory; otherwise
      the scratch directory, the body's calls, and the deletion, whose
      re-raised failure replaces the body's result. */
  function RenderSpec(template: TemplateState, templatePath: string, f: Fields, binary: string,
                      writes: seq<Effect>, outputDir: Option<string>, ws: Workspace): (seq<Effect>, Outcome<Rendered>)
  {
    if template != Directory then ([], Returned(Rendered(None, Some(TemplateMissing), NoDebug)))
    else
      var after := AfterRun(ws, outputDir);
      var body := Prelude(templatePath, ws.tmp, writes, f, binary) + after.0;
      ([MakeTempDir(ws.tmp)] + body + ReaperCalls(ws.tmp, true, DefaultAttempts, ws.reap),
       match Reraised(true, DefaultAttempts, ws.reap, ws.forcedRaises)
       case Some(e) => Raised(e)
       case None => Returned(after.1))
  }

  /** The part of both front ends after `subprocess.run` returned. */
  method CollectOutput(ws: Workspace, outputDir: Option<string>) returns (effects: seq<Effect>, body: Rendered)
    requires ws.run.Completed?
    ensures (effects, body) == AfterRun(ws, outputDir)
  {
    effects := [];
    var workDir := JoinRelative(ws.tmp, "projeto");
    var htmlFile := FindRenderedHtml(workDir, ws.existing, ws.walk);
    var debug := Debug(ws.run.stdout, ws.run.stderr, Some(ws.run.returncode));
    if htmlFile.None? {
      body := Rendered(None, Some(HtmlNotGenerated), debug);
      return;
    }
    if outputDir.Some? && outputDir.value != [] {
      effects := [MakeDirs(outputDir.value), CopyFile(htmlFile.value, JoinRelative(outputDir.value, "index.html"))];
      body := Rendered(None, None, debug);
      return;
    }
    var htmlBytes := ws.read(htmlFile.value);
    body := Rendered(Some(htmlBytes), None, debug);
  }

  /** `render_quarto(...)` of the build script: uploads are accepted but not
      written, the executable comes from `get_quarto_binary()`, and with a
      non-empty `output_dir` the located file is copied there as `index.html`
      instead of being read. */
  method RenderQuarto(f: Fields, uploads: seq<Upload>, outputDir: Option<string>,
                      template: TemplateState, basePath: string, host: Host, ws: Workspace)
    returns (effects: seq<Effect>, result: Outcome<Rendered>)
    ensures (effects, result) == RenderSpec(template, TemplatePath(basePath), f, GetQuartoBinary(host), [], outputDir, ws)
  {
    var templatePath := JoinRelative(basePath, "template");
    if template != Directory {
      return [], Returned(Rendered(None, Some(TemplateMissing), NoDebug));
    }
    var tmpdirname := ws.tmp;
    effects := [MakeTempDir(tmpdirname)];
    var more, body := BuildScriptBody(f, uploads, outputDir, templatePath, host, ws);
    effects := effects + more;
    // finally: safe_rmtree(tmpdirname)
    var calls, raised := SafeRmtree(tmpdirname, true, DefaultAttempts, ws.reap, ws.forcedRaises);
    effects := effects + calls;
    result := if raised.Some? then Raised(raised.value) else Returned(body);
  }

  /** The `try` block of `render_quarto`, in the scratch directory `ws.tmp`. */
  method BuildScriptBody(f: Fields, uploads: seq<Upload>, outputDir: Option<string>,
                         templatePath: string, host: Host, ws: Workspace)
    returns (effects: seq<Effect>, body: Rendered)
    ensures effects == Prelude(templatePath, ws.tmp, [], f, GetQuartoBinary(host)) + AfterRun(ws, outputDir).0
    ensures body == AfterRun(ws, outputDir).1
  {
    var workDir := JoinRelative(ws.tmp, "projeto");
    effects := [CopyTemplate(templatePath, workDir)];
    var figurasDir := JoinRelative(workDir, "Figuras");
    effects := effects + [MakeDirs(figurasDir)];
    // the upload loop's body is `pass`: nothing is written
    var qmdContent := BuildQmdContent(f.titulo, f.subtitulo, f.instituto, f.conteudo);
    var qmdPath := JoinRelative(workDir, "apresentacao.qmd");
    effects := effects + [WriteText(qmdPath, qmdContent)];
    var quartoCmd := GetQuartoBinary(host);
    effects := effects + [RunQuarto(QuartoCommand(quartoCmd), workDir)];
    assert effects == Prelude(templatePath, ws.tmp, [], f, GetQuartoBinary(host));
    if ws.run.ExecutableMissing? {
      body := Rendered(None, Some(QuartoMissing), Debug("", "", None));
    } else {
      var more;
      more, body := CollectOutput(ws, outputDir);
      effects := effects + more;
    }
  }

  /** The writes of the Streamlit upload loop, one per upload, in order. */
  function AllUploadWrites(figurasDir: string, uploads: seq<Upload>): (w: seq<Effect>)
    ensures |w| == |uploads|
    ensures forall k :: 0 <= k < |uploads| ==> w[k] == WriteBytes(Join(figurasDir, uploads[k].filename), uploads[k].data)
  {
    seq(|uploads|, k requires 0 <= k < |uploads| => WriteBytes(Join(figurasDir, uploads[k].filename), uploads[k].data))
  }

  /** `_render_quarto(...)` of the Streamlit app: every upload is written to
      `Figuras` under its own name and the executable is the bare `quarto`. */
  method StreamlitRenderQuarto(f: Fields, uploads: seq<Upload>, template: TemplateState, basePath: string, ws: Workspace)
    returns (effects: seq<Effect>, result: Outcome<Rendered>)
    ensures (effects, result) == RenderSpec(template, TemplatePath(basePath), f, "quarto",
                                            AllUploadWrites(FigurasDir(ws.tmp), uploads), None, ws)
  {
    var templatePath := JoinRelative(basePath, "template");
    if template != Directory {
      return [], Returned(Rendered(None, Some(TemplateMissing), NoDebug));
    }
    var tmpdirname := ws.tmp;
    effects := [MakeTempDir(tmpdirname)];
    var more, body := StreamlitBody(f, uploads, templatePath, ws);
    effects := effects + more;
    // finally: _safe_rmtree(tmpdirname)
    var calls, raised := SafeRmtree(tmpdirname, true, DefaultAttempts, ws.reap, ws.forcedRaises);
    effects := effects + calls;
    result := if raised.Some? then Raised(raised.value) else Returned(body);
  }

  /** The `try` block of `_render_quarto`, in the scratch directory `ws.tmp`. */
  method StreamlitBody(f: Fields, uploads: seq<Upload>, templatePath: string, ws: Workspace)
    returns (effects: seq<Effect>, body: Rendered)
    ensures effects == Prelude(templatePath, ws.tmp, AllUploadWrites(FigurasDir(ws.tmp), uploads), f, "quarto")
                       + AfterRun(ws, None).0
    ensures body == AfterRun(ws, None).1
  {
    var workDir := JoinRelative(ws.tmp, "projeto");
    effects := [CopyTemplate(templatePath, workDir)];
    var figurasDir := JoinRelative(workDir, "Figuras");
    effects := effects + [MakeDirs(figurasDir)];
    var writes := WriteAllUploads(figurasDir, uploads);
    assert writes == AllUploadWrites(figurasDir, uploads);
    effects := effects + writes;
    var qmdContent := BuildQmdContent(f.titulo, f.subtitulo, f.instituto, f.conteudo);
    var qmdPath := JoinRelative(workDir, "apresentacao.qmd");
    effects := effects + [WriteText(qmdPath, qmdContent)];
    effects := effects + [RunQuarto(QuartoCommand("quarto"), workDir)];
    assert effects == Prelude(templatePath, ws.tmp, AllUploadWrites(FigurasDir(ws.tmp), uploads), f, "quarto");
    if ws.run.ExecutableMissing? {
      body := Rendered(None, Some(QuartoMissing), Debug("", "", None));
    } else {
      var more;
      more, body := CollectOutput(ws, None);
      effects := effects + more;
    }
  }

  /** Without a template directory the render makes no call at all, not even
      `mkdtemp`, and answers with the missing-template message and no debug
      output. */
  lemma RenderWithoutTemplate(template: TemplateState, templatePath: string, f: Fields, binary: string,
                              writes: seq<Effect>, outputDir: Option<string>, ws: Workspace)
    requires template != Directory
    ensures RenderSpec(template, templatePath, f, binary, writes, outputDir, ws)
            == ([], Returned(Rendered(None, Some(TemplateMissing), NoDebug)))
  {
  }

  /** Once made, the scratch directory is deleted on every path out: it is
      the first call, the deletion's calls end the trace, and the last call
      removes it, strictly or by force. */
  lemma RenderAlwaysReaps(templatePath: string, f: Fields, binary: string,
                          writes: seq<Effect>, outputDir: Option<string>, ws: Workspace)
    ensures var effects := RenderSpec(Directory, templatePath, f, binary, writes, outputDir, ws).0;
      var calls := ReaperCalls(ws.tmp, true, DefaultAttempts, ws.reap);
      && effects[0] == MakeTempDir(ws.tmp)
      && |calls| < |effects| && effects[|effects| - |calls|..] == calls
      && (effects[|effects| - 1] == RemoveTree(ws.tmp) || effects[|effects| - 1] == ForceRemoveTree(ws.tmp))
  {
    var after := AfterRun(ws, outputDir);
    var pre := Prelude(templatePath, ws.tmp, writes, f, binary);
    var calls := ReaperCalls(ws.tmp, true, DefaultAttempts, ws.reap);
    assert RenderSpec(Directory, templatePath, f, binary, writes, outputDir, ws).0
           == [MakeTempDir(ws.tmp)] + (pre + after.0) + calls;
    RetryFromEndsWithRemoval(ws.tmp, DefaultAttempts, ws.reap, 0);
    Framed(MakeTempDir(ws.tmp), pre + after.0, calls);
  }

  /** When the deletion does not re-raise, the result is exactly one of: the
      bytes of the located file; a copy to the output directory with neither
      bytes nor error; the missing-executable error with empty debug output;
      the no-output error with the run's output and status. */
  lemma RenderResults(template: TemplateState, templatePath: string, f: Fields, binary: string,
                      writes: seq<Effect>, outputDir: Option<string>, ws: Workspace)
    requires template == Directory
    requires Reraised(true, DefaultAttempts, ws.reap, ws.forcedRaises).None?
    ensures var (effects, result) := RenderSpec(template, templatePath, f, binary, writes, outputDir, ws);
      var found := Located(WorkDir(ws.tmp), ws.existing, ws.walk);
      && result.Returned?
      && (result.value.html.Some? ==> result.value.error.None?)
      && (result.value.error == Some(QuartoMissing) <==> ws.run.ExecutableMissing?)
      && (ws.run.ExecutableMissing? ==> result.value.debug == Debug("", "", None))
      && (result.value.error == Some(HtmlNotGenerated) <==> ws.run.Completed? && found.None?)
      && (result.value.html.Some? <==> ws.run.Completed? && found.Some? && !Truthy(outputDir))
      && (result.value.html.Some? ==> result.value.html.value == ws.read(found.value))
      && (result.value.html.None? && result.value.error.None? <==>
            ws.run.Completed? && found.Some? && Truthy(outputDir))
      && (result.value.html.None? && result.value.error.None? ==>
            CopyFile(found.value, JoinRelative(outputDir.value, "index.html")) in effects)
      && (ws.run.Completed? ==>
            result.value.debug == Debug(ws.run.stdout, ws.run.stderr, Some(ws.run.returncode)))
  {
    var after := AfterRun(ws, outputDir);
    var spec := RenderSpec(template, templatePath, f, binary, writes, outputDir, ws);
    assert spec.1 == Returned(after.1);
    AfterRunInTrace(template, templatePath, f, binary, writes, outputDir, ws);
    AfterRunResults(ws, outputDir);
  }

  /** Every call after the renderer run is in the whole trace. */
  lemma AfterRunInTrace(template: TemplateState, templatePath: string, f: Fields, binary: string,
                        writes: seq<Effect>, outputDir: Option<string>, ws: Workspace)
    requires template == Directory
    ensures forall e :: e in AfterRun(ws, outputDir).0 ==>
      e in RenderSpec(template, templatePath, f, binary, writes, outputDir, ws).0
  {
    var after := AfterRun(ws, outputDir);
    var pre := Prelude(templatePath, ws.tmp, writes, f, binary);
    var calls := ReaperCalls(ws.tmp, true, DefaultAttempts, ws.reap);
    assert RenderSpec(template, templatePath, f, binary, writes, outputDir, ws).0
           == [MakeTempDir(ws.tmp)] + (pre + after.0) + calls;
  }

  /** The case analysis after the renderer run, on its own. */
  lemma AfterRunResults(ws: Workspace, outputDir: Option<string>)
    ensures var (calls, r) := AfterRun(ws, outputDir);
      var found := Located(WorkDir(ws.tmp), ws.existing, ws.walk);
      && (r.html.Some? ==> r.error.None?)
      && (r.error == Some(QuartoMissing) <==> ws.run.ExecutableMissing?)
      && (ws.run.ExecutableMissing? ==> r.debug == Debug("", "", None))
      && (r.error == Some(HtmlNotGenerated) <==> ws.run.Completed? && found.None?)
      && (r.html.Some? <==> ws.run.Completed? && found.Some? && !Truthy(outputDir))
      && (r.html.Some? ==> r.html.value == ws.read(found.value))
      && (r.html.None? && r.error.None? <==> ws.run.Completed? && found.Some? && Truthy(outputDir))
      && (r.html.None? && r.error.None? ==> CopyFile(found.value, JoinRelative(outputDir.value, "index.html")) in calls)
      && (ws.run.Completed? ==> r.debug == Debug(ws.run.stdout, ws.run.stderr, Some(ws.run.returncode)))
  {
    assert |QuartoMissing| != |HtmlNotGenerated|;
  }

  /** A failure that the deletion re-raises replaces whatever the body
      produced: it happens exactly when all six strict deletions fail and the
      forced one raises, and it is the sixth failure. */
  lemma ReaperFailureReplacesResult(template: TemplateState, templatePath: string, f: Fields, binary: string,
                                    writes: seq<Effect>, outputDir: Option<string>, ws: Workspace)
    requires template == Directory
    ensures var (effects, result) := RenderSpec(template, templatePath, f, binary, writes, outputDir, ws);
      && (result.Raised? <==> FailedFirst(ws.reap, 6) && ws.forcedRaises)
      && (result.Raised? ==> result.error == ws.reap(5).error)
  {
  }

  /** The renderer is started in the work directory on the file written just
      before it, and that file holds the generated document. */
  lemma RendererReadsWrittenDocument(template: TemplateState, templatePath: string, f: Fields, binary: string,
                                     writes: seq<Effect>, outputDir: Option<string>, ws: Workspace)
    requires template == Directory
    ensures var (effects, result) := RenderSpec(template, templatePath, f, binary, writes, outputDir, ws);
      var cmd := QuartoCommand(binary);
      var j := |writes| + 4;
      && j < |effects|
      && effects[j] == RunQuarto(cmd, WorkDir(ws.tmp))
      && effects[j - 1] == WriteText(JoinRelative(WorkDir(ws.tmp), cmd[2]),
                                     BuildQmdContent(f.titulo, f.subtitulo, f.instituto, f.conteudo))
  {
    var effects := RenderSpec(template, templatePath, f, binary, writes, outputDir, ws).0;
    var rest := AfterRun(ws, outputDir).0 + ReaperCalls(ws.tmp, true, DefaultAttempts, ws.reap);
    assert effects == [MakeTempDir(ws.tmp)] + (Prelude(templatePath, ws.tmp, writes, f, binary) + rest);
    PreludeLayout(MakeTempDir(ws.tmp), rest, templatePath, ws.tmp, writes, f, binary);
  }

  /** The build script's render writes no upload: no call in its trace writes bytes. */
  lemma BuildScriptWritesNoUploads(template: TemplateState, templatePath: string, f: Fields, binary: string,
                                   outputDir: Option<string>, ws: Workspace)
    ensures var (effects, result) := RenderSpec(template, templatePath, f, binary, [], outputDir, ws);
      forall e :: e in effects ==> !e.WriteBytes?
  {
    if template == Directory {
      var pre := Prelude(templatePath, ws.tmp, [], f, binary);
      var effects := RenderSpec(template, templatePath, f, binary, [], outputDir, ws).0;
      assert effects == [MakeTempDir(ws.tmp)] + (pre + AfterRun(ws, outputDir).0)
                        + ReaperCalls(ws.tmp, true, DefaultAttempts, ws.reap);
      forall e | e in pre ensures !e.WriteBytes? {
        if e.WriteBytes? {
          PreludeWriteBytes(templatePath, ws.tmp, [], f, binary, e);
        }
      }
      AfterRunWritesNoBytes(ws, outputDir);
      ReaperCallsOnlyRemove(ws.tmp, DefaultAttempts, ws.reap, 0);
    }
  }

  /** Nothing after the renderer run writes bytes. */
  lemma AfterRunWritesNoBytes(ws: Workspace, outputDir: Option<string>)
    ensures forall e :: e in AfterRun(ws, outputDir).0 ==> !e.WriteBytes?
  {
  }

  /** The deletion only removes and pauses. */
  lemma {:induction false} ReaperCallsOnlyRemove(path: string, attempts: int, outcome: nat -> Attempt, k: nat)
    ensures forall e :: e in RetryFrom(path, attempts, outcome, k) ==>
      e == RemoveTree(path) || e == Sleep || e == ForceRemoveTree(path)
    decreases attempts - k
  {
    if k < attempts && outcome(k).Failed? {
      ReaperCallsOnlyRemove(path, attempts, outcome, k + 1);
    }
  }

  /** The Streamlit render writes every upload, in order, right after creating
      `Figuras`, each under its own name. */
  lemma StreamlitWritesEveryUpload(template: TemplateState, templatePath: string, f: Fields,
                                   uploads: seq<Upload>, ws: Workspace)
    requires template == Directory
    ensures var (effects, result) := RenderSpec(template, templatePath, f, "quarto",
                                                AllUploadWrites(FigurasDir(ws.tmp), uploads), None, ws);
      && effects[2] == MakeDirs(FigurasDir(ws.tmp))
      && forall k :: 0 <= k < |uploads| ==>
           effects[3 + k] == WriteBytes(Join(FigurasDir(ws.tmp), uploads[k].filename), uploads[k].data)
  {
    var writes := AllUploadWrites(FigurasDir(ws.tmp), uploads);
    var effects := RenderSpec(template, templatePath, f, "quarto", writes, None, ws).0;
    var pre := Prelude(templatePath, ws.tmp, writes, f, "quarto");
    var rest := AfterRun(ws, None).0 + ReaperCalls(ws.tmp, true, DefaultAttempts, ws.reap);
    assert effects == [MakeTempDir(ws.tmp)] + (pre + rest);
    PreludeLayout(MakeTempDir(ws.tmp), rest, templatePath, ws.tmp, writes, f, "quarto");
  }

  /** The Streamlit render uses each upload's name as sent: an absolute name
      discards the `Figuras` directory, and the bytes are written at that path. */
  lemma StreamlitAbsoluteUploadEscapes(template: TemplateState, templatePath: string, f: Fields,
                                       uploads: seq<Upload>, ws: Workspace, k: nat)
    requires template == Directory && k < |uploads| && IsAbsolute(uploads[k].filename)
    ensures var effects := RenderSpec(template, templatePath, f, "quarto",
                                      AllUploadWrites(FigurasDir(ws.tmp), uploads), None, ws).0;
      3 + k < |effects| && effects[3 + k] == WriteBytes(uploads[k].filename, uploads[k].data)
  {
    StreamlitWritesEveryUpload(template, templatePath, f, uploads, ws);
    JoinOfAbsolute(FigurasDir(ws.tmp), uploads[k].filename);
  }

  /** The only byte writes of the prelude are the upload writes it is given. */
  lemma PreludeWriteBytes(templatePath: string, tmp: string, writes: seq<Effect>, f: Fields, binary: string, w: Effect)
    requires w.WriteBytes?
    ensures w in Prelude(templatePath, tmp, writes, f, binary) <==> w in writes
  {
    var qmd := WriteText(QmdPath(tmp), BuildQmdContent(f.titulo, f.subtitulo, f.instituto, f.conteudo));
    var run := RunQuarto(QuartoCommand(binary), WorkDir(tmp));
    assert Prelude(templatePath, tmp, writes, f, binary)
      == [CopyTemplate(templatePath, WorkDir(tmp)), MakeDirs(FigurasDir(tmp))] + writes + [qmd, run];
  }

  /** Where each call of the prelude sits in a trace with one call before it. */
  lemma PreludeLayout(first: Effect, rest: seq<Effect>, templatePath: string, tmp: string, writes: seq<Effect>,
                      f: Fields, binary: string)
    ensures var s := [first] + (Prelude(templatePath, tmp, writes, f, binary) + rest);
      var n := |writes|;
      && |s| == n + 5 + |rest|
      && s[1] == CopyTemplate(templatePath, WorkDir(tmp))
      && s[2] == MakeDirs(FigurasDir(tmp))
      && (forall k :: 0 <= k < n ==> s[3 + k] == writes[k])
      && s[n + 3] == WriteText(JoinRelative(WorkDir(tmp), QuartoCommand(binary)[2]),
                               BuildQmdContent(f.titulo, f.subtitulo, f.instituto, f.conteudo))
      && s[n + 4] == RunQuarto(QuartoCommand(binary), WorkDir(tmp))
  {
    var pre := Prelude(templatePath, tmp, writes, f, binary);
    var s := [first] + (pre + rest);
    var n := |writes|;
    var qmd := WriteText(QmdPath(tmp), BuildQmdContent(f.titulo, f.subtitulo, f.instituto, f.conteudo));
    var run := RunQuarto(QuartoCommand(binary), WorkDir(tmp));
    assert pre == [CopyTemplate(templatePath, WorkDir(tmp)), MakeDirs(FigurasDir(tmp))] + writes + [qmd, run];
    assert s[1] == pre[0] && s[2] == pre[1];
    forall k | 0 <= k < n
      ensures s[3 + k] == writes[k]
    {
      assert s[3 + k] == pre[2 + k];
    }
    assert s[n + 3] == pre[n + 2] == qmd;
    assert s[n + 4] == pre[n + 3] == run;
    assert QuartoCommand(binary)[2] == "apresentacao.qmd";
  }
}
