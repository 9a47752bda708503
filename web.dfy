/** The web endpoint `POST /gerar` (`gerar_apresentacao`): read the form with
    defaults, make a scratch directory, copy the template (checked with
    `os.path.exists`, after the scratch directory exists), save the accepted
    images, write the document inline, run the renderer, locate its output,
    copy it under a timestamped name into the system temporary directory, and
    answer with that name; every failure answers with status 500. The
    deletion of the scratch directory runs in `finally`, and a failure it
    re-raises, like a failed copy of the template, reaches the outer
    `except Exception` and becomes `{'erro': str(e)}` with status 500. */
module Web {
  import opened Wrappers
  import opened Text
  import opened Effects
  import opened Locator
  import opened Document
  import opened Reaper
  import opened Uploads
  import opened Render

  const WebTemplateMissing: string := "Template não encontrado"
  const WebQuartoMissing: string := "Comando \"quarto\" não encontrado"
  const WebQuartoMissingDetails: string :=
    "Certifique-se de que o Quarto CLI está instalado e no PATH do sistema. Baixe em: https://quarto.org/docs/get-started/"
  const WebHtmlNotGenerated: string := "Arquivo HTML não foi gerado"

  /** The JSON body of the answer. */
  datatype Payload =
    | ErrorOnly(erro: string)
    | ErrorWithDetails(erro: string, detalhes: string)
    | ErrorWithListing(erro: string, detalhes: string, arquivosGerados: seq<string>, arquivosSite: seq<string>)
    | Success(arquivo: string)                 // {'sucesso': True, 'arquivo': ...}

  datatype Response = Response(payload: Payload, status: int)

  /** What the endpoint finds besides the render workspace: what copying a
      template that is not a directory raises, the listing of the work
      directory, the listing of `_site` when it is a directory, the system
      temporary directory, and the formatted timestamp. */
  datatype Surroundings = Surroundings(
    copyError: OsError,
    workListing: seq<string>,
    siteListing: Option<seq<string>>,
    sysTemp: string,
    stamp: string)

  /** `request.form.get(key, default)`. */
  function FormGet(form: map<string, string>, key: string, default: string): string {
    if key in form then form[key] else default
  }

  /** The four fields with the endpoint's defaults. */
  function FormFields(form: map<string, string>): Fields {
    Fields(FormGet(form, "titulo", "Título da Apresentação"),
           FormGet(form, "subtitulo", "Autor"),
           FormGet(form, "instituto", "Instituto Federal de Sergipe"),
           FormGet(form, "conteudo", ""))
  }

  /** A field that is sent is used as sent, even when empty; a missing one
      takes its default. */
  lemma FormFieldsDefaults(form: map<string, string>)
    ensures form == map[] ==>
      FormFields(form) == Fields("Título da Apresentação", "Autor", "Instituto Federal de Sergipe", "")
    ensures FormFields(form).titulo == (if "titulo" in form then form["titulo"] else "Título da Apresentação")
    ensures FormFields(form).subtitulo == (if "subtitulo" in form then form["subtitulo"] else "Autor")
    ensures FormFields(form).instituto == (if "instituto" in form then form["instituto"] else "Instituto Federal de Sergipe")
    ensures FormFields(form).conteudo == (if "conteudo" in form then form["conteudo"] else "")
  {
  }

  /** `erro_detalhado`: the renderer's output and exit status. */
  function Detalhes(stdout: string, stderr: string, code: int): string {
    DetailsHead + stdout + DetailsMiddle + stderr + DetailsTail + IntToString(code)
  }

  const DetailsHead: string := "Erro do Quarto:\n\nSTDOUT:\n"
  const DetailsMiddle: string := "\n\nSTDERR:\n"
  const DetailsTail: string := "\n\nCódigo de saída: "

  /** The details carry the whole standard output and error of the run, and
      end with its exit status. */
  lemma DetalhesCarriesOutput(stdout: string, stderr: string, code: int)
    ensures Contains(Detalhes(stdout, stderr, code), stdout)
    ensures Contains(Detalhes(stdout, stderr, code), stderr)
    ensures EndsWith(Detalhes(stdout, stderr, code), IntToString(code))
  {
    HolesAreKept(DetailsHead, stdout, DetailsMiddle, stderr, DetailsTail, IntToString(code));
  }

  /** `f"apresentacao_{stamp}.html"` */
  function DownloadName(stamp: string): string {
    "apresentacao_" + stamp + ".html"
  }

  /** The calls and the outcome of the `try` body, before `finally`. */
  function GerarBody(f: Fields, uploads: seq<Upload>, secure: string -> string, basePath: string,
                     template: TemplateState, ws: Workspace, env: Surroundings): (seq<Effect>, Outcome<Response>)
  {
    var templatePath := TemplatePath(basePath);
    match template
    case Missing => ([], Returned(Response(ErrorOnly(WebTemplateMissing), 500)))
    case NotADirectory => ([CopyTemplate(templatePath, WorkDir(ws.tmp))], Raised(env.copyError))
    case Directory =>
      var pre := Prelude(templatePath, ws.tmp, AllowedWrites(FigurasDir(ws.tmp), uploads, secure), f, "quarto");
      match ws.run
      case ExecutableMissing =>
        (pre, Returned(Response(ErrorWithDetails(WebQuartoMissing, WebQuartoMissingDetails), 500)))
      case Completed(out, err, code) =>
        match Located(WorkDir(ws.tmp), ws.existing, ws.walk)
        case None =>
          var site := if env.siteListing.Some? then env.siteListing.value else [];
          (pre, Returned(Response(ErrorWithListing(WebHtmlNotGenerated, Detalhes(out, err, code), env.workListing, site), 500)))
        case Some(html) =>
          var downloadPath := JoinRelative(env.sysTemp, DownloadName(env.stamp));
          (pre + [CopyFile(html, downloadPath)], Returned(Response(Success(Basename(downloadPath)), 200)))
  }

  /** The whole request: the scratch directory, the body, the deletion, and the
      outer handler turning any exception into `{'erro': str(e)}`, 500. */
  function GerarSpec(f: Fields, uploads: seq<Upload>, secure: string -> string, basePath: string,
                     template: TemplateState, ws: Workspace, env: Surroundings): (seq<Effect>, Response)
  {
    var body := GerarBody(f, uploads, secure, basePath, template, ws, env);
    ([MakeTempDir(ws.tmp)] + body.0 + ReaperCalls(ws.tmp, true, DefaultAttempts, ws.reap),
     match Reraised(true, DefaultAttempts, ws.reap, ws.forcedRaises)
     case Some(e) => Response(ErrorOnly(e.message), 500)
     case None =>
       match body.1
       case Raised(e) => Response(ErrorOnly(e.message), 500)
       case Returned(r) => r)
  }

  /** The `try` body once the template is known to be a directory: copy,
      save the accepted images, write the document, run, locate, copy out. */
  method RenderForDownload(f: Fields, uploads: seq<Upload>, secure: string -> string, basePath: string,
                           ws: Workspace, env: Surroundings)
    returns (effects: seq<Effect>, body: Outcome<Response>)
    ensures (effects, body) == GerarBody(f, uploads, secure, basePath, Directory, ws, env)
  {
    var templatePath := JoinRelative(basePath, "template");
    var workDir := JoinRelative(ws.tmp, "projeto");
    effects := [CopyTemplate(templatePath, workDir)];
    var figurasDir := JoinRelative(workDir, "Figuras");
    effects := effects + [MakeDirs(figurasDir)];
    var saved := SaveAllowedUploads(figurasDir, uploads, secure);
    effects := effects + saved;
    var qmdContent := BuildQmdContent(f.titulo, f.subtitulo, f.instituto, f.conteudo);
    var qmdPath := JoinRelative(workDir, "apresentacao.qmd");
    effects := effects + [WriteText(qmdPath, qmdContent)];
    effects := effects + [RunQuarto(QuartoCommand("quarto"), workDir)];
    assert effects == Prelude(templatePath, ws.tmp, AllowedWrites(FigurasDir(ws.tmp), uploads, secure), f, "quarto");
    match ws.run {
      case ExecutableMissing =>
        body := Returned(Response(ErrorWithDetails(WebQuartoMissing, WebQuartoMissingDetails), 500));
      case Completed(out, err, code) =>
        var outputFile := FindRenderedHtml(workDir, ws.existing, ws.walk);
        if outputFile.None? {
          var erroDetalhado := Detalhes(out, err, code);
          var arquivosSite := if env.siteListing.Some? then env.siteListing.value else [];
          body := Returned(Response(ErrorWithListing(WebHtmlNotGenerated, erroDetalhado, env.workListing, arquivosSite), 500));
        } else {
          var downloadPath := JoinRelative(env.sysTemp, DownloadName(env.stamp));
          effects := effects + [CopyFile(outputFile.value, downloadPath)];
          body := Returned(Response(Success(Basename(downloadPath)), 200));
        }
    }
  }

  /** `gerar_apresentacao()`. */
  method GerarApresentacao(form: map<string, string>, uploads: seq<Upload>, secure: string -> string, basePath: string,
                           template: TemplateState, ws: Workspace, env: Surroundings)
    returns (effects: seq<Effect>, response: Response)
    ensures (effects, response) == GerarSpec(FormFields(form), uploads, secure, basePath, template, ws, env)
  {
    var titulo := FormGet(form, "titulo", "Título da Apresentação");
    var subtitulo := FormGet(form, "subtitulo", "Autor");
    var instituto := FormGet(form, "instituto", "Instituto Federal de Sergipe");
    var conteudo := FormGet(form, "conteudo", "");
    var tmpdirname := ws.tmp;
    effects := [MakeTempDir(tmpdirname)];
    var body: Outcome<Response>;
    if template == Missing {
      body := Returned(Response(ErrorOnly(WebTemplateMissing), 500));
    } else if template == NotADirectory {
      effects := effects + [CopyTemplate(JoinRelative(basePath, "template"), JoinRelative(tmpdirname, "projeto"))];
      body := Raised(env.copyError);
    } else {
      var more;
      more, body := RenderForDownload(Fields(titulo, subtitulo, instituto, conteudo), uploads, secure, basePath, ws, env);
      effects := effects + more;
    }
    ghost var expected := GerarBody(FormFields(form), uploads, secure, basePath, template, ws, env);
    assert effects == [MakeTempDir(tmpdirname)] + expected.0 && body == expected.1;
    // finally: _safe_rmtree(tmpdirname); the outer handler catches what escapes
    var calls, raised := SafeRmtree(tmpdirname, true, DefaultAttempts, ws.reap, ws.forcedRaises);
    effects := effects + calls;
    if raised.Some? {
      response := Response(ErrorOnly(raised.value.message), 500);
    } else if body.Raised? {
      response := Response(ErrorOnly(body.error.message), 500);
    } else {
      response := body.value;
    }
  }

  /** Unlike the other front ends, the scratch directory is made before the
      template is checked, so it is made and deleted on every request,
      including one that finds no template. */
  lemma WebAlwaysReaps(f: Fields, uploads: seq<Upload>, secure: string -> string, basePath: string,
                       template: TemplateState, ws: Workspace, env: Surroundings)
    ensures var (effects, response) := GerarSpec(f, uploads, secure, basePath, template, ws, env);
      var calls := ReaperCalls(ws.tmp, true, DefaultAttempts, ws.reap);
      && effects[0] == MakeTempDir(ws.tmp)
      && |calls| < |effects| && effects[|effects| - |calls|..] == calls
      && (effects[|effects| - 1] == RemoveTree(ws.tmp) || effects[|effects| - 1] == ForceRemoveTree(ws.tmp))
  {
    var body := GerarBody(f, uploads, secure, basePath, template, ws, env);
    var calls := ReaperCalls(ws.tmp, true, DefaultAttempts, ws.reap);
    assert GerarSpec(f, uploads, secure, basePath, template, ws, env).0 == [MakeTempDir(ws.tmp)] + body.0 + calls;
    RetryFromEndsWithRemoval(ws.tmp, DefaultAttempts, ws.reap, 0);
    Framed(MakeTempDir(ws.tmp), body.0, calls);
  }

  /** A request that finds no template still makes and deletes the scratch
      directory, and does nothing in between. */
  lemma WebMissingTemplate(f: Fields, uploads: seq<Upload>, secure: string -> string, basePath: string,
                           ws: Workspace, env: Surroundings)
    ensures var (effects, response) := GerarSpec(f, uploads, secure, basePath, Missing, ws, env);
      && effects == [MakeTempDir(ws.tmp)] + ReaperCalls(ws.tmp, true, DefaultAttempts, ws.reap)
      && !RanQuarto(effects)
  {
    var effects := GerarSpec(f, uploads, secure, basePath, Missing, ws, env).0;
    assert effects == [MakeTempDir(ws.tmp)] + ReaperCalls(ws.tmp, true, DefaultAttempts, ws.reap);
    ReaperCallsOnlyRemove(ws.tmp, DefaultAttempts, ws.reap, 0);
    NotRan(effects);
  }

  /** The status is 200 exactly on success, and success means the template was
      a directory, the renderer ran and its output was found; that output was
      then copied into the system temporary directory under the name the
      answer gives. Every other answer has status 500 and says what failed. */
  lemma WebResponses(f: Fields, uploads: seq<Upload>, secure: string -> string, basePath: string,
                     template: TemplateState, ws: Workspace, env: Surroundings)
    requires IsName(env.stamp)
    ensures var (effects, response) := GerarSpec(f, uploads, secure, basePath, template, ws, env);
      var found := Located(WorkDir(ws.tmp), ws.existing, ws.walk);
      var raised := Reraised(true, DefaultAttempts, ws.reap, ws.forcedRaises);
      && (response.status == 200 <==> response.payload.Success?)
      && (response.status != 200 ==> response.status == 500)
      && (response.payload.Success? <==>
            raised.None? && template == Directory && ws.run.Completed? && found.Some?)
      && (response.payload.Success? ==>
            response.payload.arquivo == DownloadName(env.stamp)
            && CopyFile(found.value, JoinRelative(env.sysTemp, DownloadName(env.stamp))) in effects)
      && (raised.Some? ==> response == Response(ErrorOnly(raised.value.message), 500))
      && (raised.None? && template == Missing ==> response == Response(ErrorOnly(WebTemplateMissing), 500))
      && (raised.None? && template == NotADirectory ==> response == Response(ErrorOnly(env.copyError.message), 500))
      && (raised.None? && template == Directory && ws.run.ExecutableMissing? ==>
            response == Response(ErrorWithDetails(WebQuartoMissing, WebQuartoMissingDetails), 500))
      && (raised.None? && template == Directory && ws.run.Completed? && found.None? ==>
            response.payload.ErrorWithListing?
            && Contains(response.payload.detalhes, ws.run.stdout)
            && Contains(response.payload.detalhes, ws.run.stderr)
            && EndsWith(response.payload.detalhes, IntToString(ws.run.returncode))
            && response.payload.arquivosGerados == env.workListing
            && (env.siteListing.None? ==> response.payload.arquivosSite == [])
            && (env.siteListing.Some? ==> response.payload.arquivosSite == env.siteListing.value))
  {
    WebSuccess(f, uploads, secure, basePath, template, ws, env);
    WebErrors(f, uploads, secure, basePath, template, ws, env);
  }

  /** When and how a request succeeds. */
  lemma WebSuccess(f: Fields, uploads: seq<Upload>, secure: string -> string, basePath: string,
                   template: TemplateState, ws: Workspace, env: Surroundings)
    requires IsName(env.stamp)
    ensures var (effects, response) := GerarSpec(f, uploads, secure, basePath, template, ws, env);
      var found := Located(WorkDir(ws.tmp), ws.existing, ws.walk);
      var raised := Reraised(true, DefaultAttempts, ws.reap, ws.forcedRaises);
      && (response.status == 200 <==> response.payload.Success?)
      && (response.status != 200 ==> response.status == 500)
      && (response.payload.Success? <==>
            raised.None? && template == Directory && ws.run.Completed? && found.Some?)
      && (response.payload.Success? ==>
            response.payload.arquivo == DownloadName(env.stamp)
            && CopyFile(found.value, JoinRelative(env.sysTemp, DownloadName(env.stamp))) in effects)
  {
    var body := GerarBody(f, uploads, secure, basePath, template, ws, env);
    var calls := ReaperCalls(ws.tmp, true, DefaultAttempts, ws.reap);
    assert GerarSpec(f, uploads, secure, basePath, template, ws, env).0 == [MakeTempDir(ws.tmp)] + body.0 + calls;
    BodySuccess(f, uploads, secure, basePath, template, ws, env);
  }

  /** The `try` body alone: it answers 200 with the download name exactly when
      the renderer ran and its output was found, after copying that output. */
  lemma BodySuccess(f: Fields, uploads: seq<Upload>, secure: string -> string, basePath: string,
                    template: TemplateState, ws: Workspace, env: Surroundings)
    requires IsName(env.stamp)
    ensures var (effects, outcome) := GerarBody(f, uploads, secure, basePath, template, ws, env);
      var found := Located(WorkDir(ws.tmp), ws.existing, ws.walk);
      && (outcome.Raised? <==> template == NotADirectory)
      && (outcome.Returned? ==>
            && (outcome.value.status == 200 <==> outcome.value.payload.Success?)
            && (outcome.value.status != 200 ==> outcome.value.status == 500))
      && (outcome.Returned? && outcome.value.payload.Success? <==>
            template == Directory && ws.run.Completed? && found.Some?)
      && (outcome.Returned? && outcome.value.payload.Success? ==>
            outcome.value.payload.arquivo == DownloadName(env.stamp)
            && CopyFile(found.value, JoinRelative(env.sysTemp, DownloadName(env.stamp))) in effects)
  {
    DownloadBasename(env.sysTemp, env.stamp);
  }

  /** The answer names the file just copied: the basename of the download path. */
  lemma DownloadBasename(sysTemp: string, stamp: string)
    requires IsName(stamp)
    ensures Basename(JoinRelative(sysTemp, DownloadName(stamp))) == DownloadName(stamp)
  {
    var name := DownloadName(stamp);
    assert IsName(name) by {
      assert forall i :: 0 <= i < |name| ==>
        name[i] in "apresentacao_" || name[i] in stamp || name[i] in ".html";
    }
    BasenameOfJoin(sysTemp, name);
  }

  /** What each failing request answers. */
  lemma WebErrors(f: Fields, uploads: seq<Upload>, secure: string -> string, basePath: string,
                  template: TemplateState, ws: Workspace, env: Surroundings)
    ensures var (effects, response) := GerarSpec(f, uploads, secure, basePath, template, ws, env);
      var found := Located(WorkDir(ws.tmp), ws.existing, ws.walk);
      var raised := Reraised(true, DefaultAttempts, ws.reap, ws.forcedRaises);
      && (raised.Some? ==> response == Response(ErrorOnly(raised.value.message), 500))
      && (raised.None? && template == Missing ==> response == Response(ErrorOnly(WebTemplateMissing), 500))
      && (raised.None? && template == NotADirectory ==> response == Response(ErrorOnly(env.copyError.message), 500))
      && (raised.None? && template == Directory && ws.run.ExecutableMissing? ==>
            response == Response(ErrorWithDetails(WebQuartoMissing, WebQuartoMissingDetails), 500))
      && (raised.None? && template == Directory && ws.run.Completed? && found.None? ==>
            response.payload.ErrorWithListing?
            && Contains(response.payload.detalhes, ws.run.stdout)
            && Contains(response.payload.detalhes, ws.run.stderr)
            && EndsWith(response.payload.detalhes, IntToString(ws.run.returncode))
            && response.payload.arquivosGerados == env.workListing
            && (env.siteListing.None? ==> response.payload.arquivosSite == [])
            && (env.siteListing.Some? ==> response.payload.arquivosSite == env.siteListing.value))
  {
    if ws.run.Completed? {
      DetalhesCarriesOutput(ws.run.stdout, ws.run.stderr, ws.run.returncode);
    }
  }

  /** The images written are exactly the accepted uploads, each under its
      sanitised name in `Figuras`; nothing else in the trace writes bytes. */
  lemma WebSavesOnlyAcceptedImages(f: Fields, uploads: seq<Upload>, secure: string -> string,
                                   basePath: string, template: TemplateState, ws: Workspace, env: Surroundings, w: Effect)
    requires template == Directory && w.WriteBytes?
    ensures var (effects, response) := GerarSpec(f, uploads, secure, basePath, template, ws, env);
      w in effects <==>
        exists k :: 0 <= k < |uploads| && Accepted(uploads[k]) && w == SaveOf(FigurasDir(ws.tmp), secure, uploads[k])
  {
    var body := GerarBody(f, uploads, secure, basePath, template, ws, env);
    var calls := ReaperCalls(ws.tmp, true, DefaultAttempts, ws.reap);
    assert GerarSpec(f, uploads, secure, basePath, template, ws, env).0 == [MakeTempDir(ws.tmp)] + body.0 + calls;
    BodyWritesOnlySaved(f, uploads, secure, basePath, ws, env, w);
    AllowedWritesMembers(FigurasDir(ws.tmp), uploads, secure, w);
    ReaperCallsOnlyRemove(ws.tmp, DefaultAttempts, ws.reap, 0);
  }

  /** The byte writes of the `try` body are the saves of the accepted uploads. */
  lemma BodyWritesOnlySaved(f: Fields, uploads: seq<Upload>, secure: string -> string, basePath: string,
                            ws: Workspace, env: Surroundings, w: Effect)
    requires w.WriteBytes?
    ensures w in GerarBody(f, uploads, secure, basePath, Directory, ws, env).0
            <==> w in AllowedWrites(FigurasDir(ws.tmp), uploads, secure)
  {
    PreludeWriteBytes(TemplatePath(basePath), ws.tmp, AllowedWrites(FigurasDir(ws.tmp), uploads, secure), f, "quarto", w);
  }

  /** A re-raised deletion failure turns even a completed request into an error,
      although the download copy was already made. */
  lemma ReaperFailureHidesDownload(f: Fields, uploads: seq<Upload>, secure: string -> string,
                                   basePath: string, ws: Workspace, env: Surroundings)
    requires ws.run.Completed? && Located(WorkDir(ws.tmp), ws.existing, ws.walk).Some?
    requires FailedFirst(ws.reap, 6) && ws.forcedRaises
    ensures var (effects, response) := GerarSpec(f, uploads, secure, basePath, Directory, ws, env);
      && response == Response(ErrorOnly(ws.reap(5).error.message), 500)
      && CopyFile(Located(WorkDir(ws.tmp), ws.existing, ws.walk).value, JoinRelative(env.sysTemp, DownloadName(env.stamp))) in effects
  {
  }
}
