# Presentation generator: a Dafny model of the render pipeline

The repository turns four form fields (title, subtitle, institute, Markdown
body) and optional images into a single-file reveal.js presentation by
running the external `quarto` renderer in a scratch copy of a template
project. The same core logic appears in three front ends: the build-script
helper `utils_render.py`, the Flask endpoint `app.py` and the Streamlit page
`streamlit_app.py`. This project models that core once and proves its
properties:

- `Locator` (locator.dfy): the rule that finds the rendered HTML file.
  First come three fixed candidates. Then a walk that skips `.quarto` and
  `node_modules`. Then the priority rule: the shallowest `apresentacao.html`
  (ties go to walk order, because the sort is stable), else the only `.html`
  file, else the first `…/_site/index.html`, else none.
- `Document` (document.dfy): the generated `.qmd` text. It has a fixed YAML
  front matter with title, subtitle and institute spliced in unescaped,
  followed by the body.
- `Uploads` (uploads.dfy): the extension check `allowed_file`, and the two
  upload loops. The web endpoint filters uploads. The Streamlit page writes
  all of them.
- `Template` (template.dfy): the ignore rule given to `copytree`, with
  POSIX, case-sensitive `fnmatch`, and the tree that results from the copy.
- `Reaper` (reaper.dfy): `safe_rmtree`. It makes up to `attempts` strict
  removals with a pause after each failure, and stops at the first success.
  Then, only if every attempt failed, it makes one forced removal. It
  re-raises the last failure only when the forced removal raises too.
- `Render` (render.dfy): `render_quarto` and `_render_quarto`, end to end,
  including the `finally` deletion of the scratch directory.
- `Web` (web.dfy): `gerar_apresentacao`, with its JSON answers and status
  codes.
- `Preview` (preview.dfy): the Streamlit preview state. It is kept in
  `st.session_state` and updated in place, so it is a class. Its refresh
  rule is modelled, and so is the download section's use of the render
  result.
- `Text`, `Effects` and `Wrappers` hold shared pieces:
  - POSIX `os.path.join`, where an absolute second part discards the first,
    and `basename`; ASCII `str.lower`; `str(int)`;
  - the trace of filesystem and process calls;
  - `Option` and `Outcome`.

The model does not simulate a filesystem. What the world answers is an input:
- the directory `mkdtemp` creates;
- how the renderer run ends (not found, or completed with stdout, stderr and
  exit status);
- which paths exist afterwards, and the files in walk order;
- what reading a file returns;
- how each removal attempt ends;
- whether the forced removal raises;
- what copying a non-directory template raises;
- directory listings;
- the timestamp, the digest function and `secure_filename`.

Each front end returns the calls it makes, in order, as a sequence of
`Effect` values, together with its result. An exception raised by the
deletion in `finally` replaces the result. The pipeline methods are
imperative, and each is proved equal to a specification function. The lemmas
state the properties of those functions.

Points of the code's behaviour that are easy to miss:
- The fixed candidates are named `apresentacao.html`, the document's own base
  name.
- The locator reports "not found" not only when no HTML file exists, but also
  when there are two or more `.html` files and none is named
  `apresentacao.html` or lies at `…/_site/index.html`
  (`Locator.NotFoundDespiteHtml`).
- The Streamlit page joins each upload's name, as the client sent it, onto
  `Figuras`. An absolute name therefore discards that directory, and the bytes
  are written at the name itself (`Render.StreamlitAbsoluteUploadEscapes`).
- The web endpoint checks the template with `os.path.exists`, and does so
  after `mkdtemp`. The other two front ends use `os.path.isdir` before
  `mkdtemp`. A template that exists but is not a directory makes the web
  endpoint's copy raise. The outer handler turns that exception into a 500
  answer. The other front ends report the missing-template message instead.
- The build-script helper accepts uploads but ignores them: its loop body is
  `pass`.

## Model

| member | source | states |
|---|---|---|
| Locator.FindRenderedHtml | utils_render.py:127-159 | the candidate loop, the pruned walk collecting `found_html` and `found_apresentacao`, the depth sort and the two fallbacks return exactly the priority rule `Located` |
| Locator.Located | utils_render.py:127-159 | what the locator returns is an existing fixed candidate or a path of a visited `.html` file, never anything else |
| Locator.CollectWalk | utils_render.py:137-146 | the walk loop yields, in walk order, the full paths of the unpruned files with an `.html` name and, separately, of those named `apresentacao.html`: exactly the sequences the priority rule reads |
| Locator.FixedCandidatesWin | utils_render.py:128-135 | when one of `<wd>/apresentacao.html`, `<wd>/_site/apresentacao.html`, `<wd>/_site/index.html` exists, the first existing one in that order is returned, whatever the walk finds |
| Locator.FallbackIsVisitedHtml | app.py:61-72 | a path found by the walk is the full path of a visited file whose lower-cased name, and so the lower-cased path, ends in `.html`, and which lies below no `.quarto` or `node_modules` directory |
| Locator.NameMatchWins | streamlit_app.py:65-67 | when a visited file is named `apresentacao.html` (case-insensitively), the result is one of those files with the fewest separators, and the earliest in walk order among them |
| Locator.RemainingCases | utils_render.py:152-159 | without a name match, a single `.html` file is returned; otherwise the first `…/_site/index.html`; `None` exactly when there is no `.html` file or there are two or more and none is a site index |
| Locator.NotFoundDespiteHtml | app.py:79-86 | two visited `.html` files with other names and no site index give `None` |
| Locator.SortByDepthPermutes | utils_render.py:149 | the sort by separator count keeps the same paths, with the same multiplicities |
| Locator.SortByDepthSorts | streamlit_app.py:66 | the sort orders the paths by separator count |
| Locator.SortedHeadIsFirstShallowest | app.py:74-77 | the first path after the stable sort is the earliest path of least depth |
| Locator.FirstShallowestIsEarliestMinimum | utils_render.py:148-150 | that path has the least depth, and no earlier path has that depth |
| Locator.HtmlFilesMembers | utils_render.py:139-144 | a path is in `found_html` exactly when a visited, unpruned file with an `.html` name has that full path |
| Locator.PresentationFilesMembers | streamlit_app.py:56-63 | a path is in `found_apresentacao` exactly when a visited, unpruned file named `apresentacao.html` has that full path |
| Locator.PresentationFilesAreHtml | utils_render.py:142-146 | every name-matched path is also in `found_html` |
| Locator.FirstSiteIndexIn | app.py:82-85 | the site-index loop returns the first path whose lower-cased form ends in `/_site/index.html`, and none exactly when no path does |
| Document.ParseBuildRoundTrip | utils_render.py:161-187 | title, subtitle, institute and body are read back exactly from the generated document when the first three hold no double quote |
| Document.QmdLayout | streamlit_app.py:79-105 | the document begins with the three quoted fields, ends with `---`, a blank line, the body and a newline, holds only the fixed options in between, and is 459 characters longer than the fields |
| Document.FieldsAreNotEscaped | app.py:127-152 | the fields are inserted unescaped: a title holding the subtitle's opening text gives the same document as a different split of the fields |
| Uploads.AllowedFileMeaning | app.py:17-18 | a name is accepted exactly when it has a `.` with no `.` after it and the text after it, lower-cased, is `png`, `jpg`, `jpeg` or `gif` |
| Uploads.AllowedFile | app.py:17-18 | an accepted name contains a `.` and does not end with one |
| Uploads.LastDotIs | app.py:18 | `rsplit('.', 1)` splits at the `.` that has no `.` after it |
| Uploads.NoDotRejected | app.py:18 | a name with no `.` is rejected |
| Uploads.AcceptedExamples | app.py:15-18 | `A.PNG`, `.png` and `foto.jpeg` are accepted |
| Uploads.RejectedExamples | app.py:17-18 | `x.png.exe`, `name.` and `png` are rejected |
| Uploads.SaveAllowedUploads | app.py:119-124 | the upload loop saves, in order, each present upload whose name is accepted, under its sanitised name in `Figuras` |
| Uploads.AllowedWritesMembers | app.py:121-124 | a save occurs exactly for an upload that is present and accepted; the others leave no trace |
| Uploads.WriteAllUploads | streamlit_app.py:130-134 | every upload is written, in order and unfiltered, at `os.path.join` of `Figuras` and its name as sent |
| Template.IgnoredNames | utils_render.py:101-107 | the ignore rule matches exactly `.quarto`, `_site`, and names ending in `.html`, `.pdf` or `.log`, case-sensitively |
| Template.FnmatchLiteral | app.py:22-24 | a pattern without wildcards matches only itself |
| Template.FnmatchStarSuffix | streamlit_app.py:19-21 | `*` followed by a literal matches exactly the names ending with that literal |
| Template.CopyTemplateContents | utils_render.py:108 | every template file below no ignored name is copied with its content, an existing destination is merged into, and its other files are kept |
| Template.CopyTemplateTree | utils_render.py:108 | the copy keeps every file of the destination and adds only files of the template |
| Template.FreshCopyHasNoArtifacts | streamlit_app.py:15-23 | a copy into an empty destination holds no `.html`, `.pdf` or `.log` file and nothing below `.quarto` or `_site`, at any level |
| Reaper.SafeRmtree | utils_render.py:110-125 | the calls made are `ReaperCalls`; an exception is re-raised exactly when the path exists, at least one attempt was made, all attempts failed and the forced removal raised, and it is the last failure |
| Reaper.ReaperCallsClosedForm | app.py:32-48 | the calls are `n` rounds of removal and pause, `n` being the failures before the first success, then the successful removal or the single forced one |
| Reaper.AbsentPathIsLeftAlone | streamlit_app.py:27-28 | nothing is called when the path does not exist |
| Reaper.ReaperAttemptBound | streamlit_app.py:29-36 | at most `attempts` strict removals, one pause per failure, and a success ends the calls with no forced removal |
| Reaper.FailedRoundsCount | app.py:35-41 | `n` failed rounds hold exactly `n` strict removals, `n` pauses and no other call |
| Reaper.ForcedRemovalOnlyAfterAllFail | app.py:43-48 | the forced removal happens exactly when every strict attempt failed, once, as the last call |
| Reaper.RetryFromEndsWithRemoval | utils_render.py:114-122 | on an existing path the last call is always a removal of it, strict or forced |
| Render.QuartoBinaryChoice | utils_render.py:13-29 | the executable is always named `quarto`; the local install under `~/.quarto_local` is chosen exactly on a POSIX host where it exists |
| Render.CollectOutput | utils_render.py:266-287 | after a completed run, the located file is read, or copied to `output_dir/index.html`, or the no-output error is returned, with the run's output as debug |
| Render.RenderQuarto | utils_render.py:189-289 | the build-script render makes exactly the calls and returns exactly the outcome of `RenderSpec`, with no upload writes and the executable of `get_quarto_binary` |
| Render.StreamlitRenderQuarto | streamlit_app.py:108-187 | the Streamlit render makes exactly the calls and returns exactly the outcome of `RenderSpec`, with every upload written and the bare `quarto` |
| Render.BuildScriptBody | utils_render.py:210-287 | the `try` body of the build-script render makes exactly the prelude calls (copy, `Figuras`, the document, the run with the executable of `get_quarto_binary`) and then exactly the calls and result of `AfterRun` |
| Render.StreamlitBody | streamlit_app.py:123-185 | the `try` body of the Streamlit render makes the same prelude with every upload written and the bare `quarto`, then exactly the calls and result of `AfterRun` |
| Render.RenderWithoutTemplate | utils_render.py:203-207 | without a template directory, no call is made and the result is `(None, "Pasta 'template' não encontrada…", {})` |
| Render.RenderAlwaysReaps | utils_render.py:209-289 | once made, the scratch directory is deleted on every path: the first call makes it, the deletion's calls end the trace, and the last call removes it |
| Render.RenderResults | utils_render.py:259-287 | bytes and error are never both set; the missing-executable error carries `exit_code None`; the no-output error occurs exactly when nothing is located; bytes are the located file's; neither is set exactly when a located file was copied to a non-empty `output_dir` |
| Render.ReaperFailureReplacesResult | streamlit_app.py:186-187 | a re-raised deletion failure replaces the result exactly when all six removals fail and the forced one raises |
| Render.RendererReadsWrittenDocument | utils_render.py:224-258 | the renderer is started in the work directory just after writing the generated document to the file its command names |
| Render.BuildScriptWritesNoUploads | utils_render.py:217-222 | the build-script render writes no upload |
| Render.ReaperCallsOnlyRemove | utils_render.py:110-125 | the deletion only removes and pauses |
| Render.StreamlitWritesEveryUpload | streamlit_app.py:127-134 | right after creating `Figuras`, the Streamlit render writes every upload, in order, at `os.path.join` of `Figuras` and the name as sent |
| Render.StreamlitAbsoluteUploadEscapes | streamlit_app.py:130-134 | an upload whose name is absolute is written at that name itself, outside `Figuras` |
| Web.FormFieldsDefaults | app.py:96-99 | missing form fields take the defaults `Título da Apresentação`, `Autor`, `Instituto Federal de Sergipe` and empty; fields that are sent are used as sent |
| Web.DetalhesCarriesOutput | app.py:186-190 | the details text contains the run's stdout and stderr and ends with its exit status |
| Web.RenderForDownload | app.py:110-213 | the body of the request with a template directory makes exactly the calls and reaches exactly the outcome of `GerarBody` |
| Web.GerarApresentacao | app.py:93-218 | the endpoint makes exactly the calls and gives exactly the answer of `GerarSpec` |
| Web.WebAlwaysReaps | app.py:102-215 | the scratch directory is made first and deleted last on every request |
| Web.WebMissingTemplate | app.py:109-112 | without a template the scratch directory is made and deleted, and nothing else happens; the renderer does not run |
| Web.WebResponses | app.py:172-218 | status 200 exactly with the success payload, which names `apresentacao_<stamp>.html`, the copy just made; every other answer is 500: the template, copy, executable and no-output errors, the last carrying stdout, stderr and the exit status, the work directory's listing, and the `_site` listing or `[]` when there is none; and a re-raised deletion failure |
| Web.BodySuccess | app.py:172-213 | before `finally`, the body raises exactly when the template is not a directory; it answers 200 exactly with the success payload and exactly when the renderer ran and its output was found, and then it has copied that output to `apresentacao_<stamp>.html` in the system temporary directory, the name it answers with |
| Web.WebSavesOnlyAcceptedImages | app.py:119-124 | the bytes written during a request are exactly the present, accepted uploads under their sanitised names in `Figuras` |
| Web.ReaperFailureHidesDownload | app.py:207-218 | a re-raised deletion failure turns a completed request into an error although the download copy was made |
| Preview.PreviewInputInjective | streamlit_app.py:353-355 | the digest input determines the fields when title, subtitle and institute hold no newline |
| Preview.PreviewKeyDetectsEdits | streamlit_app.py:353-355 | with a collision-free digest, an edit to newline-free fields changes the key |
| Preview.PreviewKeyIgnoresMovedLine | streamlit_app.py:354 | moving a line from the end of the title to the start of the subtitle keeps the key although the document changes |
| Preview.PreviewState.constructor | streamlit_app.py:357-358 | the state starts with empty hash, html and error and an empty debug entry |
| Preview.DetailsText | streamlit_app.py:388-391 | the details text contains the stored stdout and stderr and ends with the exit code, or with `None` when there is none |
| Preview.PreviewState.Refresh | streamlit_app.py:368-383 | a render happens exactly when clicked or in automatic mode with a changed key; it then stores the key, the debug entry, `err or ""` and the decoded bytes or `""`, after which automatic mode does not render again for that key; without a render, or when the render raises, nothing changes |
| Preview.StreamlitDownloadIsDefined | streamlit_app.py:417-432 | every returned Streamlit render result carries a non-empty error or the bytes, so the page's assertion holds; the download offers exactly those bytes or shows exactly that error |

## Left out

- `setup_quarto_linux` (download, extraction, `chmod`, `PATH` changes) is not modelled. It is network and operating-system plumbing.
- `shutil.which('quarto')` in `get_quarto_binary` is not modelled. Both of its branches return the same name.
- The renderer run, the environment copy and `QUARTO_PYTHON` are inputs, not behaviour. So are the files the run leaves and the order of `os.walk`.
- `time.sleep` durations, `datetime.now()`, `sha256`, `secure_filename`, UTF-8 decoding and `mkdtemp` are not modelled. Their results are parameters: the stamp, the digest, the sanitiser, the decoder and the scratch path.
- I/O failures other than two are not modelled. The two that are: a re-raised deletion failure, and the failure of copying a template that is not a directory in the web endpoint. A failed write, read, copy or listing in the middle of a render is not.
- Locator.FindRenderedHtml: `os.path.join` and `str.lower` are modelled for POSIX paths and ASCII case. This is exact for the comparisons made, because only ASCII letters can lower into the ASCII targets compared against. Windows separators are not modelled. A name that `os.walk` lists holds no separator, so its join onto the walked directory is always the plain one.
- Template.CopyTemplateContents: only the resulting tree is modelled. The copy's order, symbolic links, metadata and its failures are not.
- The Flask `index` and `download` routes, CORS and the upload size limit are not modelled. Neither is the later removal of the download copy. These are web-framework I/O.
- The Streamlit widgets, styles, `components.html` and the download button are not modelled. Of the page, only the preview state, its refresh rule, the details text and the use of the render result in the download section are.
- `config.py`, `build_site.py`, `scripts/smoke_test_render.py` and `static/script.js` are not part of this model.
- Preview.PreviewState.Refresh: the model stops at the refresh when the render raises. The rest of the page's run does not happen, and that is not modelled.
