/** Uploaded images: the extension check of the web endpoint (`allowed_file`)
    and the two loops that write uploads into the workspace's `Figuras`
    directory (filtered in the web endpoint, unfiltered in the Streamlit app). */
module Uploads {
  import opened Wrappers
  import opened Text
  import opened Effects

  /** An uploaded file: the name the client sent and its bytes. */
  datatype Upload = Upload(filename: string, data: Bytes)

  /** `ALLOWED_EXTENSIONS` */
  const AllowedExtensions: set<string> := {"png", "jpg", "jpeg", "gif"}

  /** The text holds no '.'. */
  predicate NoDot(s: string) {
    forall i :: 0 <= i < |s| ==> s[i] != '.'
  }

  /** The position of the last '.', if there is one. */
  function LastDot(s: string): (r: Option<nat>)
    ensures r.None? <==> NoDot(s)
    ensures r.Some? ==> r.value < |s| && s[r.value] == '.' && NoDot(s[r.value + 1..])
  {
    if s == [] then None
    else if s[|s| - 1] == '.' then Some(|s| - 1)
    else
      var r := LastDot(s[..|s| - 1]);
      if r.Some? then
        assert s[r.value + 1..] == s[..|s| - 1][r.value + 1..] + [s[|s| - 1]];
        r
      else r
  }

  /** `allowed_file(filename)`: `'.' in filename and filename.rsplit('.', 1)[1].lower() in ALLOWED_EXTENSIONS`. */
  function AllowedFile(filename: string): (ok: bool)
    ensures ok ==> '.' in filename && filename[|filename| - 1] != '.'
  {
    var d := LastDot(filename);
    if d.Some? && Lower(filename[d.value + 1..]) in AllowedExtensions then
      assert filename[d.value] == '.';
      assert Lower(filename[d.value + 1..]) != [];
      true
    else false
  }

  /** A '.' with no '.' after it is the one `rsplit('.', 1)` splits at. */
  lemma LastDotIs(s: string, j: nat)
    requires j < |s| && s[j] == '.' && NoDot(s[j + 1..])
    ensures LastDot(s) == Some(j)
  {
    var d := LastDot(s);
    assert !NoDot(s) by { assert s[j] == '.'; }
    NoDotAfter(s, d.value);
    NoDotAfter(s, j);
  }

  lemma NoDotAfter(s: string, j: nat)
    requires j < |s| && NoDot(s[j + 1..])
    ensures forall m :: j < m < |s| ==> s[m] != '.'
  {
    forall m | j < m < |s| ensures s[m] != '.' {
      assert s[m] == s[j + 1..][m - j - 1];
    }
  }

  /** `filename[i]` is a '.' with no '.' after it, and the text after it,
      lower-cased, is an allowed extension. */
  predicate ExtensionAt(filename: string, i: int) {
    0 <= i < |filename| && filename[i] == '.' && NoDot(filename[i + 1..])
    && Lower(filename[i + 1..]) in AllowedExtensions
  }

  /** The extension check, stated without reference to how the last '.' is found:
      the name is accepted exactly when it has a '.' with no '.' after it and the
      text after it, lower-cased, is an allowed extension. */
  lemma AllowedFileMeaning(filename: string)
    ensures AllowedFile(filename) <==> exists i :: ExtensionAt(filename, i)
  {
    if AllowedFile(filename) {
      assert ExtensionAt(filename, LastDot(filename).value);
    }
    if exists i :: ExtensionAt(filename, i) {
      var i :| ExtensionAt(filename, i);
      LastDotIs(filename, i);
    }
  }

  /** A name with no '.' is never accepted. */
  lemma NoDotRejected(filename: string)
    requires NoDot(filename)
    ensures !AllowedFile(filename)
  {
    AllowedFileMeaning(filename);
  }

  /** Worked cases: the extension's case does not matter and the stem may be empty. */
  lemma AcceptedExamples()
    ensures AllowedFile("A.PNG") && AllowedFile(".png") && AllowedFile("foto.jpeg")
  {
    AcceptedUpperCase();
    AcceptedEmptyStem();
    AcceptedJpeg();
  }

  lemma AcceptedUpperCase()
    ensures AllowedFile("A.PNG")
  {
    LowerPng();
    assert "A.PNG"[2..] == "PNG";
    assert "png" in AllowedExtensions;
    AcceptedAt("A.PNG", 1, "PNG");
  }

  lemma AcceptedEmptyStem()
    ensures AllowedFile(".png")
  {
    LowerPng();
    assert ".png"[1..] == "png";
    assert "png" in AllowedExtensions;
    AcceptedAt(".png", 0, "png");
  }

  lemma AcceptedJpeg()
    ensures AllowedFile("foto.jpeg")
  {
    LowerJpeg();
    assert "foto.jpeg"[5..] == "jpeg";
    assert "jpeg" in AllowedExtensions;
    AcceptedAt("foto.jpeg", 4, "jpeg");
  }

  lemma LowerPng()
    ensures Lower("PNG") == "png" && Lower("png") == "png"
  {
    assert Lower("PNG") == [LowerChar('P'), LowerChar('N'), LowerChar('G')];
    assert Lower("png") == [LowerChar('p'), LowerChar('n'), LowerChar('g')];
  }

  lemma LowerJpeg()
    ensures Lower("jpeg") == "jpeg"
  {
    assert Lower("jpeg") == [LowerChar('j'), LowerChar('p'), LowerChar('e'), LowerChar('g')];
  }

  /** A name whose text after its '.' at `j` is `ext`, free of dots and allowed once lower-cased, is accepted. */
  lemma AcceptedAt(s: string, j: nat, ext: string)
    requires j < |s| && s[j] == '.' && s[j + 1..] == ext && NoDot(ext) && Lower(ext) in AllowedExtensions
    ensures AllowedFile(s)
  {
    LastDotIs(s, j);
  }

  /** Worked cases: only the last extension counts, an empty extension is
      refused, and so is a name with no '.'. */
  lemma RejectedExamples()
    ensures !AllowedFile("x.png.exe") && !AllowedFile("name.") && !AllowedFile("png")
  {
    assert "x.png.exe"[6..] == "exe" && NoDot("exe");
    LastDotIs("x.png.exe", 5);
    assert "name."[5..] == "";
    LastDotIs("name.", 4);
    assert NoDot("png");
  }

  /** `if imagem and ...`: a `FileStorage` is false when its file name is empty. */
  predicate Present(u: Upload) {
    u.filename != []
  }

  /** The web endpoint keeps the upload: it is present and its extension is allowed. */
  predicate Accepted(u: Upload) {
    Present(u) && AllowedFile(u.filename)
  }

  /** The save of an accepted upload, under its sanitised name in `figurasDir`. */
  function SaveOf(figurasDir: string, secure: string -> string, u: Upload): Effect {
    WriteBytes(Join(figurasDir, secure(u.filename)), u.data)
  }

  /** The saves the web endpoint makes: each accepted upload, in order. */
  function AllowedWrites(figurasDir: string, uploads: seq<Upload>, secure: string -> string): seq<Effect>
  {
    if uploads == [] then []
    else
      var u := uploads[|uploads| - 1];
      AllowedWrites(figurasDir, uploads[..|uploads| - 1], secure)
        + (if Accepted(u) then [SaveOf(figurasDir, secure, u)] else [])
  }

  /** The upload loop of the web endpoint (`imagem.save(os.path.join(figuras_dir, filename))`). */
  method SaveAllowedUploads(figurasDir: string, uploads: seq<Upload>, secure: string -> string)
    returns (writes: seq<Effect>)
    ensures writes == AllowedWrites(figurasDir, uploads, secure)
  {
    writes := [];
    for k := 0 to |uploads|
      invariant writes == AllowedWrites(figurasDir, uploads[..k], secure)
    {
      assert uploads[..k + 1][..k] == uploads[..k];
      var imagem := uploads[k];
      if imagem.filename != [] && AllowedFile(imagem.filename) {
        var filename := secure(imagem.filename);
        writes := writes + [WriteBytes(Join(figurasDir, filename), imagem.data)];
      }
    }
    assert uploads[..|uploads|] == uploads;
  }

  /** An upload is saved exactly when it is present and its extension is
      accepted; the others are skipped without a trace. */
  lemma {:induction false} AllowedWritesMembers(figurasDir: string, uploads: seq<Upload>, secure: string -> string, w: Effect)
    ensures w in AllowedWrites(figurasDir, uploads, secure) <==>
      exists k :: 0 <= k < |uploads| && Accepted(uploads[k]) && w == SaveOf(figurasDir, secure, uploads[k])
  {
    if uploads != [] {
      var n := |uploads| - 1;
      var front := uploads[..n];
      var u := uploads[n];
      AllowedWritesMembers(figurasDir, front, secure, w);
      var tail := if Accepted(u) then [SaveOf(figurasDir, secure, u)] else [];
      assert AllowedWrites(figurasDir, uploads, secure) == AllowedWrites(figurasDir, front, secure) + tail;
      if w in AllowedWrites(figurasDir, uploads, secure) {
        if w in tail {
          assert Accepted(uploads[n]) && w == SaveOf(figurasDir, secure, uploads[n]);
        } else {
          var k :| 0 <= k < |front| && Accepted(front[k]) && w == SaveOf(figurasDir, secure, front[k]);
          assert front[k] == uploads[k];
        }
      }
      if exists k :: 0 <= k < |uploads| && Accepted(uploads[k]) && w == SaveOf(figurasDir, secure, uploads[k]) {
        var k :| 0 <= k < |uploads| && Accepted(uploads[k]) && w == SaveOf(figurasDir, secure, uploads[k]);
        if k < n {
          assert front[k] == uploads[k];
        } else {
          assert k == n;
          assert tail == [w];
        }
      }
    }
  }

  /** The upload loop of the Streamlit app: every upload is written to
      `Figuras/<name>`, none is filtered. */
  method WriteAllUploads(figurasDir: string, uploads: seq<Upload>) returns (writes: seq<Effect>)
    ensures |writes| == |uploads|
    ensures forall k :: 0 <= k < |uploads| ==>
      writes[k] == WriteBytes(Join(figurasDir, uploads[k].filename), uploads[k].data)
  {
    writes := [];
    for k := 0 to |uploads|
      invariant |writes| == k
      invariant forall j :: 0 <= j < k ==>
        writes[j] == WriteBytes(Join(figurasDir, uploads[j].filename), uploads[j].data)
    {
      var outPath := Join(figurasDir, uploads[k].filename);
      writes := writes + [WriteBytes(outPath, uploads[k].data)];
    }
  }
}
