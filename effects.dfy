/** The filesystem and process calls the pipeline makes, recorded in order.
    The model does not simulate the filesystem: each front end returns the
    sequence of calls it made, and what those calls report back (an existing
    path, a walk, a failed removal, the renderer's output) is an input. */
module Effects {

  type Bytes = seq<bv8>

  datatype Effect =
    | MakeTempDir(path: string)                 // tempfile.mkdtemp(prefix="gerador_apresentacao_")
    | CopyTemplate(src: string, dst: string)    // the template copy, build artifacts excluded
    | MakeDirs(path: string)                    // os.makedirs(path, exist_ok=True)
    | WriteBytes(path: string, data: Bytes)     // an uploaded image written or saved
    | WriteText(path: string, text: string)     // the generated document, UTF-8
    | RunQuarto(cmd: seq<string>, cwd: string)  // subprocess.run(cmd, cwd=cwd, check=False)
    | CopyFile(src: string, dst: string)        // shutil.copy / shutil.copy2
    | RemoveTree(path: string)                  // shutil.rmtree(path)
    | Sleep                                     // time.sleep(delay_s)
    | ForceRemoveTree(path: string)             // shutil.rmtree(path, ignore_errors=True)

  /** How many times `e` occurs in `s`. */
  function Count(s: seq<Effect>, e: Effect): (n: nat)
    ensures n <= |s|
    ensures n == 0 <==> e !in s
  {
    if s == [] then 0 else Count(s[..|s| - 1], e) + (if s[|s| - 1] == e then 1 else 0)
  }

  lemma {:induction false} CountAppend(a: seq<Effect>, b: seq<Effect>, e: Effect)
    ensures Count(a + b, e) == Count(a, e) + Count(b, e)
  {
    if b != [] {
      assert (a + b)[..|a + b| - 1] == a + b[..|b| - 1];
      CountAppend(a, b[..|b| - 1], e);
    } else {
      assert a + b == a;
    }
  }

  lemma CountOne(a: Effect, e: Effect)
    ensures Count([a], e) == if a == e then 1 else 0
  {
    assert [a][..0] == [];
  }

  lemma CountPair(a: Effect, b: Effect, e: Effect)
    ensures Count([a, b], e) == (if a == e then 1 else 0) + (if b == e then 1 else 0)
  {
    assert [a, b][..1] == [a];
    assert [a][..0] == [];
  }

  /** The external renderer's command line, as the front ends build it. */
  function QuartoCommand(binary: string): (cmd: seq<string>)
    ensures |cmd| == 8 && cmd[0] == binary
  {
    [binary, "render", "apresentacao.qmd", "--to", "revealjs", "--embed-resources", "--output-dir", "."]
  }

  /** A `RunQuarto` call occurs in the trace. */
  predicate RanQuarto(effects: seq<Effect>) {
    exists i :: 0 <= i < |effects| && effects[i].RunQuarto?
  }

  /** A trace with no `RunQuarto` call among its members never ran the renderer. */
  lemma NotRan(effects: seq<Effect>)
    requires forall e :: e in effects ==> !e.RunQuarto?
    ensures !RanQuarto(effects)
  {
    forall i | 0 <= i < |effects| ensures !effects[i].RunQuarto? {
      assert effects[i] in effects;
    }
  }

  /** Where the first call and the closing calls of a framed trace sit. */
  lemma Framed(first: Effect, middle: seq<Effect>, last: seq<Effect>)
    requires last != []
    ensures var s := [first] + middle + last;
      && s[0] == first && |last| < |s| && s[|s| - |last|..] == last
      && s[|s| - 1] == last[|last| - 1]
  {
    var s := [first] + middle + last;
    assert s[|s| - |last|..] == last;
  }
}
