/** Copying the template project into a workspace (`copy_template` and its
    copy `_copy_template`): `shutil.copytree` with `dirs_exist_ok=True` and an
    ignore rule built by `shutil.ignore_patterns`. The rule is asked about
    every entry of every directory; an ignored file is not copied and an
    ignored directory is not entered, so a file is copied exactly when no
    component of its path is ignored. Names are matched with POSIX `fnmatch`,
    which is case-sensitive. */
module Template {
  import opened Text
  import opened Effects

  /** The patterns given to `shutil.ignore_patterns`. */
  const IgnorePatterns: seq<string> := [".quarto", "_site", "*.html", "*.pdf", "*.log"]

  /** `fnmatch.fnmatchcase(name, pattern)` for patterns made of literal characters,
      `*` (any text) and `?` (any one character). Bracket classes do not occur in
      the patterns above. */
  function Fnmatch(name: string, pattern: string): bool
    decreases |name| + |pattern|
  {
    if pattern == [] then name == []
    else if pattern[0] == '*' then Fnmatch(name, pattern[1..]) || (name != [] && Fnmatch(name[1..], pattern))
    else if pattern[0] == '?' then name != [] && Fnmatch(name[1..], pattern[1..])
    else name != [] && name[0] == pattern[0] && Fnmatch(name[1..], pattern[1..])
  }

  /** A pattern without wildcards. */
  predicate Literal(pattern: string) {
    forall i :: 0 <= i < |pattern| ==> pattern[i] != '*' && pattern[i] != '?'
  }

  /** A literal pattern matches exactly itself. */
  lemma {:induction false} FnmatchLiteral(name: string, lit: string)
    requires Literal(lit)
    ensures Fnmatch(name, lit) <==> name == lit
  {
    if lit != [] && name != [] {
      FnmatchLiteral(name[1..], lit[1..]);
      assert name == [name[0]] + name[1..];
      assert lit == [lit[0]] + lit[1..];
    }
  }

  /** `*` followed by a literal matches exactly the names ending with that literal. */
  lemma {:induction false} FnmatchStarSuffix(name: string, lit: string)
    requires Literal(lit)
    ensures Fnmatch(name, "*" + lit) <==> EndsWith(name, lit)
  {
    assert ("*" + lit)[1..] == lit;
    FnmatchLiteral(name, lit);
    if name != [] {
      FnmatchStarSuffix(name[1..], lit);
      if |lit| <= |name| - 1 {
        assert name[|name| - |lit|..] == name[1..][|name| - 1 - |lit|..];
      }
      if |lit| == |name| {
        assert name[|name| - |lit|..] == name;
      }
    } else {
      assert EndsWith(name, lit) <==> lit == [];
    }
  }

  /** The ignore rule: some pattern matches the name. */
  predicate Ignored(name: string) {
    exists i :: 0 <= i < |IgnorePatterns| && Fnmatch(name, IgnorePatterns[i])
  }

  /** The ignore rule in plain terms: the two cache directories, and any name
      ending with `.html`, `.pdf` or `.log`, case-sensitively. */
  lemma IgnoredNames(name: string)
    ensures Ignored(name) <==>
      name == ".quarto" || name == "_site"
      || EndsWith(name, ".html") || EndsWith(name, ".pdf") || EndsWith(name, ".log")
  {
    assert Literal(".quarto") && Literal("_site") && Literal(".html") && Literal(".pdf") && Literal(".log");
    FnmatchLiteral(name, ".quarto");
    FnmatchLiteral(name, "_site");
    FnmatchStarSuffix(name, ".html");
    FnmatchStarSuffix(name, ".pdf");
    FnmatchStarSuffix(name, ".log");
    assert IgnorePatterns[2] == "*" + ".html";
    assert IgnorePatterns[3] == "*" + ".pdf";
    assert IgnorePatterns[4] == "*" + ".log";
    assert IgnorePatterns[0] == ".quarto" && IgnorePatterns[1] == "_site";
    if Ignored(name) {
      var i :| 0 <= i < |IgnorePatterns| && Fnmatch(name, IgnorePatterns[i]);
      assert i == 0 || i == 1 || i == 2 || i == 3 || i == 4;
    }
    if name == ".quarto" { assert Fnmatch(name, IgnorePatterns[0]); }
    if name == "_site" { assert Fnmatch(name, IgnorePatterns[1]); }
    if EndsWith(name, ".html") { assert Fnmatch(name, IgnorePatterns[2]); }
    if EndsWith(name, ".pdf") { assert Fnmatch(name, IgnorePatterns[3]); }
    if EndsWith(name, ".log") { assert Fnmatch(name, IgnorePatterns[4]); }
  }

  /** A tree of files, each named by its path components relative to the tree's root. */
  type Tree = map<seq<string>, Bytes>

  /** Some component of the path is ignored, so copytree never reaches the file. */
  predicate Excluded(path: seq<string>) {
    exists i :: 0 <= i < |path| && Ignored(path[i])
  }

  /** The destination after `copy_template(src, dst)`: the files of `dst`, with
      every reachable template file copied over them. */
  function CopyTemplateTree(src: Tree, dst: Tree): (r: Tree)
    ensures dst.Keys <= r.Keys && r.Keys <= dst.Keys + src.Keys
  {
    dst + map p | p in src && !Excluded(p) :: src[p]
  }

  /** Every template file below no ignored name is copied with its content; an
      existing destination is merged into rather than refused, and its other
      files are kept. */
  lemma CopyTemplateContents(src: Tree, dst: Tree)
    ensures var r := CopyTemplateTree(src, dst);
      && (forall p :: p in r <==> p in dst || (p in src && !Excluded(p)))
      && (forall p :: p in src && !Excluded(p) ==> r[p] == src[p])
      && (forall p :: p in dst && (p !in src || Excluded(p)) ==> r[p] == dst[p])
  {
  }

  /** Copying into a fresh destination yields no build artifact: no `.html`,
      `.pdf` or `.log` file, and nothing below a `.quarto` or `_site` directory. */
  lemma FreshCopyHasNoArtifacts(src: Tree, p: seq<string>, i: nat)
    requires p in CopyTemplateTree(src, map[])
    requires i < |p|
    ensures p[i] != ".quarto" && p[i] != "_site"
    ensures !EndsWith(p[i], ".html") && !EndsWith(p[i], ".pdf") && !EndsWith(p[i], ".log")
  {
    IgnoredNames(p[i]);
  }
}
