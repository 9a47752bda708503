/** Locating the HTML file the external renderer produced inside a workspace
    (`find_rendered_html` and its two copies `_find_rendered_html`).

    The filesystem is an input: `existing` is the set of paths for which
    `os.path.exists` holds, and `walk` lists the files `os.walk(work_dir)` meets,
    in its order, over the whole tree. Pruning `.quarto` and `node_modules`
    removes exactly the files below such a directory and keeps the order of
    the rest, so the model filters `walk` instead of walking a pruned tree. */
module Locator {
  import opened Wrappers
  import opened Text

  /** A file met by the walk: the directories from the workspace down to it, and its name. */
  datatype WalkEntry = WalkEntry(dirs: seq<string>, name: string)

  /** The expected output name. */
  const PresentationName: string := "apresentacao.html"

  /** Directory names whose subtrees the walk does not enter. */
  const PrunedDirs: set<string> := {".quarto", "node_modules"}

  /** The three fixed candidates, tried in this order. */
  function Candidates(workDir: string): (c: seq<string>)
    ensures |c| == 3
  {
    [ JoinRelative(workDir, PresentationName),
      JoinAll(workDir, ["_site", PresentationName]),
      JoinAll(workDir, ["_site", "index.html"]) ]
  }

  /** The entry lies below a pruned directory, so the walk never lists it. */
  predicate Pruned(e: WalkEntry) {
    exists i :: 0 <= i < |e.dirs| && e.dirs[i] in PrunedDirs
  }

  /** `filename.lower().endswith(".html")` */
  predicate IsHtmlName(name: string) {
    EndsWith(Lower(name), ".html")
  }

  /** `filename.lower() == "apresentacao.html"` */
  predicate IsPresentationName(name: string) {
    Lower(name) == PresentationName
  }

  /** `p.lower().endswith(os.sep + "_site" + os.sep + "index.html")` */
  predicate IsSiteIndex(p: string) {
    EndsWith(Lower(p), "/_site/index.html")
  }

  /** The full path `os.path.join(root, filename)` of a walked file. A name
      that `os.walk` lists never begins with the separator, so the join is the
      relative one. */
  function EntryPath(workDir: string, e: WalkEntry): string {
    JoinRelative(JoinAll(workDir, e.dirs), e.name)
  }

  /** The sort key: `p.count(os.sep)`. */
  function Depth(p: string): nat {
    CountChar(p, Sep)
  }

  /** `found_html` after the walk: every visited `.html` file, in walk order. */
  function HtmlFiles(workDir: string, walk: seq<WalkEntry>): seq<string>
  {
    if walk == [] then []
    else
      var e := walk[|walk| - 1];
      HtmlFiles(workDir, walk[..|walk| - 1])
        + (if !Pruned(e) && IsHtmlName(e.name) then [EntryPath(workDir, e)] else [])
  }

  /** `found_apresentacao` after the walk: every visited file named like the output, in walk order. */
  function PresentationFiles(workDir: string, walk: seq<WalkEntry>): seq<string>
  {
    if walk == [] then []
    else
      var e := walk[|walk| - 1];
      PresentationFiles(workDir, walk[..|walk| - 1])
        + (if !Pruned(e) && IsHtmlName(e.name) && IsPresentationName(e.name) then [EntryPath(workDir, e)] else [])
  }

  /** `list.sort(key=lambda p: p.count(os.sep))`: a stable sort by depth,
      written as an insertion sort (a stable sort has exactly one result). */
  function SortByDepth(ps: seq<string>): seq<string>
  {
    if ps == [] then [] else InsertByDepth(ps[0], SortByDepth(ps[1..]))
  }

  /** Inserts `p` before the first element at least as deep, so that `p` stays
      ahead of the later elements of equal depth. */
  function InsertByDepth(p: string, sorted: seq<string>): seq<string>
  {
    if sorted == [] then [p]
    else if Depth(p) <= Depth(sorted[0]) then [p] + sorted
    else [sorted[0]] + InsertByDepth(p, sorted[1..])
  }

  /** The earliest element of least depth: what the stable sort puts first. */
  function FirstShallowest(ps: seq<string>): string
    requires ps != []
  {
    if |ps| == 1 then ps[0]
    else
      var m := FirstShallowest(ps[1..]);
      if Depth(ps[0]) <= Depth(m) then ps[0] else m
  }

  /** The first path ending in `/_site/index.html`, if any. */
  function FirstSiteIndex(ps: seq<string>): Option<string>
  {
    if ps == [] then None
    else if IsSiteIndex(ps[0]) then Some(ps[0])
    else FirstSiteIndex(ps[1..])
  }

  /** What the locator returns, stated as the priority rule. */
  function Located(workDir: string, existing: set<string>, walk: seq<WalkEntry>): (r: Option<string>)
    ensures r.Some? ==> (r.value in Candidates(workDir) && r.value in existing) || r.value in HtmlFiles(workDir, walk)
  {
    var c := Candidates(workDir);
    if c[0] in existing then Some(c[0])
    else if c[1] in existing then Some(c[1])
    else if c[2] in existing then Some(c[2])
    else
      var named := PresentationFiles(workDir, walk);
      var html := HtmlFiles(workDir, walk);
      if named != [] then
        FirstShallowestIsEarliestMinimum(named);
        PresentationFilesAreHtml(workDir, walk, FirstShallowest(named));
        Some(FirstShallowest(named))
      else if |html| == 1 then Some(html[0])
      else
        FirstSiteIndexIn(html);
        FirstSiteIndex(html)
  }

  /** `find_rendered_html(work_dir)`: the candidate loop, the walk collecting
      `found_html` and `found_apresentacao`, the sort, and the two fallbacks. */
  method FindRenderedHtml(workDir: string, existing: set<string>, walk: seq<WalkEntry>) returns (r: Option<string>)
    ensures r == Located(workDir, existing, walk)
  {
    var candidates := Candidates(workDir);
    for i := 0 to |candidates|
      invariant forall j :: 0 <= j < i ==> candidates[j] !in existing
    {
      if candidates[i] in existing {
        return Some(candidates[i]);
      }
    }

    var foundHtml, foundApresentacao := CollectWalk(workDir, walk);

    if foundApresentacao != [] {
      SortedHeadIsFirstShallowest(foundApresentacao);
      foundApresentacao := SortByDepth(foundApresentacao);
      return Some(foundApresentacao[0]);
    }

    if |foundHtml| == 1 {
      return Some(foundHtml[0]);
    }

    for i := 0 to |foundHtml|
      invariant FirstSiteIndex(foundHtml) == FirstSiteIndex(foundHtml[i..])
    {
      assert foundHtml[i..][1..] == foundHtml[i + 1..];
      if IsSiteIndex(foundHtml[i]) {
        return Some(foundHtml[i]);
      }
    }
    return None;
  }

  /** The `os.walk` loop: prunes `.quarto` and `node_modules`, collects every
      `.html` file into `found_html` and those named like the output also into
      `found_apresentacao`, in walk order. */
  method CollectWalk(workDir: string, walk: seq<WalkEntry>) returns (foundHtml: seq<string>, foundApresentacao: seq<string>)
    ensures foundHtml == HtmlFiles(workDir, walk)
    ensures foundApresentacao == PresentationFiles(workDir, walk)
  {
    foundHtml := [];
    foundApresentacao := [];
    for k := 0 to |walk|
      invariant foundHtml == HtmlFiles(workDir, walk[..k])
      invariant foundApresentacao == PresentationFiles(workDir, walk[..k])
    {
      assert walk[..k + 1][..k] == walk[..k];
      var e := walk[k];
      if !Pruned(e) && IsHtmlName(e.name) {
        var fullPath := EntryPath(workDir, e);
        foundHtml := foundHtml + [fullPath];
        if IsPresentationName(e.name) {
          foundApresentacao := foundApresentacao + [fullPath];
        }
      }
    }
    assert walk[..|walk|] == walk;
  }

  // ---------------------------------------------------------------------------
  // The sort

  /** The sort is a permutation of its input. */
  lemma {:induction false} SortByDepthPermutes(ps: seq<string>)
    ensures multiset(SortByDepth(ps)) == multiset(ps)
  {
    if ps != [] {
      SortByDepthPermutes(ps[1..]);
      InsertByDepthPermutes(ps[0], SortByDepth(ps[1..]));
      assert ps == [ps[0]] + ps[1..];
    }
  }

  lemma {:induction false} InsertByDepthPermutes(p: string, s: seq<string>)
    ensures multiset(InsertByDepth(p, s)) == multiset([p]) + multiset(s)
  {
    if s != [] && Depth(p) > Depth(s[0]) {
      InsertByDepthPermutes(p, s[1..]);
      assert s == [s[0]] + s[1..];
    }
  }

  /** Depth never decreases along a sequence. */
  predicate SortedByDepth(s: seq<string>) {
    forall i, j :: 0 <= i < j < |s| ==> Depth(s[i]) <= Depth(s[j])
  }

  /** The sort orders its result by depth. */
  lemma {:induction false} SortByDepthSorts(ps: seq<string>)
    ensures SortedByDepth(SortByDepth(ps))
  {
    if ps != [] {
      SortByDepthSorts(ps[1..]);
      InsertByDepthSorts(ps[0], SortByDepth(ps[1..]));
    }
  }

  lemma {:induction false} InsertByDepthSorts(p: string, s: seq<string>)
    requires SortedByDepth(s)
    ensures SortedByDepth(InsertByDepth(p, s))
  {
    if s != [] && Depth(p) > Depth(s[0]) {
      InsertByDepthSorts(p, s[1..]);
      InsertByDepthPermutes(p, s[1..]);
      var t := InsertByDepth(p, s[1..]);
      forall x | x in t ensures Depth(s[0]) <= Depth(x) {
        assert x in multiset(t);
        if x != p {
          assert x in multiset(s[1..]);
        }
      }
    }
  }

  /** The first element after the stable sort is the earliest shallowest one. */
  lemma {:induction false} SortedHeadIsFirstShallowest(ps: seq<string>)
    requires ps != []
    ensures SortByDepth(ps) != [] && SortByDepth(ps)[0] == FirstShallowest(ps)
  {
    if |ps| == 1 {
      assert ps[1..] == [];
    } else {
      SortedHeadIsFirstShallowest(ps[1..]);
    }
  }

  /** FirstShallowest picks an element of least depth, and no earlier element
      has that depth. */
  lemma {:induction false} FirstShallowestIsEarliestMinimum(ps: seq<string>)
    requires ps != []
    ensures exists k :: 0 <= k < |ps| && ps[k] == FirstShallowest(ps)
              && (forall j :: 0 <= j < |ps| ==> Depth(ps[k]) <= Depth(ps[j]))
              && (forall j :: 0 <= j < k ==> Depth(ps[j]) > Depth(ps[k]))
  {
    FirstShallowestIsMinimal(ps);
    FirstShallowestIsEarliest(ps);
  }

  lemma {:induction false} FirstShallowestIsMinimal(ps: seq<string>)
    requires ps != []
    ensures forall j :: 0 <= j < |ps| ==> Depth(FirstShallowest(ps)) <= Depth(ps[j])
  {
    if |ps| > 1 {
      FirstShallowestIsMinimal(ps[1..]);
      assert forall j :: 1 <= j < |ps| ==> ps[j] == ps[1..][j - 1];
    }
  }

  lemma {:induction false} FirstShallowestIsEarliest(ps: seq<string>)
    requires ps != []
    ensures exists k :: 0 <= k < |ps| && ps[k] == FirstShallowest(ps)
              && (forall j :: 0 <= j < k ==> Depth(ps[j]) > Depth(ps[k]))
  {
    if |ps| == 1 || Depth(ps[0]) <= Depth(FirstShallowest(ps[1..])) {
      assert ps[0] == FirstShallowest(ps);
    } else {
      FirstShallowestIsEarliest(ps[1..]);
      var k' :| 0 <= k' < |ps| - 1 && ps[1..][k'] == FirstShallowest(ps[1..])
                && (forall j :: 0 <= j < k' ==> Depth(ps[1..][j]) > Depth(ps[1..][k']));
      var k := k' + 1;
      assert ps[k] == FirstShallowest(ps);
      forall j | 0 <= j < k ensures Depth(ps[j]) > Depth(ps[k]) {
        if j > 0 { assert ps[j] == ps[1..][j - 1]; }
      }
    }
  }

  // ---------------------------------------------------------------------------
  // What the walk collects

  /** A path is in `found_html` exactly when some visited entry is an `.html`
      file with that full path. */
  lemma {:induction false} HtmlFilesMembers(workDir: string, walk: seq<WalkEntry>, p: string)
    ensures p in HtmlFiles(workDir, walk) <==>
      exists k :: 0 <= k < |walk| && !Pruned(walk[k]) && IsHtmlName(walk[k].name) && p == EntryPath(workDir, walk[k])
  {
    if walk != [] {
      var w := walk[..|walk| - 1];
      HtmlFilesMembers(workDir, w, p);
      assert forall k :: 0 <= k < |w| ==> w[k] == walk[k];
    }
  }

  /** A path is in `found_apresentacao` exactly when some visited entry has the
      output name and that full path. */
  lemma {:induction false} PresentationFilesMembers(workDir: string, walk: seq<WalkEntry>, p: string)
    ensures p in PresentationFiles(workDir, walk) <==>
      exists k :: 0 <= k < |walk| && !Pruned(walk[k]) && IsPresentationName(walk[k].name)
                  && p == EntryPath(workDir, walk[k])
  {
    if walk != [] {
      var w := walk[..|walk| - 1];
      PresentationFilesMembers(workDir, w, p);
      assert forall k :: 0 <= k < |w| ==> w[k] == walk[k];
      var e := walk[|walk| - 1];
      if IsPresentationName(e.name) {
        PresentationNameIsHtml(e.name);
      }
    }
  }

  /** Every name-matched file is also among the `.html` files. */
  lemma PresentationFilesAreHtml(workDir: string, walk: seq<WalkEntry>, p: string)
    requires p in PresentationFiles(workDir, walk)
    ensures p in HtmlFiles(workDir, walk)
  {
    PresentationFilesMembers(workDir, walk, p);
    HtmlFilesMembers(workDir, walk, p);
    var k :| 0 <= k < |walk| && !Pruned(walk[k]) && IsPresentationName(walk[k].name) && p == EntryPath(workDir, walk[k]);
    PresentationNameIsHtml(walk[k].name);
  }

  /** The output name ends in `.html`. */
  lemma PresentationNameIsHtml(name: string)
    requires IsPresentationName(name)
    ensures IsHtmlName(name)
  {
    var low := Lower(name);
    assert low[|low| - 5..] == ".html";
  }

  lemma {:induction false} FirstSiteIndexIn(ps: seq<string>)
    ensures FirstSiteIndex(ps).Some? ==>
      exists k :: 0 <= k < |ps| && ps[k] == FirstSiteIndex(ps).value && IsSiteIndex(ps[k])
                  && forall j :: 0 <= j < k ==> !IsSiteIndex(ps[j])
    ensures FirstSiteIndex(ps).None? <==> forall j :: 0 <= j < |ps| ==> !IsSiteIndex(ps[j])
  {
    if ps != [] && !IsSiteIndex(ps[0]) {
      FirstSiteIndexIn(ps[1..]);
      assert forall j :: 1 <= j < |ps| ==> ps[j] == ps[1..][j - 1];
      if FirstSiteIndex(ps).Some? {
        var k' :| 0 <= k' < |ps| - 1 && ps[1..][k'] == FirstSiteIndex(ps[1..]).value && IsSiteIndex(ps[1..][k'])
                  && forall j :: 0 <= j < k' ==> !IsSiteIndex(ps[1..][j]);
        assert ps[k' + 1] == FirstSiteIndex(ps).value;
      }
    }
  }

  /** A lower-cased path ends with the lower-cased file name it was joined with. */
  lemma LowerEndsWith(s: string, suffix: string)
    requires EndsWith(s, suffix)
    ensures EndsWith(Lower(s), Lower(suffix))
  {
    assert Lower(s)[|s| - |suffix|..] == Lower(suffix);
  }

  lemma EndsWithTrans(s: string, mid: string, suffix: string)
    requires EndsWith(s, mid) && EndsWith(mid, suffix)
    ensures EndsWith(s, suffix)
  {
    assert s[|s| - |suffix|..] == s[|s| - |mid|..][|mid| - |suffix|..];
  }

  // ---------------------------------------------------------------------------
  // The properties of the priority rule

  /** When a fixed candidate exists, the first existing one is returned, and the
      walk does not matter. */
  lemma FixedCandidatesWin(workDir: string, existing: set<string>, walk: seq<WalkEntry>, other: seq<WalkEntry>, i: nat)
    requires i < 3 && Candidates(workDir)[i] in existing
    requires forall j :: 0 <= j < i ==> Candidates(workDir)[j] !in existing
    ensures Located(workDir, existing, walk) == Some(Candidates(workDir)[i])
    ensures Located(workDir, existing, walk) == Located(workDir, existing, other)
  {
  }

  /** A file found by the walk fallback is an `.html` file (by lower-cased name
      and path) that lies below no pruned directory. */
  lemma FallbackIsVisitedHtml(workDir: string, existing: set<string>, walk: seq<WalkEntry>)
    requires forall j :: 0 <= j < 3 ==> Candidates(workDir)[j] !in existing
    requires Located(workDir, existing, walk).Some?
    ensures var p := Located(workDir, existing, walk).value;
      EndsWith(Lower(p), ".html") &&
      exists k :: 0 <= k < |walk| && !Pruned(walk[k]) && IsHtmlName(walk[k].name) && p == EntryPath(workDir, walk[k])
  {
    var p := Located(workDir, existing, walk).value;
    var named := PresentationFiles(workDir, walk);
    var html := HtmlFiles(workDir, walk);
    if named != [] {
      FirstShallowestIsEarliestMinimum(named);
      PresentationFilesAreHtml(workDir, walk, p);
    } else if |html| == 1 {
      assert p in html;
    } else {
      FirstSiteIndexIn(html);
    }
    HtmlFilesMembers(workDir, walk, p);
    var k :| 0 <= k < |walk| && !Pruned(walk[k]) && IsHtmlName(walk[k].name) && p == EntryPath(workDir, walk[k]);
    LowerEndsWith(p, walk[k].name);
    EndsWithTrans(Lower(p), Lower(walk[k].name), ".html");
  }

  /** When some visited file has the output name, the result is one of those
      files with the fewest separators, and the earliest in walk order among them. */
  lemma NameMatchWins(workDir: string, existing: set<string>, walk: seq<WalkEntry>)
    requires forall j :: 0 <= j < 3 ==> Candidates(workDir)[j] !in existing
    requires exists k :: 0 <= k < |walk| && !Pruned(walk[k]) && IsPresentationName(walk[k].name)
    ensures var named := PresentationFiles(workDir, walk);
      exists k :: 0 <= k < |named| && Located(workDir, existing, walk) == Some(named[k])
        && (forall j :: 0 <= j < |named| ==> Depth(named[k]) <= Depth(named[j]))
        && (forall j :: 0 <= j < k ==> Depth(named[j]) > Depth(named[k]))
  {
    var k :| 0 <= k < |walk| && !Pruned(walk[k]) && IsPresentationName(walk[k].name);
    PresentationFilesMembers(workDir, walk, EntryPath(workDir, walk[k]));
    FirstShallowestIsEarliestMinimum(PresentationFiles(workDir, walk));
  }

  /** Without a name match: a single `.html` file is returned; otherwise the
      first `_site/index.html`; otherwise nothing. */
  lemma RemainingCases(workDir: string, existing: set<string>, walk: seq<WalkEntry>)
    requires forall j :: 0 <= j < 3 ==> Candidates(workDir)[j] !in existing
    requires forall k :: 0 <= k < |walk| && !Pruned(walk[k]) ==> !IsPresentationName(walk[k].name)
    ensures var html := HtmlFiles(workDir, walk);
      && (|html| == 1 ==> Located(workDir, existing, walk) == Some(html[0]))
      && (|html| != 1 ==> Located(workDir, existing, walk) == FirstSiteIndex(html))
      && (Located(workDir, existing, walk) == None <==>
            |html| == 0 || (|html| >= 2 && forall j :: 0 <= j < |html| ==> !IsSiteIndex(html[j])))
  {
    var named := PresentationFiles(workDir, walk);
    if named != [] {
      PresentationFilesMembers(workDir, walk, named[0]);
    }
    FirstSiteIndexIn(HtmlFiles(workDir, walk));
  }

  /** The locator can report "not found" although `.html` files were produced:
      two files with other names, neither of them a `_site/index.html`. */
  lemma NotFoundDespiteHtml()
    ensures var walk := [WalkEntry([], "a.html"), WalkEntry([], "b.html")];
      |HtmlFiles("w", walk)| == 2 && Located("w", {}, walk) == None
  {
    var walk := [WalkEntry([], "a.html"), WalkEntry([], "b.html")];
    TwoPlainPages();
    assert !IsPresentationName(walk[0].name) && !IsPresentationName(walk[1].name) by {
      assert |Lower("a.html")| != |PresentationName|;
    }
    RemainingCases("w", {}, walk);
    assert !IsSiteIndex("w/a.html") by { assert |Lower("w/a.html")| < 17; }
    assert !IsSiteIndex("w/b.html") by { assert |Lower("w/b.html")| < 17; }
  }

  /** The walk of the example above collects both files, in order. */
  lemma TwoPlainPages()
    ensures HtmlFiles("w", [WalkEntry([], "a.html"), WalkEntry([], "b.html")]) == ["w/a.html", "w/b.html"]
  {
    var walk := [WalkEntry([], "a.html"), WalkEntry([], "b.html")];
    PlainPages();
    assert HtmlFiles("w", walk[..1]) == ["w/a.html"] by { assert walk[..1][..0] == []; }
  }

  /** Both files of the example are visited `.html` files at the top level. */
  lemma PlainPages()
    ensures IsHtmlName("a.html") && IsHtmlName("b.html")
    ensures !Pruned(WalkEntry([], "a.html")) && !Pruned(WalkEntry([], "b.html"))
    ensures EntryPath("w", WalkEntry([], "a.html")) == "w/a.html"
    ensures EntryPath("w", WalkEntry([], "b.html")) == "w/b.html"
  {
    HtmlNames();
    PlainPaths();
  }

  lemma PlainPaths()
    ensures EntryPath("w", WalkEntry([], "a.html")) == "w/a.html"
    ensures EntryPath("w", WalkEntry([], "b.html")) == "w/b.html"
  {
    assert JoinAll("w", []) == "w";
  }

  lemma HtmlNames()
    ensures IsHtmlName("a.html") && IsHtmlName("b.html")
  {
    assert Lower("a.html") == "a.html";
    assert Lower("b.html") == "b.html";
  }
}
