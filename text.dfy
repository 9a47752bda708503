/** String helpers shared by the model: the parts of Python's `str` and `os.path`
    (POSIX flavour, separator '/') that the render pipeline relies on. */
module Text {

  /** The separator `os.sep` on POSIX. */
  const Sep: char := '/'

  /** `c.lower()` for one character. Only ASCII upper-case letters change: the
      comparisons in the model are against ASCII texts, which no other
      character can lower into a match for. */
  function LowerChar(c: char): (r: char)
    ensures 'A' <= c <= 'Z' ==> r as int == c as int + 32
    ensures !('A' <= c <= 'Z') ==> r == c
  {
    if 'A' <= c <= 'Z' then (c as int + 32) as char else c
  }

  /** `s.lower()`, character by character. */
  function Lower(s: string): (r: string)
    ensures |r| == |s|
    ensures forall i :: 0 <= i < |s| ==> r[i] == LowerChar(s[i])
  {
    seq(|s|, i requires 0 <= i < |s| => LowerChar(s[i]))
  }

  /** `s.startswith(prefix)`. */
  predicate StartsWith(s: string, prefix: string) {
    |prefix| <= |s| && s[..|prefix|] == prefix
  }

  /** `s.endswith(suffix)`. */
  predicate EndsWith(s: string, suffix: string) {
    |suffix| <= |s| && s[|s| - |suffix|..] == suffix
  }

  /** `s.count(c)` for a single character `c`. */
  function CountChar(s: string, c: char): (n: nat)
    ensures n <= |s|
    ensures n == 0 <==> forall i :: 0 <= i < |s| ==> s[i] != c
  {
    if s == [] then 0 else CountChar(s[..|s| - 1], c) + (if s[|s| - 1] == c then 1 else 0)
  }

  /** A text containing no '/', such as a single file or directory name. */
  predicate IsName(s: string) {
    forall i :: 0 <= i < |s| ==> s[i] != Sep
  }

  /** `b` is an absolute path: it begins with the separator. */
  predicate IsAbsolute(b: string) {
    b != [] && b[0] == Sep
  }

  /** `os.path.join(a, b)` (POSIX): an absolute `b` discards `a`; otherwise a
      separator is inserted unless `a` is empty or already ends with one. */
  function Join(a: string, b: string): string
  {
    if IsAbsolute(b) then b else JoinRelative(a, b)
  }

  /** Joining an absolute path keeps only that path. */
  lemma JoinOfAbsolute(a: string, b: string)
    requires IsAbsolute(b)
    ensures Join(a, b) == b
  {
  }

  /** The joining of a relative `b` onto `a`: what `os.path.join` does for
      every fixed name the program joins (`"projeto"`, `"Figuras"`, …). */
  function JoinRelative(a: string, b: string): (r: string)
    ensures EndsWith(r, b) && StartsWith(r, a)
  {
    var r := if a == [] || a[|a| - 1] == Sep then a + b else a + [Sep] + b;
    assert r[|r| - |b|..] == b;
    assert r[..|a|] == a;
    r
  }

  /** `os.path.join(base, *parts)` where every part is a name or a relative
      path, as for the directories `os.walk` lists: no part discards what
      comes before it. */
  function JoinAll(base: string, parts: seq<string>): string
  {
    if parts == [] then base else JoinRelative(JoinAll(base, parts[..|parts| - 1]), parts[|parts| - 1])
  }

  /** `os.path.basename(p)`: the text after the last separator. */
  function Basename(p: string): (r: string)
    ensures IsName(r)
    ensures EndsWith(p, r)
  {
    if p == [] then []
    else if p[|p| - 1] == Sep then []
    else
      var r := Basename(p[..|p| - 1]) + [p[|p| - 1]];
      assert p[|p| - |r|..] == p[..|p| - 1][|p| - |r|..] + [p[|p| - 1]];
      r
  }

  /** The basename of a joined path is the name that was joined. */
  lemma {:induction false} BasenameOfJoin(dir: string, name: string)
    requires IsName(name) && name != []
    ensures Basename(JoinRelative(dir, name)) == name
  {
    var p := JoinRelative(dir, name);
    var k := |p| - |name|;
    assert p[k..] == name;
    assert k == 0 || p[k - 1] == Sep;
    BasenameOfSuffix(p, k);
  }

  /** Helper for BasenameOfJoin: if everything after position `k` is free of
      separators and position `k - 1` is one (or `k` is 0), the basename starts at `k`. */
  lemma {:induction false} BasenameOfSuffix(p: string, k: nat)
    requires k <= |p|
    requires IsName(p[k..])
    requires k == 0 || p[k - 1] == Sep
    ensures Basename(p) == p[k..]
    decreases |p| - k
  {
    if |p| == k {
      if p != [] {
        assert p[|p| - 1] == Sep;
      }
    } else {
      assert p[|p| - 1] != Sep by { assert p[|p| - 1] == p[k..][|p| - 1 - k]; }
      var q := p[..|p| - 1];
      assert q[k..] == p[k..][..|p| - 1 - k];
      assert k == 0 || q[k - 1] == Sep;
      BasenameOfSuffix(q, k);
      assert p[k..] == q[k..] + [p[|p| - 1]];
    }
  }

  /** The decimal digit for `d`. */
  function Digit(d: nat): (c: char)
    requires d < 10
    ensures '0' <= c <= '9'
  {
    "0123456789"[d]
  }

  /** `str(n)` for a natural number. */
  function NatToString(n: nat): (r: string)
    ensures r != []
    ensures forall i :: 0 <= i < |r| ==> '0' <= r[i] <= '9'
  {
    if n < 10 then [Digit(n)] else NatToString(n / 10) + [Digit(n % 10)]
  }

  /** `str(i)` for an integer, with a leading '-' when negative. */
  function IntToString(i: int): (r: string)
    ensures r != []
    ensures r[0] == '-' <==> i < 0
  {
    if i < 0 then "-" + NatToString(-i) else NatToString(i)
  }

  /** `needle` occurs in `s` as a contiguous piece (Python's `needle in s`). */
  predicate Contains(s: string, needle: string) {
    exists i :: 0 <= i <= |s| && StartsWith(s[i..], needle)
  }

  /** A piece of a concatenation is contained in it. */
  lemma ContainsMiddle(a: string, needle: string, b: string)
    ensures Contains(a + needle + b, needle)
  {
    var s := a + needle + b;
    assert s[|a|..][..|needle|] == needle;
  }

  /** What is spliced between fixed texts is found again in the result. */
  lemma HolesAreKept(h: string, x: string, m: string, y: string, t: string, z: string)
    ensures var s := h + x + m + y + t + z;
      Contains(s, x) && Contains(s, y) && EndsWith(s, z)
  {
    var s := h + x + m + y + t + z;
    assert s == h + x + (m + y + t + z);
    ContainsMiddle(h, x, m + y + t + z);
    assert s == (h + x + m) + y + (t + z);
    ContainsMiddle(h + x + m, y, t + z);
    assert s[|s| - |z|..] == z;
  }
}
