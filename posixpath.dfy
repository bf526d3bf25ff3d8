/**
 * The POSIX path operations the modelled code uses: `os.path.normpath`,
 * `basename`, `dirname`, `split` and `join` on path text, and
 * `pathlib.PurePosixPath` with its `/` operator and `as_posix()`.
 */
module PosixPath {
  import opened PyStr

  /** Index just after the last `/`, or 0 when there is none (`p.rfind('/') + 1`). */
  function AfterLastSlash(p: string): (i: nat)
    ensures i <= |p|
    ensures i > 0 ==> p[i - 1] == '/'
    ensures forall k :: i <= k < |p| ==> p[k] != '/'
    decreases |p|
  {
    if p == [] then 0
    else if p[|p| - 1] == '/' then |p|
    else AfterLastSlash(p[..|p| - 1])
  }

  predicate IsSlash(c: char) { c == '/' }

  predicate AllSlashes(s: string) { forall k :: 0 <= k < |s| ==> s[k] == '/' }

  /** `os.path.basename(p)` */
  function Basename(p: string): (r: string)
    ensures '/' !in r
  {
    var r := p[AfterLastSlash(p)..];
    assert forall k :: 0 <= k < |r| ==> r[k] != '/';
    r
  }

  /** `os.path.dirname(p)`: the head, with trailing slashes removed unless it is all slashes. */
  function Dirname(p: string): string {
    var head := p[..AfterLastSlash(p)];
    if head != [] && !AllSlashes(head) then TrimRight(head, IsSlash) else head
  }

  /** `os.path.split(p)` */
  function SplitPath(p: string): (string, string) {
    (Dirname(p), Basename(p))
  }

  /** `os.path.join(a, b)` */
  function JoinPath(a: string, b: string): string {
    if StartsWith(b, "/") then b
    else if a == [] || a[|a| - 1] == '/' then a + b
    else a + "/" + b
  }

  /** The head and the tail of a path put back together give the path, up to the slashes between them. */
  lemma SplitRecombines(p: string)
    ensures var i := AfterLastSlash(p); p == p[..i] + Basename(p)
    ensures '/' !in p ==> Dirname(p) == "" && Basename(p) == p
  {
    var i := AfterLastSlash(p);
    assert p == p[..i] + p[i..];
    if '/' !in p {
      assert i == 0;
      assert p[..0] == "";
      assert p[0..] == p;
    }
  }

  /** Joining a directory without a trailing slash and a plain name splits back into the two. */
  lemma JoinSplits(a: string, name: string)
    requires a != [] && a[|a| - 1] != '/' && !AllSlashes(a)
    requires name != [] && '/' !in name
    ensures Basename(JoinPath(a, name)) == name
    ensures Dirname(JoinPath(a, name)) == a
  {
    var j := a + "/" + name;
    assert !StartsWith(name, "/") by { assert name[0] in name; }
    assert AfterLastSlash(j) == |a| + 1 by {
      assert j[..|j| - |name|] == a + "/";
      AfterLastSlashSkips(a + "/", name);
    }
    assert j[..|a| + 1] == a + "/";
    assert TrimRight(a + "/", IsSlash) == TrimRight(a, IsSlash) by {
      assert (a + "/")[..|a|] == a;
    }
    assert TrimRight(a, IsSlash) == a;
    assert j[|a| + 1..] == name;
  }

  /** Joining a root made only of slashes and a plain name splits back into the two. */
  lemma JoinRootSplits(a: string, name: string)
    requires a != [] && AllSlashes(a)
    requires name != [] && '/' !in name
    ensures Dirname(JoinPath(a, name)) == a
  {
    assert !StartsWith(name, "/") by { assert name[0] in name; }
    AfterLastSlashSkips(a, name);
    assert (a + name)[..|a|] == a;
  }

  lemma {:induction false} AfterLastSlashSkips(a: string, name: string)
    requires a != [] && a[|a| - 1] == '/' && '/' !in name
    ensures AfterLastSlash(a + name) == |a|
    decreases |name|
  {
    if name == [] {
      assert a + name == a;
    } else {
      var n := name[..|name| - 1];
      assert (a + name)[..|a + name| - 1] == a + n;
      assert name[|name| - 1] in name;
      assert forall x :: x in n ==> x in name;
      AfterLastSlashSkips(a, n);
    }
  }

  // ---------------------------------------------------------------------
  // normpath

  /** The component loop of `posixpath.normpath`. */
  function NormComps(comps: seq<string>, rooted: bool): seq<string>
    decreases |comps|
  {
    if comps == [] then []
    else
      var acc := NormComps(comps[..|comps| - 1], rooted);
      var c := comps[|comps| - 1];
      if c == "" || c == "." then acc
      else if c != ".." || (!rooted && acc == []) || (acc != [] && acc[|acc| - 1] == "..") then acc + [c]
      else if acc != [] then acc[..|acc| - 1]
      else acc
  }

  /** The number of leading slashes `normpath` keeps: two only when there are exactly two. */
  function LeadingSlashes(p: string): nat {
    if StartsWith(p, "/") then (if StartsWith(p, "//") && !StartsWith(p, "///") then 2 else 1) else 0
  }

  function Slashes(k: nat): (r: string)
    ensures |r| == k && AllSlashes(r)
  {
    seq(k, i => '/')
  }

  /** `os.path.normpath(p)` */
  function NormPath(p: string): string {
    if p == [] then "."
    else
      var k := LeadingSlashes(p);
      var s := Slashes(k) + Join(NormComps(Split(p, '/'), k > 0), '/');
      if s == [] then "." else s
  }

  /** The components `normpath` keeps are never empty, `.` or contain a slash. */
  lemma {:induction false} NormCompsClean(comps: seq<string>, rooted: bool)
    requires forall i :: 0 <= i < |comps| ==> '/' !in comps[i]
    ensures var r := NormComps(comps, rooted);
      forall i :: 0 <= i < |r| ==> r[i] != "" && r[i] != "." && '/' !in r[i]
    ensures rooted ==> ".." !in NormComps(comps, rooted)
    decreases |comps|
  {
    if comps != [] {
      NormCompsClean(comps[..|comps| - 1], rooted);
    }
  }

  /** `normpath` never returns the empty string. */
  lemma NormPathNonEmpty(p: string)
    ensures NormPath(p) != []
  {
  }

  // ---------------------------------------------------------------------
  // PurePosixPath

  /** A parsed `PurePosixPath`: its root (`""`, `"/"` or `"//"`) and its parts. */
  datatype PurePath = PurePath(root: string, parts: seq<string>)

  /** A part of a parsed path: non-empty, not `.`, without `/`. */
  predicate CleanPart(s: string) { s != "" && s != "." && '/' !in s }

  predicate WellFormed(p: PurePath) {
    (p.root == "" || p.root == "/" || p.root == "//")
    && forall i :: 0 <= i < |p.parts| ==> CleanPart(p.parts[i])
  }

  /** The parts of a path text: empty pieces and `.` are dropped. */
  function CleanParts(pieces: seq<string>): (r: seq<string>)
    ensures forall i :: 0 <= i < |r| ==> r[i] in pieces && r[i] != "" && r[i] != "."
    decreases |pieces|
  {
    if pieces == [] then []
    else
      var rest := CleanParts(pieces[1..]);
      if pieces[0] == "" || pieces[0] == "." then rest else [pieces[0]] + rest
  }

  /** `PurePosixPath(s)` */
  function Parse(s: string): (r: PurePath)
    ensures WellFormed(r)
  {
    var pieces := Split(s, '/');
    PurePath(Slashes(LeadingSlashes(s)), CleanParts(pieces))
  }

  /** `str(p)` and `p.as_posix()` */
  function AsPosix(p: PurePath): string {
    if p.root == "" && p.parts == [] then "." else p.root + Join(p.parts, '/')
  }

  /** `p / s` for a string `s`: an absolute `s` replaces `p`. */
  function Div(p: PurePath, s: string): (r: PurePath)
    ensures WellFormed(p) ==> WellFormed(r)
  {
    var q := Parse(s);
    if q.root != "" then q else PurePath(p.root, p.parts + q.parts)
  }

  /** A plain name (no `/`, not empty, not `.`) is one part of its own. */
  lemma ParseName(s: string)
    requires CleanPart(s)
    ensures Parse(s) == PurePath("", [s])
  {
    assert Split(s, '/') == [s];
    assert !StartsWith(s, "/") by { assert s[0] in s; }
    assert LeadingSlashes(s) == 0;
    assert Slashes(0) == "";
    assert CleanParts([s]) == [s];
  }

  /**
   * `(p / name).as_posix()` for a plain name ends in `/name` (just `name` when
   * `p` is empty): the last part of the result is the name that was added.
   */
  lemma DivName(p: PurePath, name: string)
    requires WellFormed(p) && CleanPart(name)
    ensures Div(p, name) == PurePath(p.root, p.parts + [name])
    ensures AsPosix(Div(p, name)) == if p.root == "" && p.parts == [] then name
      else if p.parts == [] then p.root + name
      else AsPosix(p) + "/" + name
  {
    ParseName(name);
    AsPosixSnoc(p.root, p.parts, name);
  }

  /** The text of a path with one more part. */
  lemma AsPosixSnoc(root: string, parts: seq<string>, name: string)
    ensures AsPosix(PurePath(root, parts + [name])) == if root == "" && parts == [] then name
      else if parts == [] then root + name
      else AsPosix(PurePath(root, parts)) + "/" + name
  {
    JoinSnoc(parts, name, '/');
  }

  lemma {:induction false} JoinSnoc(parts: seq<string>, x: string, c: char)
    ensures Join(parts + [x], c) == if parts == [] then x else Join(parts, c) + [c] + x
    decreases |parts|
  {
    if |parts| > 1 {
      JoinSnoc(parts[1..], x, c);
      assert (parts + [x])[1..] == parts[1..] + [x];
    } else if |parts| == 1 {
      assert parts + [x] == [parts[0], x];
    }
  }
}
