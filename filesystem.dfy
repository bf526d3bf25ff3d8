/**
 * The file system the model cache and the installers work on: a map from
 * absolute paths (sequences of components) to regular files, symbolic links
 * and directories, with the `os`, `pathlib` and `shutil` calls they make
 * written as functions from one tree to the next. Symbolic links are
 * followed when they are the last component of a path, at most `MAX_LINKS`
 * times in a row.
 */
module FileSystem {
  import opened Wrappers

  type Path = seq<string>
  type Data = string

  /** What a path names: a regular file, a symbolic link to an absolute path, or a directory. */
  datatype Entry = File(data: Data) | Link(target: Path) | Dir

  type Tree = map<Path, Entry>

  datatype FsError =
    | NotFound(path: Path)       // FileNotFoundError
    | FileExists(path: Path)     // FileExistsError
    | IsADirectory(path: Path)   // IsADirectoryError
    | NotADirectory(path: Path)  // NotADirectoryError
    | TooManyLinks(path: Path)   // OSError ELOOP
    | SameFile(path: Path)       // shutil.SameFileError
    | SymlinkTree(path: Path)    // OSError from rmtree on a symbolic link

  /** The most symbolic links followed in a row (Linux `MAXSYMLINKS`). */
  const MAX_LINKS: nat := 40

  /** The root directory is `[]`; the parent of `[]` is `[]`. */
  function Parent(p: Path): Path {
    if p == [] then [] else p[..|p| - 1]
  }

  predicate IsPrefix(a: Path, b: Path) {
    |a| <= |b| && b[..|a|] == a
  }

  /** The path that `p` finally names after following links, or `None` after too many links. */
  function Resolve(t: Tree, p: Path, hops: nat): (r: Option<Path>)
    ensures r.Some? ==> r.value == [] || r.value !in t || !t[r.value].Link?
    decreases hops
  {
    if p != [] && p in t && t[p].Link? then
      if hops == 0 then None else Resolve(t, t[p].target, hops - 1)
    else Some(p)
  }

  /** The entry `p` names after following links (the root is always a directory). */
  function Follow(t: Tree, p: Path): Option<Entry> {
    var r := Resolve(t, p, MAX_LINKS);
    if r.None? then None
    else if r.value == [] then Some(Dir)
    else if r.value in t then Some(t[r.value])
    else None
  }

  /** `p.exists()` */
  predicate Exists(t: Tree, p: Path) { Follow(t, p).Some? }

  /** `p.is_file()` */
  predicate IsFile(t: Tree, p: Path) { Follow(t, p).Some? && Follow(t, p).value.File? }

  /** `p.is_dir()` */
  predicate IsDir(t: Tree, p: Path) { Follow(t, p).Some? && Follow(t, p).value.Dir? }

  /** `p.is_symlink()`: the link itself, not what it names. */
  predicate IsLink(t: Tree, p: Path) { p in t && t[p].Link? }

  /** Something, even a dangling link, occupies `p` (`os.path.lexists`). */
  predicate Occupied(t: Tree, p: Path) { p == [] || p in t }

  predicate ParentIsDir(t: Tree, p: Path) { p != [] && IsDir(t, Parent(p)) }

  /** `p.unlink()`: removes a file or a link (not what it names). */
  function Unlink(t: Tree, p: Path): (r: Result<Tree, FsError>)
    ensures r.Ok? <==> p != [] && p in t && !t[p].Dir?
    ensures r.Ok? ==> r.value == t - {p}
  {
    if p == [] || (p in t && t[p].Dir?) then Err(IsADirectory(p))
    else if p !in t then Err(NotFound(p))
    else Ok(t - {p})
  }

  /** `os.symlink(src, dst)`: a new link at `dst`, which must not be occupied. */
  function Symlink(t: Tree, src: Path, dst: Path): (r: Result<Tree, FsError>)
    ensures r.Ok? <==> !Occupied(t, dst) && ParentIsDir(t, dst)
    ensures r.Ok? ==> r.value == t[dst := Link(src)]
  {
    if Occupied(t, dst) then Err(FileExists(dst))
    else if !ParentIsDir(t, dst) then Err(NotFound(Parent(dst)))
    else Ok(t[dst := Link(src)])
  }

  /** `p.mkdir(parents=True, exist_ok=True)` */
  function MakeDirs(t: Tree, p: Path): Result<Tree, FsError>
    decreases |p|
  {
    if IsDir(t, p) then Ok(t)
    else if p in t then Err(FileExists(p))
    else
      var t1 :- MakeDirs(t, Parent(p));
      Ok(t1[p := Dir])
  }

  /** `open(p, "w").write(d)`: writes through links, creating or truncating the file. */
  function WriteFile(t: Tree, p: Path, d: Data): Result<Tree, FsError> {
    var r := Resolve(t, p, MAX_LINKS);
    if r.None? then Err(TooManyLinks(p))
    else if r.value == [] || (r.value in t && t[r.value].Dir?) then Err(IsADirectory(r.value))
    else if !ParentIsDir(t, r.value) then Err(NotFound(Parent(r.value)))
    else Ok(t[r.value := File(d)])
  }

  /** `p.read_text()` */
  function ReadFile(t: Tree, p: Path): (r: Result<Data, FsError>)
    ensures r.Ok? <==> IsFile(t, p)
  {
    match Follow(t, p)
    case None => Err(NotFound(p))
    case Some(e) => if e.File? then Ok(e.data) else Err(IsADirectory(p))
  }

  /**
   * `shutil.move(src, dst)` onto a path that is not a directory: the entry
   * at `src` itself (a link stays a link) is renamed, replacing `dst`.
   */
  function Move(t: Tree, src: Path, dst: Path): (r: Result<Tree, FsError>)
    ensures r.Ok? ==> src in t && r.value == (t - {src})[dst := t[src]]
  {
    if src == [] || src !in t then Err(NotFound(src))
    else if t[src].Dir? || IsDir(t, dst) then Err(IsADirectory(dst))
    else if !ParentIsDir(t, dst) then Err(NotFound(Parent(dst)))
    else Ok((t - {src})[dst := t[src]])
  }

  /** `shutil.copy2(src, dst)`: the data of the file `src` names, written to `dst` (or into it when a directory). */
  function Copy2(t: Tree, src: Path, dst: Path): Result<Tree, FsError> {
    var target := if IsDir(t, dst) && src != [] then dst + [src[|src| - 1]] else dst;
    var a := Resolve(t, src, MAX_LINKS);
    var b := Resolve(t, target, MAX_LINKS);
    if a.Some? && b.Some? && a == b && Exists(t, src) then Err(SameFile(target))
    else
      var d :- ReadFile(t, src);
      WriteFile(t, target, d)
  }

  /** `shutil.rmtree(p)`: a directory and everything below it. */
  function RemoveTree(t: Tree, p: Path): (r: Result<Tree, FsError>)
    ensures r.Ok? ==> forall q :: q in r.value <==> q in t && !IsPrefix(p, q)
  {
    if p != [] && p in t && t[p].Link? then Err(SymlinkTree(p))
    else if p != [] && p !in t then Err(NotFound(p))
    else if p != [] && !t[p].Dir? then Err(NotADirectory(p))
    else Ok(map q | q in t && !IsPrefix(p, q) :: t[q])
  }

  /** The mutable file system. */
  class Disk {
    var tree: Tree

    constructor(t: Tree)
      ensures tree == t
    {
      tree := t;
    }
  }

  // ---------------------------------------------------------------------
  // Properties

  /** Resolution through links that a write does not touch ends where it ended before. */
  lemma {:induction false} ResolveAfterWrite(t: Tree, p: Path, hops: nat, r: Path, e: Entry)
    requires Resolve(t, p, hops) == Some(r) && !e.Link?
    ensures Resolve(t[r := e], p, hops) == Some(r)
    decreases hops
  {
    if p != [] && p in t && t[p].Link? {
      assert p != r;
      ResolveAfterWrite(t, t[p].target, hops - 1, r, e);
    }
  }

  /** What is written can be read back through the same path. */
  lemma WriteThenRead(t: Tree, p: Path, d: Data)
    requires WriteFile(t, p, d).Ok?
    ensures ReadFile(WriteFile(t, p, d).value, p) == Ok(d)
    ensures forall q :: q in t && q != Resolve(t, p, MAX_LINKS).value ==> q in WriteFile(t, p, d).value && WriteFile(t, p, d).value[q] == t[q]
  {
    var r := Resolve(t, p, MAX_LINKS).value;
    ResolveAfterWrite(t, p, MAX_LINKS, r, File(d));
  }

  /** A write through a path that names no link lands on that very path. */
  lemma WriteDirect(t: Tree, p: Path, d: Data)
    requires p != [] && (p !in t || t[p].File?) && ParentIsDir(t, p)
    ensures WriteFile(t, p, d) == Ok(t[p := File(d)])
  {
  }

  /**
   * Creating directories only adds directories, at `p` and its ancestors, and
   * changes no entry that was there.
   */
  lemma {:induction false} MakeDirsOnlyAdds(t: Tree, p: Path)
    requires MakeDirs(t, p).Ok?
    ensures var t' := MakeDirs(t, p).value;
      && (forall q :: q in t ==> q in t' && t'[q] == t[q])
      && (forall q :: q in t' && q !in t ==> IsPrefix(q, p) && t'[q] == Dir)
    decreases |p|
  {
    if !IsDir(t, p) && p !in t {
      MakeDirsOnlyAdds(t, Parent(p));
      forall q | q in MakeDirs(t, Parent(p)).value && q !in t ensures IsPrefix(q, p) {
        assert IsPrefix(q, Parent(p));
        assert p[..|Parent(p)|] == Parent(p);
        assert p[..|q|] == Parent(p)[..|q|];
      }
    }
  }

  /** An existing directory needs nothing created. */
  lemma MakeDirsExisting(t: Tree, p: Path)
    requires IsDir(t, p)
    ensures MakeDirs(t, p) == Ok(t)
  {
  }

  /** A successful `mkdir` of a path that was not a directory leaves a new directory entry at it. */
  lemma MakeDirsMakesDir(t: Tree, p: Path)
    requires MakeDirs(t, p).Ok? && !IsDir(t, p)
    ensures p in MakeDirs(t, p).value && MakeDirs(t, p).value[p] == Dir
  {
  }
}
