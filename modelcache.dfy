/**
 * The content-addressed model store and the workspace links into it
 * (src/comfy_pack/package.py:163-169, 172-322): `create_model_symlink`, the
 * per-model decision of `retrive_models`, and its interactive
 * acquire-verify-retry loop. The SHA-256 of a file, the user's input lines,
 * the download and the meaning of a typed local path are oracles.
 */
module ModelCache {
  import opened Wrappers
  import opened PyStr
  import opened FileSystem

  /** One entry of `snapshot["models"]`: its digest, its path below the workspace, and `disabled`. */
  datatype ModelEntry = ModelEntry(sha: string, filename: Path, disabled: bool)

  /** What a download thread leaves: the whole body, or a failure after writing `written` (if it got that far). */
  datatype Fetched = Complete(data: Data) | Broken(written: Option<Data>)

  /**
   * The oracles: `get_sha256` on file contents, `Path(line)` made absolute,
   * and the download of the URL typed as input line number `n`.
   */
  datatype Oracles = Oracles(sha256: Data -> string, resolve: string -> Path, fetch: (string, nat) -> Fetched)

  datatype Failure =
    | Fs(error: FsError)      // an OSError of the file system
    | NotASymlink(path: Path) // RuntimeError of create_model_symlink
    | EndOfInput              // EOFError from `input()`

  /** How the interactive loop ended. */
  datatype Outcome = Skipped | Installed | OutOfInput

  function StorePath(store: Path, sha: string): Path { store + [sha] }

  // ---------------------------------------------------------------------
  // get_google_search_url (lines 163-169)

  const SEARCH_BASE := "https://www.google.com/search"

  function SearchUrls(sha: string): (string, string) {
    var s := Upper(sha);
    (SEARCH_BASE + "?q=" + "site:huggingface.co " + s, SEARCH_BASE + "?q=" + "site:civitai.com " + s)
  }

  /** Both search URLs query one site for the upper-cased digest; lower-casing that query gives back a lower-case digest. */
  lemma SearchUrlsShape(sha: string)
    ensures var (hf, civit) := SearchUrls(sha);
      && hf == "https://www.google.com/search?q=site:huggingface.co " + Upper(sha)
      && civit == "https://www.google.com/search?q=site:civitai.com " + Upper(sha)
      && hf[|hf| - |sha|..] == Upper(sha) && civit[|civit| - |sha|..] == Upper(sha)
      && (HasNoUpper(sha) ==> Lower(hf[|hf| - |sha|..]) == sha)
  {
    SearchPrefixes();
    var hfSite := "https://www.google.com/search?q=site:huggingface.co ";
    var civitSite := "https://www.google.com/search?q=site:civitai.com ";
    QueryAtEnd(hfSite, Upper(sha));
    QueryAtEnd(civitSite, Upper(sha));
    if HasNoUpper(sha) {
      LowerUpper(sha);
    }
  }

  /** The two search pages, written out. */
  lemma SearchPrefixes()
    ensures SEARCH_BASE + "?q=" + "site:huggingface.co " == "https://www.google.com/search?q=site:huggingface.co "
    ensures SEARCH_BASE + "?q=" + "site:civitai.com " == "https://www.google.com/search?q=site:civitai.com "
  {
  }

  /** The query is the tail of the URL. */
  lemma QueryAtEnd(site: string, q: string)
    ensures (site + q)[|site + q| - |q|..] == q
  {
  }

  // ---------------------------------------------------------------------
  // create_model_symlink (lines 209-221)

  /**
   * `create_model_symlink(store, sha, dir, filename)`: the tree afterwards
   * (an unlink already done stays done when a later step raises) and the
   * error raised, if any.
   */
  function LinkRun(t: Tree, store: Path, sha: string, dir: Path, filename: Path): (Tree, Option<Failure>) {
    var source := StorePath(store, sha);
    var target := dir + filename;
    if Exists(t, target) && !(target != [] && IsLink(t, target)) then (t, Some(NotASymlink(target)))
    else
      var t1 := if Exists(t, target) then t - {target} else t;
      match MakeDirs(t1, Parent(target))
      case Err(e) => (t1, Some(Fs(e)))
      case Ok(t2) =>
        match Symlink(t2, source, target)
        case Err(e) => (t2, Some(Fs(e)))
        case Ok(t3) => (t3, None)
  }

  /** Resolution that never reaches `q` is the same once `q` is added. */
  lemma {:induction false} ResolveAfterAdd(t: Tree, p: Path, hops: nat, q: Path, e: Entry)
    requires q !in t && Resolve(t, p, hops).Some? && Resolve(t, p, hops).value != q
    ensures Resolve(t[q := e], p, hops) == Resolve(t, p, hops)
    decreases hops
  {
    if p != [] && p in t && t[p].Link? {
      ResolveAfterAdd(t, t[p].target, hops - 1, q, e);
    }
  }

  /**
   * `create_model_symlink` refuses a target that exists and is not a link,
   * changing nothing. Otherwise it changes no path but the target and new
   * parent directories, and on success the target is a link to
   * `store/sha` whose parent is a directory.
   */
  lemma LinkRunShape(t: Tree, store: Path, sha: string, dir: Path, filename: Path)
    ensures var target := dir + filename; var (t', e) := LinkRun(t, store, sha, dir, filename);
      && (Exists(t, target) && !IsLink(t, target) ==> t' == t && e == Some(NotASymlink(target)))
      && (forall q :: q in t && q != target ==> q in t' && t'[q] == t[q])
      && (forall q :: q in t' && q !in t && q != target ==> IsPrefix(q, Parent(target)) && t'[q] == Dir)
      && (e.None? ==> target in t' && t'[target] == Link(StorePath(store, sha)) && IsDir(t', Parent(target)))
  {
    var source := StorePath(store, sha);
    var target := dir + filename;
    if !(Exists(t, target) && !(target != [] && IsLink(t, target))) {
      var t1 := if Exists(t, target) then t - {target} else t;
      if MakeDirs(t1, Parent(target)).Ok? {
        var t2 := MakeDirs(t1, Parent(target)).value;
        MakeDirsOnlyAdds(t1, Parent(target));
        if Symlink(t2, source, target).Ok? {
          var r := Resolve(t2, Parent(target), MAX_LINKS).value;
          assert r == [] || r in t2;
          ResolveAfterAdd(t2, Parent(target), MAX_LINKS, target, Link(source));
        }
      }
    }
  }

  /** The imperative `create_model_symlink`. */
  method CreateModelSymlink(disk: Disk, store: Path, sha: string, dir: Path, filename: Path) returns (e: Option<Failure>)
    modifies disk
    ensures (disk.tree, e) == LinkRun(old(disk.tree), store, sha, dir, filename)
  {
    var source := StorePath(store, sha);
    var target := dir + filename;
    if Exists(disk.tree, target) {
      if target != [] && IsLink(disk.tree, target) {
        disk.tree := Unlink(disk.tree, target).value;
      } else {
        return Some(NotASymlink(target));
      }
    }
    var made := MakeDirs(disk.tree, Parent(target));
    if made.Err? {
      return Some(Fs(made.error));
    }
    disk.tree := made.value;
    var linked := Symlink(disk.tree, source, target);
    if linked.Err? {
      return Some(Fs(linked.error));
    }
    disk.tree := linked.value;
    return None;
  }

  // ---------------------------------------------------------------------
  // The interactive loop (lines 263-322)

  /** `download_file`: the body written to `dest`, or, on failure, `dest` removed if it exists. */
  function DownloadRun(t: Tree, dest: Path, f: Fetched): Tree {
    var written := if f.Complete? then Some(f.data) else f.written;
    var t1 := if written.Some? && WriteFile(t, dest, written.value).Ok? then WriteFile(t, dest, written.value).value else t;
    if f.Complete? && WriteFile(t, dest, f.data).Ok? then t1
    else if Exists(t1, dest) && Unlink(t1, dest).Ok? then Unlink(t1, dest).value
    else t1
  }

  predicate IsUrl(line: string) { StartsWith(line, "http://") || StartsWith(line, "https://") }

  /** The digest of the file `p` names, or `None` when `get_sha256` would raise. */
  function HashOf(t: Tree, p: Path, o: Oracles): Option<string> {
    if IsFile(t, p) then Some(o.sha256(ReadFile(t, p).value)) else None
  }

  /**
   * One pass of the `try` block for input line `line` (number `n`): the tree
   * afterwards and whether the loop ends with the model installed.
   */
  function AttemptRun(t: Tree, m: ModelEntry, ws: Path, store: Path, o: Oracles, line: string, n: nat): (Tree, bool) {
    var s := StorePath(store, m.sha);
    if IsUrl(line) then
      var t1 := DownloadRun(t, s, o.fetch(line, n));
      if !Exists(t1, s) then (t1, false)
      else if HashOf(t1, s, o) != Some(m.sha) then
        if HashOf(t1, s, o).Some? && Unlink(t1, s).Ok? then (Unlink(t1, s).value, false) else (t1, false)
      else
        var (t2, e) := LinkRun(t1, store, m.sha, ws, m.filename);
        (t2, e.None?)
    else
      var src := o.resolve(line);
      if !Exists(t, src) || HashOf(t, src, o) != Some(m.sha) then (t, false)
      else
        match Copy2(t, src, s)
        case Err(_) => (t, false)
        case Ok(t1) =>
          var (t2, e) := LinkRun(t1, store, m.sha, ws, m.filename);
          (t2, e.None?)
  }

  /** The `while True` loop from input line `pos` on. */
  function AcquireRun(t: Tree, m: ModelEntry, ws: Path, store: Path, o: Oracles, input: seq<string>, pos: nat): (Tree, nat, Outcome)
    decreases |input| - pos
  {
    if pos >= |input| then (t, pos, OutOfInput)
    else if Lower(input[pos]) == "skip" then (t, pos + 1, Skipped)
    else
      var (t1, done) := AttemptRun(t, m, ws, store, o, input[pos], pos);
      if done then (t1, pos + 1, Installed) else AcquireRun(t1, m, ws, store, o, input, pos + 1)
  }

  /** The imperative acquire loop. */
  method Acquire(disk: Disk, m: ModelEntry, ws: Path, store: Path, o: Oracles, input: seq<string>, pos: nat)
    returns (next: nat, outcome: Outcome)
    modifies disk
    ensures (disk.tree, next, outcome) == AcquireRun(old(disk.tree), m, ws, store, o, input, pos)
  {
    var s := StorePath(store, m.sha);
    next := pos;
    while true
      invariant AcquireRun(disk.tree, m, ws, store, o, input, next) == AcquireRun(old(disk.tree), m, ws, store, o, input, pos)
      decreases |input| - next
    {
      if next >= |input| {
        return next, OutOfInput;
      }
      var line := input[next];
      next := next + 1;
      if Lower(line) == "skip" {
        return next, Skipped;
      }
      ghost var before := disk.tree;
      if IsUrl(line) {
        var f := o.fetch(line, next - 1);
        var written := if f.Complete? then Some(f.data) else f.written;
        var w := if written.Some? then WriteFile(disk.tree, s, written.value) else Err(NotFound(s));
        if w.Ok? {
          disk.tree := w.value;
        }
        if !(f.Complete? && w.Ok?) && Exists(disk.tree, s) {
          var u := Unlink(disk.tree, s);
          if u.Ok? {
            disk.tree := u.value;
          }
        }
        assert disk.tree == DownloadRun(before, s, f);
        if Exists(disk.tree, s) {
          var h := HashOf(disk.tree, s, o);
          if h.Some? && h.value != m.sha {
            var u := Unlink(disk.tree, s);
            if u.Ok? {
              disk.tree := u.value;
            }
          } else if h.Some? {
            var e := CreateModelSymlink(disk, store, m.sha, ws, m.filename);
            if e.None? {
              return next, Installed;
            }
          }
        }
      } else {
        var src := o.resolve(line);
        if Exists(disk.tree, src) && HashOf(disk.tree, src, o) == Some(m.sha) {
          var c := Copy2(disk.tree, src, s);
          if c.Ok? {
            disk.tree := c.value;
            var e := CreateModelSymlink(disk, store, m.sha, ws, m.filename);
            if e.None? {
              return next, Installed;
            }
          }
        }
      }
    }
  }

  // ---------------------------------------------------------------------
  // The per-model decision and the loop over models (lines 231-256)

  /** One iteration of the `for` loop of `retrive_models` for model `m`, from input line `pos`. */
  function EntryRun(t: Tree, m: ModelEntry, ws: Path, store: Path, download: bool, o: Oracles, input: seq<string>, pos: nat): (Tree, nat, Option<Failure>) {
    var w := ws + m.filename;
    var s := StorePath(store, m.sha);
    if Exists(t, w) then
      if !Exists(t, s) && IsFile(t, w) then
        match Move(t, w, s)
        case Err(e) => (t, pos, Some(Fs(e)))
        case Ok(t1) =>
          var (t2, e) := LinkRun(t1, store, m.sha, ws, m.filename);
          (t2, pos, e)
      else (t, pos, None)
    else if Exists(t, s) then
      var (t1, e) := LinkRun(t, store, m.sha, ws, m.filename);
      (t1, pos, e)
    else if m.disabled || !download then (t, pos, None)
    else
      var (t1, next, outcome) := AcquireRun(t, m, ws, store, o, input, pos);
      (t1, next, if outcome.OutOfInput? then Some(EndOfInput) else None)
  }

  /** The `for` loop over `models`; the first error ends it. */
  function EntriesRun(t: Tree, models: seq<ModelEntry>, ws: Path, store: Path, download: bool, o: Oracles, input: seq<string>, pos: nat): (Tree, nat, Option<Failure>)
    decreases |models|
  {
    if models == [] then (t, pos, None)
    else
      var (t1, p1, e1) := EntriesRun(t, models[..|models| - 1], ws, store, download, o, input, pos);
      if e1.Some? then (t1, p1, e1) else EntryRun(t1, models[|models| - 1], ws, store, download, o, input, p1)
  }

  /** `retrive_models(snapshot, ws, download)` with the model store at `store`. */
  function RetrieveRun(t: Tree, models: seq<ModelEntry>, ws: Path, store: Path, download: bool, o: Oracles, input: seq<string>, pos: nat): (Tree, nat, Option<Failure>) {
    if models == [] then (t, pos, None)
    else
      match MakeDirs(t, store)
      case Err(e) => (t, pos, Some(Fs(e)))
      case Ok(t0) => EntriesRun(t0, models, ws, store, download, o, input, pos)
  }

  /** The imperative `retrive_models`. */
  method RetrieveModels(disk: Disk, models: seq<ModelEntry>, ws: Path, store: Path, download: bool, o: Oracles, input: seq<string>, pos: nat)
    returns (next: nat, e: Option<Failure>)
    modifies disk
    ensures (disk.tree, next, e) == RetrieveRun(old(disk.tree), models, ws, store, download, o, input, pos)
  {
    if models == [] {
      return pos, None;
    }
    var made := MakeDirs(disk.tree, store);
    if made.Err? {
      return pos, Some(Fs(made.error));
    }
    disk.tree := made.value;
    ghost var t0 := disk.tree;
    next := pos;
    for i := 0 to |models|
      invariant EntriesRun(t0, models[..i], ws, store, download, o, input, pos) == (disk.tree, next, None)
    {
      assert models[..i + 1][..i] == models[..i];
      var m := models[i];
      var w := ws + m.filename;
      var s := StorePath(store, m.sha);
      if Exists(disk.tree, w) {
        if !Exists(disk.tree, s) && IsFile(disk.tree, w) {
          var moved := Move(disk.tree, w, s);
          if moved.Err? {
            EntriesFails(t0, models, ws, store, download, o, input, pos, i + 1);
            return next, Some(Fs(moved.error));
          }
          disk.tree := moved.value;
          e := CreateModelSymlink(disk, store, m.sha, ws, m.filename);
          if e.Some? {
            EntriesFails(t0, models, ws, store, download, o, input, pos, i + 1);
            return;
          }
        }
      } else if Exists(disk.tree, s) {
        e := CreateModelSymlink(disk, store, m.sha, ws, m.filename);
        if e.Some? {
          EntriesFails(t0, models, ws, store, download, o, input, pos, i + 1);
          return;
        }
      } else if !m.disabled && download {
        var outcome;
        next, outcome := Acquire(disk, m, ws, store, o, input, next);
        if outcome.OutOfInput? {
          EntriesFails(t0, models, ws, store, download, o, input, pos, i + 1);
          return next, Some(EndOfInput);
        }
      }
    }
    assert models[..|models|] == models;
    return next, None;
  }

  /** An error at model `k - 1` ends the loop with that state. */
  lemma {:induction false} EntriesFails(t: Tree, models: seq<ModelEntry>, ws: Path, store: Path, download: bool, o: Oracles, input: seq<string>, pos: nat, k: nat)
    requires k <= |models| && EntriesRun(t, models[..k], ws, store, download, o, input, pos).2.Some?
    ensures EntriesRun(t, models, ws, store, download, o, input, pos) == EntriesRun(t, models[..k], ws, store, download, o, input, pos)
    decreases |models| - k
  {
    if k < |models| {
      assert models[..|models| - 1][..k] == models[..k];
      EntriesFails(t, models[..|models| - 1], ws, store, download, o, input, pos, k);
    } else {
      assert models[..k] == models;
    }
  }

  // ---------------------------------------------------------------------
  // Properties of the per-model decision

  /** With no models, nothing happens, not even the creation of the store. */
  lemma NoModelsNoChange(t: Tree, ws: Path, store: Path, download: bool, o: Oracles, input: seq<string>, pos: nat)
    ensures RetrieveRun(t, [], ws, store, download, o, input, pos) == (t, pos, None)
  {
  }

  /**
   * A regular file in the workspace whose digest is not in the store yet is
   * moved into the store, unverified (the oracles and the input play no
   * part), and replaced by a link to it.
   */
  lemma AdoptWorkspaceFile(t: Tree, m: ModelEntry, ws: Path, store: Path, download: bool, o: Oracles, o': Oracles, input: seq<string>, input': seq<string>, pos: nat)
    requires Exists(t, ws + m.filename) && !Exists(t, StorePath(store, m.sha)) && IsFile(t, ws + m.filename)
    ensures EntryRun(t, m, ws, store, download, o, input, pos) == EntryRun(t, m, ws, store, download, o', input', pos)
    ensures var (t', next, e) := EntryRun(t, m, ws, store, download, o, input, pos);
      && next == pos
      && (e.None? ==> var w := ws + m.filename; var s := StorePath(store, m.sha);
          w in t && s in t' && t'[s] == t[w] && t'[w] == Link(s))
  {
    var w := ws + m.filename;
    var s := StorePath(store, m.sha);
    var (t', next, e) := EntryRun(t, m, ws, store, download, o, input, pos);
    assert w != [] && w in t;
    if Move(t, w, s).Ok? {
      var t1 := Move(t, w, s).value;
      assert w != s;
      LinkRunShape(t1, store, m.sha, ws, m.filename);
    }
  }

  /** A workspace path that exists is left alone when the store has the digest or the path is no regular file. */
  lemma WorkspaceKept(t: Tree, m: ModelEntry, ws: Path, store: Path, download: bool, o: Oracles, input: seq<string>, pos: nat)
    requires Exists(t, ws + m.filename)
    requires Exists(t, StorePath(store, m.sha)) || !IsFile(t, ws + m.filename)
    ensures EntryRun(t, m, ws, store, download, o, input, pos) == (t, pos, None)
  {
  }

  /**
   * A cached digest is linked into the workspace whatever `disabled` and
   * `download` say; on success the workspace path is a link to the store.
   */
  lemma CacheHitLinks(t: Tree, m: ModelEntry, ws: Path, store: Path, download: bool, o: Oracles, input: seq<string>, pos: nat, disabled': bool, download': bool)
    requires !Exists(t, ws + m.filename) && Exists(t, StorePath(store, m.sha))
    ensures EntryRun(t, m, ws, store, download, o, input, pos)
      == EntryRun(t, m.(disabled := disabled'), ws, store, download', o, input, pos)
    ensures var (t', next, e) := EntryRun(t, m, ws, store, download, o, input, pos);
      next == pos && (e.None? ==> t'[ws + m.filename] == Link(StorePath(store, m.sha)))
  {
    var (t', next, e) := EntryRun(t, m, ws, store, download, o, input, pos);
    LinkRunShape(t, store, m.sha, ws, m.filename);
  }

  /** Without a workspace file or a cached copy, a disabled entry, or any entry when not downloading, changes nothing. */
  lemma SkipUnavailable(t: Tree, m: ModelEntry, ws: Path, store: Path, download: bool, o: Oracles, input: seq<string>, pos: nat)
    requires !Exists(t, ws + m.filename) && !Exists(t, StorePath(store, m.sha))
    requires m.disabled || !download
    ensures EntryRun(t, m, ws, store, download, o, input, pos) == (t, pos, None)
  {
  }

  /** Model `m` is linked: its workspace path is a link to its store entry, which is a file or directory. */
  predicate LinkedEntry(t: Tree, m: ModelEntry, ws: Path, store: Path) {
    var w := ws + m.filename;
    var s := StorePath(store, m.sha);
    w != [] && w in t && t[w] == Link(s) && s in t && !t[s].Link?
  }

  /** On a workspace whose every model is linked, with the store in place, a run writes nothing and reads no input. */
  lemma {:induction false} RerunNoWrites(t: Tree, models: seq<ModelEntry>, ws: Path, store: Path, download: bool, o: Oracles, input: seq<string>, pos: nat)
    requires IsDir(t, store)
    requires forall i :: 0 <= i < |models| ==> LinkedEntry(t, models[i], ws, store)
    ensures RetrieveRun(t, models, ws, store, download, o, input, pos) == (t, pos, None)
  {
    if models != [] {
      MakeDirsExisting(t, store);
      EntriesLinked(t, models, ws, store, download, o, input, pos);
    }
  }

  lemma {:induction false} EntriesLinked(t: Tree, models: seq<ModelEntry>, ws: Path, store: Path, download: bool, o: Oracles, input: seq<string>, pos: nat)
    requires forall i :: 0 <= i < |models| ==> LinkedEntry(t, models[i], ws, store)
    ensures EntriesRun(t, models, ws, store, download, o, input, pos) == (t, pos, None)
    decreases |models|
  {
    if models != [] {
      var k := |models| - 1;
      assert forall i :: 0 <= i < k ==> models[..k][i] == models[i];
      EntriesLinked(t, models[..k], ws, store, download, o, input, pos);
      var m := models[k];
      assert LinkedEntry(t, m, ws, store);
      var s := StorePath(store, m.sha);
      assert Resolve(t, s, MAX_LINKS - 1) == Some(s);
      assert Exists(t, ws + m.filename);
    }
  }

  // ---------------------------------------------------------------------
  // Properties of the interactive loop

  /** The store holds no entry for the digest, or a regular file whose content has that digest. */
  predicate Verified(t: Tree, s: Path, sha: string, o: Oracles) {
    s !in t || (t[s].File? && o.sha256(t[s].data) == sha)
  }

  /** `create_model_symlink` keeps a store entry that is not its target. */
  lemma LinkRunKeeps(t: Tree, store: Path, sha: string, dir: Path, filename: Path, s: Path)
    requires s in t && s != dir + filename
    ensures s in LinkRun(t, store, sha, dir, filename).0 && LinkRun(t, store, sha, dir, filename).0[s] == t[s]
  {
    LinkRunShape(t, store, sha, dir, filename);
  }

  /** The download touches only `dest`, leaves a file there or nothing, and after a failure nothing. */
  lemma DownloadShape(t: Tree, s: Path, f: Fetched)
    requires s != [] && (s !in t || t[s].File?)
    ensures var t1 := DownloadRun(t, s, f);
      && (forall q :: q != s ==> (q in t1 <==> q in t) && (q in t ==> t1[q] == t[q]))
      && (s !in t1 || t1[s].File?)
      && (f.Broken? ==> s !in t1)
      && (f.Complete? && s in t1 ==> t1[s] == File(f.data) || (s in t && t1[s] == t[s]))
  {
  }

  /**
   * One pass of the loop keeps the store entry verified, provided the store
   * entry is no ancestor of the workspace path; when it ends the loop with
   * success, the entry is there and the workspace path links to it.
   */
  lemma AttemptKeepsVerified(t: Tree, m: ModelEntry, ws: Path, store: Path, o: Oracles, line: string, n: nat)
    requires Verified(t, StorePath(store, m.sha), m.sha, o)
    requires !IsPrefix(StorePath(store, m.sha), ws + m.filename)
    ensures var (t', done) := AttemptRun(t, m, ws, store, o, line, n); var s := StorePath(store, m.sha);
      && Verified(t', s, m.sha, o)
      && (done ==> s in t' && ws + m.filename in t' && t'[ws + m.filename] == Link(s))
  {
    var s := StorePath(store, m.sha);
    var w := ws + m.filename;
    assert s != w;
    if IsUrl(line) {
      var t1 := DownloadRun(t, s, o.fetch(line, n));
      DownloadShape(t, s, o.fetch(line, n));
      if Exists(t1, s) && HashOf(t1, s, o) == Some(m.sha) {
        assert s in t1;
        LinkRunKeeps(t1, store, m.sha, ws, m.filename, s);
        LinkRunShape(t1, store, m.sha, ws, m.filename);
      }
    } else {
      var src := o.resolve(line);
      if Exists(t, src) && HashOf(t, src, o) == Some(m.sha) && Copy2(t, src, s).Ok? {
        assert !IsDir(t, s);
        var t1 := Copy2(t, src, s).value;
        assert t1 == t[s := File(ReadFile(t, src).value)];
        LinkRunKeeps(t1, store, m.sha, ws, m.filename, s);
        LinkRunShape(t1, store, m.sha, ws, m.filename);
      }
    }
  }

  /**
   * The interactive loop keeps only a store entry whose content has the
   * model's digest; when it ends with the model installed, that entry is in
   * the store and the workspace path is a link to it.
   */
  lemma {:induction false} AcquireKeepsVerified(t: Tree, m: ModelEntry, ws: Path, store: Path, o: Oracles, input: seq<string>, pos: nat)
    requires Verified(t, StorePath(store, m.sha), m.sha, o)
    requires !IsPrefix(StorePath(store, m.sha), ws + m.filename)
    ensures var (t', next, outcome) := AcquireRun(t, m, ws, store, o, input, pos); var s := StorePath(store, m.sha);
      && Verified(t', s, m.sha, o)
      && (outcome.Installed? ==> (s in t' && t'[s].File? && o.sha256(t'[s].data) == m.sha
            && ws + m.filename in t' && t'[ws + m.filename] == Link(s)))
    decreases |input| - pos
  {
    if pos < |input| && Lower(input[pos]) != "skip" {
      AttemptKeepsVerified(t, m, ws, store, o, input[pos], pos);
      var (t1, done) := AttemptRun(t, m, ws, store, o, input[pos], pos);
      if !done {
        AcquireKeepsVerified(t1, m, ws, store, o, input, pos + 1);
      }
    }
  }

  /** A URL whose download breaks, or whose content has another digest, leaves no store entry and re-prompts. */
  lemma BadDownloadNoStore(t: Tree, m: ModelEntry, ws: Path, store: Path, o: Oracles, line: string, n: nat)
    requires IsUrl(line)
    requires StorePath(store, m.sha) !in t || t[StorePath(store, m.sha)].File?
    requires o.fetch(line, n).Broken? || o.sha256(o.fetch(line, n).data) != m.sha
    ensures StorePath(store, m.sha) !in AttemptRun(t, m, ws, store, o, line, n).0
    ensures !AttemptRun(t, m, ws, store, o, line, n).1
  {
    var s := StorePath(store, m.sha);
    var t1 := DownloadRun(t, s, o.fetch(line, n));
    DownloadShape(t, s, o.fetch(line, n));
    if Exists(t1, s) {
      assert s in t1 && t1[s].File?;
      if o.fetch(line, n).Complete? && WriteFile(t, s, o.fetch(line, n).data).Ok? {
        assert t1[s] == File(o.fetch(line, n).data);
      }
    }
  }

  /** A local path that is missing, or whose content has another digest, writes nothing and re-prompts. */
  lemma BadLocalFileNoWrite(t: Tree, m: ModelEntry, ws: Path, store: Path, o: Oracles, line: string, n: nat)
    requires !IsUrl(line)
    requires !Exists(t, o.resolve(line)) || HashOf(t, o.resolve(line), o) != Some(m.sha)
    ensures AttemptRun(t, m, ws, store, o, line, n) == (t, false)
  {
  }
}
