/**
 * Installing ComfyUI and the custom nodes of a snapshot into a workspace
 * (src/comfy_pack/package.py:16-94). A directory counts as installed when
 * its `.DONE` marker records the wanted commit; otherwise it is removed,
 * cloned afresh at that commit, and the marker is written last. The git
 * commands and a custom node's `install.py` run outside the model: they are
 * the parameters `clone` and `script`, which change the tree arbitrarily and
 * say whether they exited with status 0.
 */
module Install {
  import opened Wrappers
  import opened PyStr
  import opened FileSystem

  /** src/comfy_pack/const.py:17 */
  const COMFYUI_REPO := "https://github.com/comfyanonymous/ComfyUI.git"
  const DONE := ".DONE"
  const CUSTOM_NODES := "custom_nodes"
  const INSTALL_SCRIPT := "install.py"

  datatype InstallError =
    | Fs(error: FsError)        // an OSError from the file operations
    | CommandFailed(dir: Path)  // subprocess.CalledProcessError

  /** `_clone_commit(url, commit, dir)`: the tree after the git commands, and whether all of them succeeded. */
  type Clone = (Tree, string, string, Path) -> (Tree, bool)

  /** Running `install.py` in a module directory: the tree afterwards, and whether it succeeded. */
  type Script = (Tree, Path) -> (Tree, bool)

  /** An entry of the snapshot's `custom_nodes` list. */
  datatype CustomNode = CustomNode(url: string, commitHash: string)

  /**
   * The install of `url` at `commit` into `dir` (package.py:47-56 and
   * 64-94): nothing when the marker records the commit; otherwise the old
   * directory is removed, the commit cloned, `install.py` run when
   * `withScript` holds and the clone has one, and the marker written. The
   * tree is the one reached when an error is raised.
   */
  function InstallRun(t: Tree, dir: Path, url: string, commit: string, withScript: bool, clone: Clone, script: Script): (Tree, Option<InstallError>) {
    var marker := dir + [DONE];
    if Exists(t, dir) && Exists(t, marker) && ReadFile(t, marker).Err? then (t, Some(Fs(ReadFile(t, marker).error)))
    else if Exists(t, dir) && Exists(t, marker) && Strip(ReadFile(t, marker).value) == commit then (t, None)
    else
      var removed := if Exists(t, dir) then RemoveTree(t, dir) else Ok(t);
      if removed.Err? then (t, Some(Fs(removed.error)))
      else
        var cloned := clone(removed.value, url, commit, dir);
        if !cloned.1 then (cloned.0, Some(CommandFailed(dir)))
        else
          var ran := if withScript && Exists(cloned.0, dir + [INSTALL_SCRIPT]) then script(cloned.0, dir) else (cloned.0, true);
          if !ran.1 then (ran.0, Some(CommandFailed(dir)))
          else match WriteFile(ran.0, marker, commit)
            case Err(e) => (ran.0, Some(Fs(e)))
            case Ok(t') => (t', None)
  }

  /** `url.split("/")[-1].split(".")[0]`: the repository's name without its suffix. */
  function ModuleDirName(url: string): (r: string)
    ensures '/' !in r && '.' !in r
  {
    var segments := Split(url, '/');
    var parts := Split(segments[|segments| - 1], '.');
    SplitKeepsAbsent(segments[|segments| - 1], '.', '/');
    parts[0]
  }

  /** `workspace / "custom_nodes" / directory`; joining an empty name adds no component. */
  function ModuleDir(workspace: Path, url: string): Path {
    var name := ModuleDirName(url);
    workspace + [CUSTOM_NODES] + (if name == "" then [] else [name])
  }

  /** The loop of `install_custom_modules` over `nodes`, stopping at the first error. */
  function ModulesRun(t: Tree, workspace: Path, nodes: seq<CustomNode>, clone: Clone, script: Script): (Tree, Option<InstallError>)
    decreases |nodes|
  {
    if nodes == [] then (t, None)
    else
      var before := ModulesRun(t, workspace, nodes[..|nodes| - 1], clone, script);
      var m := nodes[|nodes| - 1];
      if before.1.Some? then before
      else InstallRun(before.0, ModuleDir(workspace, m.url), m.url, m.commitHash, true, clone, script)
  }

  /** Whether the marker in `dir` already records `commit`. */
  predicate Installed(t: Tree, dir: Path, commit: string) {
    Exists(t, dir) && ReadFile(t, dir + [DONE]).Ok? && Strip(ReadFile(t, dir + [DONE]).value) == commit
  }

  /** The install of one directory into the disk, as `InstallRun`. */
  method InstallAt(disk: Disk, dir: Path, url: string, commit: string, withScript: bool, clone: Clone, script: Script) returns (e: Option<InstallError>)
    modifies disk
    ensures (disk.tree, e) == InstallRun(old(disk.tree), dir, url, commit, withScript, clone, script)
  {
    var marker := dir + [DONE];
    if Exists(disk.tree, dir) {
      if Exists(disk.tree, marker) {
        var content := ReadFile(disk.tree, marker);
        if content.Err? {
          return Some(Fs(content.error));
        }
        if Strip(content.value) == commit {
          return None;
        }
      }
      var removed := RemoveTree(disk.tree, dir);
      if removed.Err? {
        return Some(Fs(removed.error));
      }
      disk.tree := removed.value;
    }
    var cloned := clone(disk.tree, url, commit, dir);
    disk.tree := cloned.0;
    if !cloned.1 {
      return Some(CommandFailed(dir));
    }
    if withScript && Exists(disk.tree, dir + [INSTALL_SCRIPT]) {
      var ran := script(disk.tree, dir);
      disk.tree := ran.0;
      if !ran.1 {
        return Some(CommandFailed(dir));
      }
    }
    var written := WriteFile(disk.tree, marker, commit);
    if written.Err? {
      return Some(Fs(written.error));
    }
    disk.tree := written.value;
    return None;
  }

  /** `install_comfyui(snapshot, workspace)` with `snapshot["comfyui"] == commit`. */
  method InstallComfyUI(disk: Disk, workspace: Path, commit: string, clone: Clone, script: Script) returns (e: Option<InstallError>)
    modifies disk
    ensures (disk.tree, e) == InstallRun(old(disk.tree), workspace, COMFYUI_REPO, commit, false, clone, script)
  {
    e := InstallAt(disk, workspace, COMFYUI_REPO, commit, false, clone, script);
  }

  /** `install_custom_modules(snapshot, workspace)` with `snapshot["custom_nodes"] == nodes`. */
  method InstallCustomModules(disk: Disk, workspace: Path, nodes: seq<CustomNode>, clone: Clone, script: Script) returns (e: Option<InstallError>)
    modifies disk
    ensures (disk.tree, e) == ModulesRun(old(disk.tree), workspace, nodes, clone, script)
  {
    ghost var t0 := disk.tree;
    for i := 0 to |nodes|
      invariant ModulesRun(t0, workspace, nodes[..i], clone, script) == (disk.tree, None)
    {
      assert nodes[..i + 1][..i] == nodes[..i];
      var m := nodes[i];
      var r := InstallAt(disk, ModuleDir(workspace, m.url), m.url, m.commitHash, true, clone, script);
      if r.Some? {
        ModulesFails(t0, workspace, nodes, i + 1, clone, script);
        return r;
      }
    }
    assert nodes[..|nodes|] == nodes;
    return None;
  }

  // ---------------------------------------------------------------------
  // Properties

  /** A directory whose marker records the commit is left as it is. */
  lemma AlreadyInstalledNoOp(t: Tree, dir: Path, url: string, commit: string, withScript: bool, clone: Clone, script: Script)
    requires Installed(t, dir, commit)
    ensures InstallRun(t, dir, url, commit, withScript, clone, script) == (t, None)
  {
  }

  /** Whenever the install succeeds, the marker afterwards records the commit (up to surrounding white space). */
  lemma InstallRecordsCommit(t: Tree, dir: Path, url: string, commit: string, withScript: bool, clone: Clone, script: Script)
    requires InstallRun(t, dir, url, commit, withScript, clone, script).1.None?
    ensures var t' := InstallRun(t, dir, url, commit, withScript, clone, script).0;
      ReadFile(t', dir + [DONE]).Ok? && Strip(ReadFile(t', dir + [DONE]).value) == Strip(commit)
  {
    var marker := dir + [DONE];
    if Installed(t, dir, commit) {
      StripIdempotent(ReadFile(t, marker).value);
    } else {
      var removed := if Exists(t, dir) then RemoveTree(t, dir) else Ok(t);
      var cloned := clone(removed.value, url, commit, dir);
      var ran := if withScript && Exists(cloned.0, dir + [INSTALL_SCRIPT]) then script(cloned.0, dir) else (cloned.0, true);
      WriteThenRead(ran.0, marker, commit);
    }
  }

  /**
   * Installing again after a successful install does nothing, as long as
   * the directory is still there and the commit has no surrounding white
   * space (a commit that has some is cloned afresh every time).
   */
  lemma InstallIdempotent(t: Tree, dir: Path, url: string, commit: string, withScript: bool, clone: Clone, script: Script)
    requires InstallRun(t, dir, url, commit, withScript, clone, script).1.None?
    requires Strip(commit) == commit
    requires Exists(InstallRun(t, dir, url, commit, withScript, clone, script).0, dir)
    ensures var t' := InstallRun(t, dir, url, commit, withScript, clone, script).0;
      InstallRun(t', dir, url, commit, withScript, clone, script) == (t', None)
  {
    InstallRecordsCommit(t, dir, url, commit, withScript, clone, script);
  }

  /**
   * A directory that is not installed is reinstalled: an existing directory
   * is removed with everything under it, the repository is cloned into the
   * emptied tree, the install script runs when asked for and present, and
   * the marker written last holds the commit.
   */
  lemma NotInstalledClones(t: Tree, dir: Path, url: string, commit: string, withScript: bool, clone: Clone, script: Script)
    requires !Installed(t, dir, commit)
    requires !(Exists(t, dir) && Exists(t, dir + [DONE]) && ReadFile(t, dir + [DONE]).Err?)
    requires InstallRun(t, dir, url, commit, withScript, clone, script).1.None?
    ensures Exists(t, dir) ==> RemoveTree(t, dir).Ok?
    ensures var removed := if Exists(t, dir) then RemoveTree(t, dir).value else t;
      var cloned := clone(removed, url, commit, dir);
      var ran := if withScript && Exists(cloned.0, dir + [INSTALL_SCRIPT]) then script(cloned.0, dir) else (cloned.0, true);
      && (Exists(t, dir) ==> forall q :: q in removed ==> q in t && !IsPrefix(dir, q))
      && cloned.1 && ran.1
      && WriteFile(ran.0, dir + [DONE], commit).Ok?
      && InstallRun(t, dir, url, commit, withScript, clone, script).0 == WriteFile(ran.0, dir + [DONE], commit).value
    ensures ReadFile(InstallRun(t, dir, url, commit, withScript, clone, script).0, dir + [DONE]) == Ok(commit)
  {
    var removed := if Exists(t, dir) then RemoveTree(t, dir) else Ok(t);
    var cloned := clone(removed.value, url, commit, dir);
    var ran := if withScript && Exists(cloned.0, dir + [INSTALL_SCRIPT]) then script(cloned.0, dir) else (cloned.0, true);
    WriteThenRead(ran.0, dir + [DONE], commit);
  }

  /** A marker that cannot be read (a directory named `.DONE`) raises before anything is removed. */
  lemma UnreadableMarkerFails(t: Tree, dir: Path, url: string, commit: string, withScript: bool, clone: Clone, script: Script)
    requires Exists(t, dir) && Exists(t, dir + [DONE]) && !IsFile(t, dir + [DONE])
    ensures InstallRun(t, dir, url, commit, withScript, clone, script).0 == t
    ensures InstallRun(t, dir, url, commit, withScript, clone, script).1.Some?
  {
  }

  /** The directory of a repository URL `.../name` or `.../name.suffix` is `name`. */
  lemma ModuleDirNameOfUrl(base: string, name: string, suffix: string)
    requires '/' !in name && '.' !in name
    requires '/' !in suffix && (suffix == [] || suffix[0] == '.')
    ensures ModuleDirName(base + "/" + name + suffix) == name
  {
    var url := base + "/" + name + suffix;
    assert url == base + ['/'] + (name + suffix);
    SplitAround(base, '/', name + suffix);
    var segments := Split(url, '/');
    assert segments[|segments| - 1] == name + suffix;
    if suffix == [] {
      assert name + suffix == name;
    } else {
      assert name + suffix == name + ['.'] + suffix[1..];
      SplitAround(name, '.', suffix[1..]);
    }
  }

  /**
   * A URL that ends in `/` names no repository: its module directory is
   * `custom_nodes` itself, which an install then removes and clones into.
   */
  lemma TrailingSlashModuleDir(workspace: Path, base: string)
    ensures ModuleDir(workspace, base + "/") == workspace + [CUSTOM_NODES]
  {
    assert base + "/" == base + ['/'] + [];
    SplitAround(base, '/', []);
  }

  /** A failure at module `k - 1` is the result of the whole loop. */
  lemma {:induction false} ModulesFails(t: Tree, workspace: Path, nodes: seq<CustomNode>, k: nat, clone: Clone, script: Script)
    requires k <= |nodes| && ModulesRun(t, workspace, nodes[..k], clone, script).1.Some?
    ensures ModulesRun(t, workspace, nodes, clone, script) == ModulesRun(t, workspace, nodes[..k], clone, script)
    decreases |nodes| - k
  {
    if k < |nodes| {
      assert nodes[..|nodes| - 1][..k] == nodes[..k];
      ModulesFails(t, workspace, nodes[..|nodes| - 1], k, clone, script);
    } else {
      assert nodes[..k] == nodes;
    }
  }

  /** When every custom node is already installed at its commit, the loop changes nothing. */
  lemma {:induction false} AllInstalledNoOp(t: Tree, workspace: Path, nodes: seq<CustomNode>, clone: Clone, script: Script)
    requires forall i :: 0 <= i < |nodes| ==> Installed(t, ModuleDir(workspace, nodes[i].url), nodes[i].commitHash)
    ensures ModulesRun(t, workspace, nodes, clone, script) == (t, None)
    decreases |nodes|
  {
    if nodes != [] {
      var pre := nodes[..|nodes| - 1];
      assert forall i :: 0 <= i < |pre| ==> pre[i] == nodes[i];
      AllInstalledNoOp(t, workspace, pre, clone, script);
      var m := nodes[|nodes| - 1];
      AlreadyInstalledNoOp(t, ModuleDir(workspace, m.url), m.url, m.commitHash, true, clone, script);
    }
  }
}
