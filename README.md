# comfy-pack core, modelled in Dafny

comfy-pack turns a ComfyUI workflow, saved in API format, into a service
template. This project models the main pieces of comfy-pack in Dafny:

- **The workflow template engine** (`src/comfy_pack/utils.py`):
  - `_parse_workflow` stamps every node with its id. It builds the reverse
    link map, then sorts the `CPackInput*` and `CPackOutput*` nodes into two
    ordered dictionaries under identifier-like names.
  - `generate_input_model` derives one field per input node.
  - `populate_workflow` fills argument values into the workflow and points
    each output node at `output_path/<session><id>_`.
  - `retrieve_workflow_outputs` finds the files those outputs produced.
- **The model store** (`src/comfy_pack/package.py`):
  - `create_model_symlink` links a workspace file to the content-addressed
    model store.
  - `retrive_models` makes the per-model decision: adopt the workspace
    file, link a cache hit, skip, or ask for the model. It also runs the
    interactive acquire-verify-retry loop.
  - `get_google_search_url` builds the two search URLs.
- **The installers** (`src/comfy_pack/package.py`): `install_comfyui` and
  `install_custom_modules` use a `.DONE` marker that records the installed
  commit.
- **The custom nodes' logic** (`nodes/nodes.py`):
  - `SelectionInput.process` and `SelectionInput.VALIDATE_INPUTS`;
  - the counter search of `get_save_image_path`;
  - the file names `save_images` uses;
  - the destination `OutputPath.save` copies to.

Each part follows the form of its source.

- **Pure code** becomes functions and lemmas. This covers the name
  normalisation, field derivation, option lists, counters and paths.
- **The workflow dictionary that `_parse_workflow` and `populate_workflow`
  update in place** is the `nodes` field of the class `Templates.Workflow`.
  Its methods run the source's loops. Each method is proved equal to a
  specification function in `WorkflowGraph`, `Schema` or `TemplateSpec`, and
  the lemmas there state what the source promises.
- **The file system** is the `tree` field of `FileSystem.Disk`: a map from
  absolute paths to files, symbolic links and directories. The installers and
  the model store update it through methods that are proved against
  `InstallRun`, `LinkRun`, `AcquireRun` and `RetrieveRun`.

Python's insertion-ordered `dict` is an association list (`PyDict`). JSON
values are a datatype (`Json`), and dictionary keys compare as Python does
(`0 == 0.0 == False`). The few `str`, `os.path` and `pathlib` operations the
source uses are written out in `PyStr` and `PosixPath`.

Work done outside Python becomes a parameter of the model:

- SHA-256, the lines the user types, the download, what a typed local path
  resolves to, the git commands and a custom node's `install.py`;
- the listing of a directory (`Option<seq<string>>`, where `None` means that
  the directory does not exist).

Three points where the model follows the code as written rather than its
apparent intent:

- **Output name collisions.** `_parse_workflow` tests an output node's name
  against the *inputs* (utils.py:94), so two outputs with the same name
  replace each other.
- **Session id in retrieval.** When there is not exactly one output,
  `retrieve_workflow_outputs` globs `{node_id}_*` without the session id
  (utils.py:221), although `populate_workflow` wrote `{session_id}{node_id}_`.
- **Trailing slash in the module directory.** `install_custom_modules` takes
  the directory name from the last `/`-separated piece of the URL, so a URL
  ending in `/` installs into `custom_nodes` itself.

## Model

| member | source | states |
|---|---|---|
| Identifiers.ReplaceNonWord | src/comfy_pack/utils.py:36 | keeps every ASCII letter, digit and `_`, and turns every other character into `_`, position by position |
| Identifiers.CollapseUnderscores | src/comfy_pack/utils.py:41 | leaves no two adjacent underscores, keeps the first character, adds no new character, and changes nothing in a string that has no run of underscores |
| Identifiers.NormalizeWellFormed | src/comfy_pack/utils.py:32-44 | `_normalize_to_identifier` always returns a non-empty string of lower-case letters, digits and single underscores that neither starts nor ends with `_` (unless it is `_` itself) |
| Identifiers.NormalizeIdempotent | src/comfy_pack/utils.py:32-44 | normalising a normalised name changes nothing |
| Identifiers.NormalizeKeepsLeadingDigit | src/comfy_pack/utils.py:38-42 | the `_` put before a leading digit is stripped again, so the result starts with that digit and is not an identifier |
| Json.KeyOf | src/comfy_pack/utils.py:83 | the dictionary key of a hashable link element is numeric exactly when the element is a number |
| Json.KeyOfIsEquality | src/comfy_pack/utils.py:83 | two hashable values are the same dictionary key exactly when Python's `==` holds between them |
| PyDict.Get | src/comfy_pack/utils.py:181 | a lookup succeeds exactly when the key is present, and on distinct keys it yields that key's value |
| PyDict.PutGet | src/comfy_pack/utils.py:91 | after `d[k] = v`, looking up `k` gives `v` and every other key is unchanged |
| PyDict.PutKeys | src/comfy_pack/utils.py:96 | assigning an existing key keeps the key order; a new key is appended at the end |
| PyDict.PutAllLastWins | src/comfy_pack/utils.py:80-83 | after a run of assignments, a key maps to the value of its last assignment |
| WorkflowGraph.InputLinksSound | src/comfy_pack/utils.py:81-83 | every entry the inner link loop adds comes from an input of that node whose value is a two-element list, keyed by that list |
| WorkflowGraph.DepMapKeys | src/comfy_pack/utils.py:80-83 | the link map has a key exactly when some input of some node links with it |
| WorkflowGraph.DepMapLastWins | src/comfy_pack/utils.py:80-83 | when several inputs link with the same key, the link map keeps the last of them in workflow order |
| WorkflowGraph.NodeIdentifierPrecedence | src/comfy_pack/utils.py:47-59 | an identifier title is the name; otherwise the normalised name of the input linked from slot `(id, 0)` when the link map has it; otherwise the normalised title; it never fails on a node with a title and an id |
| WorkflowGraph.NodeIdentifierShape | src/comfy_pack/utils.py:47-59 | every node name is an identifier or a well-formed normalised name |
| WorkflowGraph.StepShape | src/comfy_pack/utils.py:85-96 | one sorting step adds the stamped node to the inputs when its class starts with `CPackInput`, to the outputs when it starts with `CPackOutput`, and keeps the dictionaries equal to the assignments so far |
| WorkflowGraph.StepInput | src/comfy_pack/utils.py:87-91 | an input node is added to the inputs and leaves the outputs untouched |
| WorkflowGraph.StepOutput | src/comfy_pack/utils.py:92-96 | an output node is added to the outputs and leaves the inputs untouched |
| WorkflowGraph.SortAllShape | src/comfy_pack/utils.py:85-96 | a successful sort assigns exactly the input-class nodes to the inputs and the output-class nodes to the outputs, in workflow order |
| WorkflowGraph.SortAllFails | src/comfy_pack/utils.py:85-96 | an error at some node ends the sort there, and nodes after it are never stamped |
| WorkflowGraph.ParseStampsAll | src/comfy_pack/utils.py:86 | a successful parse stamps every node with its own key as `id` |
| WorkflowGraph.ParseRejectsLegacy | src/comfy_pack/utils.py:77-78 | a workflow with `last_node_id` is refused before any node is changed |
| WorkflowGraph.ParseSorts | src/comfy_pack/utils.py:69-98 | the parsed inputs and outputs have distinct names and hold only input-class (respectively output-class) nodes stamped from the workflow |
| WorkflowGraph.ParseKeepsLast | src/comfy_pack/utils.py:89-96 | the node a name finally maps to is the last node assigned that name |
| WorkflowGraph.InputCollisionSuffixed | src/comfy_pack/utils.py:88-91 | an input whose name is taken is stored as `name_id`, and the earlier input keeps the name |
| WorkflowGraph.OutputCollisionReplaces | src/comfy_pack/utils.py:93-96 | an output whose name is not an input name but is another output's replaces that output in its position |
| WorkflowGraph.StampFirst | src/comfy_pack/utils.py:86 | stamping changes no key and no length of the workflow |
| Schema.Elements | src/comfy_pack/utils.py:138 | `tuple(values)` succeeds exactly on a list, a string or an object, and a list gives its items |
| Schema.NodeValue | src/comfy_pack/utils.py:21-22 | the first input value exists exactly when the node has an input |
| Schema.PathFieldExactly | src/comfy_pack/utils.py:129-130 | a node gets a path field exactly when it is a file or image input |
| Schema.UnsupportedExactly | src/comfy_pack/utils.py:153-154 | the unsupported-class error is raised exactly for a class that is neither a path input nor `CPackInputValue` |
| Schema.DefaultIsNodeValue | src/comfy_pack/utils.py:131-152 | every value field has the node's first input value as its default |
| Schema.NoOptionsTyped | src/comfy_pack/utils.py:134-135 | without truthy options, the field has the type of the value |
| Schema.ChoiceFromValues | src/comfy_pack/utils.py:137-138 | a choice field arises exactly from truthy `values` that can be made a tuple, and a list gives its items as the choices |
| Schema.NumberKind | src/comfy_pack/utils.py:139-150 | with a number option, the field is a float exactly when `round` is below 1, an int when `round` is absent, and an error when `round` is not a number; `min` and `max` are the bounds |
| Schema.StepWithoutRoundIsInt | src/comfy_pack/utils.py:142 | `step` alone makes an int field, bounded by `min` and `max` |
| Schema.InputFieldsOk | src/comfy_pack/utils.py:127-155 | the field loop succeeds exactly when every input node has a field |
| Schema.InputFieldsFails | src/comfy_pack/utils.py:127-155 | the first node without a field ends the loop with its error |
| Schema.InputFieldsShape | src/comfy_pack/utils.py:127-155 | on success there is one field per input, in order, under the input's name |
| TemplateSpec.SetThenGet | src/comfy_pack/utils.py:25-29 | setting a node's value replaces its first input alone, and reading the value back gives what was set |
| TemplateSpec.OutputPrefixShape | src/comfy_pack/utils.py:189-191 | the prefix written into an output node is the output path, `/`, the session id, the node id and `_` |
| TemplateSpec.InputModelShape | src/comfy_pack/utils.py:108-156 | the input model has a field for each parsed input, in order, and exists exactly when every parsed input has a field |
| TemplateSpec.ApplyArgFrame | src/comfy_pack/utils.py:180-184 | setting one argument changes no key of the workflow and no node other than its target |
| TemplateSpec.ApplyArgsFrame | src/comfy_pack/utils.py:180-184 | the argument loop leaves every node that no argument targets untouched |
| TemplateSpec.ApplyArgSets | src/comfy_pack/utils.py:181-184 | a successful argument leaves the node it targets as it was, except that the value of its first input is the argument |
| TemplateSpec.ApplyArgsFirstOnly | src/comfy_pack/utils.py:180-184 | the argument loop, succeeding or not, changes any node at most in the value of its first input |
| TemplateSpec.ApplyArgsSets | src/comfy_pack/utils.py:180-184 | after the loop, the node the last argument for it targets is the node before the loop with that argument as the value of its first input, and nothing else changed |
| TemplateSpec.ApplyArgsInputsOnly | src/comfy_pack/utils.py:181-184 | over an input spec of input nodes only, the loop never raises "is not an input node" |
| TemplateSpec.UnknownArgFails | src/comfy_pack/utils.py:181 | an argument whose name is no input name makes the loop fail |
| TemplateSpec.ApplyArgsStop | src/comfy_pack/utils.py:180-184 | the first failing argument ends the loop with the workflow as it was then |
| TemplateSpec.ApplyOutputFrame | src/comfy_pack/utils.py:186-191 | redirecting one output changes no key of the workflow and no other node |
| TemplateSpec.ApplyOutputsFrame | src/comfy_pack/utils.py:186-191 | the output loop leaves every node that is not a redirected output untouched |
| TemplateSpec.ApplyOutputSets | src/comfy_pack/utils.py:187-191 | an output node of a saving class succeeds and is the node before with `filename_prefix` set to its output prefix, nothing else changed |
| TemplateSpec.ApplyOutputsPrefixOnly | src/comfy_pack/utils.py:186-191 | the output loop, succeeding or not, leaves a node as it was or sets only its own `filename_prefix` |
| TemplateSpec.ApplyOutputsErrors | src/comfy_pack/utils.py:186-191 | the output loop fails only on a missing `id` or node |
| TemplateSpec.ApplyOutputsSets | src/comfy_pack/utils.py:186-191 | after the loop, every saving output node is the node before the loop with `filename_prefix` set to its output prefix, nothing else changed, also when its id occurs again |
| TemplateSpec.ApplyOutputsStop | src/comfy_pack/utils.py:186-191 | an error ends the output loop with the workflow as it was then |
| TemplateSpec.PopulateRunState | src/comfy_pack/utils.py:179-192 | the populated workflow is the stamped workflow with the arguments applied and then, unless they failed, the outputs redirected |
| TemplateSpec.PopulateFrame | src/comfy_pack/utils.py:179-192 | population changes no key and leaves every node that is neither targeted nor redirected as parsing stamped it |
| TemplateSpec.PopulateSetsArg | src/comfy_pack/utils.py:180-184 | in a populated workflow, the node an argument targets is the parsed (id-stamped) node with the argument as the value of its first input and nothing else changed, when no later argument targets it and it is not redirected |
| TemplateSpec.PopulateRedirects | src/comfy_pack/utils.py:186-191 | in a populated workflow, every parsed saving output node is the node the arguments left with `filename_prefix` set to its output prefix and nothing else changed; when no argument targets it, that is the parsed (id-stamped) node |
| TemplateSpec.PopulateNeverNotInputNode | src/comfy_pack/utils.py:182-183 | population never raises "is not an input node" |
| TemplateSpec.PopulateReturnsSame | src/comfy_pack/utils.py:192 | `populate_workflow` returns the very workflow it changed |
| TemplateSpec.PopulateUnknownFails | src/comfy_pack/utils.py:181 | an argument with no matching input makes population fail |
| TemplateSpec.Matches | src/comfy_pack/utils.py:221 | the glob keeps exactly the listed names that start with the prefix |
| TemplateSpec.Collect | src/comfy_pack/utils.py:222-225 | a single match is returned alone, and otherwise all the matches are returned as a list |
| TemplateSpec.CollectAllFails | src/comfy_pack/utils.py:219-220 | an output without an id ends the loop with that error |
| TemplateSpec.CollectAllShape | src/comfy_pack/utils.py:218-226 | with distinct names and stamped ids, the loop maps every output's name, in order, to the files starting with its id and `_` |
| TemplateSpec.ParsedOutputsStamped | src/comfy_pack/utils.py:86-96 | the parsed outputs have distinct names and all carry an id |
| TemplateSpec.RetrieveShape | src/comfy_pack/utils.py:216-236 | for one output, a non-saving class is an error and a saving one gives its files under the session prefix; otherwise there is one entry per output, globbed without the session id |
| Templates.AddLinks | src/comfy_pack/utils.py:81-83 | the inner link loop adds this node's links to the map, or fails with the unhashable-link error when some link holds a list or an object |
| Templates.SortNode | src/comfy_pack/utils.py:86-96 | one iteration of the sorting loop computes the next inputs and outputs, or the error of the sorting step |
| Templates.InputModelFields | src/comfy_pack/utils.py:126-155 | the field loop returns the specified fields or the first node's error |
| Templates.CollectOutputs | src/comfy_pack/utils.py:218-226 | the output loop returns the specified name-to-files map |
| Templates.Workflow.constructor | src/comfy_pack/utils.py:69 | the workflow holds the given nodes |
| Templates.Workflow.LinkMap | src/comfy_pack/utils.py:80-83 | the link loop returns the link map of the workflow, or the unhashable-link error |
| Templates.Workflow.Parse | src/comfy_pack/utils.py:69-105 | parsing returns the specified inputs and outputs, and leaves the nodes stamped with their ids up to the point where it stopped |
| Templates.Workflow.GenerateInputModel | src/comfy_pack/utils.py:108-156 | returns the specified input model, stamping the nodes as parsing does |
| Templates.Workflow.Populate | src/comfy_pack/utils.py:159-192 | the new nodes and the result are those specified by `PopulateRun` |
| Templates.Workflow.SetArgs | src/comfy_pack/utils.py:180-184 | the argument loop leaves the state `ApplyArgs` specifies |
| Templates.Workflow.SetArg | src/comfy_pack/utils.py:181-184 | one argument leaves the state `ApplyArg` specifies |
| Templates.Workflow.Redirect | src/comfy_pack/utils.py:186-191 | the output loop leaves the state `ApplyOutputs` specifies |
| Templates.Workflow.RedirectOne | src/comfy_pack/utils.py:187-191 | one output leaves the state `ApplyOutput` specifies |
| Templates.Workflow.RetrieveOutputs | src/comfy_pack/utils.py:195-236 | returns the specified outputs, stamping the nodes as parsing does |
| PosixPath.AfterLastSlash | nodes/nodes.py:48 | the split point is just after the last `/`, with no `/` after it |
| PosixPath.Basename | nodes/nodes.py:53 | a base name holds no `/` |
| PosixPath.SplitRecombines | nodes/nodes.py:48 | head and tail of `os.path.split` put together give the path back, and a path without `/` has an empty head |
| PosixPath.JoinSplits | nodes/nodes.py:54 | joining a directory and a simple name splits back into that directory and that name |
| PosixPath.JoinRootSplits | nodes/nodes.py:54 | joining a root made only of slashes and a simple name gives back that root as the directory |
| PosixPath.NormPathNonEmpty | nodes/nodes.py:74-75 | `normpath` never returns the empty string |
| PosixPath.NormCompsClean | nodes/nodes.py:74-75 | normalised components are never empty or `.` and hold no `/`, and a rooted path keeps no `..` |
| PosixPath.Parse | src/comfy_pack/utils.py:190 | a parsed `PurePath` has only clean parts |
| PosixPath.Div | src/comfy_pack/utils.py:190 | `/` on a well-formed path gives a well-formed path |
| PosixPath.DivName | src/comfy_pack/utils.py:190-191 | `/` with a simple name appends it as one part, and `as_posix` shows it after a `/` |
| PyStr.Split | nodes/nodes.py:294 | `split` returns at least one piece, and no piece holds the separator |
| PyStr.JoinSplit | nodes/nodes.py:294 | joining the pieces of a split with the separator gives the string back |
| PyStr.Strip | nodes/nodes.py:294 | a stripped string neither starts nor ends with white space |
| PyStr.StripIdempotent | nodes/nodes.py:294 | stripping twice is stripping once |
| PyStr.Format05RoundTrip | nodes/nodes.py:69 | `int()` of a counter formatted with `:05` gives the counter back, negative ones included |
| PyStr.LowerUpper | src/comfy_pack/package.py:166 | lower-casing an upper-cased string without capitals restores it |
| PyStr.ReplaceAbsent | nodes/nodes.py:150 | replacing a pattern that does not occur changes nothing |
| ModelCache.SearchUrlsShape | src/comfy_pack/package.py:163-169 | both URLs are the Google search URL for their site followed by the upper-cased digest, which a lower-case digest can be read back from |
| ModelCache.LinkRunShape | src/comfy_pack/package.py:209-221 | a target that exists and is no link is refused with nothing changed; otherwise no other entry changes, only parent directories are added, and on success the target is a link to `store/sha` inside a directory |
| ModelCache.CreateModelSymlink | src/comfy_pack/package.py:209-221 | the disk and the error after it are those specified by `LinkRun` |
| ModelCache.LinkRunKeeps | src/comfy_pack/package.py:209-221 | linking never touches an entry other than its target |
| ModelCache.DownloadShape | src/comfy_pack/package.py:172-197 | a download changes only its destination; a broken download leaves no file there, and a complete one leaves the body |
| ModelCache.Acquire | src/comfy_pack/package.py:263-322 | the disk, the next input line and the way the loop ended are those specified by `AcquireRun` |
| ModelCache.AttemptKeepsVerified | src/comfy_pack/package.py:268-319 | one attempt never leaves a store file whose digest is wrong, and the model counts as installed only when its link is in place |
| ModelCache.AcquireKeepsVerified | src/comfy_pack/package.py:263-322 | the whole loop keeps the store file verified, and an installed model has a store file with the right digest and a workspace link to it |
| ModelCache.BadDownloadNoStore | src/comfy_pack/package.py:270-293 | a failed or mismatching download leaves no store file and does not end the loop |
| ModelCache.BadLocalFileNoWrite | src/comfy_pack/package.py:296-310 | a missing or mismatching local file changes nothing and does not end the loop |
| ModelCache.RetrieveModels | src/comfy_pack/package.py:224-322 | the disk, the next input line and the error are those specified by `RetrieveRun` |
| ModelCache.NoModelsNoChange | src/comfy_pack/package.py:231-233 | with no models, nothing is created and no input is read |
| ModelCache.AdoptWorkspaceFile | src/comfy_pack/package.py:241-245 | a workspace file that is not yet in the store is moved into it and replaced by a link to it, without reading input |
| ModelCache.WorkspaceKept | src/comfy_pack/package.py:241-245 | an existing workspace entry that is not a file, or whose model is already stored, is left alone |
| ModelCache.CacheHitLinks | src/comfy_pack/package.py:247-250 | a stored model missing from the workspace is linked regardless of `disabled` and `download`, without reading input |
| ModelCache.SkipUnavailable | src/comfy_pack/package.py:252-256 | a disabled model, or any model when downloads are off, that is neither present nor stored is skipped without change |
| ModelCache.EntriesFails | src/comfy_pack/package.py:237-322 | the first error ends the loop over models |
| ModelCache.EntriesLinked | src/comfy_pack/package.py:237-250 | when every model is already linked to its store file, the loop changes nothing |
| ModelCache.RerunNoWrites | src/comfy_pack/package.py:231-256 | running again over a linked workspace with an existing store changes nothing and reads no input |
| Install.InstallAt | src/comfy_pack/package.py:47-56 | the disk and the error after one install are those specified by `InstallRun` |
| Install.InstallComfyUI | src/comfy_pack/package.py:44-56 | installs the ComfyUI repository at the commit, without a setup script |
| Install.InstallCustomModules | src/comfy_pack/package.py:59-94 | the disk and the error after the module loop are those specified by `ModulesRun` |
| Install.AlreadyInstalledNoOp | src/comfy_pack/package.py:47-52 | a marker that records the commit, after stripping, means nothing is done |
| Install.InstallRecordsCommit | src/comfy_pack/package.py:53-56 | a successful install leaves a marker that records the commit |
| Install.InstallIdempotent | src/comfy_pack/package.py:47-56 | installing the same stripped commit again changes nothing |
| Install.NotInstalledClones | src/comfy_pack/package.py:66-94 | a directory not yet installed at the commit is, on success, removed with everything under it, cloned into the emptied tree, given its install script when asked for and present, and then marked: the resulting tree is the marker written over that, and the marker holds exactly the commit |
| Install.UnreadableMarkerFails | src/comfy_pack/package.py:48-49 | a marker that exists but is no file makes `read_text` fail before anything is removed |
| Install.ModuleDirName | src/comfy_pack/package.py:63 | the module directory name holds no `/` and no `.` |
| Install.ModuleDirNameOfUrl | src/comfy_pack/package.py:63 | a URL `…/name.git` installs into the directory `name` |
| Install.TrailingSlashModuleDir | src/comfy_pack/package.py:63-64 | a URL ending in `/` gives `custom_nodes` itself as the module directory |
| Install.ModulesFails | src/comfy_pack/package.py:61-94 | the first failing module ends the loop |
| Install.AllInstalledNoOp | src/comfy_pack/package.py:61-71 | when every module is installed at its commit, the loop changes nothing |
| FileSystem.Unlink | src/comfy_pack/package.py:216 | `unlink` succeeds exactly on a file or a link, and removes that entry alone |
| FileSystem.Symlink | src/comfy_pack/package.py:221 | `os.symlink` succeeds exactly on a free path in an existing directory, and adds the link alone |
| FileSystem.ReadFile | src/comfy_pack/package.py:49 | `read_text` succeeds exactly on a path that names a file |
| FileSystem.Move | src/comfy_pack/package.py:243 | `shutil.move` renames the entry itself, replacing the destination |
| FileSystem.RemoveTree | src/comfy_pack/package.py:53 | `rmtree` removes exactly the directory and everything below it |
| FileSystem.WriteThenRead | src/comfy_pack/package.py:55-56 | what is written reads back through the same path, and no other entry changes |
| FileSystem.MakeDirsOnlyAdds | src/comfy_pack/package.py:220 | `mkdir(parents=True, exist_ok=True)` only adds directories on the path, and changes nothing that was there |
| FileSystem.MakeDirsExisting | src/comfy_pack/package.py:235 | creating an existing directory changes nothing |
| FileSystem.MakeDirsMakesDir | src/comfy_pack/package.py:220 | a successful `mkdir` leaves a directory at the path |
| FileSystem.Disk.constructor | src/comfy_pack/package.py:224-229 | the disk starts with the given tree |
| Nodes.OptionsList | nodes/nodes.py:294 | the option list holds no empty option |
| Nodes.OptionsListMembers | nodes/nodes.py:294 | a string is an option exactly when it is the non-empty stripped form of some line |
| Nodes.IndexOf | nodes/nodes.py:301 | `index` gives the first position of the option |
| Nodes.ValidateInputs | nodes/nodes.py:309-315 | validation passes exactly when there are no options or the selection is one of them |
| Nodes.ProcessSelects | nodes/nodes.py:293-307 | no options gives `("", -1)`; otherwise an unknown selection fails, and a known one returns itself with its first position, plus one when `start_index` is `"1"` |
| Nodes.SpacedSelectionInvalid | nodes/nodes.py:294-299 | a selection with surrounding white space never validates against a non-empty option list |
| Nodes.LineValidates | nodes/nodes.py:294-299 | the stripped form of any non-blank line validates |
| Nodes.MaxFirst | nodes/nodes.py:80-87 | the maximum exists exactly for a non-empty list, is one of the counters in it, and bounds them all |
| Nodes.Filter | nodes/nodes.py:82-85 | the filter keeps exactly the mapped names whose prefix is the file name followed by `_` |
| Nodes.GetSaveImagePath | nodes/nodes.py:74-95 | the corrected counter (see Findings): the file name and subfolder are the two halves of the normalised prefix, the folder is the output directory joined with the subfolder, the prefix is returned as given, and the counter is the next number over the listing, matching by the length of the normalised file name |
| Nodes.GetSaveImagePathAsWritten | nodes/nodes.py:65-95 | `get_save_image_path` as written: the same file name, subfolder, folder and prefix as the corrected one, and the counter is the next number over the listing, matching by the length of the base name of the prefix as given |
| Nodes.AsWrittenContinues | nodes/nodes.py:65-95 | when normalising keeps the length of the prefix's base name, the counter as written is the corrected one and continues after a saved batch |
| Nodes.CounterIsNextNumber | nodes/nodes.py:79-94 | the counter is 1 when no listed file is counted (or the folder is missing), and otherwise one more than the largest counted number |
| Nodes.CountedExactly | nodes/nodes.py:65-85 | a listed file is counted exactly when it starts with the file name followed by `_` |
| Nodes.NextSaveContinues | nodes/nodes.py:74-160 | with the corrected counter (see Findings), after a batch of `count` images is saved, the next save's counter is exactly `count` higher |
| Nodes.NextCounterAfterBatch | nodes/nodes.py:79-94 | the counter over a listing extended by a batch from counter `c` is `c + count` |
| Nodes.BatchNamesDistinct | nodes/nodes.py:150-151 | two images of one batch get different file names |
| Nodes.SaveImages | nodes/nodes.py:128-162 | an empty batch fails, and otherwise the results are the batch's names from the counter `get_save_image_path` as written finds |
| Nodes.SaveImagesCorrected | nodes/nodes.py:128-162 | the same over the corrected counter of the Findings table |
| Nodes.SaveBatch | nodes/nodes.py:138-160 | the loop returns one result per image, numbered upwards from the start counter |
| Nodes.SaveDestination | nodes/nodes.py:44-46 | nothing is saved exactly when the prefix is empty |
| Nodes.SaveDestinationSplits | nodes/nodes.py:48-54 | the destination's base name is the prefix's base name followed by the file's base name, in the prefix's directory or else the file's, a root made only of slashes included |
| Nodes.TrailingSlashOverwrites | nodes/nodes.py:65-95 | with prefix `out/` and `out_00001_.png` present, the code as written returns counter 1 for the first image, so that file is overwritten; the corrected definition returns 2 |

## Left out

- Pydantic itself: `generate_input_model` returns a closed union of field kinds (`Schema.FieldKind`) rather than a model class. `Literal`, `Field` and `create_model` are not modelled.
- `str.isidentifier` is modelled on ASCII names: ASCII letters, digits and `_`, not starting with a digit. Non-ASCII identifiers are not recognised.
- Json.KeyOfIsEquality: JSON numbers are exact: an integer is an `int` and a float an exact `real`, where Python's `json` gives IEEE doubles and also accepts `NaN` and `Infinity`. So the model has no double rounding (`1` and `1.0000000000000001` are equal keys in Python and different ones here) and no `NaN` or infinite value. The same holds for `Schema.NumberKind`, whose `round < 1` test (utils.py:142) compares exact values: `0.99999999999999999` is a float field here and an int field in Python, where it reads as `1.0`.
- Python truthiness of options and `values` is modelled for JSON values. Comparing a non-number `round` with 1 is the error `NotComparable`.
- `_get_node_identifier` needs `_meta`, its `title` and, for a title that is not an identifier, the stamped `id`. A missing one is a `KeyError` error value (`MissingKey`). A node always has `class_type` and `inputs` in the model (`WorkflowGraph.Node`), so the `KeyError`s of a node without them (utils.py:81, utils.py:87, utils.py:128) are not modelled, nor are other `KeyError`s on malformed nodes.
- `retrieve_workflow_outputs` and `get_save_image_path` list directories through a parameter. `glob` is modelled as a prefix match over the names in the output folder; the order of `glob` and `listdir` is the given order. `os.path.normcase` is the identity, as on POSIX.
- The defensive check at utils.py:182-183 is modelled as a branch of `TemplateSpec.ApplyArg` and `Templates.Workflow.SetArg`. It is never taken, because the parsed inputs hold only `CPackInput*` nodes (`TemplateSpec.PopulateNeverNotInputNode`).
- `get_sha256`, `input()`, `urllib` downloads and the thread that runs them are oracles (`ModelCache.Oracles`). Progress output and `print` are left out.
- The git commands of `_clone_commit` and a custom node's `install.py` are the oracles `Install.Clone` and `Install.Script`.
- `install_dependencies`, `install`, the `.venv` choice of interpreter, and the `MODEL_DIR` and `CPACK_HOME` setup in const.py are not part of this model. The store directory is a parameter.
- File-system errors other than those `FsError` names are not modelled: permissions, full disks, and `listdir` failures other than a missing folder.
- Symbolic links are followed only in the last component of a path.
- `get_save_image_path` does not model the `os.makedirs` of a missing output folder. `OutputPath.save` does not model its `os.makedirs` and `shutil.copy2`: `Nodes.SaveDestination` gives the destination only.
- The tensor, NumPy and PIL code of `save_images` and the PNG metadata are left out. A batch is its number of images.
- api.py, service.py, setup_workspace.py, run.py and the rest of package.py (packing, the BentoML service, the ComfyUI server) are not part of this model.
- Nodes.BatchNamesDistinct: assumes the file name holds no `%batch_num%`, because with `%batch_num%` the names depend on how the batch number's digits meet the counter.
- Nodes.NextSaveContinues: assumes the normalised file name holds no `%batch_num%`, for the same reason.
- Install.InstallIdempotent: assumes a commit without surrounding white space. For any other commit the stripped marker never equals it, so the source re-installs every time.
- PyStr.LowerUpper: `Lower` and `Upper` map the ASCII letters only. Python's `str.lower` and `str.upper` use the full Unicode case mapping (`"ß".upper()` is `"SS"`, the Kelvin sign lower-cases to `k`), which the model does not have. A SHA-256 hex digest is ASCII, so the digests this serves are mapped as in Python.
- ModelCache.SearchUrlsShape: the digest is upper-cased with the ASCII mapping of `PyStr.Upper`. For a non-ASCII `sha` Python's `sha.upper()` can differ, even in length.
- ModelCache.Acquire: the `path.lower() == "skip"` test (package.py:265) lower-cases with the ASCII mapping only. A line such as `"S\u212aIP"` with a Kelvin sign, which Python lower-cases to `skip`, is taken as a path here. The same holds for `ModelCache.AcquireRun` and `ModelCache.AcquireKeepsVerified`.
- Nodes.NextCounterAfterBatch: assumes the file name holds no `%batch_num%`, as `Nodes.NextSaveContinues` does.
- TemplateSpec.PopulateRun: the arguments are any mapping of names to values. In the source they are keyword arguments of `populate_workflow` (utils.py:159-164), so an input named `workflow`, `output_path` or `session_id` clashes with a parameter and the call is a `TypeError` before anything runs. The model applies such an argument like any other. The same holds for `Templates.Workflow.Populate`.
- PyStr.Format05RoundTrip: `int()` is modelled for surrounding white space, an optional sign and ASCII digits. The other forms Python accepts (`_` between digits, non-ASCII digits) count as not an integer.

## Findings

| source | as written | input that shows it | evidently intended | confidence | as-written member | corrected member |
|---|---|---|---|---|---|---|
| nodes/nodes.py:65-66 | `map_filename` measures the prefix by the base name of `filename_prefix` as given. The file names it is matched against come from the normalised prefix. | prefix `out/` with `out_00001_.png` already in the output folder: the base name of `out/` is empty, so no listed file matches and the counter is 1 | measure by the normalised base name `out`, so the counter is 2 and the saved file is not overwritten | medium, not executed | Nodes.GetSaveImagePathAsWritten, Nodes.SaveImages, Nodes.TrailingSlashOverwrites | Nodes.GetSaveImagePath, Nodes.SaveImagesCorrected, Nodes.NextSaveContinues |
