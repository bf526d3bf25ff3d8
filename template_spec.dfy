/**
 * What `generate_input_model`, `populate_workflow` and
 * `retrieve_workflow_outputs` compute (src/comfy_pack/utils.py:21-29,
 * 101-236). The imperative versions, which update the workflow in place, are
 * methods of `Templates.Workflow`.
 */
module TemplateSpec {
  import opened Wrappers
  import opened PyStr
  import opened PyDict
  import opened Json
  import opened WorkflowGraph
  import opened Schema
  import opened PosixPath

  const OUTPUT_NODES: set<string> := {"CPackOutputFile", "CPackOutputImage"}
  const PREFIX_SLOT := "filename_prefix"

  /** A keyword argument of `populate_workflow`: a JSON value or a `Path`. */
  datatype Arg = Value(v: Json) | PathArg(p: PurePath)

  datatype TemplateError =
    | ParseFailed(cause: ParseError)
    | SchemaFailed(reason: SchemaError)
    | UnknownInput(name: string)     // KeyError from `input_spec[k]`
    | NotInputNode(name: string)     // ValueError: "Node k is not an input node"
    | NoInputSlot(name: string)      // StopIteration from `_set_node_value`
    | Missing(key: string)           // KeyError on a node's `"id"` or `workflow[id]`
    | NotOutputNode(name: string)    // ValueError of `retrieve_workflow_outputs`

  /** The value `_set_node_value` stores: a `Path` becomes its POSIX text. */
  function ArgValue(a: Arg): Json {
    match a
    case Value(v) => v
    case PathArg(p) => JStr(AsPosix(p))
  }

  /** `_set_node_value(node, value)`; `None` when the node has no input slot. */
  function SetNodeValue(n: Node, a: Arg): Option<Node> {
    if n.inputs == [] then None
    else Some(n.(inputs := Put(n.inputs, n.inputs[0].0, ArgValue(a))))
  }

  /**
   * `_set_node_value` then `_get_node_value` reads back the value stored
   * (a path as its POSIX text); only the first slot changes, and only its value.
   */
  lemma SetThenGet(n: Node, a: Arg)
    requires n.inputs != []
    ensures SetNodeValue(n, a).Some?
    ensures var n' := SetNodeValue(n, a).value;
      && NodeValue(n') == Some(ArgValue(a))
      && n'.inputs == n.inputs[0 := (n.inputs[0].0, ArgValue(a))]
      && n' == n.(inputs := n'.inputs)
  {
    assert n.inputs == [n.inputs[0]] + n.inputs[1..];
  }

  /** `n` with the value of its first input slot replaced by `v`, everything else as it was. */
  function WithFirst(n: Node, v: Json): Node
    requires n.inputs != []
  {
    n.(inputs := n.inputs[0 := (n.inputs[0].0, v)])
  }

  /** `m` is `n` with at most the value of its first input slot changed. */
  predicate FirstOnly(n: Node, m: Node) {
    n.inputs != [] && |m.inputs| == |n.inputs| && m == WithFirst(n, m.inputs[0].1)
  }

  /** Storing into the first slot again overrides what an earlier store put there. */
  lemma WithFirstAgain(n: Node, m: Node, v: Json)
    requires m == n || FirstOnly(n, m)
    requires m.inputs != []
    ensures n.inputs != [] && WithFirst(m, v) == WithFirst(n, v)
    ensures FirstOnly(n, WithFirst(n, v))
  {
    if m != n {
      assert WithFirst(m, v).inputs == WithFirst(n, v).inputs;
    }
  }

  /** `n` with `filename_prefix` set to `p`, everything else as it was. */
  function WithPrefix(n: Node, p: string): Node {
    n.(inputs := Put(n.inputs, PREFIX_SLOT, JStr(p)))
  }

  /** Setting the same prefix twice is setting it once. */
  lemma WithPrefixTwice(n: Node, p: string)
    ensures WithPrefix(WithPrefix(n, p), p) == WithPrefix(n, p)
  {
    PutTwice(n.inputs, PREFIX_SLOT, JStr(p));
  }

  /** The `filename_prefix` an output node with id `nid` gets. */
  function OutputPrefix(outputPath: PurePath, sessionId: string, nid: string): string {
    AsPosix(Div(outputPath, sessionId + nid + "_"))
  }

  /** When the session and node ids hold no `/`, the prefix is the output directory joined with `<session><id>_`. */
  lemma OutputPrefixShape(outputPath: PurePath, sessionId: string, nid: string)
    requires WellFormed(outputPath) && outputPath.parts != []
    requires '/' !in sessionId + nid
    ensures OutputPrefix(outputPath, sessionId, nid) == AsPosix(outputPath) + "/" + sessionId + nid + "_"
  {
    var name := sessionId + nid + "_";
    assert name[|name| - 1] == '_';
    assert '/' !in name by {
      assert forall k :: 0 <= k < |name| - 1 ==> name[k] == (sessionId + nid)[k];
    }
    DivName(outputPath, name);
  }

  // ---------------------------------------------------------------------
  // generate_input_model (lines 101-156)

  /** The fields of the model `generate_input_model` creates, or the error raised. */
  function InputModelResult(g: Graph): Result<Dict<string, FieldKind>, TemplateError> {
    match ParseResult(g)
    case Err(e) => Err(ParseFailed(e))
    case Ok((ins, _)) =>
      match InputFields(ins)
      case Err(e) => Err(SchemaFailed(e))
      case Ok(fs) => Ok(fs)
  }

  /** The model has one field per input node, under the input's name, when every input node has a field. */
  lemma InputModelShape(g: Graph)
    requires ParseResult(g).Ok?
    ensures var ins := ParseResult(g).value.0;
      && (InputModelResult(g).Ok? <==> forall i :: 0 <= i < |ins| ==> FieldFor(ins[i].1).Ok?)
      && (InputModelResult(g).Ok? ==> (|InputModelResult(g).value| == |ins|
          && forall i :: 0 <= i < |ins| ==> InputModelResult(g).value[i] == (ins[i].0, FieldFor(ins[i].1).value)))
  {
    ParseSorts(g);
    InputFieldsOk(ParseResult(g).value.0);
    if InputFields(ParseResult(g).value.0).Ok? {
      InputFieldsShape(ParseResult(g).value.0);
    }
  }

  // ---------------------------------------------------------------------
  // populate_workflow (lines 159-192)

  /** One keyword argument `k=a` applied to the workflow `g` (lines 181-184). */
  function ApplyArg(g: Graph, ins: Graph, k: string, a: Arg): (Graph, Option<TemplateError>) {
    var node := Get(ins, k);
    if node.None? then (g, Some(UnknownInput(k)))
    else if !IsInputClass(node.value) then (g, Some(NotInputNode(k)))
    else if node.value.id.None? then (g, Some(Missing("id")))
    else
      var nid := node.value.id.value;
      var wn := Get(g, nid);
      if wn.None? then (g, Some(Missing(nid)))
      else
        var n' := SetNodeValue(wn.value, a);
        if n'.None? then (g, Some(TemplateError.NoInputSlot(k)))
        else (Put(g, nid, n'.value), None)
  }

  /** The first loop of `populate_workflow` over the arguments `args`, stopping at the first error. */
  function ApplyArgs(g: Graph, ins: Graph, args: Dict<string, Arg>): (Graph, Option<TemplateError>)
    decreases |args|
  {
    if args == [] then (g, None)
    else
      var (g1, e) := ApplyArgs(g, ins, args[..|args| - 1]);
      if e.Some? then (g1, e) else ApplyArg(g1, ins, args[|args| - 1].0, args[|args| - 1].1)
  }

  /** One output node redirected (lines 187-191). */
  function ApplyOutput(g: Graph, node: Node, outputPath: PurePath, sessionId: string): (Graph, Option<TemplateError>) {
    if node.id.None? then (g, Some(Missing("id")))
    else if node.classType !in OUTPUT_NODES then (g, None)
    else
      var nid := node.id.value;
      var wn := Get(g, nid);
      if wn.None? then (g, Some(Missing(nid)))
      else
        var ins' := Put(wn.value.inputs, PREFIX_SLOT, JStr(OutputPrefix(outputPath, sessionId, nid)));
        (Put(g, nid, wn.value.(inputs := ins')), None)
  }

  /** The second loop of `populate_workflow` over `outs`. */
  function ApplyOutputs(g: Graph, outs: Graph, outputPath: PurePath, sessionId: string): (Graph, Option<TemplateError>)
    decreases |outs|
  {
    if outs == [] then (g, None)
    else
      var (g1, e) := ApplyOutputs(g, outs[..|outs| - 1], outputPath, sessionId);
      if e.Some? then (g1, e) else ApplyOutput(g1, outs[|outs| - 1].1, outputPath, sessionId)
  }

  /**
   * `populate_workflow(workflow, output_path, session_id, **args)`: the
   * workflow afterwards (it is updated in place, also when an error is
   * raised) and the returned workflow or the error.
   */
  function PopulateRun(g: Graph, outputPath: PurePath, sessionId: string, args: Dict<string, Arg>): (Graph, Result<Graph, TemplateError>) {
    var stamped := StampFirst(g, ParseStamped(g));
    match ParseResult(g)
    case Err(e) => (stamped, Err(ParseFailed(e)))
    case Ok((ins, outs)) =>
      var (g2, e2) := ApplyArgs(stamped, ins, args);
      if e2.Some? then (g2, Err(e2.value))
      else
        var (g3, e3) := ApplyOutputs(g2, outs, outputPath, sessionId);
        if e3.Some? then (g3, Err(e3.value)) else (g3, Ok(g3))
  }

  // ---------------------------------------------------------------------
  // Properties of populate_workflow

  /** The ids of the nodes that `args` addresses, in order of the arguments. */
  function ArgTargets(ins: Graph, args: Dict<string, Arg>): seq<Option<string>> {
    seq(|args|, j requires 0 <= j < |args| => var n := Get(ins, args[j].0); if n.Some? then n.value.id else None)
  }

  /** Applying an argument changes at most the node it addresses, and keeps every key. */
  lemma ApplyArgFrame(g: Graph, ins: Graph, k: string, a: Arg, x: string)
    ensures Keys(ApplyArg(g, ins, k, a).0) == Keys(g)
    ensures (Get(ins, k).None? || Get(ins, k).value.id != Some(x)) ==> Get(ApplyArg(g, ins, k, a).0, x) == Get(g, x)
  {
    var node := Get(ins, k);
    if node.Some? && node.value.id.Some? {
      var nid := node.value.id.value;
      var wn := Get(g, nid);
      if wn.Some? && SetNodeValue(wn.value, a).Some? {
        PutKeys(g, nid, SetNodeValue(wn.value, a).value);
        PutGet(g, nid, SetNodeValue(wn.value, a).value, x);
      }
    }
  }

  /** The arguments change only the nodes they address, and keep every key. */
  lemma {:induction false} ApplyArgsFrame(g: Graph, ins: Graph, args: Dict<string, Arg>, x: string)
    requires Some(x) !in ArgTargets(ins, args)
    ensures Keys(ApplyArgs(g, ins, args).0) == Keys(g)
    ensures Get(ApplyArgs(g, ins, args).0, x) == Get(g, x)
    decreases |args|
  {
    if args != [] {
      var k := |args| - 1;
      var pre := args[..k];
      assert forall j :: 0 <= j < k ==> ArgTargets(ins, pre)[j] == ArgTargets(ins, args)[j];
      assert ArgTargets(ins, args)[k] != Some(x);
      ApplyArgsFrame(g, ins, pre, x);
      ApplyArgFrame(ApplyArgs(g, ins, pre).0, ins, args[k].0, args[k].1, x);
    }
  }

  /**
   * Applying an argument stores its value in the first slot of the node it
   * addresses and changes nothing else of that node.
   */
  lemma ApplyArgSets(g: Graph, ins: Graph, k: string, a: Arg, nid: string)
    requires Get(ins, k).Some? && Get(ins, k).value.id == Some(nid)
    requires ApplyArg(g, ins, k, a).1.None?
    ensures Get(g, nid).Some? && Get(g, nid).value.inputs != []
    ensures Get(ApplyArg(g, ins, k, a).0, nid) == Some(WithFirst(Get(g, nid).value, ArgValue(a)))
    ensures NodeValue(Get(ApplyArg(g, ins, k, a).0, nid).value) == Some(ArgValue(a))
  {
    var wn := Get(g, nid).value;
    SetThenGet(wn, a);
    PutGet(g, nid, SetNodeValue(wn, a).value, nid);
  }

  /** The arguments keep every key of the workflow, also when one of them fails. */
  lemma {:induction false} ApplyArgsKeys(g: Graph, ins: Graph, args: Dict<string, Arg>)
    ensures Keys(ApplyArgs(g, ins, args).0) == Keys(g)
    decreases |args|
  {
    if args != [] {
      var k := |args| - 1;
      ApplyArgsKeys(g, ins, args[..k]);
      ApplyArgFrame(ApplyArgs(g, ins, args[..k]).0, ins, args[k].0, args[k].1, "");
    }
  }

  /** Whatever the arguments do to a node, they change at most the value of its first slot. */
  lemma {:induction false} ApplyArgsFirstOnly(g: Graph, ins: Graph, args: Dict<string, Arg>, nid: string)
    requires Get(g, nid).Some?
    ensures Get(ApplyArgs(g, ins, args).0, nid).Some?
    ensures var m := Get(ApplyArgs(g, ins, args).0, nid).value;
      m == Get(g, nid).value || FirstOnly(Get(g, nid).value, m)
    decreases |args|
  {
    if args != [] {
      var k := |args| - 1;
      var n0 := Get(g, nid).value;
      ApplyArgsFirstOnly(g, ins, args[..k], nid);
      var a := ApplyArgs(g, ins, args[..k]);
      if a.1.None? {
        var node := Get(ins, args[k].0);
        if node.Some? && node.value.id == Some(nid) && ApplyArg(a.0, ins, args[k].0, args[k].1).1.None? {
          ApplyArgSets(a.0, ins, args[k].0, args[k].1, nid);
          WithFirstAgain(n0, Get(a.0, nid).value, ArgValue(args[k].1));
        } else {
          ApplyArgFrame(a.0, ins, args[k].0, args[k].1, nid);
        }
      }
    }
  }

  /** A keyword argument that names no input makes `populate_workflow` fail. */
  lemma {:induction false} UnknownArgFails(g: Graph, ins: Graph, args: Dict<string, Arg>, j: nat)
    requires j < |args| && !HasKey(ins, args[j].0)
    ensures ApplyArgs(g, ins, args).1.Some?
    decreases |args|
  {
    var k := |args| - 1;
    if j < k {
      assert args[..k][j] == args[j];
      UnknownArgFails(g, ins, args[..k], j);
    } else {
      assert j == k;
      UnknownArg(ApplyArgs(g, ins, args[..k]).0, ins, args[j].0, args[j].1);
    }
    ApplyArgsLast(g, ins, args);
  }

  /** Redirecting an output touches only that node, and keeps every key. */
  lemma ApplyOutputFrame(g: Graph, node: Node, outputPath: PurePath, sessionId: string, x: string)
    ensures Keys(ApplyOutput(g, node, outputPath, sessionId).0) == Keys(g)
    ensures node.id != Some(x) ==> Get(ApplyOutput(g, node, outputPath, sessionId).0, x) == Get(g, x)
  {
    if node.id.Some? && node.classType in OUTPUT_NODES && Get(g, node.id.value).Some? {
      var nid := node.id.value;
      var wn := Get(g, nid).value;
      var n' := wn.(inputs := Put(wn.inputs, PREFIX_SLOT, JStr(OutputPrefix(outputPath, sessionId, nid))));
      PutKeys(g, nid, n');
      PutGet(g, nid, n', x);
    }
  }

  /** The ids of the output nodes that get a new prefix. */
  function RedirectedIds(outs: Graph): seq<string>
    decreases |outs|
  {
    if outs == [] then []
    else
      var n := outs[|outs| - 1].1;
      RedirectedIds(outs[..|outs| - 1]) + if n.id.Some? && n.classType in OUTPUT_NODES then [n.id.value] else []
  }

  /** The output loop changes only the output nodes of the two saving classes, and keeps every key. */
  lemma {:induction false} ApplyOutputsFrame(g: Graph, outs: Graph, outputPath: PurePath, sessionId: string, x: string)
    requires x !in RedirectedIds(outs)
    ensures Keys(ApplyOutputs(g, outs, outputPath, sessionId).0) == Keys(g)
    ensures Get(ApplyOutputs(g, outs, outputPath, sessionId).0, x) == Get(g, x)
    decreases |outs|
  {
    if outs != [] {
      var k := |outs| - 1;
      ApplyOutputsFrame(g, outs[..k], outputPath, sessionId, x);
      ApplyOutputFrame(ApplyOutputs(g, outs[..k], outputPath, sessionId).0, outs[k].1, outputPath, sessionId, x);
    }
  }

  /**
   * A redirected output node's `filename_prefix` is `output_path / "<session><id>_"`
   * as POSIX text, and nothing else of that node changes.
   */
  lemma ApplyOutputSets(g: Graph, node: Node, outputPath: PurePath, sessionId: string, nid: string)
    requires node.id == Some(nid) && node.classType in OUTPUT_NODES && HasKey(g, nid)
    ensures var g' := ApplyOutput(g, node, outputPath, sessionId).0;
      && ApplyOutput(g, node, outputPath, sessionId).1.None?
      && Get(g', nid) == Some(WithPrefix(Get(g, nid).value, OutputPrefix(outputPath, sessionId, nid)))
      && Get(Get(g', nid).value.inputs, PREFIX_SLOT) == Some(JStr(OutputPrefix(outputPath, sessionId, nid)))
  {
    var wn := Get(g, nid).value;
    var ins' := Put(wn.inputs, PREFIX_SLOT, JStr(OutputPrefix(outputPath, sessionId, nid)));
    PutGet(wn.inputs, PREFIX_SLOT, JStr(OutputPrefix(outputPath, sessionId, nid)), PREFIX_SLOT);
    PutGet(g, nid, wn.(inputs := ins'), nid);
  }

  /** The output loop keeps every key of the workflow, also when it fails. */
  lemma {:induction false} ApplyOutputsKeys(g: Graph, outs: Graph, outputPath: PurePath, sessionId: string)
    ensures Keys(ApplyOutputs(g, outs, outputPath, sessionId).0) == Keys(g)
    decreases |outs|
  {
    if outs != [] {
      var k := |outs| - 1;
      ApplyOutputsKeys(g, outs[..k], outputPath, sessionId);
      ApplyOutputFrame(ApplyOutputs(g, outs[..k], outputPath, sessionId).0, outs[k].1, outputPath, sessionId, "");
    }
  }

  /** Whatever the output loop does to the node `nid`, it at most sets its own prefix. */
  lemma {:induction false} ApplyOutputsPrefixOnly(g: Graph, outs: Graph, outputPath: PurePath, sessionId: string, nid: string)
    requires Get(g, nid).Some?
    ensures Get(ApplyOutputs(g, outs, outputPath, sessionId).0, nid).Some?
    ensures var m := Get(ApplyOutputs(g, outs, outputPath, sessionId).0, nid).value;
      m == Get(g, nid).value || m == WithPrefix(Get(g, nid).value, OutputPrefix(outputPath, sessionId, nid))
    decreases |outs|
  {
    if outs != [] {
      var k := |outs| - 1;
      var n0 := Get(g, nid).value;
      ApplyOutputsPrefixOnly(g, outs[..k], outputPath, sessionId, nid);
      var a := ApplyOutputs(g, outs[..k], outputPath, sessionId);
      if a.1.None? {
        var node := outs[k].1;
        if node.id == Some(nid) && node.classType in OUTPUT_NODES {
          ApplyOutputSets(a.0, node, outputPath, sessionId, nid);
          WithPrefixTwice(n0, OutputPrefix(outputPath, sessionId, nid));
        } else {
          ApplyOutputFrame(a.0, node, outputPath, sessionId, nid);
        }
      }
    }
  }

  /** The workflow after `populate_workflow`, once the parse has succeeded. */
  lemma PopulateRunState(g: Graph, outputPath: PurePath, sessionId: string, args: Dict<string, Arg>)
    requires ParseResult(g).Ok?
    ensures var a := ApplyArgs(StampFirst(g, ParseStamped(g)), ParseResult(g).value.0, args);
      PopulateRun(g, outputPath, sessionId, args).0
        == if a.1.Some? then a.0 else ApplyOutputs(a.0, ParseResult(g).value.1, outputPath, sessionId).0
  {
  }

  /**
   * `populate_workflow` changes only what it is asked to: every node that no
   * argument addresses and that is not a redirected output node is the
   * parsed (id-stamped) node, and no node is added or removed.
   */
  lemma PopulateFrame(g: Graph, outputPath: PurePath, sessionId: string, args: Dict<string, Arg>, x: string)
    requires ParseResult(g).Ok?
    requires Some(x) !in ArgTargets(ParseResult(g).value.0, args)
    requires x !in RedirectedIds(ParseResult(g).value.1)
    ensures Keys(PopulateRun(g, outputPath, sessionId, args).0) == Keys(g)
    ensures Get(PopulateRun(g, outputPath, sessionId, args).0, x) == Get(StampFirst(g, |g|), x)
  {
    var ins := ParseResult(g).value.0;
    var outs := ParseResult(g).value.1;
    ParseStampsAll(g);
    var stamped := StampFirst(g, ParseStamped(g));
    ApplyArgsFrame(stamped, ins, args, x);
    var a := ApplyArgs(stamped, ins, args);
    ApplyOutputsFrame(a.0, outs, outputPath, sessionId, x);
    PopulateRunState(g, outputPath, sessionId, args);
  }

  /** Applying `p + q` is applying `p`, then `q` unless `p` failed. */
  lemma {:induction false} ApplyArgsAppend(g: Graph, ins: Graph, p: Dict<string, Arg>, q: Dict<string, Arg>)
    ensures var a := ApplyArgs(g, ins, p);
      ApplyArgs(g, ins, p + q) == if a.1.Some? then a else ApplyArgs(a.0, ins, q)
    decreases |q|
  {
    if q == [] {
      assert p + q == p;
    } else {
      var n := |q| - 1;
      assert (p + q)[..|p + q| - 1] == p + q[..n];
      assert (p + q)[|p + q| - 1] == q[n];
      ApplyArgsAppend(g, ins, p, q[..n]);
    }
  }

  /** The arguments up to `i`, then argument `i` unless an earlier one failed. */
  lemma ApplyArgsSnoc(g: Graph, ins: Graph, args: Dict<string, Arg>, i: nat)
    requires i < |args|
    ensures var a := ApplyArgs(g, ins, args[..i]);
      ApplyArgs(g, ins, args[..i + 1]) == if a.1.Some? then a else ApplyArg(a.0, ins, args[i].0, args[i].1)
  {
    assert args[..i + 1][..i] == args[..i];
  }

  /** All arguments: those before the last, then the last unless an earlier one failed. */
  lemma ApplyArgsLast(g: Graph, ins: Graph, args: Dict<string, Arg>)
    requires args != []
    ensures var a := ApplyArgs(g, ins, args[..|args| - 1]);
      ApplyArgs(g, ins, args) == if a.1.Some? then a else ApplyArg(a.0, ins, args[|args| - 1].0, args[|args| - 1].1)
  {
  }

  /** An argument naming no input fails with `KeyError` and changes nothing. */
  lemma UnknownArg(g: Graph, ins: Graph, k: string, a: Arg)
    requires !HasKey(ins, k)
    ensures ApplyArg(g, ins, k, a) == (g, Some(UnknownInput(k)))
  {
  }

  /** Once the arguments up to `i` fail, the later ones change nothing. */
  lemma ApplyArgsStop(g: Graph, ins: Graph, args: Dict<string, Arg>, i: nat)
    requires i <= |args| && ApplyArgs(g, ins, args[..i]).1.Some?
    ensures ApplyArgs(g, ins, args) == ApplyArgs(g, ins, args[..i])
  {
    ApplyArgsAppend(g, ins, args[..i], args[i..]);
    assert args[..i] + args[i..] == args;
  }

  /** The outputs up to `j`, then output `j` unless an earlier one failed. */
  lemma ApplyOutputsSnoc(g: Graph, outs: Graph, outputPath: PurePath, sessionId: string, j: nat)
    requires j < |outs|
    ensures var a := ApplyOutputs(g, outs[..j], outputPath, sessionId);
      ApplyOutputs(g, outs[..j + 1], outputPath, sessionId) == if a.1.Some? then a else ApplyOutput(a.0, outs[j].1, outputPath, sessionId)
  {
    assert outs[..j + 1][..j] == outs[..j];
  }

  /** Once the outputs up to `j` fail, the later ones change nothing. */
  lemma ApplyOutputsStop(g: Graph, outs: Graph, outputPath: PurePath, sessionId: string, j: nat)
    requires j <= |outs| && ApplyOutputs(g, outs[..j], outputPath, sessionId).1.Some?
    ensures ApplyOutputs(g, outs, outputPath, sessionId) == ApplyOutputs(g, outs[..j], outputPath, sessionId)
  {
    ApplyOutputsAppend(g, outs[..j], outs[j..], outputPath, sessionId);
    assert outs[..j] + outs[j..] == outs;
  }

  /** Redirecting `p + q` is redirecting `p`, then `q` unless `p` failed. */
  lemma {:induction false} ApplyOutputsAppend(g: Graph, p: Graph, q: Graph, outputPath: PurePath, sessionId: string)
    ensures var a := ApplyOutputs(g, p, outputPath, sessionId);
      ApplyOutputs(g, p + q, outputPath, sessionId) == if a.1.Some? then a else ApplyOutputs(a.0, q, outputPath, sessionId)
    decreases |q|
  {
    if q == [] {
      assert p + q == p;
    } else {
      var n := |q| - 1;
      assert (p + q)[..|p + q| - 1] == p + q[..n];
      assert (p + q)[|p + q| - 1] == q[n];
      ApplyOutputsAppend(g, p, q[..n], outputPath, sessionId);
    }
  }

  lemma TakeDrop<T>(s: seq<T>, i: nat)
    requires i <= |s|
    ensures s[..i] + s[i..] == s
  {
  }

  /** When all of `p + q` succeed, so do the arguments `p`, and `q` continue from there. */
  lemma ApplyArgsSplit(g: Graph, ins: Graph, p: Dict<string, Arg>, q: Dict<string, Arg>)
    requires ApplyArgs(g, ins, p + q).1.None?
    ensures ApplyArgs(g, ins, p).1.None?
    ensures ApplyArgs(g, ins, p + q) == ApplyArgs(ApplyArgs(g, ins, p).0, ins, q)
  {
    ApplyArgsAppend(g, ins, p, q);
  }

  /** When all of `p + q` succeed, so do the outputs `p`, and `q` continue from there. */
  lemma ApplyOutputsSplit(g: Graph, p: Graph, q: Graph, outputPath: PurePath, sessionId: string)
    requires ApplyOutputs(g, p + q, outputPath, sessionId).1.None?
    ensures ApplyOutputs(g, p, outputPath, sessionId).1.None?
    ensures ApplyOutputs(g, p + q, outputPath, sessionId) == ApplyOutputs(ApplyOutputs(g, p, outputPath, sessionId).0, q, outputPath, sessionId)
  {
    ApplyOutputsAppend(g, p, q, outputPath, sessionId);
  }

  /**
   * After all arguments succeed, the node argument `j` addresses is the node
   * before with its first slot holding the argument, unless a later argument
   * addresses it too.
   */
  lemma ApplyArgsSets(g: Graph, ins: Graph, args: Dict<string, Arg>, j: nat, nid: string)
    requires j < |args| && ApplyArgs(g, ins, args).1.None?
    requires ArgTargets(ins, args)[j] == Some(nid)
    requires Some(nid) !in ArgTargets(ins, args[j + 1..])
    ensures Get(g, nid).Some? && Get(g, nid).value.inputs != []
    ensures Get(ApplyArgs(g, ins, args).0, nid) == Some(WithFirst(Get(g, nid).value, ArgValue(args[j].1)))
    ensures NodeValue(Get(ApplyArgs(g, ins, args).0, nid).value) == Some(ArgValue(args[j].1))
  {
    TakeDrop(args, j + 1);
    ApplyArgsSplit(g, ins, args[..j + 1], args[j + 1..]);
    ApplyArgsSnoc(g, ins, args, j);
    var a := ApplyArgs(g, ins, args[..j]);
    assert a.1.None?;
    ApplyArgSets(a.0, ins, args[j].0, args[j].1, nid);
    ApplyArgsKeys(g, ins, args[..j]);
    assert HasKey(g, nid);
    ApplyArgsFirstOnly(g, ins, args[..j], nid);
    WithFirstAgain(Get(g, nid).value, Get(a.0, nid).value, ArgValue(args[j].1));
    ApplyArgsFrame(ApplyArgs(g, ins, args[..j + 1]).0, ins, args[j + 1..], nid);
  }

  /**
   * After all outputs succeed, an output of a saving class is the node before
   * with `filename_prefix` set to its prefix, and nothing else of it changed.
   */
  lemma ApplyOutputsSets(g: Graph, outs: Graph, outputPath: PurePath, sessionId: string, i: nat, nid: string)
    requires i < |outs| && ApplyOutputs(g, outs, outputPath, sessionId).1.None?
    requires outs[i].1.id == Some(nid) && outs[i].1.classType in OUTPUT_NODES
    ensures Get(g, nid).Some?
    ensures var g' := ApplyOutputs(g, outs, outputPath, sessionId).0;
      && Get(g', nid) == Some(WithPrefix(Get(g, nid).value, OutputPrefix(outputPath, sessionId, nid)))
      && Get(Get(g', nid).value.inputs, PREFIX_SLOT) == Some(JStr(OutputPrefix(outputPath, sessionId, nid)))
  {
    var p := OutputPrefix(outputPath, sessionId, nid);
    TakeDrop(outs, i + 1);
    ApplyOutputsSplit(g, outs[..i + 1], outs[i + 1..], outputPath, sessionId);
    ApplyOutputsSnoc(g, outs, outputPath, sessionId, i);
    var a := ApplyOutputs(g, outs[..i], outputPath, sessionId);
    assert a.1.None?;
    ApplyOutputsKeys(g, outs[..i], outputPath, sessionId);
    assert HasKey(a.0, nid);
    ApplyOutputsPrefixOnly(g, outs[..i], outputPath, sessionId, nid);
    var n0 := Get(g, nid).value;
    ApplyOutputSets(a.0, outs[i].1, outputPath, sessionId, nid);
    WithPrefixTwice(n0, p);
    var b := ApplyOutputs(g, outs[..i + 1], outputPath, sessionId).0;
    assert Get(b, nid) == Some(WithPrefix(n0, p));
    ApplyOutputsPrefixOnly(b, outs[i + 1..], outputPath, sessionId, nid);
    PutGet(WithPrefix(n0, p).inputs, PREFIX_SLOT, JStr(p), PREFIX_SLOT);
  }

  /**
   * When `populate_workflow` succeeds, the node an argument addresses is the
   * parsed (id-stamped) node with its first input slot holding the argument
   * (a path as POSIX text) and nothing else changed, unless a later argument
   * addresses the same node or it is also redirected.
   */
  lemma PopulateSetsArg(g: Graph, outputPath: PurePath, sessionId: string, args: Dict<string, Arg>, j: nat, nid: string)
    requires PopulateRun(g, outputPath, sessionId, args).1.Ok? && j < |args|
    requires ParseResult(g).Ok? && ArgTargets(ParseResult(g).value.0, args)[j] == Some(nid)
    requires Some(nid) !in ArgTargets(ParseResult(g).value.0, args[j + 1..])
    requires nid !in RedirectedIds(ParseResult(g).value.1)
    ensures Get(StampFirst(g, |g|), nid).Some? && Get(StampFirst(g, |g|), nid).value.inputs != []
    ensures var g' := PopulateRun(g, outputPath, sessionId, args).0;
      && Get(g', nid) == Some(WithFirst(Get(StampFirst(g, |g|), nid).value, ArgValue(args[j].1)))
      && NodeValue(Get(g', nid).value) == Some(ArgValue(args[j].1))
  {
    var ins := ParseResult(g).value.0;
    var outs := ParseResult(g).value.1;
    ParseStampsAll(g);
    var stamped := StampFirst(g, ParseStamped(g));
    PopulateRunState(g, outputPath, sessionId, args);
    var a := ApplyArgs(stamped, ins, args);
    assert a.1.None?;
    ApplyArgsSets(stamped, ins, args, j, nid);
    ApplyOutputsFrame(a.0, outs, outputPath, sessionId, nid);
  }

  /**
   * When `populate_workflow` succeeds, every parsed output node of the two
   * saving classes is the node the arguments left with `filename_prefix` set
   * to `output_path / "<session><id>_"` and nothing else changed; when no
   * argument addresses it, that is the parsed (id-stamped) node.
   */
  lemma PopulateRedirects(g: Graph, outputPath: PurePath, sessionId: string, args: Dict<string, Arg>, i: nat, nid: string)
    requires PopulateRun(g, outputPath, sessionId, args).1.Ok?
    requires ParseResult(g).Ok? && i < |ParseResult(g).value.1|
    requires ParseResult(g).value.1[i].1.id == Some(nid) && ParseResult(g).value.1[i].1.classType in OUTPUT_NODES
    ensures Get(StampFirst(g, |g|), nid).Some?
    ensures var a := ApplyArgs(StampFirst(g, |g|), ParseResult(g).value.0, args).0;
      && Get(a, nid).Some?
      && Get(PopulateRun(g, outputPath, sessionId, args).0, nid)
           == Some(WithPrefix(Get(a, nid).value, OutputPrefix(outputPath, sessionId, nid)))
    ensures Some(nid) !in ArgTargets(ParseResult(g).value.0, args) ==>
      Get(PopulateRun(g, outputPath, sessionId, args).0, nid)
        == Some(WithPrefix(Get(StampFirst(g, |g|), nid).value, OutputPrefix(outputPath, sessionId, nid)))
    ensures var g' := PopulateRun(g, outputPath, sessionId, args).0;
      && Get(g', nid).Some?
      && Get(Get(g', nid).value.inputs, PREFIX_SLOT) == Some(JStr(OutputPrefix(outputPath, sessionId, nid)))
  {
    var ins := ParseResult(g).value.0;
    var outs := ParseResult(g).value.1;
    ParseStampsAll(g);
    var stamped := StampFirst(g, ParseStamped(g));
    PopulateRunState(g, outputPath, sessionId, args);
    var a := ApplyArgs(stamped, ins, args);
    assert a.1.None?;
    ApplyOutputsSets(a.0, outs, outputPath, sessionId, i, nid);
    ApplyArgsKeys(stamped, ins, args);
    assert HasKey(stamped, nid);
    if Some(nid) !in ArgTargets(ins, args) {
      ApplyArgsFrame(stamped, ins, args, nid);
    }
  }

  /** On success the workflow returned is the workflow updated in place. */
  lemma PopulateReturnsSame(g: Graph, outputPath: PurePath, sessionId: string, args: Dict<string, Arg>)
    requires PopulateRun(g, outputPath, sessionId, args).1.Ok?
    ensures PopulateRun(g, outputPath, sessionId, args).1.value == PopulateRun(g, outputPath, sessionId, args).0
  {
  }

  /** An argument that names no input node makes `populate_workflow` raise. */
  lemma PopulateUnknownFails(g: Graph, outputPath: PurePath, sessionId: string, args: Dict<string, Arg>, j: nat)
    requires ParseResult(g).Ok? && j < |args| && !HasKey(ParseResult(g).value.0, args[j].0)
    ensures PopulateRun(g, outputPath, sessionId, args).1.Err?
  {
    UnknownArgFails(StampFirst(g, ParseStamped(g)), ParseResult(g).value.0, args, j);
  }

  /** Over an input spec of input nodes only, no argument meets the "is not an input node" check. */
  lemma {:induction false} ApplyArgsInputsOnly(g: Graph, ins: Graph, args: Dict<string, Arg>, k: string)
    requires forall e :: e in ins ==> IsInputClass(e.1)
    ensures ApplyArgs(g, ins, args).1 != Some(NotInputNode(k))
    decreases |args|
  {
    if args != [] {
      var last := |args| - 1;
      ApplyArgsInputsOnly(g, ins, args[..last], k);
      if HasKey(ins, args[last].0) {
        GetIn(ins, args[last].0);
      }
    }
  }

  /** The output loop fails only on a missing id or a missing node. */
  lemma {:induction false} ApplyOutputsErrors(g: Graph, outs: Graph, outputPath: PurePath, sessionId: string)
    ensures var e := ApplyOutputs(g, outs, outputPath, sessionId).1;
      e.Some? ==> e.value.Missing?
    decreases |outs|
  {
    if outs != [] {
      ApplyOutputsErrors(g, outs[..|outs| - 1], outputPath, sessionId);
    }
  }

  /**
   * The "is not an input node" check of `populate_workflow` (lines 182-183)
   * never fires: the input spec it consults holds input nodes only.
   */
  lemma PopulateNeverNotInputNode(g: Graph, outputPath: PurePath, sessionId: string, args: Dict<string, Arg>, k: string)
    ensures PopulateRun(g, outputPath, sessionId, args).1 != Err(NotInputNode(k))
  {
    if ParseResult(g).Ok? {
      ParseSorts(g);
      var stamped := StampFirst(g, ParseStamped(g));
      ApplyArgsInputsOnly(stamped, ParseResult(g).value.0, args, k);
      ApplyOutputsErrors(ApplyArgs(stamped, ParseResult(g).value.0, args).0, ParseResult(g).value.1, outputPath, sessionId);
    }
  }

  // ---------------------------------------------------------------------
  // retrieve_workflow_outputs (lines 216-236)

  /** The files `output_path.glob(prefix + "*")` finds, in listing order. */
  function Matches(listing: seq<string>, prefix: string): (r: seq<string>)
    ensures forall x :: x in r ==> x in listing && StartsWith(x, prefix)
    ensures forall x :: x in listing && StartsWith(x, prefix) ==> x in r
    decreases |listing|
  {
    if listing == [] then []
    else
      var rest := Matches(listing[..|listing| - 1], prefix);
      var x := listing[|listing| - 1];
      assert forall y :: y in listing ==> y in listing[..|listing| - 1] || y == x;
      if StartsWith(x, prefix) then rest + [x] else rest
  }

  /** One file when exactly one matches, otherwise the list of matches. */
  datatype Found = One(file: string) | Many(files: seq<string>)

  datatype Produced = Single(found: Found) | ByName(files: Dict<string, Found>)

  function Collect(listing: seq<string>, prefix: string): (r: Found)
    ensures r.One? <==> |Matches(listing, prefix)| == 1
    ensures r.One? ==> r.file in listing && StartsWith(r.file, prefix)
    ensures r.Many? ==> r.files == Matches(listing, prefix)
  {
    var m := Matches(listing, prefix);
    if |m| == 1 then One(m[0]) else Many(m)
  }

  /** The loop of lines 218-225 over `outs`. */
  function CollectAll(outs: Graph, listing: seq<string>): Result<Dict<string, Found>, TemplateError>
    decreases |outs|
  {
    if outs == [] then Ok([])
    else
      var vm :- CollectAll(outs[..|outs| - 1], listing);
      var (k, node) := outs[|outs| - 1];
      if node.id.None? then Err(Missing("id"))
      else Ok(Put(vm, k, Collect(listing, node.id.value + "_")))
  }

  /** `retrieve_workflow_outputs(workflow, output_path, session_id)` over the directory listing. */
  function RetrieveResult(g: Graph, listing: seq<string>, sessionId: string): Result<Produced, TemplateError> {
    match ParseResult(g)
    case Err(e) => Err(ParseFailed(e))
    case Ok((_, outs)) =>
      if |outs| != 1 then
        var vm :- CollectAll(outs, listing);
        Ok(ByName(vm))
      else
        var (name, node) := outs[0];
        if node.classType !in OUTPUT_NODES then Err(NotOutputNode(name))
        else if node.id.None? then Err(Missing("id"))
        else Ok(Single(Collect(listing, sessionId + node.id.value + "_")))
  }

  /** A failure in the loop at output `k - 1` is the result of the whole loop. */
  lemma {:induction false} CollectAllFails(outs: Graph, listing: seq<string>, k: nat)
    requires k <= |outs| && CollectAll(outs[..k], listing).Err?
    ensures CollectAll(outs, listing) == CollectAll(outs[..k], listing)
    decreases |outs| - k
  {
    if k < |outs| {
      assert outs[..|outs| - 1][..k] == outs[..k];
      CollectAllFails(outs[..|outs| - 1], listing, k);
    } else {
      assert outs[..k] == outs;
    }
  }

  /** One more output in the loop of lines 218-225: its files, unless an earlier output failed. */
  lemma CollectAllSnoc(outs: Graph, listing: seq<string>, i: nat)
    requires i < |outs|
    ensures var a := CollectAll(outs[..i], listing);
      var node := outs[i].1;
      CollectAll(outs[..i + 1], listing) ==
        if a.Err? then a
        else if node.id.None? then Err(Missing("id"))
        else Ok(Put(a.value, outs[i].0, Collect(listing, node.id.value + "_")))
  {
    assert outs[..i + 1][..i] == outs[..i];
  }

  /** The last output, under a name none before it has, is appended to what those before it collected. */
  lemma CollectAllLast(outs: Graph, listing: seq<string>, vm: Dict<string, Found>)
    requires outs != [] && outs[|outs| - 1].1.id.Some? && CollectAll(outs[..|outs| - 1], listing) == Ok(vm)
    requires |vm| == |outs| - 1 && forall i :: 0 <= i < |vm| ==> vm[i].0 != outs[|outs| - 1].0
    ensures var (k, node) := outs[|outs| - 1];
      CollectAll(outs, listing) == Ok(vm + [(k, Collect(listing, node.id.value + "_"))])
  {
    assert !HasKey(vm, outs[|outs| - 1].0) by {
      assert forall i :: 0 <= i < |vm| ==> Keys(vm)[i] == vm[i].0;
    }
  }

  /** With 0 or 2+ outputs: one entry per output name, found by `<id>_` without the session id. */
  lemma {:induction false} CollectAllShape(outs: Graph, listing: seq<string>)
    requires DistinctKeys(outs) && forall i :: 0 <= i < |outs| ==> outs[i].1.id.Some?
    ensures CollectAll(outs, listing).Ok?
    ensures var vm := CollectAll(outs, listing).value;
      |vm| == |outs| && forall i :: 0 <= i < |outs| ==> vm[i] == (outs[i].0, Collect(listing, outs[i].1.id.value + "_"))
    decreases |outs|
  {
    if outs != [] {
      var k := |outs| - 1;
      var pre := outs[..k];
      assert DistinctKeys(pre);
      assert forall i :: 0 <= i < k ==> pre[i] == outs[i];
      CollectAllShape(pre, listing);
      var vm := CollectAll(pre, listing).value;
      CollectAllLast(outs, listing, vm);
      var r := vm + [(outs[k].0, Collect(listing, outs[k].1.id.value + "_"))];
      forall i | 0 <= i < |outs| ensures r[i] == (outs[i].0, Collect(listing, outs[i].1.id.value + "_")) {
        if i < k {
          assert r[i] == vm[i];
        }
      }
    }
  }

  /** Parsed output nodes carry their id. */
  lemma ParsedOutputsStamped(g: Graph)
    requires ParseResult(g).Ok?
    ensures var outs := ParseResult(g).value.1;
      DistinctKeys(outs) && forall i :: 0 <= i < |outs| ==> outs[i].1.id.Some?
  {
    ParseSorts(g);
    var outs := ParseResult(g).value.1;
    forall i | 0 <= i < |outs| ensures outs[i].1.id.Some? {
      assert outs[i] in outs;
    }
  }

  /**
   * With exactly one output: an error unless it is one of the two saving
   * classes; otherwise the single file or the list of files starting with
   * `<session><id>_`. With any other number of outputs: a dict from every
   * output name to the file or files starting with `<id>_`.
   */
  lemma RetrieveShape(g: Graph, listing: seq<string>, sessionId: string)
    requires ParseResult(g).Ok?
    ensures var outs := ParseResult(g).value.1; var r := RetrieveResult(g, listing, sessionId);
      && (forall i :: 0 <= i < |outs| ==> outs[i].1.id.Some?)
      && (|outs| == 1 && outs[0].1.classType !in OUTPUT_NODES ==> r == Err(NotOutputNode(outs[0].0)))
      && (|outs| == 1 && outs[0].1.classType in OUTPUT_NODES
          ==> r == Ok(Single(Collect(listing, sessionId + outs[0].1.id.value + "_"))))
      && (|outs| != 1 ==> (r.Ok? && r.value.ByName? && |r.value.files| == |outs|
          && forall i :: 0 <= i < |outs| ==> r.value.files[i] == (outs[i].0, Collect(listing, outs[i].1.id.value + "_"))))
  {
    ParsedOutputsStamped(g);
    var outs := ParseResult(g).value.1;
    if |outs| != 1 {
      CollectAllShape(outs, listing);
    }
  }
}
