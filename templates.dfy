/**
 * The workflow template as the Python code handles it: one mutable dict of
 * nodes that `_parse_workflow` stamps ids into and `populate_workflow` fills
 * in place (src/comfy_pack/utils.py:65-236). Each method is proved against
 * the functions of `WorkflowGraph` and `TemplateSpec`.
 */
module Templates {
  import opened Wrappers
  import opened PyStr
  import opened PyDict
  import opened Json
  import opened WorkflowGraph
  import opened Schema
  import opened PosixPath
  import opened TemplateSpec

  /** The inner loop of lines 81-83: the links among the inputs `ins` of node `cid` added to `dep`. */
  method AddLinks(dep: Dict<LinkKey, Consumer>, cid: string, ins: Dict<string, Json>) returns (r: Result<Dict<LinkKey, Consumer>, ParseError>)
    ensures InputsHashable(ins) ==> r == Ok(PutAll(dep, InputLinks(cid, ins)))
    ensures !InputsHashable(ins) ==> r == Err(UnhashableLink)
  {
    var d := dep;
    var j := 0;
    while j < |ins|
      invariant 0 <= j <= |ins|
      invariant InputsHashable(ins[..j])
      invariant d == PutAll(dep, InputLinks(cid, ins[..j]))
    {
      var (name, v) := ins[j];
      InputLinksSnoc(cid, ins, j);
      if IsLink(v) {
        if !HashableLink(v) {
          assert !InputsHashable(ins) by {
            assert IsLink(ins[j].1) && !HashableLink(ins[j].1);
          }
          return Err(UnhashableLink);
        }
        var link := KeyOfLink(v);
        PutAllSnoc(dep, InputLinks(cid, ins[..j]), link, Consumer(cid, name));
        d := Put(d, link, Consumer(cid, name));
      } else {
        assert InputLinks(cid, ins[..j + 1]) == InputLinks(cid, ins[..j]);
      }
      j := j + 1;
    }
    assert ins[..j] == ins;
    return Ok(d);
  }

  /**
   * One iteration of the second loop of `_parse_workflow` (lines 85-98): the
   * node `node`, already stamped with its key, added to the inputs or the
   * outputs under its derived name, as the step `Step` from `st` does.
   */
  method SortNode(ins: Graph, outs: Graph, key: string, node: Node, dep: Dict<LinkKey, Consumer>, ghost st: Sorted, ghost raw: Node)
      returns (r: Result<(Graph, Graph), ParseError>)
    requires ins == st.ins && outs == st.outs && node == Stamp(key, raw)
    ensures var s := Step(st, key, raw, dep);
      r == if s.Err? then Err(s.error) else Ok((s.value.ins, s.value.outs))
  {
    if StartsWith(node.classType, INPUT_PREFIX) {
      var name := NodeIdentifier(node, Some(dep));
      if name.Err? {
        return Err(name.error);
      }
      var s := name.value;
      if HasKey(ins, s) {
        s := s + "_" + key;
      }
      return Ok((Put(ins, s, node), outs));
    } else if StartsWith(node.classType, OUTPUT_PREFIX) {
      var name := NodeIdentifier(node, None);
      if name.Err? {
        return Err(name.error);
      }
      var s := name.value;
      if HasKey(ins, s) {
        s := s + "_" + key;
      }
      return Ok((ins, Put(outs, s, node)));
    }
    return Ok((ins, outs));
  }

  /** The loop of `generate_input_model` (lines 125-155): one field per input node, stopping at the first node without one. */
  method InputModelFields(ins: Graph) returns (r: Result<Dict<string, FieldKind>, SchemaError>)
    ensures r == InputFields(ins)
  {
    var fields: Dict<string, FieldKind> := [];
    var i := 0;
    while i < |ins|
      invariant 0 <= i <= |ins|
      invariant InputFields(ins[..i]) == Ok(fields)
    {
      var (name, node) := ins[i];
      InputFieldsSnoc(ins, i);
      var f := FieldFor(node);
      if f.Err? {
        InputFieldsFails(ins, i + 1);
        return Err(f.error);
      }
      fields := Put(fields, name, f.value);
      i := i + 1;
    }
    assert ins[..i] == ins;
    return Ok(fields);
  }

  /** The loop of `retrieve_workflow_outputs` (lines 218-225): the files of each output, by name. */
  method CollectOutputs(outs: Graph, listing: seq<string>) returns (r: Result<Dict<string, Found>, TemplateError>)
    ensures r == CollectAll(outs, listing)
  {
    var found: Dict<string, Found> := [];
    var i := 0;
    while i < |outs|
      invariant 0 <= i <= |outs|
      invariant CollectAll(outs[..i], listing) == Ok(found)
    {
      var (k, node) := outs[i];
      CollectAllSnoc(outs, listing, i);
      if node.id.None? {
        CollectAllFails(outs, listing, i + 1);
        return Err(Missing("id"));
      }
      found := Put(found, k, Collect(listing, node.id.value + "_"));
      i := i + 1;
    }
    assert outs[..i] == outs;
    return Ok(found);
  }

  class Workflow {
    /** The API-format workflow: node id to node, in file order. */
    var nodes: Graph

    constructor(g: Graph)
      ensures nodes == g
    {
      nodes := g;
    }

    /** The first loop of `_parse_workflow` (lines 80-83): the link map, or the error `tuple(v)` raises as a key. */
    method LinkMap() returns (r: Result<Dict<LinkKey, Consumer>, ParseError>)
      ensures LinksHashable(nodes) ==> r == Ok(DepMap(nodes))
      ensures !LinksHashable(nodes) ==> r == Err(UnhashableLink)
    {
      var dep: Dict<LinkKey, Consumer> := [];
      var i := 0;
      while i < |nodes|
        invariant 0 <= i <= |nodes|
        invariant LinksHashable(nodes[..i])
        invariant dep == PutAll([], GraphLinks(nodes[..i]))
      {
        var (cid, node) := nodes[i];
        GraphLinksSnoc(nodes, i);
        var d := AddLinks(dep, cid, node.inputs);
        if d.Err? {
          return Err(UnhashableLink);
        }
        PutAllAppend([], GraphLinks(nodes[..i]), InputLinks(cid, node.inputs));
        dep := d.value;
        i := i + 1;
      }
      assert nodes[..i] == nodes;
      return Ok(dep);
    }

    /**
     * `_parse_workflow(self)`: the `(inputs, outputs)` pair or the error, and
     * the workflow with each node visited by the second loop stamped with its
     * id, in place.
     */
    method Parse() returns (r: Result<(Graph, Graph), ParseError>)
      modifies this
      ensures r == ParseResult(old(nodes))
      ensures nodes == StampFirst(old(nodes), ParseStamped(old(nodes)))
    {
      ghost var g := nodes;
      assert StampFirst(g, 0) == g;
      if HasKey(nodes, LEGACY_KEY) {
        return Err(LegacyFormat);
      }
      var d := LinkMap();
      if d.Err? {
        return Err(d.error);
      }
      var dep := d.value;
      var ins: Graph := [];
      var outs: Graph := [];
      ghost var st := Empty;
      var i := 0;
      while i < |nodes|
        invariant 0 <= i <= |g| == |nodes|
        invariant nodes == StampFirst(g, i)
        invariant SortAll(g[..i], dep) == Ok(st)
        invariant ins == st.ins && outs == st.outs
      {
        var (key, node) := nodes[i];
        assert (key, node) == g[i];
        node := node.(id := Some(key));
        nodes := nodes[i := (key, node)];
        assert nodes == StampFirst(g, i + 1);
        SortAllSnoc(g, dep, i);
        var sorted := SortNode(ins, outs, key, node, dep, st, g[i].1);
        if sorted.Err? {
          SortAllFails(g, dep, i + 1);
          return Err(sorted.error);
        }
        ins, outs := sorted.value.0, sorted.value.1;
        st := Step(st, key, g[i].1, dep).value;
        i := i + 1;
      }
      assert g[..i] == g;
      return Ok((ins, outs));
    }

    /** `generate_input_model(self)`: the fields of the model, one per input node, or the error. */
    method GenerateInputModel() returns (r: Result<Dict<string, FieldKind>, TemplateError>)
      modifies this
      ensures r == InputModelResult(old(nodes))
      ensures nodes == StampFirst(old(nodes), ParseStamped(old(nodes)))
    {
      var p := Parse();
      if p.Err? {
        return Err(ParseFailed(p.error));
      }
      var fields := InputModelFields(p.value.0);
      if fields.Err? {
        return Err(SchemaFailed(fields.error));
      }
      return Ok(fields.value);
    }

    /**
     * `populate_workflow(self, output_path, session_id, **args)`: sets each
     * argument into its input node and points each saving output node at
     * `output_path`, in place; the workflow afterwards and the result are
     * those of `PopulateRun`, also when an error is raised part way.
     */
    method Populate(outputPath: PurePath, sessionId: string, args: Dict<string, Arg>) returns (r: Result<Graph, TemplateError>)
      modifies this
      ensures (nodes, r) == PopulateRun(old(nodes), outputPath, sessionId, args)
    {
      var p := Parse();
      if p.Err? {
        return Err(ParseFailed(p.error));
      }
      var (ins, outs) := p.value;
      var e := SetArgs(ins, args);
      if e.Some? {
        return Err(e.value);
      }
      e := Redirect(outs, outputPath, sessionId);
      if e.Some? {
        return Err(e.value);
      }
      return Ok(nodes);
    }

    /** The first loop of `populate_workflow` (lines 180-184), stopping at the first error it raises. */
    method SetArgs(ins: Graph, args: Dict<string, Arg>) returns (e: Option<TemplateError>)
      modifies this
      ensures (nodes, e) == ApplyArgs(old(nodes), ins, args)
    {
      ghost var g := nodes;
      for i := 0 to |args|
        invariant ApplyArgs(g, ins, args[..i]) == (nodes, None)
      {
        ApplyArgsSnoc(g, ins, args, i);
        e := SetArg(ins, args[i].0, args[i].1);
        if e.Some? {
          ApplyArgsStop(g, ins, args, i + 1);
          return;
        }
      }
      assert args[..|args|] == args;
      e := None;
    }

    /** One argument `k=a` set into the first input slot of its node (lines 181-184). */
    method SetArg(ins: Graph, k: string, a: Arg) returns (e: Option<TemplateError>)
      modifies this
      ensures (nodes, e) == ApplyArg(old(nodes), ins, k, a)
    {
      var node := Get(ins, k);
      if node.None? {
        return Some(UnknownInput(k));
      }
      if !StartsWith(node.value.classType, INPUT_PREFIX) {
        return Some(NotInputNode(k));
      }
      if node.value.id.None? {
        return Some(Missing("id"));
      }
      var nid := node.value.id.value;
      var target := Get(nodes, nid);
      if target.None? {
        return Some(Missing(nid));
      }
      var n := target.value;
      if n.inputs == [] {
        return Some(TemplateError.NoInputSlot(k));
      }
      var slot := n.inputs[0].0;
      var value := if a.PathArg? then JStr(AsPosix(a.p)) else a.v;
      nodes := Put(nodes, nid, n.(inputs := Put(n.inputs, slot, value)));
      return None;
    }

    /** The second loop of `populate_workflow` (lines 186-191) over the output nodes `outs`. */
    method Redirect(outs: Graph, outputPath: PurePath, sessionId: string) returns (e: Option<TemplateError>)
      modifies this
      ensures (nodes, e) == ApplyOutputs(old(nodes), outs, outputPath, sessionId)
    {
      ghost var g := nodes;
      for j := 0 to |outs|
        invariant ApplyOutputs(g, outs[..j], outputPath, sessionId) == (nodes, None)
      {
        ApplyOutputsSnoc(g, outs, outputPath, sessionId, j);
        e := RedirectOne(outs[j].1, outputPath, sessionId);
        if e.Some? {
          ApplyOutputsStop(g, outs, outputPath, sessionId, j + 1);
          return;
        }
      }
      assert outs[..|outs|] == outs;
      e := None;
    }

    /** One output node pointed at `output_path / "<session><id>_"` when it is of a saving class (lines 187-191). */
    method RedirectOne(node: Node, outputPath: PurePath, sessionId: string) returns (e: Option<TemplateError>)
      modifies this
      ensures (nodes, e) == ApplyOutput(old(nodes), node, outputPath, sessionId)
    {
      if node.id.None? {
        return Some(Missing("id"));
      }
      var nid := node.id.value;
      if node.classType in OUTPUT_NODES {
        var target := Get(nodes, nid);
        if target.None? {
          return Some(Missing(nid));
        }
        var n := target.value;
        var prefix := AsPosix(Div(outputPath, sessionId + nid + "_"));
        nodes := Put(nodes, nid, n.(inputs := Put(n.inputs, PREFIX_SLOT, JStr(prefix))));
      }
      return None;
    }

    /**
     * `retrieve_workflow_outputs(self, output_path, session_id)` over the
     * names `listing` in the output directory.
     */
    method RetrieveOutputs(listing: seq<string>, sessionId: string) returns (r: Result<Produced, TemplateError>)
      modifies this
      ensures r == RetrieveResult(old(nodes), listing, sessionId)
      ensures nodes == StampFirst(old(nodes), ParseStamped(old(nodes)))
    {
      var p := Parse();
      if p.Err? {
        return Err(ParseFailed(p.error));
      }
      var outs := p.value.1;
      if |outs| != 1 {
        var found := CollectOutputs(outs, listing);
        if found.Err? {
          return Err(found.error);
        }
        return Ok(ByName(found.value));
      }
      var (name, node) := outs[0];
      if node.classType !in OUTPUT_NODES {
        return Err(NotOutputNode(name));
      }
      if node.id.None? {
        return Err(Missing("id"));
      }
      return Ok(Single(Collect(listing, sessionId + node.id.value + "_")));
    }
  }
}
