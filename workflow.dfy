/**
 * The API-format workflow and what `_parse_workflow` computes from it
 * (src/comfy_pack/utils.py:21-98): the reverse link map, node names, and the
 * two ordered maps of input and output nodes. The imperative parser that
 * stamps ids in place is `Templates.Workflow.Parse`; this module holds the
 * functions it is proved against and their properties.
 */
module WorkflowGraph {
  import opened Wrappers
  import opened PyStr
  import opened PyDict
  import opened Json
  import opened Identifiers

  /** A node's `_meta` object: its `title` and, for value inputs, `options`. */
  datatype Meta = Meta(title: Option<string>, options: Option<Json>)

  /**
   * One node of the workflow: `class_type`, its `inputs` dict, `_meta` when
   * present, and the `"id"` entry that the parser stamps into it.
   */
  datatype Node = Node(classType: string, inputs: Dict<string, Json>, meta: Option<Meta>, id: Option<string>)

  /** The workflow: node id to node, in file order. */
  type Graph = Dict<string, Node>

  /** A key of the link map: the hashed `(producer_id, slot)` pair. */
  type LinkKey = (HashKey, HashKey)

  /** The value stored in the link map: consumer node id and the input name that holds the link. */
  datatype Consumer = Consumer(node: string, input: string)

  datatype ParseError =
    | LegacyFormat           // ValueError(API_WORKFLOW_MESSAGE)
    | UnhashableLink         // TypeError from `tuple(v)` as a dict key
    | MissingKey(key: string) // KeyError

  const LEGACY_KEY := "last_node_id"
  const INPUT_PREFIX := "CPackInput"
  const OUTPUT_PREFIX := "CPackOutput"

  function Stamp(key: string, n: Node): Node {
    n.(id := Some(key))
  }

  predicate IsInputClass(n: Node) { StartsWith(n.classType, INPUT_PREFIX) }
  predicate IsOutputClass(n: Node) { !IsInputClass(n) && StartsWith(n.classType, OUTPUT_PREFIX) }

  /** An input value that is a link: a list of length two. */
  predicate IsLink(v: Json) { v.JList? && |v.items| == 2 }

  predicate HashableLink(v: Json) requires IsLink(v) {
    Hashable(v.items[0]) && Hashable(v.items[1])
  }

  function KeyOfLink(v: Json): LinkKey
    requires IsLink(v) && HashableLink(v)
  {
    (KeyOf(v.items[0]), KeyOf(v.items[1]))
  }

  // ---------------------------------------------------------------------
  // The link map (lines 80-83)

  /** Every link among the inputs `ins` can be hashed. */
  predicate InputsHashable(ins: Dict<string, Json>) {
    forall j :: 0 <= j < |ins| && IsLink(ins[j].1) ==> HashableLink(ins[j].1)
  }

  predicate LinksHashable(g: Graph) {
    forall i :: 0 <= i < |g| ==> InputsHashable(g[i].1.inputs)
  }

  /** The link-map assignments made by the inputs `ins` of node `cid`, in order. */
  function InputLinks(cid: string, ins: Dict<string, Json>): seq<(LinkKey, Consumer)>
    decreases |ins|
  {
    if ins == [] then []
    else
      var pre := InputLinks(cid, ins[..|ins| - 1]);
      var (name, v) := ins[|ins| - 1];
      if IsLink(v) && HashableLink(v) then pre + [(KeyOfLink(v), Consumer(cid, name))] else pre
  }

  /** One more input adds its link, if it is one, and that link must hash too. */
  lemma InputLinksSnoc(cid: string, ins: Dict<string, Json>, j: nat)
    requires j < |ins|
    ensures var v := ins[j].1;
      InputLinks(cid, ins[..j + 1]) == InputLinks(cid, ins[..j]) + if IsLink(v) && HashableLink(v) then [(KeyOfLink(v), Consumer(cid, ins[j].0))] else []
    ensures InputsHashable(ins[..j + 1]) <==> InputsHashable(ins[..j]) && (IsLink(ins[j].1) ==> HashableLink(ins[j].1))
  {
    assert ins[..j + 1][..j] == ins[..j];
    assert forall i :: 0 <= i < j ==> ins[..j + 1][i] == ins[..j][i];
  }

  /** The link-map assignments of the whole graph, in traversal order. */
  function GraphLinks(g: Graph): seq<(LinkKey, Consumer)>
    decreases |g|
  {
    if g == [] then []
    else GraphLinks(g[..|g| - 1]) + InputLinks(g[|g| - 1].0, g[|g| - 1].1.inputs)
  }

  /** One more node adds the links among its inputs, and its links must hash too. */
  lemma GraphLinksSnoc(g: Graph, i: nat)
    requires i < |g|
    ensures GraphLinks(g[..i + 1]) == GraphLinks(g[..i]) + InputLinks(g[i].0, g[i].1.inputs)
    ensures LinksHashable(g[..i + 1]) <==> LinksHashable(g[..i]) && InputsHashable(g[i].1.inputs)
  {
    assert g[..i + 1][..i] == g[..i];
    assert forall j :: 0 <= j < i ==> g[..i + 1][j] == g[..i][j];
  }

  /** `dep_map` after the first loop. */
  function DepMap(g: Graph): Dict<LinkKey, Consumer> {
    PutAll([], GraphLinks(g))
  }

  // ---------------------------------------------------------------------
  // Names (lines 47-59)

  /** The link-map key `(nid, 0)`. */
  function FirstSlot(nid: string): LinkKey {
    (KStr(nid), KNum(0.0))
  }

  /** `_get_node_identifier(node, dep_map)` */
  function NodeIdentifier(n: Node, dep: Option<Dict<LinkKey, Consumer>>): Result<string, ParseError> {
    if n.meta.None? then Err(MissingKey("_meta"))
    else if n.meta.value.title.None? then Err(MissingKey("title"))
    else
      var title := n.meta.value.title.value;
      if IsIdentifier(title) then Ok(title)
      else if n.id.None? then Err(MissingKey("id"))
      else
        var nid := n.id.value;
        if dep.Some? && dep.value != [] && HasKey(dep.value, FirstSlot(nid)) then
          Ok(Normalize(Get(dep.value, FirstSlot(nid)).value.input))
        else Ok(Normalize(title))
  }

  /**
   * The name precedence of `_get_node_identifier`: a title that is an
   * identifier is kept as is; otherwise the input name of the node consuming
   * slot 0 of this node, normalised; otherwise the normalised title.
   */
  lemma NodeIdentifierPrecedence(n: Node, dep: Option<Dict<LinkKey, Consumer>>, title: string, nid: string)
    requires n.meta.Some? && n.meta.value.title == Some(title) && n.id == Some(nid)
    ensures IsIdentifier(title) ==> NodeIdentifier(n, dep) == Ok(title)
    ensures !IsIdentifier(title) && dep.Some? && HasKey(dep.value, FirstSlot(nid))
      ==> NodeIdentifier(n, dep) == Ok(Normalize(Get(dep.value, FirstSlot(nid)).value.input))
    ensures !IsIdentifier(title) && (dep.None? || !HasKey(dep.value, FirstSlot(nid)))
      ==> NodeIdentifier(n, dep) == Ok(Normalize(title))
    ensures NodeIdentifier(n, dep).Ok?
  {
  }

  /** A name the parser derives is an identifier as given, or a normalised name. */
  lemma NodeIdentifierShape(n: Node, dep: Option<Dict<LinkKey, Consumer>>)
    requires NodeIdentifier(n, dep).Ok?
    ensures var name := NodeIdentifier(n, dep).value; IsIdentifier(name) || WellFormedName(name)
  {
    var title := n.meta.value.title.value;
    if !IsIdentifier(title) {
      var nid := n.id.value;
      if dep.Some? && dep.value != [] && HasKey(dep.value, FirstSlot(nid)) {
        NormalizeWellFormed(Get(dep.value, FirstSlot(nid)).value.input);
      } else {
        NormalizeWellFormed(title);
      }
    }
  }

  // ---------------------------------------------------------------------
  // Sorting nodes into inputs and outputs (lines 85-96)

  /**
   * The state of the second loop: the `inputs` and `outputs` dicts and, for
   * the proofs, every assignment made to each of them so far.
   */
  datatype Sorted = Sorted(ins: Graph, outs: Graph, insAsg: seq<(string, Node)>, outsAsg: seq<(string, Node)>)

  const Empty := Sorted([], [], [], [])

  /** The key a node with derived name `name` is stored under: suffixed when `inputs` already has it. */
  function StoredName(ins: Graph, name: string, key: string): string {
    if HasKey(ins, name) then name + "_" + key else name
  }

  /** One iteration of the second loop, for the node stored under `key`. */
  function Step(st: Sorted, key: string, node: Node, dep: Dict<LinkKey, Consumer>): Result<Sorted, ParseError> {
    var n := Stamp(key, node);
    if IsInputClass(n) then
      var name :- NodeIdentifier(n, Some(dep));
      var s := StoredName(st.ins, name, key);
      Ok(st.(ins := Put(st.ins, s, n), insAsg := st.insAsg + [(s, n)]))
    else if IsOutputClass(n) then
      var name :- NodeIdentifier(n, None);
      var s := StoredName(st.ins, name, key);
      Ok(st.(outs := Put(st.outs, s, n), outsAsg := st.outsAsg + [(s, n)]))
    else Ok(st)
  }

  /** The second loop over a prefix of the graph. */
  function SortAll(g: Graph, dep: Dict<LinkKey, Consumer>): Result<Sorted, ParseError>
    decreases |g|
  {
    if g == [] then Ok(Empty)
    else
      var st :- SortAll(g[..|g| - 1], dep);
      Step(st, g[|g| - 1].0, g[|g| - 1].1, dep)
  }

  /** How many nodes the second loop stamped: all of them, or up to and including the one that failed. */
  function SortStamped(g: Graph, dep: Dict<LinkKey, Consumer>): (k: nat)
    ensures k <= |g|
    decreases |g|
  {
    if g == [] then 0
    else if SortAll(g[..|g| - 1], dep).Err? then SortStamped(g[..|g| - 1], dep)
    else |g|
  }

  /** Both loops of `_parse_workflow`, with the assignments they made. */
  function ParseRecord(g: Graph): Result<Sorted, ParseError> {
    if HasKey(g, LEGACY_KEY) then Err(LegacyFormat)
    else if !LinksHashable(g) then Err(UnhashableLink)
    else SortAll(g, DepMap(g))
  }

  /** `_parse_workflow(workflow)`: the `(inputs, outputs)` pair or the error raised. */
  function ParseResult(g: Graph): Result<(Graph, Graph), ParseError> {
    var st :- ParseRecord(g);
    Ok((st.ins, st.outs))
  }

  /** How many nodes `_parse_workflow` stamps with their id, from the front. */
  function ParseStamped(g: Graph): nat {
    if HasKey(g, LEGACY_KEY) || !LinksHashable(g) then 0 else SortStamped(g, DepMap(g))
  }

  /** The graph with the ids of its first `k` nodes stamped. */
  function StampFirst(g: Graph, k: nat): (r: Graph)
    ensures |r| == |g| && Keys(r) == Keys(g)
  {
    seq(|g|, i requires 0 <= i < |g| => if i < k then (g[i].0, Stamp(g[i].0, g[i].1)) else g[i])
  }

  // ---------------------------------------------------------------------
  // Properties of the parse

  /** The stamped input-class nodes of a graph, in order. */
  function InputNodes(g: Graph): seq<Node>
    decreases |g|
  {
    if g == [] then []
    else
      var n := Stamp(g[|g| - 1].0, g[|g| - 1].1);
      InputNodes(g[..|g| - 1]) + if IsInputClass(n) then [n] else []
  }

  /** The stamped output-class nodes of a graph, in order. */
  function OutputNodes(g: Graph): seq<Node>
    decreases |g|
  {
    if g == [] then []
    else
      var n := Stamp(g[|g| - 1].0, g[|g| - 1].1);
      OutputNodes(g[..|g| - 1]) + if IsOutputClass(n) then [n] else []
  }

  function Values<K, V>(d: seq<(K, V)>): (r: seq<V>)
    ensures |r| == |d| && forall i :: 0 <= i < |d| ==> r[i] == d[i].1
    decreases |d|
  {
    if d == [] then [] else [d[0].1] + Values(d[1..])
  }

  /** A stamped node whose id is its key in the graph. */
  predicate StampedFrom(g: Graph, n: Node) {
    exists i :: 0 <= i < |g| && n == Stamp(g[i].0, g[i].1)
  }

  /** `inputs` and `outputs` are what the assignments made so far leave behind. */
  predicate Coherent(st: Sorted) {
    st.ins == PutAll([], st.insAsg) && st.outs == PutAll([], st.outsAsg)
  }

  /** One step assigns the stamped node once, to the side its class names. */
  lemma StepShape(st: Sorted, key: string, node: Node, dep: Dict<LinkKey, Consumer>)
    requires Step(st, key, node, dep).Ok?
    ensures var st' := Step(st, key, node, dep).value; var n := Stamp(key, node);
      && (Coherent(st) ==> Coherent(st'))
      && Values(st'.insAsg) == Values(st.insAsg) + (if IsInputClass(n) then [n] else [])
      && Values(st'.outsAsg) == Values(st.outsAsg) + (if IsOutputClass(n) then [n] else [])
  {
    var n := Stamp(key, node);
    if IsInputClass(n) {
      StepInput(st, key, node, dep);
    } else if IsOutputClass(n) {
      StepOutput(st, key, node, dep);
    }
  }

  /** One more assignment: one more value, and one more `Put` on the dictionary. */
  lemma AssignSnoc(asg: seq<(string, Node)>, s: string, n: Node)
    ensures Values(asg + [(s, n)]) == Values(asg) + [n]
    ensures PutAll([], asg + [(s, n)]) == Put(PutAll([], asg), s, n)
  {
    ValuesAppend(asg, [(s, n)]);
    PutAllSnoc([], asg, s, n);
  }

  /** An input-class node is assigned to `inputs` under its stored name. */
  lemma StepInput(st: Sorted, key: string, node: Node, dep: Dict<LinkKey, Consumer>)
    requires Step(st, key, node, dep).Ok? && IsInputClass(Stamp(key, node))
    ensures var st' := Step(st, key, node, dep).value; var n := Stamp(key, node);
      && (Coherent(st) ==> Coherent(st'))
      && Values(st'.insAsg) == Values(st.insAsg) + [n]
      && st'.outsAsg == st.outsAsg && st'.outs == st.outs
  {
    var n := Stamp(key, node);
    var s := StoredName(st.ins, NodeIdentifier(n, Some(dep)).value, key);
    assert Step(st, key, node, dep).value == st.(ins := Put(st.ins, s, n), insAsg := st.insAsg + [(s, n)]);
    AssignSnoc(st.insAsg, s, n);
  }

  /** An output-class node is assigned to `outputs` under its stored name. */
  lemma StepOutput(st: Sorted, key: string, node: Node, dep: Dict<LinkKey, Consumer>)
    requires Step(st, key, node, dep).Ok? && !IsInputClass(Stamp(key, node)) && IsOutputClass(Stamp(key, node))
    ensures var st' := Step(st, key, node, dep).value; var n := Stamp(key, node);
      && (Coherent(st) ==> Coherent(st'))
      && Values(st'.outsAsg) == Values(st.outsAsg) + [n]
      && st'.insAsg == st.insAsg && st'.ins == st.ins
  {
    var n := Stamp(key, node);
    var s := StoredName(st.ins, NodeIdentifier(n, None).value, key);
    assert Step(st, key, node, dep).value == st.(outs := Put(st.outs, s, n), outsAsg := st.outsAsg + [(s, n)]);
    AssignSnoc(st.outsAsg, s, n);
  }

  /**
   * The second loop assigns each input-class node and each output-class
   * node exactly once, in graph order, and `inputs`/`outputs` are what those
   * assignments leave behind.
   */
  lemma {:induction false} SortAllShape(g: Graph, dep: Dict<LinkKey, Consumer>)
    requires SortAll(g, dep).Ok?
    ensures var st := SortAll(g, dep).value;
      && Coherent(st)
      && Values(st.insAsg) == InputNodes(g) && Values(st.outsAsg) == OutputNodes(g)
    decreases |g|
  {
    if g != [] {
      var pre := g[..|g| - 1];
      SortAllShape(pre, dep);
      StepShape(SortAll(pre, dep).value, g[|g| - 1].0, g[|g| - 1].1, dep);
    }
  }

  lemma ValuesAppend<K, V>(a: seq<(K, V)>, b: seq<(K, V)>)
    ensures Values(a + b) == Values(a) + Values(b)
  {
  }

  /** One more node in the second loop: its step, unless an earlier node failed. */
  lemma SortAllSnoc(g: Graph, dep: Dict<LinkKey, Consumer>, i: nat)
    requires i < |g|
    ensures var a := SortAll(g[..i], dep);
      SortAll(g[..i + 1], dep) == if a.Err? then a else Step(a.value, g[i].0, g[i].1, dep)
    ensures SortStamped(g[..i + 1], dep) == if SortAll(g[..i], dep).Err? then SortStamped(g[..i], dep) else i + 1
  {
    assert g[..i + 1][..i] == g[..i];
  }

  /** A failure in the second loop at node `k - 1` is the result of the whole loop. */
  lemma {:induction false} SortAllFails(g: Graph, dep: Dict<LinkKey, Consumer>, k: nat)
    requires k <= |g| && SortAll(g[..k], dep).Err?
    ensures SortAll(g, dep) == SortAll(g[..k], dep)
    ensures SortStamped(g, dep) == SortStamped(g[..k], dep)
    decreases |g| - k
  {
    if k < |g| {
      var pre := g[..|g| - 1];
      assert pre[..k] == g[..k];
      SortAllFails(pre, dep, k);
    } else {
      assert g[..k] == g;
    }
  }

  /** A successful parse stamps every node. */
  lemma ParseStampsAll(g: Graph)
    requires ParseResult(g).Ok?
    ensures ParseStamped(g) == |g|
    ensures forall i :: 0 <= i < |g| ==> StampFirst(g, ParseStamped(g))[i].1.id == Some(g[i].0)
  {
    if g != [] {
      var dep := DepMap(g);
      assert SortAll(g, dep).Ok?;
      assert SortAll(g[..|g| - 1], dep).Ok?;
    }
  }

  /** The legacy export is refused before any node is touched. */
  lemma ParseRejectsLegacy(g: Graph)
    requires HasKey(g, LEGACY_KEY)
    ensures ParseResult(g) == Err(LegacyFormat)
    ensures StampFirst(g, ParseStamped(g)) == g
  {
  }

  /** The nodes of a prefix of the graph, stamped, are stamped nodes of the graph. */
  lemma StampedFromPrefix(g: Graph, k: nat, n: Node)
    requires k <= |g| && StampedFrom(g[..k], n)
    ensures StampedFrom(g, n)
  {
    var i :| 0 <= i < k && n == Stamp(g[..k][i].0, g[..k][i].1);
    assert g[i] == g[..k][i];
  }

  /** `InputNodes` and `OutputNodes` hold stamped nodes of the graph of the right class. */
  lemma {:induction false} SidesFrom(g: Graph)
    ensures forall n :: n in InputNodes(g) ==> IsInputClass(n) && StampedFrom(g, n)
    ensures forall n :: n in OutputNodes(g) ==> IsOutputClass(n) && StampedFrom(g, n)
    decreases |g|
  {
    if g != [] {
      var k := |g| - 1;
      var pre := g[..k];
      SidesFrom(pre);
      forall n | n in InputNodes(pre) || n in OutputNodes(pre) ensures StampedFrom(g, n) {
        StampedFromPrefix(g, k, n);
      }
      assert Stamp(g[k].0, g[k].1) == Stamp(g[k].0, g[k].1) && StampedFrom(g, Stamp(g[k].0, g[k].1));
    }
  }

  /**
   * After `_parse_workflow`, `inputs` holds only stamped input-class nodes of
   * the workflow and `outputs` only stamped output-class nodes; a node of any
   * other class is in neither, and no node is in both.
   */
  lemma ParseSorts(g: Graph)
    requires ParseResult(g).Ok?
    ensures var (ins, outs) := ParseResult(g).value;
      && DistinctKeys(ins) && DistinctKeys(outs)
      && (forall e :: e in ins ==> IsInputClass(e.1) && StampedFrom(g, e.1))
      && (forall e :: e in outs ==> IsOutputClass(e.1) && StampedFrom(g, e.1))
  {
    var st := ParseRecord(g).value;
    SortAllShape(g, DepMap(g));
    SidesFrom(g);
    AssignedFrom(st.insAsg, InputNodes(g));
    AssignedFrom(st.outsAsg, OutputNodes(g));
  }

  /** The dictionary built by assigning `asg` in order has distinct keys, and each of its values was assigned. */
  lemma AssignedFrom(asg: seq<(string, Node)>, nodes: seq<Node>)
    requires Values(asg) == nodes
    ensures DistinctKeys(PutAll([], asg))
    ensures forall e :: e in PutAll([], asg) ==> e.1 in nodes
  {
    PutAllDistinct([], asg);
    PutAllFrom([], asg);
    forall e | e in PutAll([], asg) ensures e.1 in nodes {
      var j :| 0 <= j < |asg| && asg[j] == e;
      assert Values(asg)[j] == e.1;
    }
  }

  /**
   * Every input-class node is assigned to `inputs` once, in graph order, and
   * stays there unless a later node is stored under the same key; likewise
   * for output-class nodes and `outputs`.
   */
  lemma ParseKeepsLast(g: Graph, j: nat)
    requires ParseRecord(g).Ok?
    ensures var st := ParseRecord(g).value;
      && Values(st.insAsg) == InputNodes(g) && Values(st.outsAsg) == OutputNodes(g)
      && (j < |st.insAsg| && LastAssigned(st.insAsg, j, st.insAsg[j].0)
          ==> Get(st.ins, st.insAsg[j].0) == Some(InputNodes(g)[j]))
      && (j < |st.outsAsg| && LastAssigned(st.outsAsg, j, st.outsAsg[j].0)
          ==> Get(st.outs, st.outsAsg[j].0) == Some(OutputNodes(g)[j]))
  {
    var st := ParseRecord(g).value;
    SortAllShape(g, DepMap(g));
    if j < |st.insAsg| && LastAssigned(st.insAsg, j, st.insAsg[j].0) {
      PutAllLastWins([], st.insAsg, j, st.insAsg[j].0);
    }
    if j < |st.outsAsg| && LastAssigned(st.outsAsg, j, st.outsAsg[j].0) {
      PutAllLastWins([], st.outsAsg, j, st.outsAsg[j].0);
    }
  }

  /**
   * An input node whose derived name is already a key of `inputs` is stored
   * under `name_<id>`, and the earlier node keeps the plain name.
   */
  lemma InputCollisionSuffixed(st: Sorted, key: string, node: Node, dep: Dict<LinkKey, Consumer>, name: string)
    requires IsInputClass(Stamp(key, node))
    requires NodeIdentifier(Stamp(key, node), Some(dep)) == Ok(name) && HasKey(st.ins, name)
    ensures Step(st, key, node, dep).Ok?
    ensures var st' := Step(st, key, node, dep).value;
      && Get(st'.ins, name + "_" + key) == Some(Stamp(key, node))
      && Get(st'.ins, name) == Get(st.ins, name)
      && st'.outs == st.outs
  {
    assert name != name + "_" + key by {
      assert |name + "_" + key| > |name|;
    }
    PutGet(st.ins, name + "_" + key, Stamp(key, node), name + "_" + key);
    PutGet(st.ins, name + "_" + key, Stamp(key, node), name);
  }

  /**
   * An output node is checked against `inputs`, not `outputs`: when its name
   * is already an output but not an input, it replaces that output under the
   * same key.
   */
  lemma OutputCollisionReplaces(st: Sorted, key: string, node: Node, dep: Dict<LinkKey, Consumer>, name: string)
    requires IsOutputClass(Stamp(key, node))
    requires NodeIdentifier(Stamp(key, node), None) == Ok(name)
    requires !HasKey(st.ins, name) && HasKey(st.outs, name)
    ensures Step(st, key, node, dep).Ok?
    ensures var st' := Step(st, key, node, dep).value;
      && st'.outs == Put(st.outs, name, Stamp(key, node))
      && Keys(st'.outs) == Keys(st.outs)
      && Get(st'.outs, name) == Some(Stamp(key, node))
      && st'.ins == st.ins
  {
    PutKeys(st.outs, name, Stamp(key, node));
    PutGet(st.outs, name, Stamp(key, node), name);
  }

  /** When several inputs link the same `(producer, slot)`, the link map keeps the one traversed last. */
  lemma DepMapLastWins(g: Graph, j: nat)
    requires j < |GraphLinks(g)| && LastAssigned(GraphLinks(g), j, GraphLinks(g)[j].0)
    ensures Get(DepMap(g), GraphLinks(g)[j].0) == Some(GraphLinks(g)[j].1)
  {
    PutAllLastWins([], GraphLinks(g), j, GraphLinks(g)[j].0);
  }

  /** The link map has a key exactly when some input links it. */
  lemma DepMapKeys(g: Graph, k: LinkKey)
    ensures HasKey(DepMap(g), k) <==> k in Keys(GraphLinks(g))
  {
    PutAllHasKey([], GraphLinks(g), k);
  }

  /** Input `j` of `ins` holds a link whose key and input name are those of the assignment `a`. */
  predicate LinkedAt(ins: Dict<string, Json>, j: int, a: (LinkKey, Consumer)) {
    0 <= j < |ins| && ins[j].0 == a.1.input && IsLink(ins[j].1)
    && HashableLink(ins[j].1) && KeyOfLink(ins[j].1) == a.0
  }

  /** Every link-map assignment comes from an input of that node holding a link with that key. */
  lemma {:induction false} InputLinksSound(cid: string, ins: Dict<string, Json>)
    ensures forall a :: a in InputLinks(cid, ins) ==> a.1.node == cid && exists j :: LinkedAt(ins, j, a)
    decreases |ins|
  {
    if ins != [] {
      var k := |ins| - 1;
      var pre := ins[..k];
      InputLinksSound(cid, pre);
      forall a | a in InputLinks(cid, ins) ensures a.1.node == cid && exists j :: LinkedAt(ins, j, a) {
        if a in InputLinks(cid, pre) {
          var j :| LinkedAt(pre, j, a);
          assert ins[j] == pre[j];
          assert LinkedAt(ins, j, a);
        } else {
          assert LinkedAt(ins, k, a);
        }
      }
    }
  }
}
