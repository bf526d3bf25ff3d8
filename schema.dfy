/**
 * The field description `generate_input_model` builds for each input node
 * (src/comfy_pack/utils.py:108-156), as a closed union of field kinds in
 * place of the pydantic model class.
 */
module Schema {
  import opened Wrappers
  import opened PyDict
  import opened Json
  import opened WorkflowGraph

  const PATH_INPUT_NODES: set<string> := {"CPackInputFile", "CPackInputImage"}
  const VALUE_INPUT := "CPackInputValue"
  const NUMBER_OPTIONS: seq<string> := ["min", "max", "round", "precision", "step"]

  /** The kinds of field a workflow input can become. */
  datatype FieldKind =
    | PathField                                      // `(Path, Field())`: required
    | TypedField(ty: PyType, default: Json)          // `(type(value), Field(default=value))`
    | ChoiceField(choices: seq<Json>, default: Json) // `(Literal[tuple(values)], Field(default=value))`
    | NumberField(isFloat: bool, default: Json, ge: Option<Json>, le: Option<Json>)

  datatype SchemaError =
    | Unsupported(classType: string) // ValueError: unsupported class type
    | NoInputSlot                    // StopIteration from `_get_node_value`
    | OptionsNotDict                 // AttributeError: truthy `options` without `.get`
    | NotIterable                    // TypeError from `tuple(values)`
    | NotComparable                  // TypeError from `round < 1`

  /** `tuple(v)`: the items of a list, the characters of a string, the keys of a dict. */
  function Elements(v: Json): (r: Result<seq<Json>, SchemaError>)
    ensures r.Ok? <==> v.JList? || v.JStr? || v.JObject?
    ensures v.JList? ==> r == Ok(v.items)
  {
    match v
    case JList(xs) => Ok(xs)
    case JStr(s) => Ok(seq(|s|, i requires 0 <= i < |s| => JStr([s[i]])))
    case JObject(fs) => Ok(seq(|fs|, i requires 0 <= i < |fs| => JStr(fs[i].0)))
    case _ => Err(NotIterable)
  }

  /** `_get_node_value(node)`: the value of the first input slot. */
  function NodeValue(n: Node): (r: Option<Json>)
    ensures r.Some? <==> n.inputs != []
  {
    if n.inputs == [] then None else Some(n.inputs[0].1)
  }

  /** `node.get("_meta", {}).get("options")` */
  function Options(n: Node): Option<Json> {
    if n.meta.Some? then n.meta.value.options else None
  }

  predicate HasNumberOption(opts: Dict<string, Json>) {
    exists i :: 0 <= i < |NUMBER_OPTIONS| && HasKey(opts, NUMBER_OPTIONS[i])
  }

  /** `options.get("round", 1)` */
  function Round(opts: Dict<string, Json>): Json {
    var r := Get(opts, "round");
    if r.Some? then r.value else JInt(1)
  }

  /** The field for a value input with options `opts` and current value `value` (lines 137-152). */
  function OptionField(opts: Dict<string, Json>, value: Json): Result<FieldKind, SchemaError> {
    var values := Get(opts, "values");
    if values.Some? && Truthy(values.value) then
      var cs :- Elements(values.value);
      Ok(ChoiceField(cs, value))
    else if HasNumberOption(opts) then
      var round := Round(opts);
      if !IsNumber(round) then Err(NotComparable)
      else Ok(NumberField(NumValue(round) < 1.0, value, Get(opts, "min"), Get(opts, "max")))
    else Ok(TypedField(TypeOf(value), value))
  }

  /** The per-node dispatch of `generate_input_model` (lines 128-154). */
  function FieldFor(n: Node): Result<FieldKind, SchemaError> {
    if n.classType in PATH_INPUT_NODES then Ok(PathField)
    else if n.classType == VALUE_INPUT then
      var options := Options(n);
      if NodeValue(n).None? then Err(NoInputSlot)
      else
        var value := NodeValue(n).value;
        if options.None? || !Truthy(options.value) then Ok(TypedField(TypeOf(value), value))
        else if !options.value.JObject? then Err(OptionsNotDict)
        else OptionField(options.value.fields, value)
    else Err(Unsupported(n.classType))
  }

  /** The fields of all input nodes, by name, in order; the first failure aborts. */
  function InputFields(ins: Graph): Result<Dict<string, FieldKind>, SchemaError>
    decreases |ins|
  {
    if ins == [] then Ok([])
    else
      var fs :- InputFields(ins[..|ins| - 1]);
      var f :- FieldFor(ins[|ins| - 1].1);
      Ok(Put(fs, ins[|ins| - 1].0, f))
  }

  // ---------------------------------------------------------------------
  // Properties

  /** A file or image input is a required path field, and nothing else is. */
  lemma PathFieldExactly(n: Node)
    ensures FieldFor(n) == Ok(PathField) <==> n.classType in PATH_INPUT_NODES
  {
    if n.classType !in PATH_INPUT_NODES && n.classType == VALUE_INPUT && NodeValue(n).Some? {
      var options := Options(n);
      if options.Some? && Truthy(options.value) && options.value.JObject? {
        var opts := options.value.fields;
        var values := Get(opts, "values");
        if values.Some? && Truthy(values.value) {
          assert OptionField(opts, NodeValue(n).value).Ok? ==> OptionField(opts, NodeValue(n).value).value.ChoiceField?;
        }
      }
    }
  }

  /** Only the three input classes have fields; any other input class is refused. */
  lemma UnsupportedExactly(n: Node)
    ensures FieldFor(n) == Err(Unsupported(n.classType)) <==> n.classType !in PATH_INPUT_NODES && n.classType != VALUE_INPUT
  {
    var options := Options(n);
    if n.classType == VALUE_INPUT && NodeValue(n).Some? && options.Some? && Truthy(options.value) && options.value.JObject? {
      var opts := options.value.fields;
      var values := Get(opts, "values");
      if values.Some? && Truthy(values.value) {
        assert Elements(values.value).Err? ==> Elements(values.value).error == NotIterable;
      }
    }
  }

  /** Every field of a value input has the node's first input value as its default. */
  lemma DefaultIsNodeValue(n: Node)
    requires FieldFor(n).Ok? && !FieldFor(n).value.PathField?
    ensures NodeValue(n).Some? && FieldFor(n).value.default == NodeValue(n).value
  {
  }

  /** A value input without truthy options is typed by its value, with that value as default. */
  lemma NoOptionsTyped(n: Node, value: Json)
    requires n.classType == VALUE_INPUT && NodeValue(n) == Some(value)
    requires Options(n).None? || !Truthy(Options(n).value)
    ensures FieldFor(n) == Ok(TypedField(TypeOf(value), value))
  {
  }

  /** Non-empty `values` make a choice over those values, and a choice arises only from them. */
  lemma ChoiceFromValues(opts: Dict<string, Json>, value: Json)
    ensures OptionField(opts, value).Ok? && OptionField(opts, value).value.ChoiceField?
      <==> Get(opts, "values").Some? && Truthy(Get(opts, "values").value) && Elements(Get(opts, "values").value).Ok?
    ensures Get(opts, "values").Some? && Get(opts, "values").value.JList? && Truthy(Get(opts, "values").value)
      ==> OptionField(opts, value) == Ok(ChoiceField(Get(opts, "values").value.items, value))
  {
  }

  /**
   * A number field is float exactly when `round` is below 1; without a
   * `round` option it is an int. Its bounds are `min` and `max` when given.
   */
  lemma NumberKind(opts: Dict<string, Json>, value: Json)
    requires !(Get(opts, "values").Some? && Truthy(Get(opts, "values").value))
    requires HasNumberOption(opts)
    ensures !HasKey(opts, "round") ==> OptionField(opts, value) == Ok(NumberField(false, value, Get(opts, "min"), Get(opts, "max")))
    ensures HasKey(opts, "round") && IsNumber(Get(opts, "round").value)
      ==> OptionField(opts, value) == Ok(NumberField(NumValue(Get(opts, "round").value) < 1.0, value, Get(opts, "min"), Get(opts, "max")))
    ensures HasKey(opts, "round") && !IsNumber(Get(opts, "round").value) ==> OptionField(opts, value) == Err(NotComparable)
  {
  }

  /** Options such as `{min: 0, max: 1, step: 0.01}` give an int field, whatever the step. */
  lemma StepWithoutRoundIsInt(value: Json, lo: Json, hi: Json, step: Json)
    ensures OptionField([("min", lo), ("max", hi), ("step", step)], value)
      == Ok(NumberField(false, value, Some(lo), Some(hi)))
  {
    var opts := [("min", lo), ("max", hi), ("step", step)];
    assert HasKey(opts, NUMBER_OPTIONS[0]);
    assert !HasKey(opts, "values");
    assert !HasKey(opts, "round");
  }

  /** One more input node: its field, unless an earlier node failed. */
  lemma InputFieldsSnoc(ins: Graph, i: nat)
    requires i < |ins|
    ensures var a := InputFields(ins[..i]);
      var f := FieldFor(ins[i].1);
      InputFields(ins[..i + 1]) == if a.Err? then a else if f.Err? then Err(f.error) else Ok(Put(a.value, ins[i].0, f.value))
  {
    assert ins[..i + 1][..i] == ins[..i];
  }

  /** A failure at input `k - 1` is the result of the whole loop. */
  lemma {:induction false} InputFieldsFails(ins: Graph, k: nat)
    requires k <= |ins| && InputFields(ins[..k]).Err?
    ensures InputFields(ins) == InputFields(ins[..k])
    decreases |ins| - k
  {
    if k < |ins| {
      assert ins[..|ins| - 1][..k] == ins[..k];
      InputFieldsFails(ins[..|ins| - 1], k);
    } else {
      assert ins[..k] == ins;
    }
  }

  /** The loop succeeds exactly when every input node has a field. */
  lemma InputFieldsOk(ins: Graph)
    ensures InputFields(ins).Ok? <==> forall i :: 0 <= i < |ins| ==> FieldFor(ins[i].1).Ok?
  {
    if InputFields(ins).Ok? {
      InputFieldsAllOk(ins);
    } else if forall i :: 0 <= i < |ins| ==> FieldFor(ins[i].1).Ok? {
      AllOkInputFields(ins);
    }
  }

  /** The loop over a non-empty list succeeds when it succeeds on all but the last node and that node has a field. */
  lemma InputFieldsStep(ins: Graph)
    requires ins != []
    ensures InputFields(ins).Ok? <==> InputFields(ins[..|ins| - 1]).Ok? && FieldFor(ins[|ins| - 1].1).Ok?
  {
  }

  /** A successful loop found a field for every input node. */
  lemma {:induction false} InputFieldsAllOk(ins: Graph)
    requires InputFields(ins).Ok?
    ensures forall i :: 0 <= i < |ins| ==> FieldFor(ins[i].1).Ok?
    decreases |ins|
  {
    if ins != [] {
      var k := |ins| - 1;
      var pre := ins[..k];
      InputFieldsStep(ins);
      InputFieldsAllOk(pre);
      forall i | 0 <= i < k ensures FieldFor(ins[i].1).Ok? {
        assert pre[i] == ins[i];
      }
    }
  }

  /** When every input node has a field, the loop succeeds. */
  lemma {:induction false} AllOkInputFields(ins: Graph)
    requires forall i :: 0 <= i < |ins| ==> FieldFor(ins[i].1).Ok?
    ensures InputFields(ins).Ok?
    decreases |ins|
  {
    if ins != [] {
      var k := |ins| - 1;
      var pre := ins[..k];
      assert forall i :: 0 <= i < k ==> pre[i] == ins[i];
      AllOkInputFields(pre);
      InputFieldsStep(ins);
    }
  }

  /** On success the fields are built for every input node in order, under the input's name. */
  lemma {:induction false} InputFieldsShape(ins: Graph)
    requires DistinctKeys(ins) && InputFields(ins).Ok?
    ensures var fs := InputFields(ins).value;
      |fs| == |ins| && forall i :: 0 <= i < |ins| ==> FieldFor(ins[i].1).Ok? && fs[i] == (ins[i].0, FieldFor(ins[i].1).value)
    decreases |ins|
  {
    if ins != [] {
      var k := |ins| - 1;
      var pre := ins[..k];
      assert DistinctKeys(pre);
      InputFieldsShape(pre);
      assert forall i :: 0 <= i < k ==> pre[i] == ins[i];
      var fs := InputFields(pre).value;
      assert Keys(fs) == Keys(pre);
      assert !HasKey(fs, ins[k].0);
    }
  }
}
