/** Encoding sequences and trigger bindings as JSON and back
    (src/core/SequenceCodec.cpp), on JSON trees. */
module SequenceCodec {
  import opened JsonTree
  import opened Sequences

  // ----- field types -----

  function ParseFieldType(s: string): FieldType {
    if s == "bool" then BoolField
    else if s == "int" then IntField
    else if s == "string" then StringField
    else if s == "stringlist" then StringListField
    else if s == "mac" then MacField
    else if s == "enum" then EnumField
    else if s == "predicate" then PredicateField
    else StringField
  }

  function FieldTypeName(t: FieldType): string {
    match t
    case BoolField => "bool"
    case IntField => "int"
    case StringField => "string"
    case StringListField => "stringlist"
    case MacField => "mac"
    case EnumField => "enum"
    case PredicateField => "predicate"
  }

  lemma FieldTypeRoundTrip(t: FieldType)
    ensures ParseFieldType(FieldTypeName(t)) == t
  {
    match t {
      case BoolField => case IntField => case StringField => case StringListField =>
      case MacField => case EnumField => case PredicateField =>
    }
  }

  // ----- nodes -----

  function DecodeNode(j: Json): Node {
    GetIsSmaller(j, "children");
    var ch := Get(j, "children");
    Node(TextOrEmpty(Get(j, "type")), Get(j, "params"), if ch.Obj? then DecodeChildren(ch.members) else [])
  }

  function DecodeChildren(ms: seq<Member>): seq<Slot> {
    if ms == [] then []
    else
      var last := ms[|ms| - 1];
      AddToSlot(
        DecodeChildren(ms[..|ms| - 1]), last.key,
        if last.value.Arr? then DecodeNodes(last.value.items) else [])
  }

  function DecodeNodes(items: seq<Json>): seq<Node> {
    if items == [] then [] else DecodeNodes(items[..|items| - 1]) + [DecodeNode(items[|items| - 1])]
  }

  /** Control-flow types are always known, all others must be registered. */
  predicate UnknownType(ty: string, known: set<string>) {
    ty != "if" && ty != "repeat" && ty != "call-sequence" && ty != "divider" && ty !in known
  }

  function OrElse(a: Option<string>, b: Option<string>): Option<string> {
    if a.Some? then a else b
  }

  /** The first unknown type that decoding meets: below a node before the node itself. */
  function FirstUnknown(j: Json, known: set<string>): Option<string> {
    GetIsSmaller(j, "children");
    var ch := Get(j, "children");
    OrElse(
      if ch.Obj? then FirstUnknownInChildren(ch.members, known) else None,
      var ty := TextOrEmpty(Get(j, "type"));
      if UnknownType(ty, known) then Some(ty) else None)
  }

  function FirstUnknownInChildren(ms: seq<Member>, known: set<string>): Option<string> {
    if ms == [] then None
    else
      var last := ms[|ms| - 1];
      OrElse(
        FirstUnknownInChildren(ms[..|ms| - 1], known),
        if last.value.Arr? then FirstUnknownInList(last.value.items, known) else None)
  }

  function FirstUnknownInList(items: seq<Json>, known: set<string>): Option<string> {
    if items == [] then None
    else
      OrElse(
        FirstUnknownInList(items[..|items| - 1], known),
        FirstUnknown(items[|items| - 1], known))
  }

  lemma DecodeNodesStep(items: seq<Json>, known: set<string>, k: nat)
    requires k < |items|
    ensures DecodeNodes(items[..k + 1]) == DecodeNodes(items[..k]) + [DecodeNode(items[k])]
    ensures FirstUnknownInList(items[..k + 1], known) ==
            OrElse(FirstUnknownInList(items[..k], known), FirstUnknown(items[k], known))
  {
    assert items[..k + 1][..k] == items[..k];
  }

  lemma DecodeChildrenStep(ms: seq<Member>, known: set<string>, i: nat)
    requires i < |ms|
    ensures DecodeChildren(ms[..i + 1]) == AddToSlot(DecodeChildren(ms[..i]), ms[i].key, DecodeNodes(Items(ms[i].value)))
    ensures FirstUnknownInChildren(ms[..i + 1], known) ==
            OrElse(FirstUnknownInChildren(ms[..i], known), FirstUnknownInList(Items(ms[i].value), known))
  {
    assert ms[..i + 1][..i] == ms[..i];
  }

  lemma ChildIsSmaller(src: Json, i: nat)
    requires i < |Members(Get(src, "children"))|
    ensures src decreases to Members(Get(src, "children"))[i].value
  {
    GetIsSmaller(src, "children");
  }

  /** The recursive decoder, carrying the first unknown type along. */
  method DecodeNodeInto(src: Json, known: set<string>, reason: Option<string>)
    returns (dst: Node, reason': Option<string>)
    ensures dst == DecodeNode(src)
    ensures reason' == OrElse(reason, FirstUnknown(src, known))
    decreases src, 1
  {
    var ty := TextOrEmpty(Get(src, "type"));
    var children: seq<Slot> := [];
    reason' := reason;
    var ms := Members(Get(src, "children"));
    for i := 0 to |ms|
      invariant children == DecodeChildren(ms[..i])
      invariant reason' == OrElse(reason, FirstUnknownInChildren(ms[..i], known))
    {
      ChildIsSmaller(src, i);
      var slot;
      slot, reason' := DecodeSlotInto(ms[i].value, known, reason');
      DecodeChildrenStep(ms, known, i);
      children := AddToSlot(children, ms[i].key, slot);
    }
    assert ms[..|ms|] == ms;
    dst := Node(ty, Get(src, "params"), children);
    if UnknownType(ty, known) && reason'.None? {
      reason' := Some(ty);
    }
  }

  /** The inner loop: the nodes of one child list. */
  method DecodeSlotInto(v: Json, known: set<string>, reason: Option<string>)
    returns (slot: seq<Node>, reason': Option<string>)
    ensures slot == DecodeNodes(Items(v))
    ensures reason' == OrElse(reason, FirstUnknownInList(Items(v), known))
    decreases v, 2
  {
    slot, reason' := [], reason;
    var items := Items(v);
    for k := 0 to |items|
      invariant slot == DecodeNodes(items[..k])
      invariant reason' == OrElse(reason, FirstUnknownInList(items[..k], known))
    {
      var child;
      child, reason' := DecodeNodeInto(items[k], known, reason');
      DecodeNodesStep(items, known, k);
      slot := slot + [child];
    }
    assert items[..|items|] == items;
  }

  function EncodeNode(n: Node): Json {
    Obj([
      Member("type", Text(n.ty)),
      Member("params", if n.params == Null then Obj([]) else n.params),
      Member("children", Obj(EncodeSlots(n.children)))])
  }

  function EncodeSlots(slots: seq<Slot>): seq<Member> {
    if slots == [] then []
    else
      var last := slots[|slots| - 1];
      EncodeSlots(slots[..|slots| - 1]) + [Member(last.name, Arr(EncodeNodes(last.nodes)))]
  }

  function EncodeNodes(nodes: seq<Node>): seq<Json> {
    if nodes == [] then [] else EncodeNodes(nodes[..|nodes| - 1]) + [EncodeNode(nodes[|nodes| - 1])]
  }

  lemma EncodeNodesStep(nodes: seq<Node>, k: nat)
    requires k < |nodes|
    ensures EncodeNodes(nodes[..k + 1]) == EncodeNodes(nodes[..k]) + [EncodeNode(nodes[k])]
  {
    assert nodes[..k + 1][..k] == nodes[..k];
  }

  /** The recursive encoder. */
  method EncodeNodeInto(src: Node) returns (dst: Json)
    ensures dst == EncodeNode(src)
    decreases src
  {
    var params := if src.params == Null then Obj([]) else src.params;
    var ch: seq<Member> := [];
    for i := 0 to |src.children|
      invariant ch == EncodeSlots(src.children[..i])
    {
      assert src.children[..i + 1][..i] == src.children[..i];
      var nodes := src.children[i].nodes;
      var arr: seq<Json> := [];
      for k := 0 to |nodes|
        invariant arr == EncodeNodes(nodes[..k])
      {
        var co := EncodeNodeInto(nodes[k]);
        EncodeNodesStep(nodes, k);
        arr := arr + [co];
      }
      assert nodes[..|nodes|] == nodes;
      ch := ch + [Member(src.children[i].name, Arr(arr))];
    }
    assert src.children[..|src.children|] == src.children;
    dst := Obj([Member("type", Text(src.ty)), Member("params", params), Member("children", Obj(ch))]);
  }

  // ----- sequences -----

  function DecodeParam(j: Json): ParamDef {
    ParamDef(
      TextOrEmpty(Get(j, "key")), ParseFieldType(TextOrEmpty(Get(j, "type"))), TextOrEmpty(Get(j, "label")),
      Get(j, "default"), TextOrEmpty(Get(j, "enumValues")), AsBool(Get(j, "required")))
  }

  function DecodeParams(items: seq<Json>): seq<ParamDef> {
    if items == [] then [] else DecodeParams(items[..|items| - 1]) + [DecodeParam(items[|items| - 1])]
  }

  function DecodeSequence(j: Json, known: set<string>): Sequence {
    var unknown := FirstUnknownInList(Items(Get(j, "nodes")), known);
    Sequence(
      TextOrEmpty(Get(j, "id")), TextOrEmpty(Get(j, "name")), UnsignedOr(Get(j, "cooldownMs"), 60000),
      DecodeParams(Items(Get(j, "params"))), DecodeNodes(Items(Get(j, "nodes"))),
      unknown.Some?, if unknown.Some? then UnknownBlockType(unknown.value) else NoReason)
  }

  function DecodeSequences(items: seq<Json>, known: set<string>): seq<Sequence> {
    if items == [] then []
    else DecodeSequences(items[..|items| - 1], known) + [DecodeSequence(items[|items| - 1], known)]
  }

  method DecodeList(v: Json, known: set<string>) returns (out: seq<Sequence>)
    ensures out == DecodeSequences(Items(v), known)
  {
    if !v.Arr? {
      return [];
    }
    out := [];
    var items := v.items;
    for i := 0 to |items|
      invariant out == DecodeSequences(items[..i], known)
    {
      var s := DecodeOne(items[i], known);
      assert items[..i + 1][..i] == items[..i];
      out := out + [s];
    }
    assert items[..|items|] == items;
  }

  /** One round of the decoder's outer loop. */
  method DecodeOne(sv: Json, known: set<string>) returns (s: Sequence)
    ensures s == DecodeSequence(sv, known)
  {
    var params := DecodeParamList(Items(Get(sv, "params")));
    var nodes, reason := DecodeSlotInto(Get(sv, "nodes"), known, None);
    s := Sequence(
      TextOrEmpty(Get(sv, "id")), TextOrEmpty(Get(sv, "name")), UnsignedOr(Get(sv, "cooldownMs"), 60000),
      params, nodes, false, NoReason);
    if reason.Some? {
      s := s.(broken := true, reason := UnknownBlockType(reason.value));
    }
  }

  method DecodeParamList(pvs: seq<Json>) returns (params: seq<ParamDef>)
    ensures params == DecodeParams(pvs)
  {
    params := [];
    for i := 0 to |pvs|
      invariant params == DecodeParams(pvs[..i])
    {
      assert pvs[..i + 1][..i] == pvs[..i];
      params := params + [DecodeParam(pvs[i])];
    }
    assert pvs[..|pvs|] == pvs;
  }

  function EncodeParam(p: ParamDef): Json {
    Obj([Member("key", Text(p.key)), Member("type", Text(FieldTypeName(p.fieldType))), Member("label", Text(p.caption))]
        + (if p.enumValues != "" then [Member("enumValues", Text(p.enumValues))] else [])
        + [Member("required", Bool(p.required))]
        + (if p.defaultValue != Null then [Member("default", p.defaultValue)] else []))
  }

  function EncodeParams(params: seq<ParamDef>): seq<Json> {
    if params == [] then [] else EncodeParams(params[..|params| - 1]) + [EncodeParam(params[|params| - 1])]
  }

  function EncodeSequence(s: Sequence): Json {
    Obj([
      Member("id", Text(s.id)), Member("name", Text(s.name)), Member("cooldownMs", Int(s.cooldownMs)),
      Member("params", Arr(EncodeParams(s.params))), Member("nodes", Arr(EncodeNodes(s.nodes)))])
  }

  function EncodeSequences(seqs: seq<Sequence>): seq<Json> {
    if seqs == [] then [] else EncodeSequences(seqs[..|seqs| - 1]) + [EncodeSequence(seqs[|seqs| - 1])]
  }

  method EncodeList(seqs: seq<Sequence>) returns (doc: Json)
    ensures doc == Arr(EncodeSequences(seqs))
  {
    var arr: seq<Json> := [];
    for i := 0 to |seqs|
      invariant arr == EncodeSequences(seqs[..i])
    {
      assert seqs[..i + 1][..i] == seqs[..i];
      var o := EncodeOne(seqs[i]);
      arr := arr + [o];
    }
    assert seqs[..|seqs|] == seqs;
    doc := Arr(arr);
  }

  /** One round of the encoder's outer loop. */
  method EncodeOne(s: Sequence) returns (o: Json)
    ensures o == EncodeSequence(s)
  {
    var params: seq<Json> := [];
    for i := 0 to |s.params|
      invariant params == EncodeParams(s.params[..i])
    {
      assert s.params[..i + 1][..i] == s.params[..i];
      params := params + [EncodeParam(s.params[i])];
    }
    assert s.params[..|s.params|] == s.params;
    var nodes: seq<Json> := [];
    for i := 0 to |s.nodes|
      invariant nodes == EncodeNodes(s.nodes[..i])
    {
      var no := EncodeNodeInto(s.nodes[i]);
      EncodeNodesStep(s.nodes, i);
      nodes := nodes + [no];
    }
    assert s.nodes[..|s.nodes|] == s.nodes;
    o := Obj([
      Member("id", Text(s.id)), Member("name", Text(s.name)), Member("cooldownMs", Int(s.cooldownMs)),
      Member("params", Arr(params)), Member("nodes", Arr(nodes))]);
  }

  // ----- trigger bindings -----

  function DecodeTrigger(j: Json): TriggerBinding {
    TriggerBinding(
      TextOrEmpty(Get(j, "id")), TextOrEmpty(Get(j, "type")), Get(j, "params"),
      TextOrEmpty(Get(j, "sequenceId")), Get(j, "args"), BoolOr(Get(j, "enabled"), true))
  }

  function DecodeTriggers(items: seq<Json>): seq<TriggerBinding> {
    if items == [] then [] else DecodeTriggers(items[..|items| - 1]) + [DecodeTrigger(items[|items| - 1])]
  }

  method DecodeTriggerList(v: Json) returns (out: seq<TriggerBinding>)
    ensures out == DecodeTriggers(Items(v))
  {
    out := [];
    if !v.Arr? {
      return;
    }
    for i := 0 to |v.items|
      invariant out == DecodeTriggers(v.items[..i])
    {
      assert v.items[..i + 1][..i] == v.items[..i];
      out := out + [DecodeTrigger(v.items[i])];
    }
    assert v.items[..|v.items|] == v.items;
  }

  function EncodeTrigger(t: TriggerBinding): Json {
    Obj([Member("id", Text(t.id)), Member("type", Text(t.ty)), Member("sequenceId", Text(t.sequenceId)),
         Member("enabled", Bool(t.enabled)), Member("params", t.params)]
        + if t.args != Null then [Member("args", t.args)] else [])
  }

  function EncodeTriggers(ts: seq<TriggerBinding>): seq<Json> {
    if ts == [] then [] else EncodeTriggers(ts[..|ts| - 1]) + [EncodeTrigger(ts[|ts| - 1])]
  }

  method EncodeTriggerList(ts: seq<TriggerBinding>) returns (doc: Json)
    ensures doc == Arr(EncodeTriggers(ts))
  {
    var arr: seq<Json> := [];
    for i := 0 to |ts|
      invariant arr == EncodeTriggers(ts[..i])
    {
      assert ts[..i + 1][..i] == ts[..i];
      arr := arr + [EncodeTrigger(ts[i])];
    }
    assert ts[..|ts|] == ts;
    doc := Arr(arr);
  }
}
