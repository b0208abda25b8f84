/** What the stored JSON looks like: the keys of each object, and what stands in
    for a key that is absent (src/core/SequenceCodec.cpp). */
module WireFormat {
  import opened JsonTree
  import opened Sequences
  import opened SequenceCodec
  import opened CodecLaws
  import opened Reloading

  // ----- names of field types -----

  /** Each type is written under one name, and read from that name only; any
      other name reads as a string. */
  lemma TypeNameIff(s: string)
    ensures ParseFieldType(s) == BoolField <==> s == "bool"
    ensures ParseFieldType(s) == IntField <==> s == "int"
    ensures ParseFieldType(s) == StringListField <==> s == "stringlist"
    ensures ParseFieldType(s) == MacField <==> s == "mac"
    ensures ParseFieldType(s) == EnumField <==> s == "enum"
    ensures ParseFieldType(s) == PredicateField <==> s == "predicate"
    ensures FieldTypeName(StringField) == "string"
  {
  }

  // ----- reading -----

  /** The text under the key, empty without one. */
  predicate ReadsText(j: Json, key: string, s: string) {
    if Get(j, key).Text? then Get(j, key) == Text(s) else s == ""
  }

  /** An unsigned 32-bit integer under the key, else this one. */
  predicate ReadsUnsigned(j: Json, key: string, otherwise: int, n: int) {
    var v := Get(j, key);
    n == if v.Int? && 0 <= v.n < 0x1_0000_0000 then v.n else otherwise
  }

  /** The items under the key, none if there is no array. */
  predicate ItemsAt(j: Json, key: string, items: seq<Json>) {
    if Get(j, key).Arr? then Get(j, key) == Arr(items) else items == []
  }

  lemma TriggerReads(j: Json)
    ensures var t := DecodeTrigger(j);
            && ReadsText(j, "id", t.id) && ReadsText(j, "type", t.ty) && ReadsText(j, "sequenceId", t.sequenceId)
            && t.params == Get(j, "params") && t.args == Get(j, "args")
            && (t.enabled <==> Get(j, "enabled") != Bool(false))
  {
  }

  lemma ParamReads(j: Json)
    ensures var p, default, required := DecodeParam(j), Get(j, "default"), Get(j, "required");
            && ReadsText(j, "key", p.key) && ReadsText(j, "label", p.caption)
            && ReadsText(j, "enumValues", p.enumValues)
            && (forall t :: Get(j, "type") == Text(FieldTypeName(t)) ==> p.fieldType == t)
            && (!Get(j, "type").Text? ==> p.fieldType == StringField)
            && p.defaultValue == default
            && (p.required <==> required != Null && required != Bool(false) && required != Int(0))
  {
    forall t | Get(j, "type") == Text(FieldTypeName(t)) ensures DecodeParam(j).fieldType == t {
      FieldTypeRoundTrip(t);
    }
  }

  lemma {:induction false} ParamsAt(items: seq<Json>)
    ensures |DecodeParams(items)| == |items|
    ensures forall i :: 0 <= i < |items| ==> DecodeParams(items)[i] == DecodeParam(items[i])
  {
    if items != [] {
      var front, r := items[..|items| - 1], DecodeParams(items);
      ParamsAt(front);
      forall i | 0 <= i < |items| ensures r[i] == DecodeParam(items[i]) {
        if i < |front| { assert front[i] == items[i] && r[i] == DecodeParams(front)[i]; }
      }
    }
  }

  lemma {:induction false} NodesAt(items: seq<Json>)
    ensures |DecodeNodes(items)| == |items|
    ensures forall i :: 0 <= i < |items| ==> DecodeNodes(items)[i] == DecodeNode(items[i])
  {
    if items != [] {
      var front, r := items[..|items| - 1], DecodeNodes(items);
      NodesAt(front);
      forall i | 0 <= i < |items| ensures r[i] == DecodeNode(items[i]) {
        if i < |front| { assert front[i] == items[i] && r[i] == DecodeNodes(front)[i]; }
      }
    }
  }

  /** These are the nodes that the items decode to, one by one. */
  predicate NodesOf(nodes: seq<Node>, items: seq<Json>) {
    |nodes| == |items| && forall i :: 0 <= i < |items| ==> nodes[i] == DecodeNode(items[i])
  }

  predicate ParamsOf(params: seq<ParamDef>, items: seq<Json>) {
    |params| == |items| && forall i :: 0 <= i < |items| ==> params[i] == DecodeParam(items[i])
  }

  lemma SequenceReads(j: Json, known: set<string>, params: seq<Json>, nodes: seq<Json>)
    requires ItemsAt(j, "params", params) && ItemsAt(j, "nodes", nodes)
    ensures var s := DecodeSequence(j, known);
            && ReadsText(j, "id", s.id) && ReadsText(j, "name", s.name)
            && ReadsUnsigned(j, "cooldownMs", 60000, s.cooldownMs)
            && ParamsOf(s.params, params) && NodesOf(s.nodes, nodes)
  {
    ParamsAt(params);
    NodesAt(nodes);
  }

  // ----- reading nodes -----

  /** The child list of this name holds these nodes, and is the only one. */
  predicate HasSlot(slots: seq<Slot>, name: string, nodes: seq<Node>) {
    Slot(name, nodes) in slots && forall s :: s in slots && s.name == name ==> s.nodes == nodes
  }

  predicate LacksSlot(slots: seq<Slot>, name: string) {
    forall s :: s in slots ==> s.name != name
  }

  lemma {:induction false} AddToSlotIsNew(slots: seq<Slot>, name: string, nodes: seq<Node>)
    requires LacksSlot(slots, name)
    ensures forall s :: s in AddToSlot(slots, name, nodes) <==> s in slots || s == Slot(name, nodes)
  {
    if slots != [] && !Before(name, slots[0].name) { AddToSlotIsNew(slots[1..], name, nodes); }
  }

  function SlotOf(m: Member): Slot {
    Slot(m.key, DecodeNodes(Items(m.value)))
  }

  predicate DecodedFrom(ms: seq<Member>, s: Slot) {
    exists i :: 0 <= i < |ms| && s == SlotOf(ms[i])
  }

  lemma DecodedFromLast(ms: seq<Member>, s: Slot)
    requires ms != []
    ensures DecodedFrom(ms, s) <==> DecodedFrom(ms[..|ms| - 1], s) || s == SlotOf(ms[|ms| - 1])
  {
    var front := ms[..|ms| - 1];
    if DecodedFrom(front, s) {
      var i :| 0 <= i < |front| && s == SlotOf(front[i]);
      assert s == SlotOf(ms[i]);
    }
    if DecodedFrom(ms, s) {
      var i :| 0 <= i < |ms| && s == SlotOf(ms[i]);
      if i < |front| { assert s == SlotOf(front[i]); }
    }
  }

  lemma {:induction false} ChildrenAt(ms: seq<Member>)
    requires DistinctKeys(ms)
    ensures forall s :: s in DecodeChildren(ms) <==> DecodedFrom(ms, s)
  {
    if ms != [] {
      var front, last := ms[..|ms| - 1], ms[|ms| - 1];
      ChildrenAt(front);
      assert LacksSlot(DecodeChildren(front), last.key);
      AddToSlotIsNew(DecodeChildren(front), last.key, DecodeNodes(Items(last.value)));
      forall s ensures s in DecodeChildren(ms) <==> DecodedFrom(ms, s) {
        DecodedFromLast(ms, s);
      }
    }
  }

  /** A node has its type, its parameters and one child list for each key of its
      `children`, with the decoded items of the array there, or empty. */
  lemma NodeReads(j: Json, children: seq<Member>, i: nat, items: seq<Json>)
    requires Get(j, "children") == Obj(children) && DistinctKeys(children) && i < |children|
    requires if children[i].value.Arr? then children[i].value == Arr(items) else items == []
    ensures ReadsText(j, "type", DecodeNode(j).ty) && DecodeNode(j).params == Get(j, "params")
    ensures exists nodes :: NodesOf(nodes, items) && HasSlot(DecodeNode(j).children, children[i].key, nodes)
    ensures forall s :: s in DecodeNode(j).children ==> exists k :: 0 <= k < |children| && children[k].key == s.name
  {
    ChildrenAt(children);
    NodesAt(items);
    var nodes := DecodeNodes(items);
    assert SlotOf(children[i]) == Slot(children[i].key, nodes);
    assert DecodedFrom(children, Slot(children[i].key, nodes));
    assert NodesOf(nodes, items) && HasSlot(DecodeNode(j).children, children[i].key, nodes);
  }

  lemma BareNodeReads(j: Json)
    requires !Get(j, "children").Obj?
    ensures ReadsText(j, "type", DecodeNode(j).ty) && DecodeNode(j).params == Get(j, "params")
    ensures DecodeNode(j).children == []
  {
  }

  // ----- which type a mark names -----

  /** Of two leaves of unknown types in a list the first is named. */
  lemma FirstOfListIsNamed(a: string, b: string, known: set<string>)
    requires UnknownType(a, known)
    ensures FirstUnknownInList([LeafJson(a), LeafJson(b)], known) == Some(a)
  {
    DecodeLeaf(a, known);
    assert [LeafJson(a), LeafJson(b)][..1] == [LeafJson(a)];
  }

  /** A node of an unknown type, with a leaf of another one below it. */
  function NestedJson(a: string, key: string, b: string): Json {
    Obj([Member("type", Text(a)), Member("children", Obj([Member(key, Arr([LeafJson(b)]))]))])
  }

  /** What is below a node is named before the node. */
  lemma BelowIsNamedFirst(a: string, key: string, b: string, known: set<string>)
    requires UnknownType(b, known)
    ensures FirstUnknown(NestedJson(a, key, b), known) == Some(b)
  {
    var j, ms := NestedJson(a, key, b), [Member(key, Arr([LeafJson(b)]))];
    FindAt(j.members, 1);
    DecodeLeaf(b, known);
    assert ms[..0] == [];
    assert FirstUnknownInChildren(ms[..0], known) == None;
  }

  /** Control flow is always known, everything else must be registered. */
  lemma KnownIff(ty: string, known: set<string>)
    ensures !UnknownType(ty, known) <==> ty in known + {"if", "repeat", "call-sequence", "divider"}
  {
  }

  // ----- writing -----

  lemma TriggerWrites(t: TriggerBinding)
    ensures var j := EncodeTrigger(t);
            && Get(j, "id") == Text(t.id) && Get(j, "type") == Text(t.ty) && Get(j, "sequenceId") == Text(t.sequenceId)
            && Get(j, "enabled") == Bool(t.enabled) && Get(j, "params") == t.params && Get(j, "args") == t.args
            && (Has(j, "args") <==> t.args != Null)
  {
    var ms := EncodeTrigger(t).members;
    FindAt(ms, 0);
    FindAt(ms, 1);
    FindAt(ms, 2);
    FindAt(ms, 3);
    FindAt(ms, 4);
    if t.args != Null { FindAt(ms, 5); } else { LookUpMissing(ms, "args"); }
  }

  lemma {:induction false} NodesWrite(nodes: seq<Node>)
    ensures |EncodeNodes(nodes)| == |nodes|
    ensures forall i :: 0 <= i < |nodes| ==> EncodeNodes(nodes)[i] == EncodeNode(nodes[i])
  {
    if nodes != [] { NodesWrite(nodes[..|nodes| - 1]); }
  }

  lemma {:induction false} SlotsWrite(slots: seq<Slot>)
    ensures |EncodeSlots(slots)| == |slots|
    ensures forall i :: 0 <= i < |slots| ==>
              EncodeSlots(slots)[i] == Member(slots[i].name, Arr(EncodeNodes(slots[i].nodes)))
  {
    if slots != [] { SlotsWrite(slots[..|slots| - 1]); }
  }

  /** A node is written with its type, with parameters that are never null, and
      with one array of written nodes per child list, in order. */
  lemma NodeWrites(n: Node, i: nat, k: nat)
    requires i < |n.children| && k < |n.children[i].nodes|
    ensures var j := EncodeNode(n);
            && Get(j, "type") == Text(n.ty)
            && Get(j, "params") == (if n.params == Null then Obj([]) else n.params)
            && var ch := Get(j, "children");
               && ch.Obj? && |ch.members| == |n.children| && ch.members[i].key == n.children[i].name
               && ch.members[i].value.Arr? && |ch.members[i].value.items| == |n.children[i].nodes|
               && ch.members[i].value.items[k] == EncodeNode(n.children[i].nodes[k])
  {
    EncodedNodeFields(n);
    SlotsWrite(n.children);
    NodesWrite(n.children[i].nodes);
  }

  lemma {:induction false} ParamsWrite(params: seq<ParamDef>)
    ensures |EncodeParams(params)| == |params|
    ensures forall i :: 0 <= i < |params| ==> EncodeParams(params)[i] == EncodeParam(params[i])
  {
    if params != [] { ParamsWrite(params[..|params| - 1]); }
  }

  /** The keys of a parameter; an empty enumeration and a null default are left out. */
  lemma ParamWrites(p: ParamDef)
    ensures var j := EncodeParam(p);
            && Get(j, "key") == Text(p.key) && Get(j, "label") == Text(p.caption)
            && Get(j, "required") == Bool(p.required) && Get(j, "default") == p.defaultValue
            && (Has(j, "enumValues") <==> p.enumValues != "") && (Has(j, "default") <==> p.defaultValue != Null)
            && (p.enumValues != "" ==> Get(j, "enumValues") == Text(p.enumValues))
            && Get(j, "type").Text? && ParseFieldType(Get(j, "type").s) == p.fieldType
  {
    EncodedParamHead(p);
    EncodedParamRequired(p);
    EncodedParamDefault(p);
    FieldTypeRoundTrip(p.fieldType);
    var ms := EncodeParam(p).members;
    if p.enumValues != "" { FindAt(ms, 3); } else { LookUpMissing(ms, "enumValues"); }
    if p.defaultValue != Null { FindAt(ms, |ms| - 1); } else { LookUpMissing(ms, "default"); }
  }

  /** The keys of a sequence, its parameters and nodes as arrays, in order. */
  lemma SequenceWrites(s: Sequence)
    ensures var j := EncodeSequence(s);
            && Get(j, "id") == Text(s.id) && Get(j, "name") == Text(s.name) && Get(j, "cooldownMs") == Int(s.cooldownMs)
            && Get(j, "params").Arr? && |Get(j, "params").items| == |s.params|
            && (forall i :: 0 <= i < |s.params| ==> Get(j, "params").items[i] == EncodeParam(s.params[i]))
            && Get(j, "nodes").Arr? && |Get(j, "nodes").items| == |s.nodes|
            && (forall i :: 0 <= i < |s.nodes| ==> Get(j, "nodes").items[i] == EncodeNode(s.nodes[i]))
  {
    EncodedSequenceFields(s);
    ParamsWrite(s.params);
    NodesWrite(s.nodes);
  }

  // ----- lists -----

  /** Sequences and bindings are written, and bindings read, one by one, in order. */
  lemma {:induction false} SequencesWrite(seqs: seq<Sequence>)
    ensures |EncodeSequences(seqs)| == |seqs|
    ensures forall i :: 0 <= i < |seqs| ==> EncodeSequences(seqs)[i] == EncodeSequence(seqs[i])
  {
    if seqs != [] {
      var front, r := seqs[..|seqs| - 1], EncodeSequences(seqs);
      SequencesWrite(front);
      forall i | 0 <= i < |seqs| ensures r[i] == EncodeSequence(seqs[i]) {
        if i < |front| { assert front[i] == seqs[i] && r[i] == EncodeSequences(front)[i]; }
      }
    }
  }

  lemma {:induction false} TriggersAt(items: seq<Json>)
    ensures |DecodeTriggers(items)| == |items|
    ensures forall i :: 0 <= i < |items| ==> DecodeTriggers(items)[i] == DecodeTrigger(items[i])
  {
    if items != [] {
      var front, r := items[..|items| - 1], DecodeTriggers(items);
      TriggersAt(front);
      forall i | 0 <= i < |items| ensures r[i] == DecodeTrigger(items[i]) {
        if i < |front| { assert front[i] == items[i] && r[i] == DecodeTriggers(front)[i]; }
      }
    }
  }

  lemma {:induction false} TriggersWrite(ts: seq<TriggerBinding>)
    ensures |EncodeTriggers(ts)| == |ts|
    ensures forall i :: 0 <= i < |ts| ==> EncodeTriggers(ts)[i] == EncodeTrigger(ts[i])
  {
    if ts != [] {
      var front, r := ts[..|ts| - 1], EncodeTriggers(ts);
      TriggersWrite(front);
      forall i | 0 <= i < |ts| ensures r[i] == EncodeTrigger(ts[i]) {
        if i < |front| { assert front[i] == ts[i] && r[i] == EncodeTriggers(front)[i]; }
      }
    }
  }
}
