/** Persisting keeps the meaning of what is persisted. */
module CodecLaws {
  import opened JsonTree
  import opened Sequences
  import opened SequenceCodec

  // ----- what a round trip normalises -----

  /** The node with null parameters turned into `{}`, at every depth. */
  function Normal(n: Node): Node {
    Node(n.ty, if n.params == Null then Obj([]) else n.params, NormalSlots(n.children))
  }

  function NormalSlots(slots: seq<Slot>): (r: seq<Slot>) {
    if slots == [] then []
    else
      var last := slots[|slots| - 1];
      NormalSlots(slots[..|slots| - 1]) + [Slot(last.name, NormalList(last.nodes))]
  }

  function NormalList(nodes: seq<Node>): seq<Node> {
    if nodes == [] then [] else NormalList(nodes[..|nodes| - 1]) + [Normal(nodes[|nodes| - 1])]
  }

  /** Every child map at every depth has its keys in order. */
  predicate InOrder(n: Node) {
    SlotsInOrder(n.children) && SlotsInOrderBelow(n.children)
  }

  predicate SlotsInOrderBelow(slots: seq<Slot>) {
    forall i :: 0 <= i < |slots| ==> ListInOrder(slots[i].nodes)
  }

  predicate ListInOrder(nodes: seq<Node>) {
    forall i :: 0 <= i < |nodes| ==> InOrder(nodes[i])
  }

  lemma {:induction false} NormalSlotsAt(slots: seq<Slot>)
    ensures |NormalSlots(slots)| == |slots|
    ensures forall i :: 0 <= i < |slots| ==>
              NormalSlots(slots)[i] == Slot(slots[i].name, NormalList(slots[i].nodes))
  {
    if slots != [] { NormalSlotsAt(slots[..|slots| - 1]); }
  }

  lemma {:induction false} NormalListAt(nodes: seq<Node>)
    ensures |NormalList(nodes)| == |nodes|
    ensures forall i :: 0 <= i < |nodes| ==> NormalList(nodes)[i] == Normal(nodes[i])
  {
    if nodes != [] { NormalListAt(nodes[..|nodes| - 1]); }
  }

  // ----- nodes -----

  lemma EncodedNodeFields(n: Node)
    ensures Get(EncodeNode(n), "type") == Text(n.ty)
    ensures Get(EncodeNode(n), "params") == if n.params == Null then Obj([]) else n.params
    ensures Get(EncodeNode(n), "children") == Obj(EncodeSlots(n.children))
  {
    var ms := EncodeNode(n).members;
    FindAt(ms, 0);
    FindAt(ms, 1);
    FindAt(ms, 2);
  }

  /** Decoding an encoded node gives it back, typed parameters and nested lists
      included, but for null parameters. */
  lemma {:induction false} NodeRoundTrip(n: Node)
    requires InOrder(n)
    ensures DecodeNode(EncodeNode(n)) == Normal(n)
    decreases n, 0
  {
    EncodedNodeFields(n);
    SlotsRoundTrip(n.children);
  }

  lemma {:induction false} SlotsRoundTrip(slots: seq<Slot>)
    requires SlotsInOrder(slots) && SlotsInOrderBelow(slots)
    ensures DecodeChildren(EncodeSlots(slots)) == NormalSlots(slots)
    decreases slots, 0
  {
    if slots != [] {
      var front, last := slots[..|slots| - 1], slots[|slots| - 1];
      SlotsRoundTrip(front);
      ListRoundTrip(last.nodes);
      NormalSlotsAt(front);
      AddToSlotAtEnd(NormalSlots(front), last.name, NormalList(last.nodes));
      var ms := EncodeSlots(slots);
      assert ms[..|ms| - 1] == EncodeSlots(front);
    }
  }

  lemma {:induction false} ListRoundTrip(nodes: seq<Node>)
    requires ListInOrder(nodes)
    ensures DecodeNodes(EncodeNodes(nodes)) == NormalList(nodes)
    decreases nodes, 0
  {
    if nodes != [] {
      ListRoundTrip(nodes[..|nodes| - 1]);
      NodeRoundTrip(nodes[|nodes| - 1]);
      var items := EncodeNodes(nodes);
      assert items[..|items| - 1] == EncodeNodes(nodes[..|nodes| - 1]);
    }
  }

  // ----- decoded nodes are in order -----

  lemma {:induction false} AddToSlotInOrderBelow(slots: seq<Slot>, name: string, nodes: seq<Node>)
    requires SlotsInOrderBelow(slots) && ListInOrder(nodes)
    ensures SlotsInOrderBelow(AddToSlot(slots, name, nodes))
  {
    if slots != [] && !Before(name, slots[0].name) && slots[0].name != name {
      AddToSlotInOrderBelow(slots[1..], name, nodes);
    }
  }

  lemma {:induction false} DecodedNodeInOrder(j: Json)
    ensures InOrder(DecodeNode(j))
    decreases j, 0
  {
    GetIsSmaller(j, "children");
    var ch := Get(j, "children");
    if ch.Obj? { DecodedChildrenInOrder(ch.members); }
  }

  lemma {:induction false} DecodedChildrenInOrder(ms: seq<Member>)
    ensures SlotsInOrder(DecodeChildren(ms)) && SlotsInOrderBelow(DecodeChildren(ms))
    decreases ms, 0
  {
    if ms != [] {
      var front, last := ms[..|ms| - 1], ms[|ms| - 1];
      DecodedChildrenInOrder(front);
      var nodes: seq<Node> := [];
      if last.value.Arr? {
        DecodedListInOrder(last.value.items);
        nodes := DecodeNodes(last.value.items);
      }
      AddToSlotKeepsOrder(DecodeChildren(front), last.key, nodes);
      AddToSlotInOrderBelow(DecodeChildren(front), last.key, nodes);
    }
  }

  /** Whatever is decoded, every child map comes out in key order. */
  lemma {:induction false} DecodedListInOrder(items: seq<Json>)
    ensures ListInOrder(DecodeNodes(items))
    decreases items, 0
  {
    if items != [] {
      DecodedListInOrder(items[..|items| - 1]);
      DecodedNodeInOrder(items[|items| - 1]);
    }
  }

  // ----- twice is once -----

  lemma {:induction false} NormalIsIdempotent(n: Node)
    ensures Normal(Normal(n)) == Normal(n)
    decreases n, 0
  {
    NormalSlotsIdempotent(n.children);
  }

  lemma {:induction false} NormalSlotsIdempotent(slots: seq<Slot>)
    ensures NormalSlots(NormalSlots(slots)) == NormalSlots(slots)
    decreases slots, 0
  {
    if slots != [] {
      var front, last := slots[..|slots| - 1], slots[|slots| - 1];
      NormalSlotsIdempotent(front);
      NormalListIdempotent(last.nodes);
      var r := NormalSlots(slots);
      assert r[..|r| - 1] == NormalSlots(front);
    }
  }

  lemma {:induction false} NormalListIdempotent(nodes: seq<Node>)
    ensures NormalList(NormalList(nodes)) == NormalList(nodes)
    decreases nodes, 0
  {
    if nodes != [] {
      NormalListIdempotent(nodes[..|nodes| - 1]);
      NormalIsIdempotent(nodes[|nodes| - 1]);
      var r := NormalList(nodes);
      assert r[..|r| - 1] == NormalList(nodes[..|nodes| - 1]);
    }
  }

  // ----- parameters -----

  lemma {:induction false} LookUpMissing(ms: seq<Member>, key: string)
    requires forall x :: x in ms ==> x.key != key
    ensures Find(ms, key) == None
  {
    if ms != [] { LookUpMissing(ms[1..], key); }
  }

  lemma EncodedParamHead(p: ParamDef)
    ensures Get(EncodeParam(p), "key") == Text(p.key)
    ensures Get(EncodeParam(p), "type") == Text(FieldTypeName(p.fieldType))
    ensures Get(EncodeParam(p), "label") == Text(p.caption)
  {
    var ms := EncodeParam(p).members;
    FindAt(ms, 0);
    FindAt(ms, 1);
    FindAt(ms, 2);
  }

  lemma EncodedParamEnum(p: ParamDef)
    ensures TextOrEmpty(Get(EncodeParam(p), "enumValues")) == p.enumValues
  {
    var ms := EncodeParam(p).members;
    if p.enumValues != "" { FindAt(ms, 3); } else { LookUpMissing(ms, "enumValues"); }
  }

  lemma EncodedParamRequired(p: ParamDef)
    ensures Get(EncodeParam(p), "required") == Bool(p.required)
  {
    var ms := EncodeParam(p).members;
    FindAt(ms, if p.enumValues != "" then 4 else 3);
  }

  lemma EncodedParamDefault(p: ParamDef)
    ensures Get(EncodeParam(p), "default") == p.defaultValue
  {
    var ms := EncodeParam(p).members;
    if p.defaultValue != Null { FindAt(ms, |ms| - 1); } else { LookUpMissing(ms, "default"); }
  }

  lemma ParamRoundTrip(p: ParamDef)
    ensures DecodeParam(EncodeParam(p)) == p
  {
    FieldTypeRoundTrip(p.fieldType);
    EncodedParamHead(p);
    EncodedParamEnum(p);
    EncodedParamRequired(p);
    EncodedParamDefault(p);
  }

  lemma DecodeParamsPush(items: seq<Json>, j: Json, p: ParamDef)
    requires DecodeParam(j) == p
    ensures DecodeParams(items + [j]) == DecodeParams(items) + [p]
  {
    assert (items + [j])[..|items|] == items;
  }

  /** Encoding and decoding keep one more parameter. */
  lemma ParamsRoundTripPush(front: seq<ParamDef>, items: seq<Json>, p: ParamDef, j: Json)
    requires DecodeParams(items) == front && j == EncodeParam(p)
    ensures DecodeParams(items + [j]) == front + [p]
  {
    ParamRoundTrip(p);
    DecodeParamsPush(items, j, p);
  }

  lemma {:induction false} ParamsRoundTrip(params: seq<ParamDef>)
    ensures DecodeParams(EncodeParams(params)) == params
  {
    if params != [] {
      var front, last := params[..|params| - 1], params[|params| - 1];
      ParamsRoundTrip(front);
      ParamsRoundTripPush(front, EncodeParams(front), last, EncodeParam(last));
      assert front + [last] == params;
    }
  }

  // ----- sequences -----

  lemma EncodedSequenceFields(s: Sequence)
    ensures Get(EncodeSequence(s), "id") == Text(s.id)
    ensures Get(EncodeSequence(s), "name") == Text(s.name)
    ensures Get(EncodeSequence(s), "cooldownMs") == Int(s.cooldownMs)
    ensures Get(EncodeSequence(s), "params") == Arr(EncodeParams(s.params))
    ensures Get(EncodeSequence(s), "nodes") == Arr(EncodeNodes(s.nodes))
  {
    var ms := EncodeSequence(s).members;
    FindAt(ms, 0);
    FindAt(ms, 1);
    FindAt(ms, 2);
    FindAt(ms, 3);
    FindAt(ms, 4);
  }

  /** The sequence with its nodes normalised and its marks set afresh. */
  function Reloaded(s: Sequence, known: set<string>): Sequence {
    var unknown := FirstUnknownInList(EncodeNodes(s.nodes), known);
    s.(nodes := NormalList(s.nodes), broken := unknown.Some?,
       reason := if unknown.Some? then UnknownBlockType(unknown.value) else NoReason)
  }

  /** Decode after encode returns the same sequence, parameters with their
      types and nested lists included, but for null node parameters and marks. */
  lemma SequenceRoundTrip(s: Sequence, known: set<string>)
    requires ListInOrder(s.nodes)
    ensures DecodeSequence(EncodeSequence(s), known) == Reloaded(s, known)
  {
    EncodedSequenceFields(s);
    ParamsRoundTrip(s.params);
    ListRoundTrip(s.nodes);
  }

  // ----- lists of one node -----

  lemma NormalSingleton(n: Node)
    ensures NormalList([n]) == [Normal(n)]
  {
    assert [n][..0] == [];
    assert NormalList([n][..0]) == [];
  }

  lemma EncodeSingleton(n: Node)
    ensures EncodeNodes([n]) == [EncodeNode(n)]
  {
    assert [n][..0] == [];
  }

  lemma FirstUnknownInSingleton(j: Json, known: set<string>)
    ensures FirstUnknownInList([j], known) == FirstUnknown(j, known)
  {
    assert [j][..0] == [];
  }

  /** What decoding marks a sequence with whose only node has no children. */
  lemma LeafMark(n: Node, known: set<string>)
    requires n.children == []
    ensures FirstUnknownInList(EncodeNodes([n]), known) == if UnknownType(n.ty, known) then Some(n.ty) else None
  {
    EncodedNodeFields(n);
    EncodeSingleton(n);
    FirstUnknownInSingleton(EncodeNode(n), known);
    assert FirstUnknownInChildren([], known) == None;
  }

  lemma {:induction false} EncodeNormal(n: Node)
    ensures EncodeNode(Normal(n)) == EncodeNode(n)
    decreases n, 0
  {
    EncodeNormalSlots(n.children);
  }

  lemma {:induction false} EncodeNormalSlots(slots: seq<Slot>)
    ensures EncodeSlots(NormalSlots(slots)) == EncodeSlots(slots)
    decreases slots, 0
  {
    if slots != [] {
      var front, last := slots[..|slots| - 1], slots[|slots| - 1];
      EncodeNormalSlots(front);
      EncodeNormalList(last.nodes);
      var r := NormalSlots(slots);
      assert r[..|r| - 1] == NormalSlots(front);
    }
  }

  /** Normalising is invisible once encoded. */
  lemma {:induction false} EncodeNormalList(nodes: seq<Node>)
    ensures EncodeNodes(NormalList(nodes)) == EncodeNodes(nodes)
    decreases nodes, 0
  {
    if nodes != [] {
      EncodeNormalList(nodes[..|nodes| - 1]);
      EncodeNormal(nodes[|nodes| - 1]);
      var r := NormalList(nodes);
      assert r[..|r| - 1] == NormalList(nodes[..|nodes| - 1]);
    }
  }

  /** Saving and loading twice is saving and loading once. */
  lemma ReloadTwice(s: Sequence, known: set<string>)
    requires ListInOrder(s.nodes)
    ensures var once := DecodeSequence(EncodeSequence(s), known);
            && ListInOrder(once.nodes)
            && DecodeSequence(EncodeSequence(once), known) == once
  {
    SequenceRoundTrip(s, known);
    ListRoundTrip(s.nodes);
    DecodedListInOrder(EncodeNodes(s.nodes));
    SequenceRoundTrip(Reloaded(s, known), known);
    NormalListIdempotent(s.nodes);
    EncodeNormalList(s.nodes);
  }

  function ReloadedAll(seqs: seq<Sequence>, known: set<string>): seq<Sequence> {
    if seqs == [] then [] else ReloadedAll(seqs[..|seqs| - 1], known) + [Reloaded(seqs[|seqs| - 1], known)]
  }

  /** A whole list of sequences survives saving and loading. */
  lemma {:induction false} SequencesRoundTrip(seqs: seq<Sequence>, known: set<string>)
    requires forall s :: s in seqs ==> ListInOrder(s.nodes)
    ensures DecodeSequences(EncodeSequences(seqs), known) == ReloadedAll(seqs, known)
  {
    if seqs != [] {
      var front, last := seqs[..|seqs| - 1], seqs[|seqs| - 1];
      SequencesRoundTrip(front, known);
      SequenceRoundTrip(last, known);
      var items := EncodeSequences(seqs);
      assert items[..|items| - 1] == EncodeSequences(front);
    }
  }

  /** Sequences are read one by one, in order. */
  lemma {:induction false} SequencesAt(items: seq<Json>, known: set<string>)
    ensures |DecodeSequences(items, known)| == |items|
    ensures forall i :: 0 <= i < |items| ==> DecodeSequences(items, known)[i] == DecodeSequence(items[i], known)
  {
    if items != [] {
      var front, r := items[..|items| - 1], DecodeSequences(items, known);
      SequencesAt(front, known);
      forall i | 0 <= i < |items| ensures r[i] == DecodeSequence(items[i], known) {
        if i < |front| { assert front[i] == items[i] && r[i] == DecodeSequences(front, known)[i]; }
      }
    }
  }

  // ----- broken marks -----

  /** Some node at any depth has an unknown type. */
  predicate HasUnknown(nodes: seq<Node>, known: set<string>) {
    nodes != [] &&
    (UnknownType(nodes[0].ty, known) || HasUnknownBelow(nodes[0].children, known) || HasUnknown(nodes[1..], known))
  }

  predicate HasUnknownBelow(slots: seq<Slot>, known: set<string>) {
    slots != [] && (HasUnknown(slots[0].nodes, known) || HasUnknownBelow(slots[1..], known))
  }

  lemma {:induction false} HasUnknownIsExistence(nodes: seq<Node>, known: set<string>)
    ensures HasUnknown(nodes, known) <==> exists n :: n in Flatten(nodes) && UnknownType(n.ty, known)
    decreases nodes
  {
    if nodes != [] {
      HasUnknownBelowIsExistence(nodes[0].children, known);
      HasUnknownIsExistence(nodes[1..], known);
      var below, rest := FlattenSlots(nodes[0].children), Flatten(nodes[1..]);
      assert forall n :: n in Flatten(nodes) <==> n == nodes[0] || n in below || n in rest;
    }
  }

  lemma {:induction false} HasUnknownBelowIsExistence(slots: seq<Slot>, known: set<string>)
    ensures HasUnknownBelow(slots, known) <==> exists n :: n in FlattenSlots(slots) && UnknownType(n.ty, known)
    decreases slots
  {
    if slots != [] {
      HasUnknownIsExistence(slots[0].nodes, known);
      HasUnknownBelowIsExistence(slots[1..], known);
      var first, rest := Flatten(slots[0].nodes), FlattenSlots(slots[1..]);
      assert forall n :: n in FlattenSlots(slots) <==> n in first || n in rest;
    }
  }

  lemma {:induction false} HasUnknownAppend(a: seq<Node>, b: seq<Node>, known: set<string>)
    ensures HasUnknown(a + b, known) <==> HasUnknown(a, known) || HasUnknown(b, known)
  {
    if a == [] {
      assert a + b == b;
    } else {
      HasUnknownAppend(a[1..], b, known);
      assert (a + b)[1..] == a[1..] + b;
    }
  }

  lemma {:induction false} HasUnknownAdded(slots: seq<Slot>, name: string, nodes: seq<Node>, known: set<string>)
    ensures HasUnknownBelow(AddToSlot(slots, name, nodes), known)
            <==> HasUnknownBelow(slots, known) || HasUnknown(nodes, known)
  {
    var r := AddToSlot(slots, name, nodes);
    if slots == [] || Before(name, slots[0].name) {
      assert r[1..] == slots;
    } else if slots[0].name == name {
      HasUnknownAppend(slots[0].nodes, nodes, known);
      assert r[1..] == slots[1..];
    } else {
      HasUnknownAdded(slots[1..], name, nodes, known);
      assert r[1..] == AddToSlot(slots[1..], name, nodes);
    }
  }

  lemma {:induction false} NodeMarkIsExact(j: Json, known: set<string>)
    ensures FirstUnknown(j, known).Some? <==> HasUnknown([DecodeNode(j)], known)
    decreases j
  {
    GetIsSmaller(j, "children");
    var ch := Get(j, "children");
    if ch.Obj? { ChildrenMarkIsExact(ch.members, known); }
    assert [DecodeNode(j)][1..] == [];
  }

  lemma {:induction false} ChildrenMarkIsExact(ms: seq<Member>, known: set<string>)
    ensures FirstUnknownInChildren(ms, known).Some? <==> HasUnknownBelow(DecodeChildren(ms), known)
    decreases ms
  {
    if ms != [] {
      var front, last := ms[..|ms| - 1], ms[|ms| - 1];
      ChildrenMarkIsExact(front, known);
      if last.value.Arr? { ListMarkIsExact(last.value.items, known); }
      HasUnknownAdded(
        DecodeChildren(front), last.key, if last.value.Arr? then DecodeNodes(last.value.items) else [], known);
    }
  }

  lemma {:induction false} ListMarkIsExact(items: seq<Json>, known: set<string>)
    ensures FirstUnknownInList(items, known).Some? <==> HasUnknown(DecodeNodes(items), known)
    decreases items
  {
    if items != [] {
      var front, last := items[..|items| - 1], items[|items| - 1];
      ListMarkIsExact(front, known);
      NodeMarkIsExact(last, known);
      HasUnknownAppend(DecodeNodes(front), [DecodeNode(last)], known);
    }
  }

  /** A decoded sequence is marked broken exactly when a node at some depth has
      an unknown type. */
  lemma DecodedMarkIsExact(j: Json, known: set<string>)
    ensures var s := DecodeSequence(j, known);
            s.broken <==> exists n :: n in Flatten(s.nodes) && UnknownType(n.ty, known)
  {
    ListMarkIsExact(Items(Get(j, "nodes")), known);
    HasUnknownIsExistence(DecodeSequence(j, known).nodes, known);
  }

  // ----- trigger bindings -----

  lemma TriggerRoundTrip(t: TriggerBinding)
    ensures DecodeTrigger(EncodeTrigger(t)) == t
  {
    var ms := EncodeTrigger(t).members;
    FindAt(ms, 0);
    FindAt(ms, 1);
    FindAt(ms, 2);
    FindAt(ms, 3);
    FindAt(ms, 4);
    if t.args != Null { FindAt(ms, 5); } else { LookUpMissing(ms, "args"); }
  }

  /** Trigger bindings come back exactly. */
  lemma {:induction false} TriggersRoundTrip(ts: seq<TriggerBinding>)
    ensures DecodeTriggers(EncodeTriggers(ts)) == ts
  {
    if ts != [] {
      TriggersRoundTrip(ts[..|ts| - 1]);
      TriggerRoundTrip(ts[|ts| - 1]);
      var items := EncodeTriggers(ts);
      assert items[..|items| - 1] == EncodeTriggers(ts[..|ts| - 1]);
    }
  }
}
