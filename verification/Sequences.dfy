/** Sequences, their nodes and their parameters (src/core/Sequence.h). */
module Sequences {
  import opened JsonTree

  datatype FieldType = BoolField | IntField | StringField | StringListField | MacField | EnumField | PredicateField

  datatype ParamDef = ParamDef(
    key: string, fieldType: FieldType, caption: string, defaultValue: Json, enumValues: string, required: bool)

  /** A node owns its parameters and its named child lists. The lists are kept
      in key order, as the map they stand for is. */
  datatype Node = Node(ty: string, params: Json, children: seq<Slot>)

  datatype Slot = Slot(name: string, nodes: seq<Node>)

  /** Why a sequence is marked broken. */
  datatype BrokenReason =
    | NoReason
    | UnknownBlockType(ty: string)
    | CallWithoutSequenceId
    | CallToUnknown(id: string)
    | CallMissingArgument(callee: string, key: string)

  datatype Sequence = Sequence(
    id: string, name: string, cooldownMs: uint32, params: seq<ParamDef>, nodes: seq<Node>,
    broken: bool, reason: BrokenReason)

  datatype TriggerBinding = TriggerBinding(
    id: string, ty: string, params: Json, sequenceId: string, args: Json, enabled: bool)

  /** The position of the child list with this name. */
  function FindSlot(children: seq<Slot>, name: string): (r: Option<nat>)
    ensures r.Some? ==> r.value < |children| && children[r.value].name == name
    ensures r.None? ==> forall i :: 0 <= i < |children| ==> children[i].name != name
  {
    if children == [] then None
    else if children[0].name == name then Some(0)
    else
      match FindSlot(children[1..], name)
      case None =>
        assert forall i :: 1 <= i < |children| ==> children[i] == children[1..][i - 1];
        None
      case Some(i) => Some(i + 1)
  }

  /** Lookup as the store and the tests do it: the first sequence with the id. */
  function FindById(all: seq<Sequence>, id: string): (r: Option<Sequence>)
    ensures r.Some? ==> r.value.id == id && r.value in all
    ensures r.None? ==> forall s :: s in all ==> s.id != id
  {
    if all == [] then None
    else if all[0].id == id then Some(all[0])
    else FindById(all[1..], id)
  }

  // ----- every node at any depth -----

  /** The nodes of a list and of all lists below it, parents first. */
  function Flatten(nodes: seq<Node>): seq<Node> {
    if nodes == [] then []
    else [nodes[0]] + FlattenSlots(nodes[0].children) + Flatten(nodes[1..])
  }

  function FlattenSlots(slots: seq<Slot>): seq<Node> {
    if slots == [] then [] else Flatten(slots[0].nodes) + FlattenSlots(slots[1..])
  }

  lemma {:induction false} FlattenSlotsAt(slots: seq<Slot>, i: nat)
    requires i < |slots|
    ensures forall x :: x in Flatten(slots[i].nodes) ==> x in FlattenSlots(slots)
  {
    if i > 0 {
      FlattenSlotsAt(slots[1..], i - 1);
      assert slots[1..][i - 1] == slots[i];
    }
  }

  // ----- key order -----

  /** The order of std::string. */
  predicate Before(a: string, b: string) {
    b != "" && (a == "" || a[0] < b[0] || (a[0] == b[0] && Before(a[1..], b[1..])))
  }

  lemma {:induction false} BeforeIsTransitive(a: string, b: string, c: string)
    requires Before(a, b) && Before(b, c)
    ensures Before(a, c)
  {
    if a != "" && a[0] == b[0] == c[0] { BeforeIsTransitive(a[1..], b[1..], c[1..]); }
  }

  lemma {:induction false} BeforeIsTotal(a: string, b: string)
    ensures a == b || Before(a, b) || Before(b, a)
  {
    if a != "" && b != "" && a[0] == b[0] {
      BeforeIsTotal(a[1..], b[1..]);
      assert a == [a[0]] + a[1..] && b == [b[0]] + b[1..];
    }
  }

  lemma {:induction false} BeforeIsIrreflexive(a: string)
    ensures !Before(a, a)
  {
    if a != "" { BeforeIsIrreflexive(a[1..]); }
  }

  /** The keys of a map: strictly increasing. */
  predicate SlotsInOrder(slots: seq<Slot>) {
    forall i, j :: 0 <= i < j < |slots| ==> Before(slots[i].name, slots[j].name)
  }

  /** `children[name]` gets the nodes, after what is already there. */
  function AddToSlot(slots: seq<Slot>, name: string, nodes: seq<Node>): seq<Slot> {
    if slots == [] || Before(name, slots[0].name) then [Slot(name, nodes)] + slots
    else if slots[0].name == name then [Slot(name, slots[0].nodes + nodes)] + slots[1..]
    else [slots[0]] + AddToSlot(slots[1..], name, nodes)
  }

  lemma {:induction false} AddToSlotNames(slots: seq<Slot>, name: string, nodes: seq<Node>)
    ensures forall s :: s in AddToSlot(slots, name, nodes) ==>
              s.name == name || exists t :: t in slots && s.name == t.name
  {
    if slots != [] && !Before(name, slots[0].name) && slots[0].name != name {
      AddToSlotNames(slots[1..], name, nodes);
    }
  }

  /** Filling a child map keeps its keys in order. */
  lemma {:induction false} AddToSlotKeepsOrder(slots: seq<Slot>, name: string, nodes: seq<Node>)
    requires SlotsInOrder(slots)
    ensures SlotsInOrder(AddToSlot(slots, name, nodes))
  {
    if slots == [] {
    } else if Before(name, slots[0].name) {
      forall j | 0 < j < |slots| ensures Before(name, slots[j].name) {
        BeforeIsTransitive(name, slots[0].name, slots[j].name);
      }
    } else if slots[0].name != name {
      BeforeIsTotal(name, slots[0].name);
      AddToSlotKeepsOrder(slots[1..], name, nodes);
      AddToSlotNames(slots[1..], name, nodes);
      var r := AddToSlot(slots[1..], name, nodes);
      forall j | 0 <= j < |r| ensures Before(slots[0].name, r[j].name) {
        assert r[j] in r;
      }
    }
  }

  /** A key above all others goes to the end. */
  lemma {:induction false} AddToSlotAtEnd(slots: seq<Slot>, name: string, nodes: seq<Node>)
    requires forall i :: 0 <= i < |slots| ==> Before(slots[i].name, name)
    ensures AddToSlot(slots, name, nodes) == slots + [Slot(name, nodes)]
  {
    BeforeIsIrreflexive(name);
    if slots != [] {
      if Before(name, slots[0].name) {
        BeforeIsTransitive(slots[0].name, name, slots[0].name);
        BeforeIsIrreflexive(slots[0].name);
        assert false;
      }
      AddToSlotAtEnd(slots[1..], name, nodes);
      assert slots == [slots[0]] + slots[1..];
    }
  }
}
