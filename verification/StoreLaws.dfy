/** What the stored marks say about the stored sequences. */
module StoreLaws {
  import opened JsonTree
  import opened Sequences
  import opened SequenceCodec
  import opened CodecLaws
  import opened SequenceStore

  ghost predicate Satisfiable(all: seq<Sequence>, n: Node) {
    CallFault(all, n).None?
  }

  /** The walk finds a fault exactly when some call node at some depth cannot
      be satisfied. */
  lemma {:induction false} FirstFaultIsExact(all: seq<Sequence>, nodes: seq<Node>)
    ensures FirstFault(all, nodes).None? <==> forall n :: n in Flatten(nodes) ==> Satisfiable(all, n)
    decreases nodes
  {
    if nodes != [] {
      FirstFaultBelowIsExact(all, nodes[0].children);
      FirstFaultIsExact(all, nodes[1..]);
      var below, rest := FlattenSlots(nodes[0].children), Flatten(nodes[1..]);
      assert forall n :: n in Flatten(nodes) <==> n == nodes[0] || n in below || n in rest;
      assert nodes[0] in Flatten(nodes);
    }
  }

  lemma {:induction false} FirstFaultBelowIsExact(all: seq<Sequence>, slots: seq<Slot>)
    ensures FirstFaultBelow(all, slots).None? <==> forall n :: n in FlattenSlots(slots) ==> Satisfiable(all, n)
    decreases slots
  {
    if slots != [] {
      FirstFaultIsExact(all, slots[0].nodes);
      FirstFaultBelowIsExact(all, slots[1..]);
      var first, rest := Flatten(slots[0].nodes), FlattenSlots(slots[1..]);
      assert forall n :: n in FlattenSlots(slots) <==> n in first || n in rest;
    }
  }

  lemma ValidateKeepsCallees(all: seq<Sequence>)
    ensures SameCallees(all, Validate(all))
  {
  }

  /** After the check a sequence is broken exactly when it was before or has a
      call that the store cannot satisfy, and only marks have changed. */
  lemma ValidateIsExact(all: seq<Sequence>, i: nat)
    requires i < |all|
    ensures var s := Validate(all)[i];
            && s == all[i].(broken := s.broken, reason := s.reason)
            && (s.broken <==> all[i].broken || exists n :: n in Flatten(s.nodes) && !Satisfiable(Validate(all), n))
  {
    ValidateKeepsCallees(all);
    SameCalleesSameFaults(all, Validate(all), all[i].nodes);
    FirstFaultIsExact(Validate(all), all[i].nodes);
  }

  /** Checking again changes nothing. */
  lemma ValidateTwice(all: seq<Sequence>)
    ensures Validate(Validate(all)) == Validate(all)
  {
    var once := Validate(all);
    forall i | 0 <= i < |all| ensures Checked(once, once[i]) == once[i] {
      ValidateKeepsCallees(all);
      SameCalleesSameFaults(all, once, all[i].nodes);
    }
  }

  // ----- order -----

  ghost predicate DistinctIds(all: seq<Sequence>) {
    forall i, j :: 0 <= i < j < |all| ==> all[i].id != all[j].id
  }

  lemma {:induction false} FindByIdInDistinct(all: seq<Sequence>, s: Sequence)
    requires DistinctIds(all) && s in all
    ensures FindById(all, s.id) == Some(s)
  {
    if all[0] == s {
    } else {
      assert s in all[1..];
      FindByIdInDistinct(all[1..], s);
      var k :| 0 <= k < |all[1..]| && all[1..][k] == s;
      assert all[k + 1] == s;
    }
  }

  /** The same sequences in any order. */
  ghost predicate Reordered(all: seq<Sequence>, all': seq<Sequence>) {
    DistinctIds(all) && DistinctIds(all') && forall s :: s in all <==> s in all'
  }

  lemma ReorderedFinds(all: seq<Sequence>, all': seq<Sequence>, id: string)
    requires Reordered(all, all')
    ensures FindById(all, id) == FindById(all', id)
  {
    if FindById(all, id).Some? { FindByIdInDistinct(all', FindById(all, id).value); }
    if FindById(all', id).Some? { FindByIdInDistinct(all, FindById(all', id).value); }
  }

  lemma {:induction false} ReorderedFaults(all: seq<Sequence>, all': seq<Sequence>, nodes: seq<Node>)
    requires Reordered(all, all')
    ensures FirstFault(all, nodes) == FirstFault(all', nodes)
    decreases nodes
  {
    if nodes != [] {
      if AsText(Get(nodes[0].params, "sequenceId")).Some? {
        ReorderedFinds(all, all', AsText(Get(nodes[0].params, "sequenceId")).value);
      }
      ReorderedFaultsBelow(all, all', nodes[0].children);
      ReorderedFaults(all, all', nodes[1..]);
    }
  }

  lemma {:induction false} ReorderedFaultsBelow(all: seq<Sequence>, all': seq<Sequence>, slots: seq<Slot>)
    requires Reordered(all, all')
    ensures FirstFaultBelow(all, slots) == FirstFaultBelow(all', slots)
    decreases slots
  {
    if slots != [] {
      ReorderedFaults(all, all', slots[0].nodes);
      ReorderedFaultsBelow(all, all', slots[1..]);
    }
  }

  /** The check comes out the same whatever the order of the sequences. */
  lemma ValidateIgnoresOrder(all: seq<Sequence>, all': seq<Sequence>)
    requires Reordered(all, all')
    ensures Reordered(Validate(all), Validate(all'))
  {
    forall s | s in Validate(all) ensures s in Validate(all') { CheckedInReordered(all, all', s); }
    forall s | s in Validate(all') ensures s in Validate(all) { CheckedInReordered(all', all, s); }
  }

  lemma CheckedInReordered(all: seq<Sequence>, all': seq<Sequence>, s: Sequence)
    requires Reordered(all, all') && s in Validate(all)
    ensures s in Validate(all')
  {
    var i :| 0 <= i < |all| && Validate(all)[i] == s;
    assert all[i] in all';
    var j :| 0 <= j < |all'| && all'[j] == all[i];
    ReorderedFaults(all, all', all[i].nodes);
    assert Validate(all')[j] == s;
  }

  // ----- the invariant of the store -----

  /** Every sequence not marked broken has known types and satisfiable calls
      throughout, in the store as it is. */
  ghost predicate Sound(all: seq<Sequence>, known: set<string>) {
    forall s :: s in all && !s.broken ==> SoundSequence(all, known, s)
  }

  ghost predicate SoundSequence(all: seq<Sequence>, known: set<string>, s: Sequence) {
    forall n :: n in Flatten(s.nodes) ==> !UnknownType(n.ty, known) && Satisfiable(all, n)
  }

  ghost predicate TypesMarked(all: seq<Sequence>, known: set<string>) {
    forall s :: s in all && !s.broken ==> !HasUnknown(s.nodes, known)
  }

  /** Checking a list whose unknown types are marked makes it sound. */
  lemma ValidateMakesSound(all: seq<Sequence>, known: set<string>)
    requires TypesMarked(all, known)
    ensures Sound(Validate(all), known) && TypesMarked(Validate(all), known)
  {
    forall s | s in Validate(all) && !s.broken
      ensures SoundSequence(Validate(all), known, s) && !HasUnknown(s.nodes, known)
    {
      var i :| 0 <= i < |all| && Validate(all)[i] == s;
      ValidateIsExact(all, i);
      assert all[i] in all;
      HasUnknownIsExistence(s.nodes, known);
    }
  }

  lemma {:induction false} DecodedTypesMarked(items: seq<Json>, known: set<string>)
    ensures TypesMarked(DecodeSequences(items, known), known)
  {
    if items != [] {
      DecodedTypesMarked(items[..|items| - 1], known);
      ListMarkIsExact(Items(Get(items[|items| - 1], "nodes")), known);
    }
  }

  lemma {:induction false} UpsertedMembers(all: seq<Sequence>, s: Sequence)
    ensures forall x :: x in Upserted(all, s) ==> x == s || x in all
  {
    if all != [] && all[0].id != s.id { UpsertedMembers(all[1..], s); }
  }

  lemma {:induction false} RemovedMembers(all: seq<Sequence>, id: string)
    ensures forall x :: x in Removed(all, id) ==> x in all
  {
    if all != [] && all[0].id != id { RemovedMembers(all[1..], id); }
  }

  // ----- every series of mutations -----

  /** The four ways the stored list changes. What is put in comes out of the decoder. */
  datatype Mutation =
    | Loading(blobs: map<string, Json>)
    | Replacing(doc: Json, got: seq<Sequence>)
    | Upserting(doc: Json, id: string)
    | Removing(id: string)

  ghost predicate Possible(mu: Mutation, known: set<string>) {
    match mu
    case Replacing(doc, got) => IdsAssigned(DecodeSequences(Items(doc), known), got)
    case _ => true
  }

  function Mutate(all: seq<Sequence>, mu: Mutation, known: set<string>): seq<Sequence> {
    match mu
    case Loading(blobs) => Validate(Stored(blobs, known))
    case Replacing(doc, got) => Validate(got)
    case Upserting(doc, id) => Validate(Upserted(all, DecodeSequence(doc, known).(id := id)))
    case Removing(id) => if FindById(all, id).Some? then Validate(Removed(all, id)) else all
  }

  function After(mus: seq<Mutation>, known: set<string>): seq<Sequence> {
    if mus == [] then [] else Mutate(After(mus[..|mus| - 1], known), mus[|mus| - 1], known)
  }

  lemma MutationKeepsSound(all: seq<Sequence>, mu: Mutation, known: set<string>)
    requires Possible(mu, known) && Sound(all, known) && TypesMarked(all, known)
    ensures Sound(Mutate(all, mu, known), known) && TypesMarked(Mutate(all, mu, known), known)
  {
    match mu
    case Loading(blobs) =>
      if KEY in blobs { DecodedTypesMarked(Items(blobs[KEY]), known); }
      ValidateMakesSound(Stored(blobs, known), known);
    case Replacing(doc, got) =>
      var given := DecodeSequences(Items(doc), known);
      DecodedTypesMarked(Items(doc), known);
      forall s | s in got && !s.broken ensures !HasUnknown(s.nodes, known) {
        var i :| 0 <= i < |got| && got[i] == s;
        assert given[i] in given;
      }
      ValidateMakesSound(got, known);
    case Upserting(doc, id) =>
      var s := DecodeSequence(doc, known).(id := id);
      ListMarkIsExact(Items(Get(doc, "nodes")), known);
      UpsertedMembers(all, s);
      ValidateMakesSound(Upserted(all, s), known);
    case Removing(id) =>
      RemovedMembers(all, id);
      if FindById(all, id).Some? { ValidateMakesSound(Removed(all, id), known); }
  }

  /** After any series of loads, replacements, upserts and removals every
      sequence not marked broken is satisfiable in the current store. */
  lemma {:induction false} StoreIsAlwaysSound(mus: seq<Mutation>, known: set<string>)
    requires forall mu :: mu in mus ==> Possible(mu, known)
    ensures Sound(After(mus, known), known) && TypesMarked(After(mus, known), known)
  {
    if mus != [] {
      StoreIsAlwaysSound(mus[..|mus| - 1], known);
      MutationKeepsSound(After(mus[..|mus| - 1], known), mus[|mus| - 1], known);
    }
  }

  // ----- when the marks are exact -----

  /** After loading, a sequence is broken exactly when some node has an unknown
      type or some call cannot be satisfied. */
  lemma LoadIsExact(blobs: map<string, Json>, known: set<string>, i: nat)
    requires i < |Stored(blobs, known)|
    ensures var all := Validate(Stored(blobs, known));
            all[i].broken <==>
            exists n :: n in Flatten(all[i].nodes) && (UnknownType(n.ty, known) || !Satisfiable(all, n))
  {
    var decoded := Stored(blobs, known);
    var all := Validate(decoded);
    ValidateIsExact(decoded, i);
    SequencesAt(Items(blobs[KEY]), known);
    DecodedMarkIsExact(Items(blobs[KEY])[i], known);
  }

  /** A mark outlives its cause: a caller marked because its callee is missing
      stays marked when the callee is stored, although nothing is wrong with it. */
  lemma MarkOutlivesCause(a: string, b: string)
    requires a != b
    ensures var call := Node("call-sequence", Obj([Member("sequenceId", Text(b))]), []);
            var caller := Sequence(a, "", 60000, [], [call], false, NoReason);
            var callee := Sequence(b, "", 60000, [], [], false, NoReason);
            var all := Validate(Upserted(Validate([caller]), callee));
            all[0].broken && all[0].id == a && forall n :: n in Flatten(all[0].nodes) ==> Satisfiable(all, n)
  {
    var call := Node("call-sequence", Obj([Member("sequenceId", Text(b))]), []);
    var caller := Sequence(a, "", 60000, [], [call], false, NoReason);
    var callee := Sequence(b, "", 60000, [], [], false, NoReason);
    assert CallFault([caller], call) == Some(CallToUnknown(b)) by { assert [caller][1..] == []; }
    var alone := Validate([caller]);
    assert alone == [caller.(broken := true, reason := CallToUnknown(b))];
    assert alone[1..] == [];
    assert Upserted(alone, callee) == alone + [callee];
    var all := Validate(alone + [callee]);
    assert all[1..] == [callee];
    assert Flatten([call]) == [call] by { assert [call][1..] == []; }
  }
}
