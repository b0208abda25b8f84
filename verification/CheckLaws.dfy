/** Which fault the static check reports, and which sequence a lookup finds
    (src/core/SequenceStore.cpp). */
module CheckLaws {
  import opened JsonTree
  import opened Sequences
  import opened SequenceCodec
  import opened CodecLaws
  import opened SequenceStore
  import opened StoreLaws
  import JsonReads

  /** The parameter must be given and is not. */
  ghost predicate Misses(p: ParamDef, args: Json) {
    p.required && p.defaultValue == Null && forall v :: !JsonReads.HasMember(args, p.key, v)
  }

  lemma MissesIff(p: ParamDef, args: Json)
    ensures Misses(p, args) <==> p.required && p.defaultValue == Null && !Has(args, p.key)
  {
    if args.Obj? {
      forall v ensures Find(args.members, p.key) == Some(v) <==> JsonReads.HasMember(args, p.key, v) {
        JsonReads.FindIffFirst(args.members, p.key, v);
      }
    }
  }

  lemma {:induction false} FirstMissingIsFirst(params: seq<ParamDef>, args: Json, k: nat)
    requires k <= |params| && forall i :: 0 <= i < k ==> !Misses(params[i], args)
    requires k < |params| ==> Misses(params[k], args)
    ensures FirstMissing(params, args) == if k == |params| then None else Some(params[k].key)
  {
    if params != [] {
      MissesIff(params[0], args);
      if k > 0 {
        assert forall i :: 0 <= i < k - 1 ==> params[1..][i] == params[i + 1];
        FirstMissingIsFirst(params[1..], args, k - 1);
      }
    }
  }

  lemma {:induction false} FirstIsFound(front: seq<Sequence>, s: Sequence, rest: seq<Sequence>)
    requires forall x :: x in front ==> x.id != s.id
    ensures FindById(front + [s] + rest, s.id) == Some(s)
  {
    var all := front + [s] + rest;
    if front == [] {
      assert all[0] == s;
    } else {
      FirstIsFound(front[1..], s, rest);
      assert all[0] == front[0] && all[0] in front;
      assert all[1..] == front[1..] + [s] + rest;
    }
  }

  /** Nodes that call nothing have no fault, a call needs a text as id, and that
      a stored sequence has it. */
  lemma CallNeedsCallee(all: seq<Sequence>, n: Node)
    ensures n.ty != "call-sequence" ==> CallFault(all, n) == None
    ensures n.ty == "call-sequence" && !Get(n.params, "sequenceId").Text? ==>
              CallFault(all, n) == Some(CallWithoutSequenceId)
    ensures forall id :: n.ty == "call-sequence" && Get(n.params, "sequenceId") == Text(id)
                         && (forall s :: s in all ==> s.id != id) ==>
              CallFault(all, n) == Some(CallToUnknown(id))
  {
  }

  /** A call of the first sequence with the id is at fault over the first of its
      parameters that is missed, if there is one. */
  lemma CallNeedsArguments(front: seq<Sequence>, s: Sequence, rest: seq<Sequence>, n: Node, k: nat)
    requires n.ty == "call-sequence" && Get(n.params, "sequenceId") == Text(s.id)
    requires forall x :: x in front ==> x.id != s.id
    requires k <= |s.params| && forall i :: 0 <= i < k ==> !Misses(s.params[i], Get(n.params, "args"))
    requires k < |s.params| ==> Misses(s.params[k], Get(n.params, "args"))
    ensures CallFault(front + [s] + rest, n) ==
            if k == |s.params| then None else Some(CallMissingArgument(s.id, s.params[k].key))
  {
    FirstIsFound(front, s, rest);
    FirstMissingIsFirst(s.params, Get(n.params, "args"), k);
  }

  // ----- the order of the walk -----

  /** The first fault among these nodes. */
  function FirstOf(all: seq<Sequence>, nodes: seq<Node>): Option<BrokenReason> {
    if nodes == [] then None
    else if CallFault(all, nodes[0]).Some? then CallFault(all, nodes[0])
    else FirstOf(all, nodes[1..])
  }

  lemma {:induction false} FirstOfAppend(all: seq<Sequence>, a: seq<Node>, b: seq<Node>)
    ensures FirstOf(all, a + b) == if FirstOf(all, a).Some? then FirstOf(all, a) else FirstOf(all, b)
  {
    if a == [] {
      assert a + b == b;
    } else {
      FirstOfAppend(all, a[1..], b);
      assert (a + b)[1..] == a[1..] + b;
    }
  }

  lemma {:induction false} WalkIsPreOrder(all: seq<Sequence>, nodes: seq<Node>)
    ensures FirstFault(all, nodes) == FirstOf(all, Flatten(nodes))
    decreases nodes
  {
    if nodes != [] {
      var n, below, rest := nodes[0], FlattenSlots(nodes[0].children), Flatten(nodes[1..]);
      WalkBelowIsPreOrder(all, n.children);
      WalkIsPreOrder(all, nodes[1..]);
      FirstOfAppend(all, [n] + below, rest);
      FirstOfAppend(all, [n], below);
      assert FirstOf(all, [n]) == CallFault(all, n) by { assert [n][1..] == []; }
    }
  }

  lemma {:induction false} WalkBelowIsPreOrder(all: seq<Sequence>, slots: seq<Slot>)
    ensures FirstFaultBelow(all, slots) == FirstOf(all, FlattenSlots(slots))
    decreases slots
  {
    if slots != [] {
      WalkIsPreOrder(all, slots[0].nodes);
      WalkBelowIsPreOrder(all, slots[1..]);
      FirstOfAppend(all, Flatten(slots[0].nodes), FlattenSlots(slots[1..]));
    }
  }

  lemma {:induction false} FirstOfAt(all: seq<Sequence>, nodes: seq<Node>, k: nat)
    requires k < |nodes| && CallFault(all, nodes[k]).Some? && forall i :: 0 <= i < k ==> CallFault(all, nodes[i]).None?
    ensures FirstOf(all, nodes) == CallFault(all, nodes[k])
  {
    if k > 0 {
      assert forall i :: 0 <= i < k - 1 ==> nodes[1..][i] == nodes[i + 1];
      FirstOfAt(all, nodes[1..], k - 1);
    }
  }

  /** A sequence not marked before is marked for the first fault of its nodes,
      parents before what is below them, earlier before later. */
  lemma MarkedForFirstFault(all: seq<Sequence>, i: nat, k: nat)
    requires i < |all| && !all[i].broken && k < |Flatten(all[i].nodes)|
    requires CallFault(all, Flatten(all[i].nodes)[k]).Some?
    requires forall j :: 0 <= j < k ==> CallFault(all, Flatten(all[i].nodes)[j]).None?
    ensures Validate(all)[i] == all[i].(broken := true, reason := CallFault(all, Flatten(all[i].nodes)[k]).value)
  {
    WalkIsPreOrder(all, all[i].nodes);
    FirstOfAt(all, Flatten(all[i].nodes), k);
  }

  /** A parent comes before what is below it, and that before the next node. */
  lemma PreOrderStarts(n: Node, s: Slot, slots: seq<Slot>, rest: seq<Node>)
    requires n.children == [s] + slots
    ensures Flatten([n] + rest) == [n] + Flatten(s.nodes) + FlattenSlots(slots) + Flatten(rest)
  {
    assert ([n] + rest)[1..] == rest && ([s] + slots)[1..] == slots;
    assert [n] + (Flatten(s.nodes) + FlattenSlots(slots)) == [n] + Flatten(s.nodes) + FlattenSlots(slots);
  }

  // ----- the blob -----

  /** Sequences are stored under "sequences"; without that blob there are none. */
  lemma StoredUnder(blobs: map<string, Json>, known: set<string>)
    ensures "sequences" !in blobs ==> Stored(blobs, known) == []
    ensures forall items :: "sequences" in blobs && blobs["sequences"] == Arr(items) ==>
              && |Stored(blobs, known)| == |items|
              && forall i :: 0 <= i < |items| ==> Stored(blobs, known)[i] == DecodeSequence(items[i], known)
    ensures "sequences" in blobs && !blobs["sequences"].Arr? ==> Stored(blobs, known) == []
  {
    if "sequences" in blobs && blobs["sequences"].Arr? { SequencesAt(blobs["sequences"].items, known); }
  }

  /** A new id is eight lower-case hex digits. */
  lemma NewIdIff(id: string)
    ensures IsNewId(id) <==> |id| == 8 && forall i :: 0 <= i < |id| ==> id[i] in "0123456789abcdef"
  {
    HexDigits();
    if IsNewId(id) {
      assert forall i :: 0 <= i < |id| ==> id[i] in id;
    }
  }

  lemma HexDigits()
    ensures forall c: char :: c in "0123456789abcdef" <==> '0' <= c <= '9' || 'a' <= c <= 'f'
  {
  }

  /** Ids are given to the sequences that have none, and nothing else changes. */
  lemma IdsGivenWhereMissing(given: seq<Sequence>, got: seq<Sequence>, i: nat)
    requires IdsAssigned(given, got) && i < |given|
    ensures |got| == |given|
    ensures given[i].id != "" ==> got[i] == given[i]
    ensures given[i].id == "" ==> got[i] == given[i].(id := got[i].id) && |got[i].id| == 8
  {
  }

  /** A mark set before stays as it is. */
  lemma MarkStays(all: seq<Sequence>, i: nat)
    requires i < |all| && all[i].broken
    ensures Validate(all)[i] == all[i]
  {
  }

  /** Upserting replaces the first sequence with the id, or appends. */
  lemma UpsertPuts(front: seq<Sequence>, old': Sequence, rest: seq<Sequence>, s: Sequence)
    requires forall x :: x in front ==> x.id != s.id
    ensures old'.id == s.id ==> Upserted(front + [old'] + rest, s) == front + [s] + rest
    ensures Upserted(front, s) == front + [s]
  {
    var all := front + [old'] + rest;
    assert forall k :: 0 <= k < |front| ==> all[k] == front[k] && front[k] in front;
    if old'.id == s.id {
      UpsertedAt(all, s, |front|);
      assert all[|front| := s] == front + [s] + rest;
    }
    UpsertedAt(front, s, |front|);
  }

  /** Removing takes out the first sequence with the id and nothing else. */
  lemma RemoveTakes(front: seq<Sequence>, s: Sequence, rest: seq<Sequence>)
    requires forall x :: x in front ==> x.id != s.id
    ensures Removed(front + [s] + rest, s.id) == front + rest
  {
    var all := front + [s] + rest;
    assert forall k :: 0 <= k < |front| ==> all[k] == front[k] && front[k] in front;
    RemovedAt(all, s.id, |front|);
    assert all[..|front|] == front && all[|front| + 1..] == rest;
  }
}
