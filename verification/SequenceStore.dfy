/** The stored sequences and the check that marks a caller broken when one of
    its calls cannot be satisfied (src/core/SequenceStore.cpp). */
module SequenceStore {
  import opened JsonTree
  import opened Sequences
  import opened SequenceCodec

  // ----- the check -----

  /** The first required parameter without default that the arguments lack. */
  function FirstMissing(params: seq<ParamDef>, args: Json): (r: Option<string>)
    ensures r.None? <==> forall p :: p in params && p.required && p.defaultValue == Null ==> Has(args, p.key)
  {
    if params == [] then None
    else if params[0].required && params[0].defaultValue == Null && !Has(args, params[0].key) then Some(params[0].key)
    else FirstMissing(params[1..], args)
  }

  /** Why a call node cannot be satisfied; nothing for all other nodes. */
  function CallFault(all: seq<Sequence>, n: Node): Option<BrokenReason> {
    if n.ty != "call-sequence" then None
    else
      match AsText(Get(n.params, "sequenceId"))
      case None => Some(CallWithoutSequenceId)
      case Some(id) =>
        match FindById(all, id)
        case None => Some(CallToUnknown(id))
        case Some(callee) =>
          match FirstMissing(callee.params, Get(n.params, "args"))
          case None => None
          case Some(key) => Some(CallMissingArgument(id, key))
  }

  /** The first fault of a walk over all nodes, parents first. */
  function FirstFault(all: seq<Sequence>, nodes: seq<Node>): Option<BrokenReason> {
    if nodes == [] then None
    else
      match CallFault(all, nodes[0])
      case Some(r) => Some(r)
      case None =>
        match FirstFaultBelow(all, nodes[0].children)
        case Some(r) => Some(r)
        case None => FirstFault(all, nodes[1..])
  }

  function FirstFaultBelow(all: seq<Sequence>, slots: seq<Slot>): Option<BrokenReason> {
    if slots == [] then None
    else
      match FirstFault(all, slots[0].nodes)
      case Some(r) => Some(r)
      case None => FirstFaultBelow(all, slots[1..])
  }

  /** A sequence after the check; one already broken is not looked at. */
  function Checked(all: seq<Sequence>, s: Sequence): Sequence {
    if s.broken then s
    else
      match FirstFault(all, s.nodes)
      case None => s
      case Some(r) => s.(broken := true, reason := r)
  }

  function Validate(all: seq<Sequence>): seq<Sequence> {
    seq(|all|, i requires 0 <= i < |all| => Checked(all, all[i]))
  }

  // ----- what the operations do -----

  predicate IsNewId(id: string) {
    |id| == 8 && forall c :: c in id ==> '0' <= c <= '9' || 'a' <= c <= 'f'
  }

  /** Every sequence without an id got one, nothing else changed. */
  predicate IdsAssigned(given: seq<Sequence>, got: seq<Sequence>) {
    && |got| == |given|
    && forall i :: 0 <= i < |given| ==>
         got[i] == given[i].(id := got[i].id) &&
         if given[i].id == "" then IsNewId(got[i].id) else got[i].id == given[i].id
  }

  /** Replaces the first sequence with the same id, or appends. */
  function Upserted(all: seq<Sequence>, s: Sequence): seq<Sequence> {
    if all == [] then [s]
    else if all[0].id == s.id then [s] + all[1..]
    else [all[0]] + Upserted(all[1..], s)
  }

  /** Without the first sequence with this id. */
  function Removed(all: seq<Sequence>, id: string): seq<Sequence> {
    if all == [] then []
    else if all[0].id == id then all[1..]
    else [all[0]] + Removed(all[1..], id)
  }

  function Stored(blobs: map<string, Json>, known: set<string>): seq<Sequence> {
    if KEY in blobs then DecodeSequences(Items(blobs[KEY]), known) else []
  }

  const KEY := "sequences"

  /** Where blobs are kept by key. */
  class Persistence {
    var blobs: map<string, Json>

    constructor ()
      ensures blobs == map[]
    {
      blobs := map[];
    }

    method Load(key: string) returns (blob: Option<Json>)
      ensures blob == if key in blobs then Some(blobs[key]) else None
    {
      blob := if key in blobs then Some(blobs[key]) else None;
    }

    method Save(key: string, blob: Json)
      modifies this
      ensures blobs == old(blobs)[key := blob]
    {
      blobs := blobs[key := blob];
    }
  }

  class SequenceStore {
    const p: Persistence
    /** The registered block types. */
    const known: set<string>
    var seqs: seq<Sequence>

    constructor (p: Persistence, known: set<string>)
      ensures this.p == p && this.known == known && seqs == []
    {
      this.p, this.known, seqs := p, known, [];
    }

    method Load()
      modifies this
      ensures seqs == Validate(Stored(p.blobs, known))
    {
      var blob := p.Load(KEY);
      seqs := DecodeList(if blob.None? then Arr([]) else blob.value, known);
      ValidateCallSequenceArgs();
    }

    method Save()
      modifies p
      ensures p.blobs == old(p.blobs)["sequences" := Arr(EncodeSequences(seqs))]
    {
      var doc := EncodeList(seqs);
      p.Save(KEY, doc);
    }

    static method NewId() returns (id: string)
      ensures IsNewId(id)
    {
      assert IsNewId("00000000");
      id :| IsNewId(id);
    }

    method ReplaceAll(given: seq<Sequence>)
      modifies this
      ensures exists got :: IdsAssigned(given, got) && seqs == Validate(got)
    {
      var got := given;
      for i := 0 to |got|
        invariant |got| == |given|
        invariant IdsAssigned(given[..i], got[..i])
        invariant forall k :: i <= k < |got| ==> got[k] == given[k]
      {
        if got[i].id == "" {
          var id := NewId();
          got := got[i := got[i].(id := id)];
        }
      }
      assert got[..|got|] == got && given[..|given|] == given;
      seqs := got;
      ValidateCallSequenceArgs();
    }

    method Upsert(given: Sequence) returns (id: string)
      modifies this
      ensures if given.id == "" then IsNewId(id) else id == given.id
      ensures seqs == Validate(Upserted(old(seqs), given.(id := id)))
    {
      var s := given;
      if s.id == "" {
        var newId := NewId();
        s := s.(id := newId);
      }
      id := s.id;
      var i := PositionOf(id);
      UpsertedAt(seqs, s, i);
      if i == |seqs| {
        seqs := seqs + [s];
      } else {
        seqs := seqs[i := s];
      }
      ValidateCallSequenceArgs();
    }

    method RemoveById(id: string) returns (removed: bool)
      modifies this
      ensures removed <==> FindById(old(seqs), id).Some?
      ensures seqs == if removed then Validate(Removed(old(seqs), id)) else old(seqs)
    {
      var i := PositionOf(id);
      if i == |seqs| {
        return false;
      }
      RemovedAt(seqs, id, i);
      seqs := seqs[..i] + seqs[i + 1..];
      ValidateCallSequenceArgs();
      return true;
    }

    method Lookup(id: string) returns (found: Option<Sequence>)
      ensures found == FindById(seqs, id)
    {
      var i := PositionOf(id);
      found := if i == |seqs| then None else Some(seqs[i]);
    }

    /** std::find_if by id; the length when there is none. */
    method PositionOf(id: string) returns (i: nat)
      ensures i <= |seqs| && forall k :: 0 <= k < i ==> seqs[k].id != id
      ensures i < |seqs| ==> seqs[i].id == id
      ensures FindById(seqs, id) == if i == |seqs| then None else Some(seqs[i])
    {
      i := 0;
      assert seqs[0..] == seqs;
      while i < |seqs| && seqs[i].id != id
        invariant 0 <= i <= |seqs| && forall k :: 0 <= k < i ==> seqs[k].id != id
        invariant FindById(seqs, id) == FindById(seqs[i..], id)
      {
        assert seqs[i..][0] == seqs[i] && seqs[i..][1..] == seqs[i + 1..];
        i := i + 1;
      }
      if i < |seqs| { assert seqs[i..][0] == seqs[i]; }
    }

    /** The walk over every caller, marking in place. */
    method ValidateCallSequenceArgs()
      modifies this
      ensures seqs == Validate(old(seqs))
    {
      ghost var all := seqs;
      for i := 0 to |seqs|
        invariant |seqs| == |all|
        invariant forall k :: 0 <= k < |all| ==> seqs[k] == if k < i then Checked(all, all[k]) else all[k]
      {
        var caller := seqs[i];
        if caller.broken {
          continue;
        }
        SameCalleesSameFaults(all, seqs, caller.nodes);
        var fault := WalkNodes(seqs, caller.nodes, None);
        if fault.Some? {
          seqs := seqs[i := caller.(broken := true, reason := fault.value)];
        }
      }
    }
  }

  /** Visits every node, parents first, keeping the first fault. */
  method WalkNodes(all: seq<Sequence>, nodes: seq<Node>, fault: Option<BrokenReason>)
    returns (fault': Option<BrokenReason>)
    ensures fault' == if fault.Some? then fault else FirstFault(all, nodes)
    decreases nodes
  {
    fault' := fault;
    assert nodes[0..] == nodes;
    for i := 0 to |nodes|
      invariant FaultSoFar(fault, FirstFault(all, nodes)) == FaultSoFar(fault', FirstFault(all, nodes[i..]))
    {
      ghost var before := fault';
      var n := nodes[i];
      assert nodes[i..][0] == n && nodes[i..][1..] == nodes[i + 1..];
      fault' := Visit(all, n, fault');
      ghost var visited := fault';
      assert n.children[0..] == n.children;
      for k := 0 to |n.children|
        invariant FaultSoFar(visited, FirstFaultBelow(all, n.children)) ==
                  FaultSoFar(fault', FirstFaultBelow(all, n.children[k..]))
      {
        assert n.children[k..][0] == n.children[k] && n.children[k..][1..] == n.children[k + 1..];
        fault' := WalkNodes(all, n.children[k].nodes, fault');
      }
    }
  }

  function FaultSoFar(first: Option<BrokenReason>, later: Option<BrokenReason>): Option<BrokenReason> {
    if first.Some? then first else later
  }

  /** One visit of the walk, idle once a fault is known. */
  method Visit(all: seq<Sequence>, n: Node, fault: Option<BrokenReason>) returns (fault': Option<BrokenReason>)
    ensures fault' == FaultSoFar(fault, CallFault(all, n))
  {
    if fault.Some? {
      return fault;
    }
    if n.ty != "call-sequence" {
      return None;
    }
    var cid := AsText(Get(n.params, "sequenceId"));
    if cid.None? {
      return Some(CallWithoutSequenceId);
    }
    var callee := FindById(all, cid.value);
    if callee.None? {
      return Some(CallToUnknown(cid.value));
    }
    var args := Get(n.params, "args");
    var params := callee.value.params;
    assert params[0..] == params;
    for i := 0 to |params|
      invariant FirstMissing(params, args) == FirstMissing(params[i..], args)
    {
      var pd := params[i];
      assert params[i..][0] == pd && params[i..][1..] == params[i + 1..];
      if !pd.required {
        continue;
      }
      if pd.defaultValue != Null {
        continue;
      }
      if args == Null || !Has(args, pd.key) {
        return Some(CallMissingArgument(cid.value, pd.key));
      }
    }
    return None;
  }

  lemma {:induction false} UpsertedAt(all: seq<Sequence>, s: Sequence, i: nat)
    requires i <= |all| && forall k :: 0 <= k < i ==> all[k].id != s.id
    requires i < |all| ==> all[i].id == s.id
    ensures Upserted(all, s) == if i == |all| then all + [s] else all[i := s]
  {
    if i > 0 { UpsertedAt(all[1..], s, i - 1); }
  }

  lemma {:induction false} RemovedAt(all: seq<Sequence>, id: string, i: nat)
    requires i < |all| && all[i].id == id && forall k :: 0 <= k < i ==> all[k].id != id
    ensures Removed(all, id) == all[..i] + all[i + 1..]
  {
    if i > 0 { RemovedAt(all[1..], id, i - 1); }
  }

  // ----- only ids and parameters of callees matter -----

  ghost predicate SameCallees(all: seq<Sequence>, all': seq<Sequence>) {
    |all| == |all'| && forall i :: 0 <= i < |all| ==> all'[i].id == all[i].id && all'[i].params == all[i].params
  }

  lemma {:induction false} SameCalleesFound(all: seq<Sequence>, all': seq<Sequence>, id: string)
    requires SameCallees(all, all')
    ensures FindById(all', id).Some? <==> FindById(all, id).Some?
    ensures FindById(all, id).Some? ==> FindById(all', id).value.params == FindById(all, id).value.params
  {
    if all != [] { SameCalleesFound(all[1..], all'[1..], id); }
  }

  lemma {:induction false} SameCalleesSameFaults(all: seq<Sequence>, all': seq<Sequence>, nodes: seq<Node>)
    requires SameCallees(all, all')
    ensures FirstFault(all', nodes) == FirstFault(all, nodes)
    decreases nodes
  {
    if nodes != [] {
      SameCalleesSameFault(all, all', nodes[0]);
      SameCalleesSameFaultsBelow(all, all', nodes[0].children);
      SameCalleesSameFaults(all, all', nodes[1..]);
    }
  }

  lemma {:induction false} SameCalleesSameFaultsBelow(all: seq<Sequence>, all': seq<Sequence>, slots: seq<Slot>)
    requires SameCallees(all, all')
    ensures FirstFaultBelow(all', slots) == FirstFaultBelow(all, slots)
    decreases slots
  {
    if slots != [] {
      SameCalleesSameFaults(all, all', slots[0].nodes);
      SameCalleesSameFaultsBelow(all, all', slots[1..]);
    }
  }

  lemma SameCalleesSameFault(all: seq<Sequence>, all': seq<Sequence>, n: Node)
    requires SameCallees(all, all')
    ensures CallFault(all', n) == CallFault(all, n)
  {
    if n.ty == "call-sequence" && AsText(Get(n.params, "sequenceId")).Some? {
      SameCalleesFound(all, all', AsText(Get(n.params, "sequenceId")).value);
    }
  }
}
