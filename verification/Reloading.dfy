/** A store that was saved and loaded again runs as the one that was saved. */
module Reloading {
  import opened JsonTree
  import opened ResolveParams
  import opened Sequences
  import opened SequenceCodec
  import opened CodecLaws
  import opened SequenceStore
  import opened StoreLaws
  import opened Evaluator
  import opened CheckedPrograms

  // ----- what saving and loading normalises -----

  function NormalParams(j: Json): Json {
    if j == Null then Obj([]) else j
  }

  function NormalEvent(e: Event): Event {
    match e
    case BlockRan(ty, params, outcome) => BlockRan(ty, NormalParams(params), outcome)
    case _ => e
  }

  function NormalHistory(h: History): History {
    seq(|h|, i requires 0 <= i < |h| => NormalEvent(h[i]))
  }

  /** Histories that differ only in null parameters of blocks. */
  predicate AlikeHistories(h: History, h': History) {
    NormalHistory(h) == NormalHistory(h')
  }

  lemma AlikePush(h: History, h': History, e: Event, e': Event)
    requires AlikeHistories(h, h') && NormalEvent(e) == NormalEvent(e')
    ensures AlikeHistories(h + [e], h' + [e'])
  {
    assert NormalHistory(h + [e]) == NormalHistory(h) + [NormalEvent(e)];
    assert NormalHistory(h' + [e']) == NormalHistory(h') + [NormalEvent(e')];
  }

  /** No block or predicate tells null parameters from empty ones. */
  ghost predicate Indifferent(reg: Registry) {
    && (forall ty, params, children, h :: ty in reg.blocks ==>
          reg.blocks[ty](params, children, h) ==
          reg.blocks[ty](NormalParams(params), NormalSlots(children), NormalHistory(h)))
    && (forall ty, params, h :: ty in reg.predicates ==>
          reg.predicates[ty](params, h) == reg.predicates[ty](params, NormalHistory(h)))
  }

  /** The same sequence but for null parameters and the reason of its mark. */
  predicate AlikeSequences(s: Sequence, s': Sequence) {
    s' == s.(nodes := NormalList(s.nodes), reason := s'.reason)
  }

  ghost predicate AlikeFound(s: Option<Sequence>, s': Option<Sequence>) {
    s.Some? == s'.Some? && (s.Some? ==> AlikeSequences(s.value, s'.value))
  }

  ghost predicate AlikeSurroundings(m: Surroundings, m': Surroundings) {
    && m'.reg == m.reg && m.lookup.Some? == m'.lookup.Some?
    && (m.lookup.Some? ==> forall id :: AlikeFound(m.lookup.value(id), m'.lookup.value(id)))
  }

  /** The same result, but for why a callee is broken. */
  predicate AlikeResults(r: RunResult, r': RunResult) {
    r == r' || (r.Failed? && r'.Failed? && r.error.CalleeBroken? && r'.error.CalleeBroken? && r.error.id == r'.error.id)
  }

  predicate AlikeRuns(r: Run, r': Run) {
    AlikeResults(r.result, r'.result) && AlikeHistories(r.history, r'.history)
  }

  ghost predicate AlikePlans(p: Plan, p': Plan) {
    match p
    case Finished(run) => p'.Finished? && AlikeRuns(run, p'.run)
    case RunChild(i, h) => p'.RunChild? && p'.child == i && AlikeHistories(h, p'.history)
    case Repeat(i, count, interval) => p' == p
    case Call(callee, args) => p'.Call? && AlikeSequences(callee, p'.callee) && p'.args == args
  }

  // ----- one node -----

  lemma {:induction false} SameNamesSameSlot(slots: seq<Slot>, slots': seq<Slot>, name: string)
    requires |slots| == |slots'| && forall i :: 0 <= i < |slots| ==> slots[i].name == slots'[i].name
    ensures FindSlot(slots, name) == FindSlot(slots', name)
  {
    if slots != [] { SameNamesSameSlot(slots[1..], slots'[1..], name); }
  }

  lemma NormalFinds(slots: seq<Slot>, name: string)
    ensures FindSlot(NormalSlots(slots), name) == FindSlot(slots, name)
  {
    NormalSlotsAt(slots);
    SameNamesSameSlot(slots, NormalSlots(slots), name);
  }

  lemma NormalParamsGet(j: Json, key: string)
    ensures Get(NormalParams(j), key) == Get(j, key)
  {
  }

  lemma NormalParamsResolve(j: Json, sc: Scope)
    ensures Resolve(j, sc).Unbound? ==> Resolve(NormalParams(j), sc) == Resolve(j, sc)
    ensures Resolve(j, sc).Bound? ==>
              && Resolve(NormalParams(j), sc).Bound?
              && NormalParams(Resolve(NormalParams(j), sc).value) == NormalParams(Resolve(j, sc).value)
  {
    assert ResolveMembers([], sc) == Bound([]);
  }

  lemma NormalPlanOfIf(m: Surroundings, m': Surroundings, n: Node, a: Activation, h: History, h': History)
    requires AlikeSurroundings(m, m') && Indifferent(m.reg) && AlikeHistories(h, h')
    ensures AlikePlans(PlanOfIf(m, n, a, h), PlanOfIf(m', Normal(n), a, h'))
  {
    NormalParamsGet(n.params, "predicate");
    NormalFinds(n.children, "then");
    NormalFinds(n.children, "else");
    var pp := Get(n.params, "predicate");
    var ty := AsText(Get(pp, "type"));
    if a.scope.Some? && ty.Some? && ty.value in m.reg.predicates && Resolve(Get(pp, "params"), a.scope.value).Bound? {
      var params := Resolve(Get(pp, "params"), a.scope.value).value;
      var f := m.reg.predicates[ty.value];
      assert f(params, h) == f(params, NormalHistory(h)) && f(params, h') == f(params, NormalHistory(h'));
      var e := PredicateTested(ty.value, params, f(params, h));
      AlikePush(h, h', e, e);
    }
  }

  lemma NormalPlanOfRepeat(m: Surroundings, m': Surroundings, n: Node, a: Activation, h: History, h': History)
    requires AlikeHistories(h, h')
    ensures AlikePlans(PlanOfRepeat(n, a, h), PlanOfRepeat(Normal(n), a, h'))
  {
    NormalFinds(n.children, "body");
    if a.scope.Some? {
      NormalParamsResolve(n.params, a.scope.value);
      if Resolve(n.params, a.scope.value).Bound? {
        var p, p' := Resolve(n.params, a.scope.value).value, Resolve(NormalParams(n.params), a.scope.value).value;
        SameNormalSameGet(p, p', "count");
        SameNormalSameGet(p, p', "interval_ms");
      }
    }
  }

  lemma SameNormalSameGet(j: Json, j': Json, key: string)
    requires NormalParams(j) == NormalParams(j')
    ensures Get(j, key) == Get(j', key)
  {
    NormalParamsGet(j, key);
    NormalParamsGet(j', key);
  }

  lemma NormalPlanOfCall(m: Surroundings, m': Surroundings, n: Node, a: Activation, h: History, h': History)
    requires AlikeSurroundings(m, m') && AlikeHistories(h, h')
    ensures AlikePlans(PlanOfCall(m, n, a, h), PlanOfCall(m', Normal(n), a, h'))
  {
    if a.scope.Some? && m.lookup.Some? {
      NormalParamsResolve(n.params, a.scope.value);
      if Resolve(n.params, a.scope.value).Bound? {
        var p, p' := Resolve(n.params, a.scope.value).value, Resolve(NormalParams(n.params), a.scope.value).value;
        SameNormalSameGet(p, p', "sequenceId");
        SameNormalSameGet(p, p', "args");
        var id := TextOrEmpty(Get(p, "sequenceId"));
        assert AlikeFound(m.lookup.value(id), m'.lookup.value(id));
      }
    }
  }

  lemma NormalPlanOfLeaf(m: Surroundings, m': Surroundings, n: Node, a: Activation, h: History, h': History)
    requires AlikeSurroundings(m, m') && Indifferent(m.reg) && AlikeHistories(h, h')
    ensures AlikePlans(PlanOfLeaf(m, n, a, h), PlanOfLeaf(m', Normal(n), a, h'))
  {
    if n.ty in m.reg.blocks && a.scope.Some? {
      NormalParamsResolve(n.params, a.scope.value);
      if Resolve(n.params, a.scope.value).Bound? {
        var p, p' := Resolve(n.params, a.scope.value).value, Resolve(NormalParams(n.params), a.scope.value).value;
        BlockIsIndifferent(m.reg, n.ty, p, p', n.children, h, h');
        var outcome := m.reg.blocks[n.ty](p, n.children, h);
        AlikePush(h, h', BlockRan(n.ty, p, outcome), BlockRan(n.ty, p', outcome));
      }
    }
  }

  lemma BlockIsIndifferent(reg: Registry, ty: string, p: Json, p': Json, children: seq<Slot>, h: History, h': History)
    requires Indifferent(reg) && ty in reg.blocks
    requires NormalParams(p) == NormalParams(p') && AlikeHistories(h, h')
    ensures reg.blocks[ty](p', NormalSlots(children), h') == reg.blocks[ty](p, children, h)
  {
    NormalSlotsIdempotent(children);
    var f := reg.blocks[ty];
    assert f(p, children, h) == f(NormalParams(p), NormalSlots(children), NormalHistory(h));
    assert f(p', NormalSlots(children), h') == f(NormalParams(p'), NormalSlots(NormalSlots(children)), NormalHistory(h'));
  }

  lemma NormalPlan(m: Surroundings, m': Surroundings, n: Node, a: Activation, h: History, h': History)
    requires AlikeSurroundings(m, m') && Indifferent(m.reg) && AlikeHistories(h, h')
    ensures AlikePlans(PlanOf(m, n, a, h), PlanOf(m', Normal(n), a, h'))
  {
    NormalParamsGet(n.params, "_disabled");
    assert IsDisabled(Normal(n)) == IsDisabled(n);
    if IsDisabled(n) || n.ty == "divider" {
    } else if n.ty == "if" {
      NormalPlanOfIf(m, m', n, a, h, h');
    } else if n.ty == "repeat" {
      NormalPlanOfRepeat(m, m', n, a, h, h');
    } else if n.ty == "call-sequence" {
      NormalPlanOfCall(m, m', n, a, h, h');
    } else {
      NormalPlanOfLeaf(m, m', n, a, h, h');
    }
  }

  // ----- runs -----

  lemma NormalCons(nodes: seq<Node>)
    requires nodes != []
    ensures NormalList(nodes) != [] && NormalList(nodes)[0] == Normal(nodes[0])
    ensures NormalList(nodes)[1..] == NormalList(nodes[1..])
  {
    NormalListAt(nodes);
    NormalListAt(nodes[1..]);
  }

  lemma {:induction false} NormalRunsNode(
    m: Surroundings, m': Surroundings, n: Node, a: Activation, h: History, h': History)
    requires AlikeSurroundings(m, m') && Indifferent(m.reg) && AlikeHistories(h, h')
    ensures AlikeRuns(EvalNode(m, n, a, h), EvalNode(m', Normal(n), a, h'))
    decreases Left(a.depth), true, n, 0, 0
  {
    NormalPlan(m, m', n, a, h, h');
    NormalSlotsAt(n.children);
    var p' := PlanOf(m', Normal(n), a, h');
    match PlanOf(m, n, a, h)
    case Finished(run) =>
    case RunChild(i, next) => NormalRunsList(m, m', n.children[i].nodes, a, next, p'.history);
    case Repeat(i, count, interval) => NormalRunsRepeat(m, m', n.children[i].nodes, count, interval, a, h, h');
    case Call(callee, args) => NormalRunsSequence(m, m', callee, p'.callee, args, a, h, h');
  }

  lemma {:induction false} NormalRunsList(
    m: Surroundings, m': Surroundings, nodes: seq<Node>, a: Activation, h: History, h': History)
    requires AlikeSurroundings(m, m') && Indifferent(m.reg) && AlikeHistories(h, h')
    ensures AlikeRuns(EvalList(m, nodes, a, h), EvalList(m', NormalList(nodes), a, h'))
    decreases Left(a.depth), true, nodes, 0, 0
  {
    if nodes != [] {
      NormalCons(nodes);
      NormalRunsNode(m, m', nodes[0], a, h, h');
      var first, first' := EvalNode(m, nodes[0], a, h), EvalNode(m', Normal(nodes[0]), a, h');
      if first.result.Ok? { NormalRunsList(m, m', nodes[1..], a, first.history, first'.history); }
    }
  }

  lemma {:induction false} NormalRunsRepeat(
    m: Surroundings, m': Surroundings, body: seq<Node>, count: int, interval: uint32, a: Activation, h: History, h': History)
    requires AlikeSurroundings(m, m') && Indifferent(m.reg) && AlikeHistories(h, h')
    ensures AlikeRuns(
              EvalRepeat(m, body, count, interval, a, h), EvalRepeat(m', NormalList(body), count, interval, a, h'))
    decreases Left(a.depth), true, body, 1, count
  {
    if count > 0 {
      NormalRunsList(m, m', body, a, h, h');
      var first, first' := EvalList(m, body, a, h), EvalList(m', NormalList(body), a, h');
      if first.result.Ok? {
        PausedAlike(first.history, first'.history, interval, count);
        NormalRunsRepeat(
          m, m', body, count - 1, interval, a, first.history + Pause(interval, count), first'.history + Pause(interval, count));
      }
    }
  }

  lemma PausedAlike(h: History, h': History, interval: uint32, count: int)
    requires AlikeHistories(h, h')
    ensures AlikeHistories(h + Pause(interval, count), h' + Pause(interval, count))
  {
    if Pause(interval, count) == [] {
      assert h + [] == h && h' + [] == h';
    } else {
      AlikePush(h, h', Delayed(interval), Delayed(interval));
    }
  }

  /** Normalised sequences run alike over normalised callees. */
  lemma {:induction false} NormalRunsSequence(
    m: Surroundings, m': Surroundings, s: Sequence, s': Sequence, args: Json, a: Activation, h: History, h': History)
    requires AlikeSurroundings(m, m') && Indifferent(m.reg) && AlikeSequences(s, s') && AlikeHistories(h, h')
    ensures AlikeRuns(EvalSequence(m, s, args, a, h), EvalSequence(m', s', args, a, h'))
    decreases Left(a.depth), false
  {
    if a.depth < MAX_CALL_DEPTH { NormalRunsList(m, m', s.nodes, Entered(s, args, a), h, h'); }
  }

  // ----- the store -----

  /** The sequences after saving them, whatever else is kept, and loading them again. */
  function SavedAndLoaded(all: seq<Sequence>, blobs: map<string, Json>, known: set<string>): seq<Sequence> {
    Validate(Stored(blobs[KEY := Arr(EncodeSequences(all))], known))
  }

  /** Child maps are in key order, as maps are. */
  ghost predicate AllInOrder(all: seq<Sequence>) {
    forall s :: s in all ==> ListInOrder(s.nodes)
  }

  lemma {:induction false} ReloadedAllAt(all: seq<Sequence>, known: set<string>)
    ensures |ReloadedAll(all, known)| == |all|
    ensures forall i :: 0 <= i < |all| ==> ReloadedAll(all, known)[i] == Reloaded(all[i], known)
  {
    if all != [] { ReloadedAllAt(all[..|all| - 1], known); }
  }

  lemma {:induction false} NormalHasUnknown(nodes: seq<Node>, known: set<string>)
    ensures HasUnknown(NormalList(nodes), known) <==> HasUnknown(nodes, known)
    decreases nodes
  {
    if nodes != [] {
      NormalCons(nodes);
      NormalHasUnknownBelow(nodes[0].children, known);
      NormalHasUnknown(nodes[1..], known);
    }
  }

  lemma NormalSlotsCons(slots: seq<Slot>)
    requires slots != []
    ensures NormalSlots(slots) != [] && NormalSlots(slots)[0] == Slot(slots[0].name, NormalList(slots[0].nodes))
    ensures NormalSlots(slots)[1..] == NormalSlots(slots[1..])
  {
    NormalSlotsAt(slots);
    NormalSlotsAt(slots[1..]);
  }

  lemma {:induction false} NormalHasUnknownBelow(slots: seq<Slot>, known: set<string>)
    ensures HasUnknownBelow(NormalSlots(slots), known) <==> HasUnknownBelow(slots, known)
    decreases slots
  {
    if slots != [] {
      NormalSlotsCons(slots);
      NormalHasUnknown(slots[0].nodes, known);
      NormalHasUnknownBelow(slots[1..], known);
    }
  }

  lemma NormalCallFault(all: seq<Sequence>, n: Node)
    ensures CallFault(all, Normal(n)) == CallFault(all, n)
  {
    NormalParamsGet(n.params, "sequenceId");
    NormalParamsGet(n.params, "args");
  }

  lemma {:induction false} NormalFirstFault(all: seq<Sequence>, nodes: seq<Node>)
    ensures FirstFault(all, NormalList(nodes)) == FirstFault(all, nodes)
    decreases nodes
  {
    if nodes != [] {
      NormalCons(nodes);
      NormalCallFault(all, nodes[0]);
      NormalFirstFaultBelow(all, nodes[0].children);
      NormalFirstFault(all, nodes[1..]);
    }
  }

  lemma {:induction false} NormalFirstFaultBelow(all: seq<Sequence>, slots: seq<Slot>)
    ensures FirstFaultBelow(all, NormalSlots(slots)) == FirstFaultBelow(all, slots)
    decreases slots
  {
    if slots != [] {
      NormalSlotsCons(slots);
      NormalFirstFault(all, slots[0].nodes);
      NormalFirstFaultBelow(all, slots[1..]);
    }
  }

  /** Something is wrong with the sequence in the store as it is. */
  ghost predicate Faulty(all: seq<Sequence>, known: set<string>, s: Sequence) {
    exists n :: n in Flatten(s.nodes) && (UnknownType(n.ty, known) || !Satisfiable(all, n))
  }

  lemma FaultyIff(all: seq<Sequence>, known: set<string>, s: Sequence)
    ensures Faulty(all, known, s) <==> HasUnknown(s.nodes, known) || FirstFault(all, s.nodes).Some?
  {
    HasUnknownIsExistence(s.nodes, known);
    FirstFaultIsExact(all, s.nodes);
  }

  lemma SavedAndLoadedIsReloaded(all: seq<Sequence>, blobs: map<string, Json>, known: set<string>)
    requires AllInOrder(all)
    ensures SavedAndLoaded(all, blobs, known) == Validate(ReloadedAll(all, known))
    ensures |SavedAndLoaded(all, blobs, known)| == |all|
    ensures SameCallees(all, ReloadedAll(all, known))
  {
    SequencesRoundTrip(all, known);
    ReloadedAllAt(all, known);
  }

  lemma ReloadedMark(s: Sequence, known: set<string>)
    requires ListInOrder(s.nodes)
    ensures Reloaded(s, known).broken <==> HasUnknown(s.nodes, known)
  {
    ListRoundTrip(s.nodes);
    ListMarkIsExact(EncodeNodes(s.nodes), known);
    NormalHasUnknown(s.nodes, known);
  }

  /** After saving and loading, only null parameters and marks have changed, and
      exactly the sequences are marked that something is wrong with. */
  lemma SavedAndLoadedAt(all: seq<Sequence>, blobs: map<string, Json>, known: set<string>, i: nat)
    requires AllInOrder(all) && i < |all|
    ensures var all' := SavedAndLoaded(all, blobs, known);
            && |all'| == |all|
            && all'[i] == all[i].(nodes := NormalList(all[i].nodes), broken := all'[i].broken, reason := all'[i].reason)
            && (all'[i].broken <==> Faulty(all, known, all[i]))
  {
    var loaded, nodes := ReloadedAll(all, known), all[i].nodes;
    SavedAndLoadedIsReloaded(all, blobs, known);
    ReloadedAllAt(all, known);
    assert all[i] in all;
    ReloadedMark(all[i], known);
    SameCalleesSameFaults(all, loaded, NormalList(nodes));
    NormalFirstFault(all, nodes);
    FaultyIff(all, known, all[i]);
    assert SavedAndLoaded(all, blobs, known)[i] == Checked(loaded, loaded[i]);
  }

  /** Exactly the sequences are marked that something is wrong with. */
  ghost predicate MarksExact(all: seq<Sequence>, known: set<string>) {
    forall i :: 0 <= i < |all| ==> (all[i].broken <==> Faulty(all, known, all[i]))
  }

  /** Saving and loading keeps who is marked if and only if the marks are exact. */
  lemma MarksSurviveIff(all: seq<Sequence>, blobs: map<string, Json>, known: set<string>)
    requires AllInOrder(all)
    ensures var all' := SavedAndLoaded(all, blobs, known);
            |all'| == |all| &&
            ((forall i :: 0 <= i < |all| ==> all'[i].broken == all[i].broken) <==> MarksExact(all, known))
  {
    var all' := SavedAndLoaded(all, blobs, known);
    SavedAndLoadedIsReloaded(all, blobs, known);
    forall i | 0 <= i < |all| ensures all'[i].broken <==> Faulty(all, known, all[i]) {
      SavedAndLoadedAt(all, blobs, known, i);
    }
  }

  /** As they are after any load. */
  lemma LoadedMarksAreExact(blobs: map<string, Json>, known: set<string>)
    ensures MarksExact(Validate(Stored(blobs, known)), known)
  {
    forall i | 0 <= i < |Validate(Stored(blobs, known))|
      ensures var all := Validate(Stored(blobs, known)); all[i].broken <==> Faulty(all, known, all[i])
    {
      LoadIsExact(blobs, known, i);
    }
  }

  lemma {:induction false} AlikeFindById(all: seq<Sequence>, all': seq<Sequence>, id: string)
    requires |all| == |all'| && forall i :: 0 <= i < |all| ==> AlikeSequences(all[i], all'[i])
    ensures AlikeFound(FindById(all, id), FindById(all', id))
  {
    if all != [] {
      assert AlikeSequences(all[0], all'[0]);
      if all[0].id != id { AlikeFindById(all[1..], all'[1..], id); }
    }
  }

  /** Persisting keeps what a store does: where the marks are exact, every stored
      sequence runs in the reloaded store as it ran before, with the same result
      but for why a callee is broken, and the same history but for null
      parameters, as far as blocks do not tell those from empty ones. */
  lemma ReloadedRunsAlike(
    reg: Registry, all: seq<Sequence>, blobs: map<string, Json>, i: nat, args: Json, a: Activation, h: History)
    requires Indifferent(reg) && AllInOrder(all) && MarksExact(all, reg.blocks.Keys) && i < |all|
    ensures var all' := SavedAndLoaded(all, blobs, reg.blocks.Keys);
            && |all'| == |all|
            && AlikeRuns(EvalSequence(Over(reg, all), all[i], args, a, h), EvalSequence(Over(reg, all'), all'[i], args, a, h))
  {
    var all' := SavedAndLoaded(all, blobs, reg.blocks.Keys);
    SavedAndLoadedAt(all, blobs, reg.blocks.Keys, i);
    forall k | 0 <= k < |all| ensures AlikeSequences(all[k], all'[k]) {
      SavedAndLoadedAt(all, blobs, reg.blocks.Keys, k);
    }
    forall id ensures AlikeFound(FindById(all, id), FindById(all', id)) { AlikeFindById(all, all', id); }
    assert AlikeSurroundings(Over(reg, all), Over(reg, all'));
    NormalRunsSequence(Over(reg, all), Over(reg, all'), all[i], all'[i], args, a, h, h);
  }

  // ----- why a mark may name another type -----

  function LeafJson(ty: string): Json {
    Obj([Member("type", Text(ty))])
  }

  /** An `if` with one leaf in each of two child lists, the later key first. */
  function TwoLeaves(x: string, a: string, y: string, b: string): Json {
    Obj([Member("type", Text("if")),
         Member("children", Obj([Member(x, Arr([LeafJson(a)])), Member(y, Arr([LeafJson(b)]))]))])
  }

  lemma LeafJsonFields(ty: string)
    ensures Get(LeafJson(ty), "type") == Text(ty)
    ensures Get(LeafJson(ty), "children") == Null && Get(LeafJson(ty), "params") == Null
  {
    var ms := LeafJson(ty).members;
    FindAt(ms, 0);
    assert ms[1..] == [];
    assert Find(ms[1..], "children") == None && Find(ms[1..], "params") == None;
  }

  lemma DecodeLeaf(ty: string, known: set<string>)
    requires UnknownType(ty, known)
    ensures DecodeNodes([LeafJson(ty)]) == [Node(ty, Null, [])]
    ensures FirstUnknownInList([LeafJson(ty)], known) == Some(ty)
  {
    LeafJsonFields(ty);
    assert [LeafJson(ty)][..0] == [];
  }

  lemma FirstUnknownInTwo(x: Member, y: Member, known: set<string>)
    requires x.value.Arr? && y.value.Arr?
    ensures FirstUnknownInChildren([x, y], known) ==
            OrElse(FirstUnknownInList(x.value.items, known), FirstUnknownInList(y.value.items, known))
  {
    assert [x, y][..1] == [x] && [x][..0] == [];
    assert FirstUnknownInChildren([x], known) == FirstUnknownInList(x.value.items, known) by {
      assert FirstUnknownInChildren([x][..0], known) == None;
    }
  }

  lemma DecodeTwo(x: Member, y: Member)
    requires x.value.Arr? && y.value.Arr? && Before(y.key, x.key)
    ensures DecodeChildren([x, y]) == [Slot(y.key, DecodeNodes(y.value.items)), Slot(x.key, DecodeNodes(x.value.items))]
  {
    assert [x, y][..1] == [x] && [x][..0] == [];
    assert DecodeChildren([x]) == [Slot(x.key, DecodeNodes(x.value.items))] by {
      assert DecodeChildren([x][..0]) == [];
    }
  }

  lemma EncodeTwo(s: Slot, t: Slot)
    ensures EncodeSlots([s, t]) == [Member(s.name, Arr(EncodeNodes(s.nodes))), Member(t.name, Arr(EncodeNodes(t.nodes)))]
  {
    assert [s, t][..1] == [s] && [s][..0] == [];
    assert EncodeSlots([s]) == [Member(s.name, Arr(EncodeNodes(s.nodes)))] by {
      assert EncodeSlots([s][..0]) == [];
    }
  }

  lemma TwoLeavesFields(x: string, a: string, y: string, b: string)
    ensures Get(TwoLeaves(x, a, y, b), "type") == Text("if")
    ensures Get(TwoLeaves(x, a, y, b), "children") == Obj([Member(x, Arr([LeafJson(a)])), Member(y, Arr([LeafJson(b)]))])
  {
    FindAt(TwoLeaves(x, a, y, b).members, 0);
    FindAt(TwoLeaves(x, a, y, b).members, 1);
  }

  /** Decoding meets child lists as written, decoding what was encoded meets them
      in key order: the first unknown type may be another one. */
  lemma ReloadNamesAnotherType(x: string, a: string, y: string, b: string, known: set<string>)
    requires Before(y, x) && UnknownType(a, known) && UnknownType(b, known)
    ensures var j := TwoLeaves(x, a, y, b);
            && FirstUnknown(j, known) == Some(a)
            && FirstUnknown(EncodeNode(DecodeNode(j)), known) == Some(b)
  {
    var mx, my := Member(x, Arr([LeafJson(a)])), Member(y, Arr([LeafJson(b)]));
    TwoLeavesFields(x, a, y, b);
    DecodeLeaf(a, known);
    DecodeLeaf(b, known);
    FirstUnknownInTwo(mx, my, known);
    DecodeTwo(mx, my);
    var n := DecodeNode(TwoLeaves(x, a, y, b));
    var sa, sb := Slot(x, [Node(a, Null, [])]), Slot(y, [Node(b, Null, [])]);
    assert n.children == [sb, sa];
    EncodedNodeFields(n);
    EncodeTwo(sb, sa);
    LeafMark(sb.nodes[0], known);
    FirstUnknownInTwo(Member(y, Arr(EncodeNodes(sb.nodes))), Member(x, Arr(EncodeNodes(sa.nodes))), known);
  }
}
