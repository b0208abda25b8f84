/** Running with a frame is running pre-resolved nodes without one, so a call
    may be replaced by the callee's pre-resolved body. */
module Substitution {
  import opened JsonTree
  import opened ResolveParams
  import opened Sequences
  import opened Evaluator

  // ----- pre-resolving -----

  /** The parameters with every reference replaced. An `if` resolves only its
      predicate's parameters, all others resolve theirs as a whole. */
  function PreParams(n: Node, sc: Scope): Resolved<Json> {
    if n.ty != "if" then Resolve(n.params, sc)
    else
      var pp := Get(n.params, "predicate");
      if !Has(pp, "params") then Bound(n.params)
      else
        var params :- Resolve(Get(pp, "params"), sc);
        Bound(Obj(Put(n.params.members, "predicate", Obj(Put(pp.members, "params", params)))))
  }

  function PreNode(n: Node, sc: Scope): Node {
    var params := if PreParams(n, sc).Bound? then PreParams(n, sc).value else n.params;
    Node(n.ty, params, if n.ty == "if" || n.ty == "repeat" then PreSlots(n.children, sc) else n.children)
  }

  function PreList(nodes: seq<Node>, sc: Scope): seq<Node> {
    if nodes == [] then [] else [PreNode(nodes[0], sc)] + PreList(nodes[1..], sc)
  }

  function PreSlots(slots: seq<Slot>, sc: Scope): seq<Slot> {
    if slots == [] then []
    else [Slot(slots[0].name, PreList(slots[0].nodes, sc))] + PreSlots(slots[1..], sc)
  }

  // ----- when it is allowed -----

  /** The node's parameters resolve, and name nothing once resolved. */
  predicate ResolvesHere(n: Node, sc: Scope) {
    && PreParams(n, sc).Bound?
    && (if n.ty == "if"
        then Names(Get(Get(PreParams(n, sc).value, "predicate"), "params")) == []
        else Names(PreParams(n, sc).value) == [])
  }

  /** Resolving does not change whether the node is disabled: its parameters are
      no typed reference to a value that disables it, and its `_disabled` is no
      typed reference to a value that enables it. */
  predicate KeepsDisabled(n: Node, sc: Scope) {
    n.ty == "if" ||
    if IsParamObject(n.params) then
      n.params.members[0].value.s in sc ==> !AsBool(Get(sc[n.params.members[0].value.s], "_disabled"))
    else
      var d := Get(n.params, "_disabled");
      IsParamObject(d) ==> d.members[0].value.s in sc && AsBool(sc[d.members[0].value.s])
  }

  /** Nothing runs either way. */
  predicate Idles(n: Node) {
    n.ty == "divider" || (n.ty == "repeat" && FindSlot(n.children, "body").None?)
  }

  /** Skipped before its parameters are looked at, pre-resolved or not. */
  predicate SkippedAlike(n: Node, sc: Scope) {
    n.ty == "divider" || (IsDisabled(n) && IsDisabled(PreNode(n, sc)))
  }

  predicate SubstitutableHere(n: Node, sc: Scope) {
    ResolvesHere(n, sc) && (KeepsDisabled(n, sc) || Idles(n))
  }

  /** The node and what it runs may be pre-resolved; nothing is asked of what is
      skipped anyway. */
  predicate Substitutable(n: Node, sc: Scope) {
    SkippedAlike(n, sc) ||
    (SubstitutableHere(n, sc) && (n.ty == "if" || n.ty == "repeat" ==> SubstitutableSlots(n.children, sc)))
  }

  predicate SubstitutableList(nodes: seq<Node>, sc: Scope) {
    nodes == [] || (Substitutable(nodes[0], sc) && SubstitutableList(nodes[1..], sc))
  }

  predicate SubstitutableSlots(slots: seq<Slot>, sc: Scope) {
    slots == [] || (SubstitutableList(slots[0].nodes, sc) && SubstitutableSlots(slots[1..], sc))
  }

  lemma {:induction false} PreSlotsAt(slots: seq<Slot>, sc: Scope, name: string)
    ensures |PreSlots(slots, sc)| == |slots|
    ensures FindSlot(PreSlots(slots, sc), name) == FindSlot(slots, name)
    ensures forall i :: 0 <= i < |slots| ==> PreSlots(slots, sc)[i].nodes == PreList(slots[i].nodes, sc)
    ensures SubstitutableSlots(slots, sc) ==>
              forall i :: 0 <= i < |slots| ==> SubstitutableList(slots[i].nodes, sc)
  {
    if slots != [] {
      PreSlotsAt(slots[1..], sc, name);
      var ps := PreSlots(slots, sc);
      assert ps[1..] == PreSlots(slots[1..], sc);
      forall i | 0 <= i < |slots|
        ensures ps[i].nodes == PreList(slots[i].nodes, sc)
        ensures SubstitutableSlots(slots, sc) ==> SubstitutableList(slots[i].nodes, sc)
      {
        if i > 0 { assert ps[i] == ps[1..][i - 1] && slots[i] == slots[1..][i - 1]; }
      }
    }
  }

  // ----- the plan of a pre-resolved node -----

  /** The same activation under another frame. */
  function Under(a: Activation, sc: Scope): Activation {
    a.(scope := Some(sc))
  }

  lemma ResolvedAsBool(j: Json, sc: Scope)
    requires Resolve(j, sc).Bound? && !IsParamObject(j)
    ensures AsBool(Resolve(j, sc).value) == AsBool(j)
  {
  }

  /** Parameters that are one typed reference have no `_disabled` of their own. */
  lemma ReferenceIsLive(n: Node)
    requires IsParamObject(n.params)
    ensures !IsDisabled(n)
  {
    assert n.params.members[1..] == [];
    assert Find(n.params.members[1..], "_disabled") == None;
    assert n.params.members[0].key != "_disabled";
  }

  /** Pre-resolving keeps a node's being disabled if and only if no typed
      reference decides it otherwise. */
  lemma PreKeepsDisabledIff(n: Node, sc: Scope)
    requires PreParams(n, sc).Bound?
    ensures IsDisabled(PreNode(n, sc)) == IsDisabled(n) <==> KeepsDisabled(n, sc)
  {
    if n.ty == "if" {
      var pp := Get(n.params, "predicate");
      if Has(pp, "params") {
        var params := Resolve(Get(pp, "params"), sc).value;
        FindPut(n.params.members, "predicate", Obj(Put(pp.members, "params", params)), "_disabled");
      }
    } else if IsParamObject(n.params) {
      ReferenceIsLive(n);
    } else if n.params.Obj? {
      ResolveAt(n.params, sc, "_disabled");
      var d := Get(n.params, "_disabled");
      if !IsParamObject(d) { ResolvedAsBool(d, sc); }
    }
  }

  lemma PrePredicate(n: Node, sc: Scope, sc': Scope)
    requires ResolvesHere(n, sc) && n.ty == "if"
    ensures var pp, pp' := Get(n.params, "predicate"), Get(PreNode(n, sc).params, "predicate");
            && Get(pp', "type") == Get(pp, "type")
            && Resolve(Get(pp', "params"), sc') == Resolve(Get(pp, "params"), sc)
  {
    var pp := Get(n.params, "predicate");
    if Has(pp, "params") {
      var params := Resolve(Get(pp, "params"), sc).value;
      var pp' := Obj(Put(pp.members, "params", params));
      FindPut(n.params.members, "predicate", pp', "predicate");
      FindPut(pp.members, "params", params, "params");
      FindPut(pp.members, "params", params, "type");
    }
    NamelessIsFixed(Get(Get(PreNode(n, sc).params, "predicate"), "params"), sc');
  }

  lemma PrePlanOfIf(m: Surroundings, n: Node, a: Activation, sc: Scope, sc': Scope, h: History)
    requires ResolvesHere(n, sc) && n.ty == "if"
    ensures PlanOfIf(m, PreNode(n, sc), Under(a, sc'), h) == PlanOfIf(m, n, Under(a, sc), h)
  {
    PrePredicate(n, sc, sc');
    PreSlotsAt(n.children, sc, "then");
    PreSlotsAt(n.children, sc, "else");
  }

  /** Nodes whose parameters resolve alike, each in its own frame. */
  ghost predicate ResolveAlike(n: Node, sc: Scope, n': Node, sc': Scope) {
    n'.ty == n.ty && Resolve(n'.params, sc') == Resolve(n.params, sc)
  }

  lemma PlanOfRepeatAlike(n: Node, n': Node, a: Activation, sc: Scope, sc': Scope, h: History)
    requires ResolveAlike(n, sc, n', sc')
    requires FindSlot(n'.children, "body") == FindSlot(n.children, "body")
    ensures PlanOfRepeat(n', Under(a, sc'), h) == PlanOfRepeat(n, Under(a, sc), h)
  {
  }

  lemma PlanOfCallAlike(m: Surroundings, n: Node, n': Node, a: Activation, sc: Scope, sc': Scope, h: History)
    requires ResolveAlike(n, sc, n', sc')
    ensures PlanOfCall(m, n', Under(a, sc'), h) == PlanOfCall(m, n, Under(a, sc), h)
  {
  }

  lemma PlanOfLeafAlike(m: Surroundings, n: Node, n': Node, a: Activation, sc: Scope, sc': Scope, h: History)
    requires ResolveAlike(n, sc, n', sc') && n'.children == n.children
    ensures PlanOfLeaf(m, n', Under(a, sc'), h) == PlanOfLeaf(m, n, Under(a, sc), h)
  {
  }

  /** Under any frame at all the pre-resolved node gets past being skipped to
      what the node gets to under its own. */
  lemma PrePlanUnskipped(m: Surroundings, n: Node, a: Activation, sc: Scope, sc': Scope, h: History)
    requires ResolvesHere(n, sc) && IsDisabled(PreNode(n, sc)) == IsDisabled(n)
    ensures PlanOf(m, PreNode(n, sc), Under(a, sc'), h) == PlanOf(m, n, Under(a, sc), h)
  {
    if n.ty == "if" {
      PrePlanOfIf(m, n, a, sc, sc', h);
    } else {
      NamelessIsFixed(PreNode(n, sc).params, sc');
      var n' := PreNode(n, sc);
      assert ResolveAlike(n, sc, n', sc');
      if n.ty == "repeat" {
        PreSlotsAt(n.children, sc, "body");
        PlanOfRepeatAlike(n, n', a, sc, sc', h);
      } else if n.ty == "call-sequence" {
        PlanOfCallAlike(m, n, n', a, sc, sc', h);
      } else {
        PlanOfLeafAlike(m, n, n', a, sc, sc', h);
      }
    }
  }

  /** A node that does not idle never plans, when it is live and its parameters
      resolve, what a skipped node plans. */
  lemma LiveIsNotSkipped(m: Surroundings, n: Node, a: Activation, h: History)
    requires a.scope.Some? && !IsDisabled(n) && !Idles(n) && n.ty != "if"
    requires Resolve(n.params, a.scope.value).Bound?
    ensures PlanOf(m, n, a, h) != Finished(Run(Ok, h))
  {
    if n.ty != "repeat" && n.ty != "call-sequence" {
      assert forall e: Event :: |h + [e]| == |h| + 1;
    }
  }

  /** Under any frame at all the pre-resolved node plans what the node plans
      under its own, if and only if it is skipped either way, or resolving keeps
      whether it is disabled, or it does nothing anyway. */
  lemma PrePlan(m: Surroundings, n: Node, a: Activation, sc: Scope, sc': Scope, h: History)
    requires SkippedAlike(n, sc) || ResolvesHere(n, sc)
    ensures PlanOf(m, PreNode(n, sc), Under(a, sc'), h) == PlanOf(m, n, Under(a, sc), h)
            <==> SkippedAlike(n, sc) || KeepsDisabled(n, sc) || Idles(n)
  {
    var n' := PreNode(n, sc);
    if SkippedAlike(n, sc) {
      return;
    }
    PreKeepsDisabledIff(n, sc);
    if KeepsDisabled(n, sc) {
      PrePlanUnskipped(m, n, a, sc, sc', h);
    } else {
      NamelessIsFixed(n'.params, sc');
      PreSlotsAt(n.children, sc, "body");
      if Idles(n) {
      } else if IsDisabled(n) {
        LiveIsNotSkipped(m, n', Under(a, sc'), h);
      } else {
        LiveIsNotSkipped(m, n, Under(a, sc), h);
      }
    }
  }

  /** A leaf whose parameters are one reference to a value that says disabled
      runs, while its pre-resolved form does not. */
  lemma ReferenceToDisabled(m: Surroundings, ty: string, name: string, v: Json, a: Activation, sc: Scope, h: History)
    requires ty !in {"divider", "if", "repeat", "call-sequence"} && ty in m.reg.blocks
    requires name in sc && sc[name] == v && AsBool(Get(v, "_disabled")) && Names(v) == []
    ensures var n := Node(ty, Obj([Member("$param", Text(name))]), []);
            && ResolvesHere(n, sc)
            && |EvalNode(m, n, Under(a, sc), h).history| == |h| + 1
            && EvalNode(m, PreNode(n, sc), Under(a, sc), h) == Run(Ok, h)
  {
    var n := Node(ty, Obj([Member("$param", Text(name))]), []);
    ReferenceIsLive(n);
    assert Resolve(n.params, sc) == Bound(v);
  }

  // ----- runs -----

  /** A sequence starts from its own frame, whatever its caller's. */
  lemma SequenceIgnoresFrame(m: Surroundings, s: Sequence, args: Json, a: Activation, sc: Scope, sc': Scope, h: History)
    ensures EvalSequence(m, s, args, Under(a, sc'), h) == EvalSequence(m, s, args, Under(a, sc), h)
  {
  }

  lemma {:induction false} PreRunsNode(m: Surroundings, n: Node, a: Activation, sc: Scope, sc': Scope, h: History)
    requires Substitutable(n, sc)
    ensures EvalNode(m, PreNode(n, sc), Under(a, sc'), h) == EvalNode(m, n, Under(a, sc), h)
    decreases n, 0, 0
  {
    PrePlan(m, n, a, sc, sc', h);
    PreSlotsAt(n.children, sc, "body");
    match PlanOf(m, n, Under(a, sc), h)
    case Finished(run) =>
    case RunChild(i, h') => PreRunsList(m, n.children[i].nodes, a, sc, sc', h');
    case Repeat(i, count, interval) => PreRunsRepeat(m, n.children[i].nodes, count, interval, a, sc, sc', h);
    case Call(callee, args) => SequenceIgnoresFrame(m, callee, args, a, sc, sc', h);
  }

  /** Running a list in a frame equals running the pre-resolved list in any
      frame, the empty one included. */
  lemma {:induction false} PreRunsList(
    m: Surroundings, nodes: seq<Node>, a: Activation, sc: Scope, sc': Scope, h: History)
    requires SubstitutableList(nodes, sc)
    ensures EvalList(m, PreList(nodes, sc), Under(a, sc'), h) == EvalList(m, nodes, Under(a, sc), h)
    decreases nodes, 0, 0
  {
    if nodes != [] {
      PreRunsNode(m, nodes[0], a, sc, sc', h);
      assert PreList(nodes, sc)[1..] == PreList(nodes[1..], sc);
      PreRunsList(m, nodes[1..], a, sc, sc', EvalNode(m, nodes[0], Under(a, sc), h).history);
    }
  }

  lemma {:induction false} PreRunsRepeat(
    m: Surroundings, body: seq<Node>, count: int, interval: uint32, a: Activation, sc: Scope, sc': Scope, h: History)
    requires SubstitutableList(body, sc)
    ensures EvalRepeat(m, PreList(body, sc), count, interval, Under(a, sc'), h) ==
            EvalRepeat(m, body, count, interval, Under(a, sc), h)
    decreases body, 1, count
  {
    if count > 0 {
      PreRunsList(m, body, a, sc, sc', h);
      var first := EvalList(m, body, Under(a, sc), h);
      PreRunsRepeat(m, body, count - 1, interval, a, sc, sc', first.history + Pause(interval, count));
    }
  }

  // ----- lists that call nothing -----

  /** No live call, at any depth. */
  predicate CallFree(nodes: seq<Node>) {
    nodes == [] || (NodeCallFree(nodes[0]) && CallFree(nodes[1..]))
  }

  predicate NodeCallFree(n: Node) {
    IsDisabled(n) || (n.ty != "call-sequence" && (n.ty == "if" || n.ty == "repeat" ==> SlotsCallFree(n.children)))
  }

  predicate SlotsCallFree(slots: seq<Slot>) {
    slots == [] || (CallFree(slots[0].nodes) && SlotsCallFree(slots[1..]))
  }

  lemma {:induction false} SlotsCallFreeAt(slots: seq<Slot>, i: nat)
    requires SlotsCallFree(slots) && i < |slots|
    ensures CallFree(slots[i].nodes)
  {
    if i > 0 { SlotsCallFreeAt(slots[1..], i - 1); }
  }

  ghost predicate SameFrame(a: Activation, b: Activation) {
    a.scope == b.scope
  }

  lemma {:induction false} CallFreeNode(m: Surroundings, n: Node, a: Activation, b: Activation, h: History)
    requires NodeCallFree(n) && SameFrame(a, b)
    ensures EvalNode(m, n, a, h) == EvalNode(m, n, b, h)
    decreases n, 0, 0
  {
    assert PlanOf(m, n, a, h) == PlanOf(m, n, b, h);
    match PlanOf(m, n, a, h)
    case Finished(run) =>
    case RunChild(i, h') =>
      SlotsCallFreeAt(n.children, i);
      CallFreeList(m, n.children[i].nodes, a, b, h');
    case Repeat(i, count, interval) =>
      SlotsCallFreeAt(n.children, i);
      CallFreeRepeat(m, n.children[i].nodes, count, interval, a, b, h);
    case Call(callee, args) =>
  }

  /** A list that calls nothing runs alike at any depth, whatever is in flight. */
  lemma {:induction false} CallFreeList(m: Surroundings, nodes: seq<Node>, a: Activation, b: Activation, h: History)
    requires CallFree(nodes) && SameFrame(a, b)
    ensures EvalList(m, nodes, a, h) == EvalList(m, nodes, b, h)
    decreases nodes, 0, 0
  {
    if nodes != [] {
      CallFreeNode(m, nodes[0], a, b, h);
      CallFreeList(m, nodes[1..], a, b, EvalNode(m, nodes[0], a, h).history);
    }
  }

  lemma {:induction false} CallFreeRepeat(
    m: Surroundings, body: seq<Node>, count: int, interval: uint32, a: Activation, b: Activation, h: History)
    requires CallFree(body) && SameFrame(a, b)
    ensures EvalRepeat(m, body, count, interval, a, h) == EvalRepeat(m, body, count, interval, b, h)
    decreases body, 1, count
  {
    if count > 0 {
      CallFreeList(m, body, a, b, h);
      var first := EvalList(m, body, a, h);
      CallFreeRepeat(m, body, count - 1, interval, a, b, first.history + Pause(interval, count));
    }
  }

  // ----- inlining -----

  /** A live call node that gets past every check, and whose callee has room to run. */
  predicate PermittedCall(m: Surroundings, n: Node, a: Activation, callee: Sequence, args: Json) {
    && n.ty == "call-sequence" && !IsDisabled(n)
    && PlanOfCall(m, n, a, []) == Call(callee, args)
    && a.depth < MAX_CALL_DEPTH
  }

  lemma CallPlanIgnoresHistory(m: Surroundings, n: Node, a: Activation, h: History)
    requires PlanOfCall(m, n, a, []).Call?
    ensures PlanOfCall(m, n, a, h) == PlanOfCall(m, n, a, [])
  {
  }

  /** A permitted call to a callee that calls nothing may be replaced, inside
      any list, by the callee's body pre-resolved in the frame the call would
      have built: result and history are the same. */
  lemma InlineCall(
    m: Surroundings, front: seq<Node>, n: Node, rest: seq<Node>, a: Activation, callee: Sequence, args: Json, h: History)
    requires a.scope.Some? && PermittedCall(m, n, a, callee, args)
    requires CallFree(callee.nodes) && SubstitutableList(callee.nodes, FrameOf(callee.params, args))
    ensures EvalList(m, front + [n] + rest, a, h) ==
            EvalList(m, front + PreList(callee.nodes, FrameOf(callee.params, args)) + rest, a, h)
  {
    var frame := FrameOf(callee.params, args);
    var body := PreList(callee.nodes, frame);
    forall h' ensures EvalList(m, [n], a, h') == EvalList(m, body, a, h') {
      EvalSingleton(m, n, a, h');
      CallPlanIgnoresHistory(m, n, a, h');
      var inner := Entered(callee, args, a);
      assert EvalNode(m, n, a, h') == EvalList(m, callee.nodes, inner, h');
      CallFreeList(m, callee.nodes, inner, Under(a, frame), h');
      PreRunsList(m, callee.nodes, a, frame, a.scope.value, h');
      assert Under(a, a.scope.value) == a;
    }
    EvalListReplace(m, front, [n], body, rest, a, h);
  }
}
