/** A big-step reading of the sequence language: what a node, a list, a
    sequence does to the history, given one activation and no stacks.

    The world is the history of what the run did to it. A block's outcome and a
    predicate's answer may depend on their type, their resolved parameters and
    everything that happened before, in any way. */
module Evaluator {
  import opened JsonTree
  import opened ResolveParams
  import opened Sequences

  datatype RunError =
    | CallDepthExceeded
    | NoScope
    | MissingPredicateType
    | UnknownPredicate(ty: string)
    | UnboundParam(name: string)
    | NoLookup
    | MissingSequenceId
    | Cycle(id: string)
    | UnknownSequence(id: string)
    | CalleeBroken(id: string, reason: BrokenReason)
    | UnknownBlock(ty: string)
    | BlockFailed(message: string)

  datatype RunResult = Ok | Failed(error: RunError)

  datatype Event =
    | BlockRan(ty: string, params: Json, outcome: Option<string>)
    | PredicateTested(ty: string, params: Json, holds: bool)
    | Delayed(ms: uint32)

  type History = seq<Event>

  /** A block answers with nothing, or with why it failed. */
  type Block = (Json, seq<Slot>, History) -> Option<string>

  type Predicate = (Json, History) -> bool

  datatype Registry = Registry(blocks: map<string, Block>, predicates: map<string, Predicate>)

  type Lookup = string -> Option<Sequence>

  /** Lookup in a list of sequences, as main.cpp sets it up. */
  function LookupIn(all: seq<Sequence>): Lookup {
    id => FindById(all, id)
  }

  /** What stays the same during a run. */
  datatype Surroundings = Surroundings(reg: Registry, lookup: Option<Lookup>)

  /** The frame in force, the number of calls in flight and their ids. */
  datatype Activation = Activation(scope: Option<Scope>, depth: nat, active: set<string>)

  datatype Run = Run(result: RunResult, history: History)

  const MAX_CALL_DEPTH := 8

  function Left(depth: nat): nat {
    if depth >= MAX_CALL_DEPTH then 0 else MAX_CALL_DEPTH - depth
  }

  // ----- frames -----

  function Defaults(params: seq<ParamDef>): Scope {
    if params == [] then map[]
    else
      var before := Defaults(params[..|params| - 1]);
      var p := params[|params| - 1];
      if p.defaultValue == Null then before else before[p.key := p.defaultValue]
  }

  function Overlay(sc: Scope, ms: seq<Member>): Scope {
    if ms == [] then sc
    else Overlay(sc, ms[..|ms| - 1])[ms[|ms| - 1].key := ms[|ms| - 1].value]
  }

  /** A new frame: the declared defaults, overlaid with the arguments. */
  function FrameOf(params: seq<ParamDef>, args: Json): Scope {
    if args.Obj? then Overlay(Defaults(params), args.members) else Defaults(params)
  }

  // ----- one node -----

  predicate IsDisabled(n: Node) {
    AsBool(Get(n.params, "_disabled"))
  }

  /** What a node comes to before any list is run: it is finished, or one of
      its child lists runs once or repeatedly, or another sequence is called. */
  datatype Plan =
    | Finished(run: Run)
    | RunChild(child: nat, history: History)
    | Repeat(child: nat, count: int, interval: uint32)
    | Call(callee: Sequence, args: Json)

  function Fail(e: RunError, h: History): Plan {
    Finished(Run(Failed(e), h))
  }

  function PlanOf(m: Surroundings, n: Node, a: Activation, h: History): (p: Plan)
    ensures p.RunChild? || p.Repeat? ==> p.child < |n.children|
  {
    if IsDisabled(n) || n.ty == "divider" then Finished(Run(Ok, h))
    else if n.ty == "if" then PlanOfIf(m, n, a, h)
    else if n.ty == "repeat" then PlanOfRepeat(n, a, h)
    else if n.ty == "call-sequence" then PlanOfCall(m, n, a, h)
    else PlanOfLeaf(m, n, a, h)
  }

  function PlanOfIf(m: Surroundings, n: Node, a: Activation, h: History): (p: Plan)
    ensures p.Finished? || (p.RunChild? && p.child < |n.children|)
  {
    var pp := Get(n.params, "predicate");
    var ty := AsText(Get(pp, "type"));
    if a.scope.None? then Fail(NoScope, h)
    else if ty.None? then Fail(MissingPredicateType, h)
    else if ty.value !in m.reg.predicates then Fail(UnknownPredicate(ty.value), h)
    else
      match Resolve(Get(pp, "params"), a.scope.value)
      case Unbound(name) => Fail(UnboundParam(name), h)
      case Bound(params) =>
        var holds := m.reg.predicates[ty.value](params, h);
        var h' := h + [PredicateTested(ty.value, params, holds)];
        match FindSlot(n.children, if holds then "then" else "else")
        case None => Finished(Run(Ok, h'))
        case Some(i) => RunChild(i, h')
  }

  function PlanOfRepeat(n: Node, a: Activation, h: History): (p: Plan)
    ensures p.Finished? || (p.Repeat? && p.child < |n.children|)
  {
    if a.scope.None? then Fail(NoScope, h)
    else
      match Resolve(n.params, a.scope.value)
      case Unbound(name) => Fail(UnboundParam(name), h)
      case Bound(params) =>
        match FindSlot(n.children, "body")
        case None => Finished(Run(Ok, h))
        case Some(i) =>
          Repeat(i, IntOr(Get(params, "count"), 1), ToUint32(IntOr(Get(params, "interval_ms"), 0)))
  }

  function PlanOfCall(m: Surroundings, n: Node, a: Activation, h: History): (p: Plan)
    ensures p.Finished? || p.Call?
  {
    if a.scope.None? then Fail(NoScope, h)
    else if m.lookup.None? then Fail(NoLookup, h)
    else
      match Resolve(n.params, a.scope.value)
      case Unbound(name) => Fail(UnboundParam(name), h)
      case Bound(params) =>
        var id := TextOrEmpty(Get(params, "sequenceId"));
        if id == "" then Fail(MissingSequenceId, h)
        else if id in a.active then Fail(Cycle(id), h)
        else
          match m.lookup.value(id)
          case None => Fail(UnknownSequence(id), h)
          case Some(callee) =>
            if callee.broken then Fail(CalleeBroken(id, callee.reason), h)
            else Call(callee, Get(params, "args"))
  }

  function PlanOfLeaf(m: Surroundings, n: Node, a: Activation, h: History): (p: Plan)
    ensures p.Finished?
  {
    if n.ty !in m.reg.blocks then Fail(UnknownBlock(n.ty), h)
    else if a.scope.None? then Fail(NoScope, h)
    else
      match Resolve(n.params, a.scope.value)
      case Unbound(name) => Fail(UnboundParam(name), h)
      case Bound(params) =>
        var outcome := m.reg.blocks[n.ty](params, n.children, h);
        var h' := h + [BlockRan(n.ty, params, outcome)];
        Finished(Run(if outcome.None? then Ok else Failed(BlockFailed(outcome.value)), h'))
  }

  // ----- the evaluator -----

  function EvalSequence(m: Surroundings, s: Sequence, args: Json, a: Activation, h: History): Run
    decreases Left(a.depth), false
  {
    if a.depth >= MAX_CALL_DEPTH then Run(Failed(CallDepthExceeded), h)
    else EvalList(m, s.nodes, Entered(s, args, a), h)
  }

  function Entered(s: Sequence, args: Json, a: Activation): Activation {
    Activation(Some(FrameOf(s.params, args)), a.depth + 1, a.active + {s.id})
  }

  function EvalList(m: Surroundings, nodes: seq<Node>, a: Activation, h: History): Run
    decreases Left(a.depth), true, nodes, 0, 0
  {
    if nodes == [] then Run(Ok, h)
    else
      var first := EvalNode(m, nodes[0], a, h);
      if first.result.Failed? then first else EvalList(m, nodes[1..], a, first.history)
  }

  function EvalNode(m: Surroundings, n: Node, a: Activation, h: History): Run
    decreases Left(a.depth), true, n, 0, 0
  {
    match PlanOf(m, n, a, h)
    case Finished(run) => run
    case RunChild(i, h') => EvalList(m, n.children[i].nodes, a, h')
    case Repeat(i, count, interval) => EvalRepeat(m, n.children[i].nodes, count, interval, a, h)
    case Call(callee, args) => EvalSequence(m, callee, args, a, h)
  }

  /** `count` more iterations, with the interval between two of them. */
  function EvalRepeat(
    m: Surroundings, body: seq<Node>, count: int, interval: uint32, a: Activation, h: History): Run
    decreases Left(a.depth), true, body, 1, count
  {
    if count <= 0 then Run(Ok, h)
    else
      var first := EvalList(m, body, a, h);
      if first.result.Failed? then first
      else EvalRepeat(m, body, count - 1, interval, a, first.history + Pause(interval, count))
  }

  /** The delay after an iteration, when `count` were still to run before it. */
  function Pause(interval: uint32, count: int): History {
    if interval != 0 && count > 1 then [Delayed(interval)] else []
  }

  // ----- lists -----

  /** Running a list is running a front part and then, unless it failed, the rest. */
  lemma {:induction false} EvalListAppend(m: Surroundings, front: seq<Node>, rest: seq<Node>, a: Activation, h: History)
    ensures EvalList(m, front + rest, a, h) ==
            var r := EvalList(m, front, a, h);
            if r.result.Failed? then r else EvalList(m, rest, a, r.history)
  {
    if front == [] {
      assert front + rest == rest;
    } else {
      assert (front + rest)[1..] == front[1..] + rest;
      var first := EvalNode(m, front[0], a, h);
      if first.result.Ok? { EvalListAppend(m, front[1..], rest, a, first.history); }
    }
  }

  lemma EvalSingleton(m: Surroundings, n: Node, a: Activation, h: History)
    ensures EvalList(m, [n], a, h) == EvalNode(m, n, a, h)
  {
    var first := EvalNode(m, n, a, h);
    assert EvalList(m, [n][1..], a, first.history) == Run(Ok, first.history);
  }

  /** A part of a list may be replaced by another list that runs alike. */
  lemma EvalListReplace(m: Surroundings, front: seq<Node>, x: seq<Node>, y: seq<Node>, rest: seq<Node>, a: Activation, h: History)
    requires forall h' :: EvalList(m, x, a, h') == EvalList(m, y, a, h')
    ensures EvalList(m, front + x + rest, a, h) == EvalList(m, front + y + rest, a, h)
  {
    EvalListAppend(m, front + x, rest, a, h);
    EvalListAppend(m, front + y, rest, a, h);
    EvalListAppend(m, front, x, a, h);
    EvalListAppend(m, front, y, a, h);
  }

  // ----- frames -----

  lemma {:induction false} DefaultsBind(params: seq<ParamDef>, i: nat)
    requires i < |params| && params[i].defaultValue != Null
    ensures params[i].key in Defaults(params)
  {
    if i < |params| - 1 { DefaultsBind(params[..|params| - 1], i); }
  }

  lemma {:induction false} OverlayAt(sc: Scope, ms: seq<Member>, key: string)
    requires DistinctKeys(ms)
    ensures key in Overlay(sc, ms) <==> key in sc || Find(ms, key).Some?
    ensures Find(ms, key).Some? ==> key in Overlay(sc, ms) && Overlay(sc, ms)[key] == Find(ms, key).value
    ensures Find(ms, key).None? && key in sc ==> Overlay(sc, ms)[key] == sc[key]
  {
    if ms != [] {
      var front, last := ms[..|ms| - 1], ms[|ms| - 1];
      OverlayAt(sc, front, key);
      assert ms == front + [last];
      FindAppend(front, [last], key);
      FindIffKey(front, last.key);
      assert Find([last], key) == if last.key == key then Some(last.value) else None by {
        assert [last][1..] == [];
      }
    }
  }
}
