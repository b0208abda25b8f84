/** Dividers and disabled nodes can be erased everywhere without any run noticing. */
module Erasure {
  import opened JsonTree
  import opened ResolveParams
  import opened Sequences
  import opened Evaluator

  predicate Skipped(n: Node) {
    IsDisabled(n) || n.ty == "divider"
  }

  function EraseList(nodes: seq<Node>): seq<Node> {
    if nodes == [] then []
    else if Skipped(nodes[0]) then EraseList(nodes[1..])
    else [EraseNode(nodes[0])] + EraseList(nodes[1..])
  }

  /** Child lists are only erased where the interpreter itself runs them. */
  function EraseNode(n: Node): Node {
    if n.ty == "if" || n.ty == "repeat" then n.(children := EraseSlots(n.children)) else n
  }

  function EraseSlots(slots: seq<Slot>): seq<Slot> {
    if slots == [] then []
    else [Slot(slots[0].name, EraseList(slots[0].nodes))] + EraseSlots(slots[1..])
  }

  function EraseSequence(s: Sequence): Sequence {
    s.(nodes := EraseList(s.nodes))
  }

  /** The same surroundings with every callee erased too. */
  function Erased(m: Surroundings): Surroundings {
    match m.lookup
    case None => m
    case Some(lookup) =>
      Surroundings(m.reg, Some((id: string) =>
        match lookup(id) case None => None case Some(s) => Some(EraseSequence(s))))
  }

  lemma {:induction false} EraseSlotsAt(slots: seq<Slot>, name: string)
    ensures |EraseSlots(slots)| == |slots|
    ensures FindSlot(EraseSlots(slots), name) == FindSlot(slots, name)
    ensures forall i :: 0 <= i < |slots| ==> EraseSlots(slots)[i].nodes == EraseList(slots[i].nodes)
  {
    if slots != [] {
      EraseSlotsAt(slots[1..], name);
      var es := EraseSlots(slots);
      assert es[1..] == EraseSlots(slots[1..]);
      forall i | 0 <= i < |slots| ensures es[i].nodes == EraseList(slots[i].nodes) {
        if i > 0 { assert es[i] == es[1..][i - 1] && slots[i] == slots[1..][i - 1]; }
      }
    }
  }

  function ErasePlan(p: Plan): Plan {
    match p
    case Call(callee, args) => Call(EraseSequence(callee), args)
    case _ => p
  }

  /** What a node that stays plans to do stays the same. */
  lemma PlanSurvives(m: Surroundings, n: Node, a: Activation, h: History)
    requires !Skipped(n)
    ensures PlanOf(Erased(m), EraseNode(n), a, h) == ErasePlan(PlanOf(m, n, a, h))
  {
    if n.ty == "if" {
      PlanOfIfSurvives(m, n, a, h);
    } else if n.ty == "repeat" {
      EraseSlotsAt(n.children, "body");
    } else if n.ty == "call-sequence" {
      PlanOfCallSurvives(m, n, a, h);
    }
  }

  lemma PlanOfIfSurvives(m: Surroundings, n: Node, a: Activation, h: History)
    requires n.ty == "if"
    ensures PlanOfIf(Erased(m), EraseNode(n), a, h) == PlanOfIf(m, n, a, h)
  {
    EraseSlotsAt(n.children, "then");
    EraseSlotsAt(n.children, "else");
  }

  lemma PlanOfCallSurvives(m: Surroundings, n: Node, a: Activation, h: History)
    ensures PlanOfCall(Erased(m), n, a, h) == ErasePlan(PlanOfCall(m, n, a, h))
  {
  }

  lemma {:induction false} EraseRunsNode(m: Surroundings, n: Node, a: Activation, h: History)
    requires !Skipped(n)
    ensures EvalNode(Erased(m), EraseNode(n), a, h) == EvalNode(m, n, a, h)
    decreases Left(a.depth), true, n, 0, 0
  {
    PlanSurvives(m, n, a, h);
    EraseSlotsAt(n.children, "body");
    match PlanOf(m, n, a, h)
    case Finished(run) =>
    case RunChild(i, h') => EraseRunsList(m, n.children[i].nodes, a, h');
    case Repeat(i, count, interval) => EraseRunsRepeat(m, n.children[i].nodes, count, interval, a, h);
    case Call(callee, args) => EraseRunsSequence(m, callee, args, a, h);
  }

  lemma {:induction false} EraseRunsList(m: Surroundings, nodes: seq<Node>, a: Activation, h: History)
    ensures EvalList(Erased(m), EraseList(nodes), a, h) == EvalList(m, nodes, a, h)
    decreases Left(a.depth), true, nodes, 0, 0
  {
    if nodes != [] {
      if Skipped(nodes[0]) {
        EraseRunsList(m, nodes[1..], a, h);
      } else {
        EraseRunsNode(m, nodes[0], a, h);
        var first := EvalNode(m, nodes[0], a, h);
        assert EraseList(nodes)[1..] == EraseList(nodes[1..]);
        if first.result.Ok? { EraseRunsList(m, nodes[1..], a, first.history); }
      }
    }
  }

  lemma {:induction false} EraseRunsRepeat(
    m: Surroundings, body: seq<Node>, count: int, interval: uint32, a: Activation, h: History)
    ensures EvalRepeat(Erased(m), EraseList(body), count, interval, a, h) == EvalRepeat(m, body, count, interval, a, h)
    decreases Left(a.depth), true, body, 1, count
  {
    if count > 0 {
      EraseRunsList(m, body, a, h);
      var first := EvalList(m, body, a, h);
      if first.result.Ok? {
        EraseRunsRepeat(m, body, count - 1, interval, a, first.history + Pause(interval, count));
      }
    }
  }

  /** Erasing dividers and disabled nodes, in the sequence and in everything it
      calls, leaves result and history of every run unchanged. */
  lemma {:induction false} EraseRunsSequence(m: Surroundings, s: Sequence, args: Json, a: Activation, h: History)
    ensures EvalSequence(Erased(m), EraseSequence(s), args, a, h) == EvalSequence(m, s, args, a, h)
    decreases Left(a.depth), false
  {
    if a.depth < MAX_CALL_DEPTH { EraseRunsList(m, s.nodes, Entered(s, args, a), h); }
  }

  /** Nothing skipped is left. */
  lemma {:induction false} EraseListSkipsNothing(nodes: seq<Node>)
    ensures forall n :: n in EraseList(nodes) ==> !Skipped(n)
  {
    if nodes != [] { EraseListSkipsNothing(nodes[1..]); }
  }

  /** Erasing twice is erasing once. */
  lemma {:induction false} EraseTwice(nodes: seq<Node>)
    ensures EraseList(EraseList(nodes)) == EraseList(nodes)
    decreases nodes
  {
    if nodes != [] {
      EraseTwice(nodes[1..]);
      if !Skipped(nodes[0]) {
        EraseSlotsTwice(nodes[0].children);
        assert EraseList(nodes)[1..] == EraseList(nodes[1..]);
      }
    }
  }

  lemma {:induction false} EraseSlotsTwice(slots: seq<Slot>)
    ensures EraseSlots(EraseSlots(slots)) == EraseSlots(slots)
    decreases slots
  {
    if slots != [] {
      EraseTwice(slots[0].nodes);
      EraseSlotsTwice(slots[1..]);
      assert EraseSlots(slots)[1..] == EraseSlots(slots[1..]);
    }
  }
}
