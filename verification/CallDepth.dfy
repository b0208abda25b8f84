/** The cycle guard bounds the call stack by the number of stored sequences. */
module CallDepth {
  import opened JsonTree
  import opened ResolveParams
  import opened Sequences
  import opened Evaluator
  import Interpreter

  /** The lookup answers a request with a sequence of the requested id, and
      only for the ids given. */
  ghost predicate Faithful(lookup: Option<Lookup>, ids: set<string>) {
    lookup.Some? ==>
      forall id :: lookup.value(id).Some? ==> lookup.value(id).value.id == id && id in ids
  }

  predicate Distinct(stack: seq<string>) {
    forall i, j :: 0 <= i < j < |stack| ==> stack[i] != stack[j]
  }

  /** Looking up by id in a list is faithful. */
  lemma FindByIdIsFaithful(all: seq<Sequence>)
    ensures Faithful(Some(LookupIn(all)), set s | s in all :: s.id)
  {
  }

  lemma {:induction false} DistinctCount(stack: seq<string>)
    requires Distinct(stack)
    ensures |Interpreter.Ids(stack)| == |stack|
  {
    if stack != [] {
      var front := stack[..|stack| - 1];
      DistinctCount(front);
      assert stack == front + [stack[|stack| - 1]];
      Interpreter.IdsPush(front, stack[|stack| - 1]);
    }
  }

  lemma SubsetCount(a: set<string>, b: set<string>)
    requires a <= b
    ensures |a| <= |b|
  {
    assert b == a + (b - a);
  }

  /** In every state a run reaches, the ids on the call stack are pairwise
      distinct stored ids, so there are no more of them than stored sequences. */
  lemma {:induction false} StacksStayDistinct(
    lookup: Option<Lookup>, ids: set<string>, base: seq<string>, stack: seq<string>)
    requires Faithful(lookup, ids) && Interpreter.GrownFrom(lookup, base, stack)
    requires Distinct(base) && Interpreter.Ids(base) <= ids
    ensures Distinct(stack) && Interpreter.Ids(stack) <= ids && |stack| <= |ids|
    decreases |stack| - |base|
  {
    if stack == base {
      DistinctCount(stack);
      SubsetCount(Interpreter.Ids(stack), ids);
    } else {
      var next := stack[|base|];
      assert Interpreter.Guarded(lookup, stack, |base|);
      assert stack[..|base|] == base;
      Interpreter.IdsPush(base, next);
      assert Distinct(base + [next]);
      assert forall k :: |base| + 1 <= k < |stack| ==> Interpreter.Guarded(lookup, stack, k);
      StacksStayDistinct(lookup, ids, base + [next], stack);
    }
  }

  /** The stacks of a run started from a stored sequence. */
  lemma StoredRunStacksStayDistinct(all: seq<Sequence>, s: Sequence, stack: seq<string>)
    requires s in all
    requires Interpreter.GrownFrom(Some(LookupIn(all)), [s.id], stack)
    ensures Distinct(stack) && |stack| <= |set x | x in all :: x.id|
  {
    var ids := set x | x in all :: x.id;
    Interpreter.IdsPush([], s.id);
    assert [] + [s.id] == [s.id] && Interpreter.Ids([]) == {};
    FindByIdIsFaithful(all);
    StacksStayDistinct(Some(LookupIn(all)), ids, [s.id], stack);
  }

  /** As many distinct active ids as calls in flight, all of them stored. */
  ghost predicate Counted(a: Activation, ids: set<string>) {
    |a.active| == a.depth && a.active <= ids
  }

  ghost predicate NotTooDeep(r: Run) {
    r.result != Failed(CallDepthExceeded)
  }

  lemma {:induction false} NodeNotTooDeep(m: Surroundings, n: Node, a: Activation, h: History, ids: set<string>)
    requires Faithful(m.lookup, ids) && Counted(a, ids) && |ids| <= MAX_CALL_DEPTH
    ensures NotTooDeep(EvalNode(m, n, a, h))
    decreases Left(a.depth), true, n, 0, 0
  {
    match PlanOf(m, n, a, h)
    case Finished(run) =>
    case RunChild(i, h') => ListNotTooDeep(m, n.children[i].nodes, a, h', ids);
    case Repeat(i, count, interval) => RepeatNotTooDeep(m, n.children[i].nodes, count, interval, a, h, ids);
    case Call(callee, args) => SequenceNotTooDeep(m, callee, args, a, h, ids);
  }

  lemma {:induction false} ListNotTooDeep(m: Surroundings, nodes: seq<Node>, a: Activation, h: History, ids: set<string>)
    requires Faithful(m.lookup, ids) && Counted(a, ids) && |ids| <= MAX_CALL_DEPTH
    ensures NotTooDeep(EvalList(m, nodes, a, h))
    decreases Left(a.depth), true, nodes, 0, 0
  {
    if nodes != [] {
      NodeNotTooDeep(m, nodes[0], a, h, ids);
      ListNotTooDeep(m, nodes[1..], a, EvalNode(m, nodes[0], a, h).history, ids);
    }
  }

  lemma {:induction false} RepeatNotTooDeep(
    m: Surroundings, body: seq<Node>, count: int, interval: uint32, a: Activation, h: History, ids: set<string>)
    requires Faithful(m.lookup, ids) && Counted(a, ids) && |ids| <= MAX_CALL_DEPTH
    ensures NotTooDeep(EvalRepeat(m, body, count, interval, a, h))
    decreases Left(a.depth), true, body, 1, count
  {
    if count > 0 {
      ListNotTooDeep(m, body, a, h, ids);
      var first := EvalList(m, body, a, h);
      RepeatNotTooDeep(m, body, count - 1, interval, a, first.history + Pause(interval, count), ids);
    }
  }

  /** With at most eight stored ids "call depth exceeded" cannot happen below a
      stored sequence that is not in flight. */
  lemma {:induction false} SequenceNotTooDeep(
    m: Surroundings, s: Sequence, args: Json, a: Activation, h: History, ids: set<string>)
    requires Faithful(m.lookup, ids) && Counted(a, ids) && |ids| <= 8
    requires s.id in ids && s.id !in a.active
    ensures NotTooDeep(EvalSequence(m, s, args, a, h))
    decreases Left(a.depth), false
  {
    var inner := Entered(s, args, a);
    SubsetCount(inner.active, ids);
    ListNotTooDeep(m, s.nodes, inner, h, ids);
  }

  const IDLE := Activation(None, 0, {})

  /** A run started from a stored sequence never exceeds the call depth when at
      most eight sequences are stored. */
  lemma RunNotTooDeep(m: Surroundings, s: Sequence, args: Json, h: History, ids: set<string>)
    requires Faithful(m.lookup, ids) && |ids| <= 8 && s.id in ids
    ensures NotTooDeep(EvalSequence(m, s, args, IDLE, h))
  {
    SequenceNotTooDeep(m, s, args, IDLE, h, ids);
  }
}
