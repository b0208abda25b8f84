/** What a `repeat` node does, in terms of lists and delays. */
module Repetition {
  import opened JsonTree
  import opened ResolveParams
  import opened Sequences
  import opened Evaluator

  /** k copies of a list, none when k is not positive. */
  function Times(body: seq<Node>, k: int): seq<Node>
    decreases k
  {
    if k <= 0 then [] else body + Times(body, k - 1)
  }

  function BodyOf(n: Node): seq<Node> {
    match FindSlot(n.children, "body")
    case None => []
    case Some(i) => n.children[i].nodes
  }

  lemma {:induction false} RepeatIsCopies(m: Surroundings, body: seq<Node>, k: int, a: Activation, h: History)
    ensures EvalRepeat(m, body, k, 0, a, h) == EvalList(m, Times(body, k), a, h)
    decreases k
  {
    if k > 0 {
      EvalListAppend(m, body, Times(body, k - 1), a, h);
      var first := EvalList(m, body, a, h);
      assert first.history + [] == first.history;
      RepeatIsCopies(m, body, k - 1, a, first.history);
    }
  }

  lemma {:induction false} NoBodyNoCopies(k: int)
    ensures Times([], k) == []
    decreases k
  {
    if k > 0 { NoBodyNoCopies(k - 1); }
  }

  /** A live repeat whose parameters resolve to p. */
  predicate Repeats(n: Node, sc: Scope, p: Json) {
    n.ty == "repeat" && !IsDisabled(n) && Resolve(n.params, sc) == Bound(p)
  }

  function Count(p: Json): int32 {
    IntOr(Get(p, "count"), 1)
  }

  function Interval(p: Json): int32 {
    IntOr(Get(p, "interval_ms"), 0)
  }

  lemma RepeatNodeRuns(m: Surroundings, n: Node, a: Activation, p: Json, h: History)
    requires a.scope.Some? && Repeats(n, a.scope.value, p)
    ensures EvalNode(m, n, a, h) ==
            if FindSlot(n.children, "body").None? then Run(Ok, h)
            else EvalRepeat(m, BodyOf(n), Count(p), ToUint32(Interval(p)), a, h)
  {
  }

  /** Unrolling: a repeat without interval may be replaced, inside any list, by
      as many copies of its body as its resolved count says. */
  lemma RepeatUnrolls(
    m: Surroundings, front: seq<Node>, n: Node, rest: seq<Node>, a: Activation, p: Json, h: History)
    requires a.scope.Some? && Repeats(n, a.scope.value, p) && Interval(p) == 0
    ensures EvalList(m, front + [n] + rest, a, h) == EvalList(m, front + Times(BodyOf(n), Count(p)) + rest, a, h)
  {
    forall h' ensures EvalList(m, [n], a, h') == EvalList(m, Times(BodyOf(n), Count(p)), a, h') {
      EvalSingleton(m, n, a, h');
      RepeatNodeRuns(m, n, a, p, h');
      RepeatIsCopies(m, BodyOf(n), Count(p), a, h');
      NoBodyNoCopies(Count(p));
    }
    EvalListReplace(m, front, [n], Times(BodyOf(n), Count(p)), rest, a, h);
  }

  // ----- delays -----

  function TotalDelay(h: History): nat {
    if h == [] then 0
    else TotalDelay(h[..|h| - 1]) + if h[|h| - 1].Delayed? then h[|h| - 1].ms else 0
  }

  /** How many iterations end well before the first that fails. */
  ghost function Completed(
    m: Surroundings, body: seq<Node>, count: int, interval: uint32, a: Activation, h: History): nat
    decreases count
  {
    if count <= 0 then 0
    else
      var first := EvalList(m, body, a, h);
      if first.result.Failed? then 0
      else 1 + Completed(m, body, count - 1, interval, a, first.history + Pause(interval, count))
  }

  /** The delay that the runs of the body add, including the one that fails. */
  ghost function BodyDelay(
    m: Surroundings, body: seq<Node>, count: int, interval: uint32, a: Activation, h: History): int
    decreases count
  {
    if count <= 0 then 0
    else
      var first := EvalList(m, body, a, h);
      TotalDelay(first.history) - TotalDelay(h) +
      if first.result.Failed? then 0
      else BodyDelay(m, body, count - 1, interval, a, first.history + Pause(interval, count))
  }

  function Least(x: int, y: int): int {
    if x < y then x else y
  }

  function NotNegative(x: int): nat {
    if x < 0 then 0 else x
  }

  lemma DelayWithPause(h: History, interval: uint32, count: int)
    ensures TotalDelay(h + Pause(interval, count)) == TotalDelay(h) + if count > 1 then interval else 0
  {
    var pause := Pause(interval, count);
    if pause != [] {
      assert (h + pause)[..|h|] == h;
    } else {
      assert h + pause == h;
    }
  }

  /** k intervals of d. */
  function Pauses(k: int, d: nat): nat
    decreases k
  {
    if k <= 0 then 0 else d + Pauses(k - 1, d)
  }

  lemma {:induction false} PausesMultiply(k: nat, d: nat)
    ensures Pauses(k, d) == k * d
  {
    if k > 0 { PausesMultiply(k - 1, d); }
  }

  /** The history that the k-th iteration starts from. */
  ghost function StartOf(
    m: Surroundings, body: seq<Node>, count: int, interval: uint32, a: Activation, h: History, k: nat): History
    decreases k
  {
    if k == 0 then h
    else StartOf(m, body, count - 1, interval, a, EvalList(m, body, a, h).history + Pause(interval, count), k - 1)
  }

  /** A repeat succeeds exactly when all its iterations do, and otherwise ends
      with the first one that fails, whatever that one did. */
  lemma {:induction false} RepeatCompletes(
    m: Surroundings, body: seq<Node>, count: int, interval: uint32, a: Activation, h: History)
    ensures var r, done := EvalRepeat(m, body, count, interval, a, h), Completed(m, body, count, interval, a, h);
            && done <= NotNegative(count)
            && (r.result.Ok? <==> done == NotNegative(count))
            && (r.result.Failed? ==> r == EvalList(m, body, a, StartOf(m, body, count, interval, a, h, done)))
    decreases count
  {
    if count > 0 {
      var first := EvalList(m, body, a, h);
      if first.result.Ok? {
        RepeatCompletes(m, body, count - 1, interval, a, first.history + Pause(interval, count));
      }
    }
  }

  /** The delay of the pauses between iterations. */
  ghost function OwnDelay(
    m: Surroundings, body: seq<Node>, count: int, interval: uint32, a: Activation, h: History): nat
    decreases count
  {
    if count <= 0 then 0
    else
      var first := EvalList(m, body, a, h);
      if first.result.Failed? then 0
      else (if count > 1 then interval else 0)
           + OwnDelay(m, body, count - 1, interval, a, first.history + Pause(interval, count))
  }

  /** All delay is either the body's or the repeat's own. */
  lemma {:induction false} DelaysAddUp(
    m: Surroundings, body: seq<Node>, count: int, interval: uint32, a: Activation, h: History)
    ensures TotalDelay(EvalRepeat(m, body, count, interval, a, h).history) ==
            TotalDelay(h) + BodyDelay(m, body, count, interval, a, h) + OwnDelay(m, body, count, interval, a, h)
    decreases count
  {
    if count > 0 {
      var first := EvalList(m, body, a, h);
      if first.result.Ok? {
        DelaysAddUp(m, body, count - 1, interval, a, first.history + Pause(interval, count));
        DelayWithPause(first.history, interval, count);
      }
    }
  }

  /** The repeat's own delay is its interval, once after every completed
      iteration but the last of them all. */
  lemma {:induction false} OwnDelayCounts(
    m: Surroundings, body: seq<Node>, count: int, interval: uint32, a: Activation, h: History)
    ensures OwnDelay(m, body, count, interval, a, h) ==
            Pauses(Least(Completed(m, body, count, interval, a, h), count - 1), interval)
    decreases count
  {
    if count > 0 {
      var first := EvalList(m, body, a, h);
      if first.result.Ok? {
        var next := first.history + Pause(interval, count);
        OwnDelayCounts(m, body, count - 1, interval, a, next);
        LeastStep(Completed(m, body, count - 1, interval, a, next), count, interval);
      }
    }
  }

  lemma LeastStep(done: nat, count: int, d: nat)
    requires count > 0
    ensures Pauses(Least(1 + done, count - 1), d) ==
            Pauses(Least(done, count - 2), d) + if count > 1 then d else 0
  {
  }

  /** A successful repeat node adds exactly max(0, count - 1) times its interval,
      as the unsigned number it is converted to, to what its body's runs delay;
      without a body it adds nothing. */
  lemma SuccessfulRepeatDelay(m: Surroundings, n: Node, a: Activation, p: Json, h: History)
    requires a.scope.Some? && Repeats(n, a.scope.value, p) && EvalNode(m, n, a, h).result.Ok?
    ensures TotalDelay(EvalNode(m, n, a, h).history) - TotalDelay(h) ==
            if FindSlot(n.children, "body").None? then 0
            else
              var d := ToUint32(Interval(p));
              BodyDelay(m, BodyOf(n), Count(p), d, a, h) + NotNegative(Count(p) - 1) * d
  {
    var body, count: int, d := BodyOf(n), Count(p), ToUint32(Interval(p));
    RepeatNodeRuns(m, n, a, p, h);
    RepeatCompletes(m, body, count, d, a, h);
    DelaysAddUp(m, body, count, d, a, h);
    OwnDelayCounts(m, body, count, d, a, h);
    PausesMultiply(NotNegative(count - 1), d);
    assert Least(NotNegative(count), count - 1) == count - 1 || count <= 0;
  }

  // ----- the history only grows -----

  lemma {:induction false} SequenceExtends(m: Surroundings, s: Sequence, args: Json, a: Activation, h: History)
    ensures h <= EvalSequence(m, s, args, a, h).history
    decreases Left(a.depth), false
  {
    if a.depth < MAX_CALL_DEPTH { ListExtends(m, s.nodes, Entered(s, args, a), h); }
  }

  /** A run never takes back what happened before it. */
  lemma {:induction false} ListExtends(m: Surroundings, nodes: seq<Node>, a: Activation, h: History)
    ensures h <= EvalList(m, nodes, a, h).history
    decreases Left(a.depth), true, nodes, 0, 0
  {
    if nodes != [] {
      NodeExtends(m, nodes[0], a, h);
      ListExtends(m, nodes[1..], a, EvalNode(m, nodes[0], a, h).history);
    }
  }

  lemma {:induction false} NodeExtends(m: Surroundings, n: Node, a: Activation, h: History)
    ensures h <= EvalNode(m, n, a, h).history
    decreases Left(a.depth), true, n, 0, 0
  {
    match PlanOf(m, n, a, h)
    case Finished(run) =>
    case RunChild(i, h') => ListExtends(m, n.children[i].nodes, a, h');
    case Repeat(i, count, interval) => RepeatExtends(m, n.children[i].nodes, count, interval, a, h);
    case Call(callee, args) => SequenceExtends(m, callee, args, a, h);
  }

  lemma {:induction false} RepeatExtends(
    m: Surroundings, body: seq<Node>, count: int, interval: uint32, a: Activation, h: History)
    ensures h <= EvalRepeat(m, body, count, interval, a, h).history
    decreases Left(a.depth), true, body, 1, count
  {
    if count > 0 {
      ListExtends(m, body, a, h);
      var first := EvalList(m, body, a, h);
      RepeatExtends(m, body, count - 1, interval, a, first.history + Pause(interval, count));
    }
  }
}
