/** What each kind of node does, said on the node itself. */
module NodeRuns {
  import opened JsonTree
  import opened ResolveParams
  import opened Sequences
  import opened Evaluator
  import opened JsonReads

  // ----- frames -----

  /** The declared default of a key: that of its last parameter that has one. */
  ghost predicate DefaultOf(params: seq<ParamDef>, key: string, v: Json) {
    v != Null && exists i :: 0 <= i < |params| && params[i].key == key && params[i].defaultValue == v
                             && forall k :: i < k < |params| && params[k].key == key ==> params[k].defaultValue == Null
  }

  ghost predicate NoDefault(params: seq<ParamDef>, key: string) {
    forall i :: 0 <= i < |params| && params[i].key == key ==> params[i].defaultValue == Null
  }

  lemma DefaultOfFront(params: seq<ParamDef>, key: string, v: Json)
    requires params != [] && DefaultOf(params, key, v)
    ensures var last := params[|params| - 1];
            if last.key == key && last.defaultValue != Null then last.defaultValue == v
            else DefaultOf(params[..|params| - 1], key, v)
  {
    var front, last := params[..|params| - 1], params[|params| - 1];
    var i :| 0 <= i < |params| && params[i].key == key && params[i].defaultValue == v
      && forall k :: i < k < |params| && params[k].key == key ==> params[k].defaultValue == Null;
    if i < |front| { assert front[i] == params[i]; }
  }

  lemma {:induction false} DefaultHolds(params: seq<ParamDef>, key: string, v: Json)
    requires DefaultOf(params, key, v)
    ensures key in Defaults(params) && Defaults(params)[key] == v
  {
    var last := params[|params| - 1];
    DefaultOfFront(params, key, v);
    if last.key != key || last.defaultValue == Null { DefaultHolds(params[..|params| - 1], key, v); }
  }

  lemma {:induction false} NoDefaultHolds(params: seq<ParamDef>, key: string)
    requires NoDefault(params, key)
    ensures key !in Defaults(params)
  {
    if params != [] {
      var front := params[..|params| - 1];
      assert forall i :: 0 <= i < |front| ==> front[i] == params[i];
      NoDefaultHolds(front, key);
    }
  }

  /** A frame has the argument under a key if there is one, else the declared
      default, else nothing; arguments that are no object count as none. */
  lemma FrameHolds(params: seq<ParamDef>, args: Json, key: string, v: Json)
    requires args.Obj? ==> DistinctKeys(args.members)
    ensures HasMember(args, key, v) ==> key in FrameOf(params, args) && FrameOf(params, args)[key] == v
    ensures LacksKey(args, key) && DefaultOf(params, key, v) ==>
              key in FrameOf(params, args) && FrameOf(params, args)[key] == v
    ensures LacksKey(args, key) && NoDefault(params, key) ==> key !in FrameOf(params, args)
  {
    if DefaultOf(params, key, v) { DefaultHolds(params, key, v); }
    if NoDefault(params, key) { NoDefaultHolds(params, key); }
    if args.Obj? {
      FindIffFirst(args.members, key, v);
      OverlayAt(Defaults(params), args.members, key);
    }
  }

  // ----- child lists -----

  /** The first child list with this name. */
  ghost predicate FirstChild(n: Node, name: string, i: int) {
    0 <= i < |n.children| && n.children[i].name == name && forall k :: 0 <= k < i ==> n.children[k].name != name
  }

  ghost predicate NoChild(n: Node, name: string) {
    forall i :: 0 <= i < |n.children| ==> n.children[i].name != name
  }

  lemma {:induction false} FindSlotIsFirst(children: seq<Slot>, name: string, i: nat)
    requires i < |children| && children[i].name == name && forall k :: 0 <= k < i ==> children[k].name != name
    ensures FindSlot(children, name) == Some(i)
  {
    if i > 0 { FindSlotIsFirst(children[1..], name, i - 1); }
  }

  // ----- skipping -----

  /** `_disabled` is there and says so: it is not null, false or zero. */
  ghost predicate MarkedDisabled(n: Node) {
    exists v :: v != Null && v != Bool(false) && v != Int(0) && HasMember(n.params, "_disabled", v)
  }

  lemma DisabledIff(n: Node)
    ensures IsDisabled(n) <==> MarkedDisabled(n)
  {
    if n.params.Obj? {
      var v := Get(n.params, "_disabled");
      FindIffFirst(n.params.members, "_disabled", v);
      if MarkedDisabled(n) {
        var w :| w != Null && w != Bool(false) && w != Int(0) && HasMember(n.params, "_disabled", w);
        FindIffFirst(n.params.members, "_disabled", w);
      }
    }
  }

  /** Dividers and disabled nodes do nothing, without a frame too. */
  lemma SkippedDoesNothing(m: Surroundings, n: Node, a: Activation, h: History)
    requires n.ty == "divider" || MarkedDisabled(n)
    ensures EvalNode(m, n, a, h) == Run(Ok, h)
  {
    DisabledIff(n);
  }

  // ----- if -----

  /** The predicate of an `if` node: its type and its parameters as written. */
  ghost predicate AsksFor(n: Node, ty: string, params: Json) {
    n.ty == "if" && !MarkedDisabled(n) &&
    var pp := Get(n.params, "predicate");
    Get(pp, "type") == Text(ty) && Get(pp, "params") == params
  }

  /** When the predicate holds, the first list called "then" runs, on the history
      with the test; without such a list nothing does. */
  lemma IfTrueRunsThen(m: Surroundings, n: Node, a: Activation, ty: string, params: Json, p: Json, h: History)
    requires AsksFor(n, ty, params) && a.scope.Some? && ty in m.reg.predicates
    requires Resolve(params, a.scope.value) == Bound(p) && m.reg.predicates[ty](p, h)
    ensures forall i :: FirstChild(n, "then", i) ==>
              EvalNode(m, n, a, h) == EvalList(m, n.children[i].nodes, a, h + [PredicateTested(ty, p, true)])
    ensures NoChild(n, "then") ==> EvalNode(m, n, a, h) == Run(Ok, h + [PredicateTested(ty, p, true)])
  {
    DisabledIff(n);
    forall i | FirstChild(n, "then", i)
      ensures EvalNode(m, n, a, h) == EvalList(m, n.children[i].nodes, a, h + [PredicateTested(ty, p, true)])
    {
      FindSlotIsFirst(n.children, "then", i);
    }
  }

  /** When it does not hold, the same goes for "else". */
  lemma IfFalseRunsElse(m: Surroundings, n: Node, a: Activation, ty: string, params: Json, p: Json, h: History)
    requires AsksFor(n, ty, params) && a.scope.Some? && ty in m.reg.predicates
    requires Resolve(params, a.scope.value) == Bound(p) && !m.reg.predicates[ty](p, h)
    ensures forall i :: FirstChild(n, "else", i) ==>
              EvalNode(m, n, a, h) == EvalList(m, n.children[i].nodes, a, h + [PredicateTested(ty, p, false)])
    ensures NoChild(n, "else") ==> EvalNode(m, n, a, h) == Run(Ok, h + [PredicateTested(ty, p, false)])
  {
    DisabledIff(n);
    forall i | FirstChild(n, "else", i)
      ensures EvalNode(m, n, a, h) == EvalList(m, n.children[i].nodes, a, h + [PredicateTested(ty, p, false)])
    {
      FindSlotIsFirst(n.children, "else", i);
    }
  }

  /** A live `if` that tests nothing fails, and why: no frame, no predicate type,
      an unknown one, an unbound name, in this order. */
  lemma IfFails(m: Surroundings, n: Node, a: Activation, h: History)
    requires n.ty == "if" && !MarkedDisabled(n)
    ensures var pp := Get(n.params, "predicate");
            var ty := Get(pp, "type");
            && (a.scope.None? ==> EvalNode(m, n, a, h) == Run(Failed(NoScope), h))
            && (a.scope.Some? && !ty.Text? ==> EvalNode(m, n, a, h) == Run(Failed(MissingPredicateType), h))
            && (a.scope.Some? && ty.Text? && ty.s !in m.reg.predicates ==>
                  EvalNode(m, n, a, h) == Run(Failed(UnknownPredicate(ty.s)), h))
            && (a.scope.Some? && ty.Text? && ty.s in m.reg.predicates ==>
                  forall name :: Resolve(Get(pp, "params"), a.scope.value) == Unbound(name) ==>
                    EvalNode(m, n, a, h) == Run(Failed(UnboundParam(name)), h))
  {
    DisabledIff(n);
  }

  // ----- leaves -----

  /** A node that is no control flow and not skipped. */
  ghost predicate IsLeaf(n: Node) {
    && n.ty != "if" && n.ty != "repeat" && n.ty != "call-sequence" && n.ty != "divider"
    && !MarkedDisabled(n)
  }

  /** A leaf succeeds exactly when its block answers nothing, fails with the
      block's message otherwise, and has run that block once, with the resolved
      parameters. */
  lemma LeafRunsBlock(m: Surroundings, n: Node, a: Activation, p: Json, h: History)
    requires IsLeaf(n) && n.ty in m.reg.blocks && a.scope.Some? && Resolve(n.params, a.scope.value) == Bound(p)
    ensures var answer, r := m.reg.blocks[n.ty](p, n.children, h), EvalNode(m, n, a, h);
            && (r.result == Ok <==> answer == None)
            && (forall msg :: answer == Some(msg) ==> r.result == Failed(BlockFailed(msg)))
            && r.history == h + [BlockRan(n.ty, p, answer)]
  {
    DisabledIff(n);
  }

  /** A failing leaf ends its list: nothing behind it runs. */
  lemma FailingLeafEndsList(
    m: Surroundings, n: Node, rest: seq<Node>, a: Activation, p: Json, msg: string, h: History)
    requires IsLeaf(n) && n.ty in m.reg.blocks && a.scope.Some? && Resolve(n.params, a.scope.value) == Bound(p)
    requires m.reg.blocks[n.ty](p, n.children, h) == Some(msg)
    ensures EvalList(m, [n] + rest, a, h) == Run(Failed(BlockFailed(msg)), h + [BlockRan(n.ty, p, Some(msg))])
  {
    LeafRunsBlock(m, n, a, p, h);
    EvalSingleton(m, n, a, h);
    EvalListAppend(m, [n], rest, a, h);
  }

  /** A succeeding one hands its history on. */
  lemma SucceedingLeafGoesOn(m: Surroundings, n: Node, rest: seq<Node>, a: Activation, p: Json, h: History)
    requires IsLeaf(n) && n.ty in m.reg.blocks && a.scope.Some? && Resolve(n.params, a.scope.value) == Bound(p)
    requires m.reg.blocks[n.ty](p, n.children, h) == None
    ensures EvalList(m, [n] + rest, a, h) == EvalList(m, rest, a, h + [BlockRan(n.ty, p, None)])
  {
    LeafRunsBlock(m, n, a, p, h);
    EvalSingleton(m, n, a, h);
    EvalListAppend(m, [n], rest, a, h);
  }

  /** Why a leaf fails without running its block: an unregistered type, no frame,
      an unbound name, in this order. */
  lemma LeafFails(m: Surroundings, n: Node, a: Activation, h: History)
    requires IsLeaf(n)
    ensures n.ty !in m.reg.blocks ==> EvalNode(m, n, a, h) == Run(Failed(UnknownBlock(n.ty)), h)
    ensures n.ty in m.reg.blocks && a.scope.None? ==> EvalNode(m, n, a, h) == Run(Failed(NoScope), h)
    ensures n.ty in m.reg.blocks && a.scope.Some? && Resolve(n.params, a.scope.value).Unbound? ==>
              EvalNode(m, n, a, h) == Run(Failed(UnboundParam(Resolve(n.params, a.scope.value).name)), h)
  {
    DisabledIff(n);
  }

  // ----- repeat -----

  /** The count that resolved parameters ask for: a 32-bit integer there, else 1. */
  ghost predicate AsksCount(p: Json, k: int) {
    var c := Get(p, "count");
    if c.Int? && -0x8000_0000 <= c.n < 0x8000_0000 then k == c.n else k == 1
  }

  /** The interval: a 32-bit integer there, read as unsigned, else 0. */
  ghost predicate AsksInterval(p: Json, d: uint32) {
    var i := Get(p, "interval_ms");
    if i.Int? && 0 <= i.n < 0x8000_0000 then d == i.n
    else if i.Int? && -0x8000_0000 <= i.n < 0 then d == i.n + 0x1_0000_0000
    else d == 0
  }

  ghost predicate RepeatsWith(n: Node, sc: Scope, k: int, d: uint32, i: nat) {
    n.ty == "repeat" && !MarkedDisabled(n) && FirstChild(n, "body", i)
    && Resolve(n.params, sc).Bound? && AsksCount(Resolve(n.params, sc).value, k)
    && AsksInterval(Resolve(n.params, sc).value, d)
  }

  lemma RepeatEvaluates(m: Surroundings, n: Node, a: Activation, k: int, d: uint32, i: nat, h: History)
    requires a.scope.Some? && RepeatsWith(n, a.scope.value, k, d, i)
    ensures EvalNode(m, n, a, h) == EvalRepeat(m, n.children[i].nodes, k, d, a, h)
  {
    DisabledIff(n);
    FindSlotIsFirst(n.children, "body", i);
  }

  /** A repeat that asks for none, or has no body, does nothing. */
  lemma RepeatNone(m: Surroundings, n: Node, a: Activation, k: int, d: uint32, i: nat, h: History)
    requires a.scope.Some? && RepeatsWith(n, a.scope.value, k, d, i) && k <= 0
    ensures EvalNode(m, n, a, h) == Run(Ok, h)
  {
    RepeatEvaluates(m, n, a, k, d, i, h);
  }

  lemma RepeatWithoutBody(m: Surroundings, n: Node, a: Activation, h: History)
    requires n.ty == "repeat" && !MarkedDisabled(n) && NoChild(n, "body")
    requires a.scope.Some? && Resolve(n.params, a.scope.value).Bound?
    ensures EvalNode(m, n, a, h) == Run(Ok, h)
  {
    DisabledIff(n);
  }

  /** One iteration is the body, and no delay. */
  lemma RepeatOnce(m: Surroundings, n: Node, a: Activation, d: uint32, i: nat, h: History)
    requires a.scope.Some? && RepeatsWith(n, a.scope.value, 1, d, i)
    ensures EvalNode(m, n, a, h) == EvalList(m, n.children[i].nodes, a, h)
  {
    RepeatEvaluates(m, n, a, 1, d, i, h);
    var first := EvalList(m, n.children[i].nodes, a, h);
    assert first.history + [] == first.history;
  }

  /** More iterations are the body, a delay of the interval unless that is zero,
      and then what a repeat of one less would do; a failing body ends it. */
  lemma RepeatMore(
    m: Surroundings, n: Node, less: Node, a: Activation, k: int, d: uint32, i: nat, j: nat, h: History)
    requires a.scope.Some? && k > 1 && RepeatsWith(n, a.scope.value, k, d, i)
    requires RepeatsWith(less, a.scope.value, k - 1, d, j) && less.children[j].nodes == n.children[i].nodes
    ensures var first := EvalList(m, n.children[i].nodes, a, h);
            EvalNode(m, n, a, h) ==
            if first.result != Ok then first
            else EvalNode(m, less, a, if d == 0 then first.history else first.history + [Delayed(d)])
  {
    RepeatEvaluates(m, n, a, k, d, i, h);
    var first := EvalList(m, n.children[i].nodes, a, h);
    assert first.history + [] == first.history;
    RepeatEvaluates(m, less, a, k - 1, d, j, if d == 0 then first.history else first.history + [Delayed(d)]);
  }

  lemma RepeatFails(m: Surroundings, n: Node, a: Activation, h: History)
    requires n.ty == "repeat" && !MarkedDisabled(n)
    ensures a.scope.None? ==> EvalNode(m, n, a, h) == Run(Failed(NoScope), h)
    ensures a.scope.Some? && Resolve(n.params, a.scope.value).Unbound? ==>
              EvalNode(m, n, a, h) == Run(Failed(UnboundParam(Resolve(n.params, a.scope.value).name)), h)
  {
    DisabledIff(n);
  }

  // ----- calls -----

  /** Below eight calls a sequence runs its nodes in a new frame, one call deeper
      and with its id in flight; from eight on it is refused. */
  lemma SequenceEnters(m: Surroundings, s: Sequence, args: Json, a: Activation, h: History)
    ensures a.depth >= 8 ==> EvalSequence(m, s, args, a, h) == Run(Failed(CallDepthExceeded), h)
    ensures a.depth < 8 ==>
              EvalSequence(m, s, args, a, h) ==
              EvalList(m, s.nodes, Activation(Some(FrameOf(s.params, args)), a.depth + 1, a.active + {s.id}), h)
  {
  }

  ghost predicate Calls(n: Node, sc: Scope, id: Json, args: Json) {
    n.ty == "call-sequence" && !MarkedDisabled(n) && Resolve(n.params, sc).Bound?
    && Get(Resolve(n.params, sc).value, "sequenceId") == id && Get(Resolve(n.params, sc).value, "args") == args
  }

  /** A live call runs the sequence it asks for with the resolved arguments, or
      fails: no id, in flight, unknown, broken, in this order. */
  lemma CallRuns(m: Surroundings, n: Node, a: Activation, lookup: Lookup, id: Json, args: Json, h: History)
    requires a.scope.Some? && m.lookup == Some(lookup) && Calls(n, a.scope.value, id, args)
    ensures EvalNode(m, n, a, h) ==
            if !id.Text? || id.s == "" then Run(Failed(MissingSequenceId), h)
            else if id.s in a.active then Run(Failed(Cycle(id.s)), h)
            else
              match lookup(id.s)
              case None => Run(Failed(UnknownSequence(id.s)), h)
              case Some(s) =>
                if s.broken then Run(Failed(CalleeBroken(id.s, s.reason)), h)
                else EvalSequence(m, s, args, a, h)
  {
    DisabledIff(n);
  }

  /** Before that it needs a frame, a lookup and bound names, in this order. */
  lemma CallFails(m: Surroundings, n: Node, a: Activation, h: History)
    requires n.ty == "call-sequence" && !MarkedDisabled(n)
    ensures a.scope.None? ==> EvalNode(m, n, a, h) == Run(Failed(NoScope), h)
    ensures a.scope.Some? && m.lookup.None? ==> EvalNode(m, n, a, h) == Run(Failed(NoLookup), h)
    ensures a.scope.Some? && m.lookup.Some? && Resolve(n.params, a.scope.value).Unbound? ==>
              EvalNode(m, n, a, h) == Run(Failed(UnboundParam(Resolve(n.params, a.scope.value).name)), h)
  {
    DisabledIff(n);
  }

  /** A sequence that calls itself is stopped at that call. */
  lemma SelfCallIsCycle(m: Surroundings, s: Sequence, n: Node, rest: seq<Node>, args: Json, a: Activation, h: History)
    requires m.lookup.Some? && a.depth < 8 && s.nodes == [n] + rest && s.id != ""
    requires exists given :: Calls(n, FrameOf(s.params, args), Text(s.id), given)
    ensures EvalSequence(m, s, args, a, h) == Run(Failed(Cycle(s.id)), h)
  {
    var inner := Activation(Some(FrameOf(s.params, args)), a.depth + 1, a.active + {s.id});
    var given :| Calls(n, FrameOf(s.params, args), Text(s.id), given);
    SequenceEnters(m, s, args, a, h);
    CallRuns(m, n, inner, m.lookup.value, Text(s.id), given, h);
    EvalSingleton(m, n, inner, h);
    EvalListAppend(m, [n], rest, inner, h);
  }
}
