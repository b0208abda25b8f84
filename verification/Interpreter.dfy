/** The interpreter over a mutable run context with a scope stack and a call
    stack (src/core/Interpreter.cpp), proved against the evaluator. */
module Interpreter {
  import opened JsonTree
  import opened ResolveParams
  import opened Sequences
  import opened Evaluator

  function Ids(stack: seq<string>): set<string> {
    set i | 0 <= i < |stack| :: stack[i]
  }

  /** The lookup answers a request for `id` with a sequence called `found`. */
  ghost predicate Answers(lookup: Option<Lookup>, id: string, found: string) {
    lookup.Some? && lookup.value(id).Some? && lookup.value(id).value.id == found
  }

  /** `stack` is `base` and then, call by call, the ids of sequences that were
      looked up under an id not yet on the stack. */
  ghost predicate GrownFrom(lookup: Option<Lookup>, base: seq<string>, stack: seq<string>) {
    && base <= stack
    && |stack| <= MAX_CALL_DEPTH
    && forall k :: |base| <= k < |stack| ==> Guarded(lookup, stack, k)
  }

  /** The k-th entry was called under an id that none of those before it bears. */
  ghost predicate Guarded(lookup: Option<Lookup>, stack: seq<string>, k: nat)
    requires k < |stack|
  {
    exists id :: id !in Ids(stack[..k]) && Answers(lookup, id, stack[k])
  }

  lemma GrownByCall(lookup: Option<Lookup>, base: seq<string>, id: string, found: string, stack: seq<string>)
    requires GrownFrom(lookup, base + [found], stack)
    requires id !in Ids(base) && Answers(lookup, id, found)
    ensures GrownFrom(lookup, base, stack)
  {
    assert stack[|base|] == found && stack[..|base|] == base;
    assert Guarded(lookup, stack, |base|);
  }

  class RunCtx {
    const lookup: Option<Lookup>
    var scopeStack: seq<Scope>
    var callStack: seq<string>
    var history: History
    /** Every call stack a sequence was entered with. */
    ghost var entered: seq<seq<string>>

    constructor (lookup: Option<Lookup>, history: History)
      ensures this.lookup == lookup
      ensures scopeStack == [] && callStack == [] && this.history == history && entered == []
    {
      this.lookup := lookup;
      scopeStack, callStack, this.history, entered := [], [], history, [];
    }

    /** What the evaluator sees of the two stacks. */
    ghost function Current(): Activation
      reads this
    {
      Activation(if scopeStack == [] then None else Some(scopeStack[|scopeStack| - 1]), |callStack|, Ids(callStack))
    }

    /** All stacks entered since `before` grew from `base` by guarded calls. */
    ghost predicate EnteredFrom(before: seq<seq<string>>, base: seq<string>)
      reads this
    {
      && before <= entered
      && forall i :: |before| <= i < |entered| ==> GrownFrom(lookup, base, entered[i])
    }
  }

  /** Filling a frame: defaults first, then the arguments. */
  method BuildScope(s: Sequence, args: Json) returns (sc: Scope)
    ensures sc == FrameOf(s.params, args)
  {
    sc := map[];
    for i := 0 to |s.params|
      invariant sc == Defaults(s.params[..i])
    {
      var p := s.params[i];
      assert s.params[..i + 1][..i] == s.params[..i];
      if p.defaultValue != Null {
        sc := sc[p.key := p.defaultValue];
      }
    }
    assert s.params[..|s.params|] == s.params;
    if args.Obj? {
      for i := 0 to |args.members|
        invariant sc == Overlay(Defaults(s.params), args.members[..i])
      {
        assert args.members[..i + 1][..i] == args.members[..i];
        sc := sc[args.members[i].key := args.members[i].value];
      }
      assert args.members[..|args.members|] == args.members;
    }
  }

  class Interpreter {
    const reg: Registry

    constructor (reg: Registry)
      ensures this.reg == reg
    {
      this.reg := reg;
    }

    ghost function In(ctx: RunCtx): Surroundings {
      Surroundings(reg, ctx.lookup)
    }

    method RunSequence(s: Sequence, ctx: RunCtx, args: Json) returns (r: RunResult)
      modifies ctx
      ensures ctx.scopeStack == old(ctx.scopeStack) && ctx.callStack == old(ctx.callStack)
      ensures ctx.EnteredFrom(old(ctx.entered), old(ctx.callStack) + [s.id])
      ensures Run(r, ctx.history) == EvalSequence(In(ctx), s, args, old(ctx.Current()), old(ctx.history))
      decreases Left(|ctx.callStack|), false
    {
      if |ctx.callStack| >= MAX_CALL_DEPTH {
        return Failed(CallDepthExceeded);
      }
      ctx.callStack := ctx.callStack + [s.id];
      ctx.entered := ctx.entered + [ctx.callStack];
      var sc := BuildScope(s, args);
      ctx.scopeStack := ctx.scopeStack + [sc];
      assert ctx.Current() == Entered(s, args, old(ctx.Current())) by {
        IdsPush(old(ctx.callStack), s.id);
      }
      r := RunSlot(s.nodes, ctx);
      ctx.scopeStack := ctx.scopeStack[..|ctx.scopeStack| - 1];
      ctx.callStack := ctx.callStack[..|ctx.callStack| - 1];
    }

    method RunSlot(nodes: seq<Node>, ctx: RunCtx) returns (r: RunResult)
      modifies ctx
      ensures ctx.scopeStack == old(ctx.scopeStack) && ctx.callStack == old(ctx.callStack)
      ensures ctx.EnteredFrom(old(ctx.entered), old(ctx.callStack))
      ensures Run(r, ctx.history) == EvalList(In(ctx), nodes, old(ctx.Current()), old(ctx.history))
      decreases Left(|ctx.callStack|), true, nodes, 0, 0
    {
      ghost var a := ctx.Current();
      assert nodes[0..] == nodes;
      for i := 0 to |nodes|
        invariant ctx.scopeStack == old(ctx.scopeStack) && ctx.callStack == old(ctx.callStack)
        invariant ctx.EnteredFrom(old(ctx.entered), old(ctx.callStack))
        invariant EvalList(In(ctx), nodes, a, old(ctx.history)) == EvalList(In(ctx), nodes[i..], a, ctx.history)
      {
        assert nodes[i..][0] == nodes[i] && nodes[i..][1..] == nodes[i + 1..];
        r := RunNode(nodes[i], ctx);
        if r.Failed? {
          return r;
        }
      }
      return Ok;
    }

    method RunNode(n: Node, ctx: RunCtx) returns (r: RunResult)
      modifies ctx
      ensures ctx.scopeStack == old(ctx.scopeStack) && ctx.callStack == old(ctx.callStack)
      ensures ctx.EnteredFrom(old(ctx.entered), old(ctx.callStack))
      ensures Run(r, ctx.history) == EvalNode(In(ctx), n, old(ctx.Current()), old(ctx.history))
      decreases Left(|ctx.callStack|), true, n, 1, 0
    {
      var dis := Get(n.params, "_disabled");
      if dis != Null && AsBool(dis) {
        return Ok;
      }
      if n.ty == "divider" {
        return Ok;
      }
      if n.ty == "if" {
        r := RunIf(n, ctx);
        return;
      }
      if n.ty == "repeat" {
        r := RunRepeat(n, ctx);
        return;
      }
      if n.ty == "call-sequence" {
        r := RunCall(n, ctx);
        return;
      }
      if n.ty !in reg.blocks {
        return Failed(UnknownBlock(n.ty));
      }
      if ctx.scopeStack == [] {
        return Failed(NoScope);
      }
      var resolved := ResolveInto(n.params, ctx.scopeStack[|ctx.scopeStack| - 1]);
      if resolved.Unbound? {
        return Failed(UnboundParam(resolved.name));
      }
      var outcome := reg.blocks[n.ty](resolved.value, n.children, ctx.history);
      ctx.history := ctx.history + [BlockRan(n.ty, resolved.value, outcome)];
      return if outcome.None? then Ok else Failed(BlockFailed(outcome.value));
    }

    /** The `if` branch of RunNode. */
    method RunIf(n: Node, ctx: RunCtx) returns (r: RunResult)
      requires !IsDisabled(n) && n.ty == "if"
      modifies ctx
      ensures ctx.scopeStack == old(ctx.scopeStack) && ctx.callStack == old(ctx.callStack)
      ensures ctx.EnteredFrom(old(ctx.entered), old(ctx.callStack))
      ensures Run(r, ctx.history) == EvalNode(In(ctx), n, old(ctx.Current()), old(ctx.history))
      decreases Left(|ctx.callStack|), true, n, 0, 0
    {
      if ctx.scopeStack == [] {
        return Failed(NoScope);
      }
      var pp := Get(n.params, "predicate");
      var ptype := AsText(Get(pp, "type"));
      if ptype.None? {
        return Failed(MissingPredicateType);
      }
      if ptype.value !in reg.predicates {
        return Failed(UnknownPredicate(ptype.value));
      }
      var resolvedPp := ResolveInto(Get(pp, "params"), ctx.scopeStack[|ctx.scopeStack| - 1]);
      if resolvedPp.Unbound? {
        return Failed(UnboundParam(resolvedPp.name));
      }
      var ok := reg.predicates[ptype.value](resolvedPp.value, ctx.history);
      ctx.history := ctx.history + [PredicateTested(ptype.value, resolvedPp.value, ok)];
      var slot := if ok then "then" else "else";
      var it := FindSlot(n.children, slot);
      if it.None? {
        return Ok;
      }
      r := RunSlot(n.children[it.value].nodes, ctx);
    }

    /** The `repeat` branch of RunNode. */
    method RunRepeat(n: Node, ctx: RunCtx) returns (r: RunResult)
      requires !IsDisabled(n) && n.ty == "repeat"
      modifies ctx
      ensures ctx.scopeStack == old(ctx.scopeStack) && ctx.callStack == old(ctx.callStack)
      ensures ctx.EnteredFrom(old(ctx.entered), old(ctx.callStack))
      ensures Run(r, ctx.history) == EvalNode(In(ctx), n, old(ctx.Current()), old(ctx.history))
      decreases Left(|ctx.callStack|), true, n, 0, 0
    {
      if ctx.scopeStack == [] {
        return Failed(NoScope);
      }
      var resolvedRp := ResolveInto(n.params, ctx.scopeStack[|ctx.scopeStack| - 1]);
      if resolvedRp.Unbound? {
        return Failed(UnboundParam(resolvedRp.name));
      }
      var count: int := IntOr(Get(resolvedRp.value, "count"), 1);
      var intervalMs := ToUint32(IntOr(Get(resolvedRp.value, "interval_ms"), 0));
      var it := FindSlot(n.children, "body");
      if it.None? {
        return Ok;
      }
      var body := n.children[it.value].nodes;
      ghost var a := ctx.Current();
      var i := 0;
      while i < count
        invariant 0 <= i && (count >= 0 ==> i <= count)
        invariant ctx.scopeStack == old(ctx.scopeStack) && ctx.callStack == old(ctx.callStack)
        invariant ctx.EnteredFrom(old(ctx.entered), old(ctx.callStack))
        invariant EvalRepeat(In(ctx), body, count, intervalMs, a, old(ctx.history)) ==
                  EvalRepeat(In(ctx), body, count - i, intervalMs, a, ctx.history)
        decreases count - i
      {
        r := RunSlot(body, ctx);
        if r.Failed? {
          return r;
        }
        ghost var after := ctx.history;
        if intervalMs != 0 && i + 1 < count {
          ctx.history := ctx.history + [Delayed(intervalMs)];
        }
        assert ctx.history == after + Pause(intervalMs, count - i);
        i := i + 1;
      }
      return Ok;
    }

    /** The `call-sequence` branch of RunNode. */
    method RunCall(n: Node, ctx: RunCtx) returns (r: RunResult)
      requires !IsDisabled(n) && n.ty == "call-sequence"
      modifies ctx
      ensures ctx.scopeStack == old(ctx.scopeStack) && ctx.callStack == old(ctx.callStack)
      ensures ctx.EnteredFrom(old(ctx.entered), old(ctx.callStack))
      ensures Run(r, ctx.history) == EvalNode(In(ctx), n, old(ctx.Current()), old(ctx.history))
      decreases Left(|ctx.callStack|), true, n, 0, 0
    {
      if ctx.scopeStack == [] {
        return Failed(NoScope);
      }
      if ctx.lookup.None? {
        return Failed(NoLookup);
      }
      var resolved := ResolveInto(n.params, ctx.scopeStack[|ctx.scopeStack| - 1]);
      if resolved.Unbound? {
        return Failed(UnboundParam(resolved.name));
      }
      var sid := AsText(Get(resolved.value, "sequenceId"));
      if sid.None? || sid.value == "" {
        return Failed(MissingSequenceId);
      }
      var onStack := InFlight(ctx.callStack, sid.value);
      if onStack {
        return Failed(Cycle(sid.value));
      }
      var callee := ctx.lookup.value(sid.value);
      if callee.None? {
        return Failed(UnknownSequence(sid.value));
      }
      if callee.value.broken {
        return Failed(CalleeBroken(sid.value, callee.value.reason));
      }
      r := RunSequence(callee.value, ctx, Get(resolved.value, "args"));
      forall i | |old(ctx.entered)| <= i < |ctx.entered|
        ensures GrownFrom(ctx.lookup, ctx.callStack, ctx.entered[i])
      {
        GrownByCall(ctx.lookup, ctx.callStack, sid.value, callee.value.id, ctx.entered[i]);
      }
    }
  }

  method InFlight(stack: seq<string>, id: string) returns (found: bool)
    ensures found <==> id in Ids(stack)
  {
    for i := 0 to |stack|
      invariant forall j :: 0 <= j < i ==> stack[j] != id
    {
      if stack[i] == id {
        return true;
      }
    }
    return false;
  }

  lemma IdsPush(stack: seq<string>, id: string)
    ensures Ids(stack + [id]) == Ids(stack) + {id}
  {
    assert (stack + [id])[|stack|] == id;
    assert forall i :: 0 <= i < |stack| ==> stack[i] == (stack + [id])[i];
  }
}
