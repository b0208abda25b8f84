/** Sequences that pass the static check do not go wrong when they run. */
module CheckedPrograms {
  import opened JsonTree
  import opened ResolveParams
  import opened Sequences
  import opened SequenceCodec
  import opened CodecLaws
  import opened SequenceStore
  import opened StoreLaws
  import opened Evaluator
  import opened CallDepth
  import SecondResolution

  /** Ids that resolve to themselves, as eight hex digits do. */
  predicate PlainId(id: string) {
    id != "" && TextNames(id) == []
  }

  predicate PlainIds(all: seq<Sequence>) {
    forall s :: s in all ==> PlainId(s.id)
  }

  /** The id a call node has written into it is plain. */
  predicate WritesPlainId(n: Node) {
    var id := Get(n.params, "sequenceId");
    id.Text? && PlainId(id.s)
  }

  /** Plain are exactly the non-empty ids that resolve to themselves in every scope. */
  lemma PlainIffFixed(id: string)
    ensures PlainId(id) <==> id != "" && forall sc :: Resolve(Text(id), sc) == Bound(Text(id))
  {
    NamelessIffFixed(Text(id));
  }

  lemma {:induction false} NoDollarNoNames(s: string)
    requires '$' !in s
    ensures TextNames(s) == []
  {
    if s != "" { NoDollarNoNames(s[1..]); }
  }

  /** Assigned ids are plain. */
  lemma NewIdIsPlain(id: string)
    requires IsNewId(id)
    ensures PlainId(id)
  {
    NoDollarNoNames(id);
  }

  /** The surroundings main.cpp runs a sequence in. */
  function Over(reg: Registry, all: seq<Sequence>): Surroundings {
    Surroundings(reg, Some(LookupIn(all)))
  }

  /** The errors that the static check is there to rule out. */
  predicate WentWrong(r: RunResult) {
    r.Failed? &&
    (r.error.UnknownBlock? || r.error.UnknownSequence? || r.error.MissingSequenceId?
     || r.error.NoLookup? || r.error.NoScope?)
  }

  /** Each node of the list, at any depth, passed the check. */
  ghost predicate SoundList(reg: Registry, all: seq<Sequence>, nodes: seq<Node>) {
    forall n :: n in Flatten(nodes) ==> !UnknownType(n.ty, reg.blocks.Keys) && Satisfiable(all, n)
  }

  ghost predicate SoundBelow(reg: Registry, all: seq<Sequence>, n: Node) {
    forall i :: 0 <= i < |n.children| ==> SoundList(reg, all, n.children[i].nodes)
  }

  lemma SoundHead(reg: Registry, all: seq<Sequence>, nodes: seq<Node>)
    requires nodes != [] && SoundList(reg, all, nodes)
    ensures !UnknownType(nodes[0].ty, reg.blocks.Keys) && Satisfiable(all, nodes[0])
    ensures SoundBelow(reg, all, nodes[0]) && SoundList(reg, all, nodes[1..])
  {
    var below, rest := FlattenSlots(nodes[0].children), Flatten(nodes[1..]);
    assert forall n :: n in Flatten(nodes) <==> n == nodes[0] || n in below || n in rest;
    assert nodes[0] in Flatten(nodes);
    forall i | 0 <= i < |nodes[0].children| ensures SoundList(reg, all, nodes[0].children[i].nodes) {
      FlattenSlotsAt(nodes[0].children, i);
    }
  }

  // ----- calls -----

  lemma StoredIdIsPlain(all: seq<Sequence>, n: Node)
    requires n.ty == "call-sequence" && Satisfiable(all, n) && PlainIds(all)
    ensures WritesPlainId(n)
  {
    var callee := FindById(all, Get(n.params, "sequenceId").s).value;
    assert PlainId(callee.id);
  }

  /** The id a satisfiable call asks for at run time is the one that was checked. */
  lemma CheckedIdIsAskedFor(all: seq<Sequence>, n: Node, sc: Scope)
    requires n.ty == "call-sequence" && Satisfiable(all, n) && WritesPlainId(n) && Resolve(n.params, sc).Bound?
    ensures Get(Resolve(n.params, sc).value, "sequenceId") == Get(n.params, "sequenceId")
    ensures var id := Get(n.params, "sequenceId").s;
            id != "" && FindById(all, id).Some? && FindById(all, id).value in all
    ensures !IsParamObject(n.params)
  {
    if IsParamObject(n.params) {
      FindIffKey(n.params.members, "sequenceId");
      assert false;
    }
    ResolveAt(n.params, sc, "sequenceId");
    NamelessText(Get(n.params, "sequenceId").s, sc);
  }

  lemma CheckedCallPlan(reg: Registry, all: seq<Sequence>, n: Node, a: Activation, h: History)
    requires n.ty == "call-sequence" && Satisfiable(all, n) && WritesPlainId(n) && a.scope.Some?
    ensures var p := PlanOfCall(Over(reg, all), n, a, h);
            if p.Call? then p.callee in all && !p.callee.broken else p.Finished? && !WentWrong(p.run.result)
  {
    if Resolve(n.params, a.scope.value).Bound? {
      CheckedIdIsAskedFor(all, n, a.scope.value);
    }
  }

  /** A call that has nothing but an id written into it. */
  function CallTo(id: string): Node {
    Node("call-sequence", Obj([Member("sequenceId", Text(id))]), [])
  }

  /** Such a call is checked against the id as written, and asks for what the id
      resolves to. */
  lemma CallAsksFor(reg: Registry, all: seq<Sequence>, id: string, a: Activation, h: History)
    requires FindById(all, id).Some? && FindById(all, id).value.params == []
    requires a.scope.Some? && Interpolate(id, a.scope.value).Bound?
    ensures Satisfiable(all, CallTo(id)) && Get(CallTo(id).params, "sequenceId") == Text(id)
    ensures var asked := Interpolate(id, a.scope.value).value;
            PlanOfCall(Over(reg, all), CallTo(id), a, h) ==
            if asked == "" then Fail(MissingSequenceId, h)
            else if asked in a.active then Fail(Cycle(asked), h)
            else
              match FindById(all, asked)
              case None => Fail(UnknownSequence(asked), h)
              case Some(s) => if s.broken then Fail(CalleeBroken(asked, s.reason), h) else Call(s, Null)
  {
    var params, sc := CallTo(id).params, a.scope.value;
    FindAt(params.members, 0);
    assert params.members[1..] == [];
    assert ResolveMembers(params.members[1..], sc) == Bound([]);
    assert Resolve(params.members[0].value, sc).Bound?;
    assert Resolve(params, sc).Bound?;
    ResolveAt(params, sc, "sequenceId");
    ResolveAt(params, sc, "args");
    assert Find(params.members, "args") == None by { assert Find(params.members[1..], "args") == None; }
  }

  /** Why ids must be plain: under an id that reads as a reference the check
      passes, but the run asks for whatever the reference stands for. */
  lemma IdThatIsReferenceGoesWrong(
    reg: Registry, all: seq<Sequence>, name: string, a: Activation, h: History)
    requires a.scope.Some? && name in a.scope.value && a.scope.value[name].Text? && '}' !in name
    requires var id := ['$'] + ("{" + name + "}"); FindById(all, id).Some? && FindById(all, id).value.params == []
    requires var asked := a.scope.value[name].s; asked != "" && asked !in a.active && FindById(all, asked).None?
    ensures var n := CallTo(['$'] + ("{" + name + "}"));
            Satisfiable(all, n) && PlanOfCall(Over(reg, all), n, a, h) == Fail(UnknownSequence(a.scope.value[name].s), h)
  {
    SecondResolution.LoneToken(name, a.scope.value);
    CallAsksFor(reg, all, ['$'] + ("{" + name + "}"), a, h);
  }

  // ----- exactly which ids are safe -----

  /** If every name stands for the same text, the outcome is no shorter than it. */
  lemma {:induction false} InterpolateGrows(s: string, sc: Scope, v: string)
    requires forall n :: n in TextNames(s) ==> n in sc && sc[n] == Text(v)
    ensures Interpolate(s, sc).Bound?
    ensures TextNames(s) != [] ==> |Interpolate(s, sc).value| >= |v|
    decreases |s|
  {
    if s != "" {
      match TokenEnd(s)
      case None => InterpolateGrows(s[1..], sc, v);
      case Some(e) =>
        assert TextNames(s)[0] == s[2..e];
        assert forall n :: n in TextNames(s[e + 1..]) ==> n in TextNames(s);
        InterpolateGrows(s[e + 1..], sc, v);
    }
  }

  /** Longer than the id, and so is whatever it is inserted into. */
  function Alien(id: string): string {
    id + "x"
  }

  /** Every name in the id stands for something that no stored id is. */
  ghost predicate AlienFrame(id: string, sc: Scope) {
    forall n :: n in TextNames(id) ==> n in sc && sc[n] == Text(Alien(id))
  }

  /** A sequence that calls its own id, as written, and nothing else. */
  function SelfCaller(id: string): Sequence {
    Sequence(id, "", 60000, [], [CallTo(id)], false, NoReason)
  }

  /** In such a frame a call to an id that is not plain asks for no id at all or
      for one that is not stored, although it passed the check. */
  lemma UnplainCallGoesWrong(reg: Registry, id: string, a: Activation, h: History)
    requires !PlainId(id) && a.scope.Some? && AlienFrame(id, a.scope.value) && a.active <= {id}
    ensures var p := PlanOfCall(Over(reg, [SelfCaller(id)]), CallTo(id), a, h);
            && Satisfiable([SelfCaller(id)], CallTo(id))
            && if id == "" then p == Fail(MissingSequenceId, h)
               else exists asked :: asked != id && p == Fail(UnknownSequence(asked), h)
  {
    var all := [SelfCaller(id)];
    InterpolateGrows(id, a.scope.value, Alien(id));
    CallAsksFor(reg, all, id, a, h);
    assert all[1..] == [];
    assert forall other :: FindById(all, other) == if other == id then Some(all[0]) else None;
  }

  ghost predicate CallIsSafe(reg: Registry, id: string, all: seq<Sequence>, n: Node, a: Activation, h: History) {
    n.ty == "call-sequence" && Get(n.params, "sequenceId") == Text(id) && Satisfiable(all, n) && a.scope.Some? ==>
      var p := PlanOfCall(Over(reg, all), n, a, h);
      p.Finished? ==> !WentWrong(p.run.result)
  }

  /** Calls that pass the check under this id never go wrong, in any store and
      any frame, if and only if the id is plain. */
  lemma CallsAreSafeIff(reg: Registry, id: string)
    ensures PlainId(id) <==> forall all, n, a, h :: CallIsSafe(reg, id, all, n, a, h)
  {
    if PlainId(id) {
      forall all, n, a, h ensures CallIsSafe(reg, id, all, n, a, h) {
        if n.ty == "call-sequence" && Get(n.params, "sequenceId") == Text(id) && Satisfiable(all, n) && a.scope.Some? {
          CheckedCallPlan(reg, all, n, a, h);
        }
      }
    } else {
      var a := Activation(Some(map n | n in TextNames(id) :: Text(Alien(id))), 0, {});
      UnplainCallGoesWrong(reg, id, a, []);
      FindAt(CallTo(id).params.members, 0);
      assert !CallIsSafe(reg, id, [SelfCaller(id)], CallTo(id), a, []);
    }
  }

  // ----- runs -----

  lemma {:induction false} CheckedNode(reg: Registry, all: seq<Sequence>, n: Node, a: Activation, h: History)
    requires Sound(all, reg.blocks.Keys) && PlainIds(all) && a.scope.Some?
    requires !UnknownType(n.ty, reg.blocks.Keys) && Satisfiable(all, n) && SoundBelow(reg, all, n)
    ensures !WentWrong(EvalNode(Over(reg, all), n, a, h).result)
    decreases Left(a.depth), true, n, 0, 0
  {
    if n.ty == "call-sequence" {
      StoredIdIsPlain(all, n);
      CheckedCallPlan(reg, all, n, a, h);
    }
    match PlanOf(Over(reg, all), n, a, h)
    case Finished(run) =>
    case RunChild(i, h') => CheckedList(reg, all, n.children[i].nodes, a, h');
    case Repeat(i, count, interval) => CheckedRepeat(reg, all, n.children[i].nodes, count, interval, a, h);
    case Call(callee, args) => CheckedSequence(reg, all, callee, args, a, h);
  }

  lemma {:induction false} CheckedList(reg: Registry, all: seq<Sequence>, nodes: seq<Node>, a: Activation, h: History)
    requires Sound(all, reg.blocks.Keys) && PlainIds(all) && a.scope.Some?
    requires SoundList(reg, all, nodes)
    ensures !WentWrong(EvalList(Over(reg, all), nodes, a, h).result)
    decreases Left(a.depth), true, nodes, 0, 0
  {
    if nodes != [] {
      SoundHead(reg, all, nodes);
      CheckedNode(reg, all, nodes[0], a, h);
      CheckedList(reg, all, nodes[1..], a, EvalNode(Over(reg, all), nodes[0], a, h).history);
    }
  }

  lemma {:induction false} CheckedRepeat(
    reg: Registry, all: seq<Sequence>, body: seq<Node>, count: int, interval: uint32, a: Activation, h: History)
    requires Sound(all, reg.blocks.Keys) && PlainIds(all) && a.scope.Some?
    requires SoundList(reg, all, body)
    ensures !WentWrong(EvalRepeat(Over(reg, all), body, count, interval, a, h).result)
    decreases Left(a.depth), true, body, 1, count
  {
    if count > 0 {
      CheckedList(reg, all, body, a, h);
      var first := EvalList(Over(reg, all), body, a, h);
      CheckedRepeat(reg, all, body, count - 1, interval, a, first.history + Pause(interval, count));
    }
  }

  /** In a sound store with plain ids, a run of a sequence not marked broken
      never ends in "unknown block", "unknown sequence" or "missing
      sequenceId", at any call depth. */
  lemma {:induction false} CheckedSequence(
    reg: Registry, all: seq<Sequence>, s: Sequence, args: Json, a: Activation, h: History)
    requires Sound(all, reg.blocks.Keys) && PlainIds(all) && s in all && !s.broken
    ensures !WentWrong(EvalSequence(Over(reg, all), s, args, a, h).result)
    decreases Left(a.depth), false
  {
    if a.depth < MAX_CALL_DEPTH {
      assert SoundSequence(all, reg.blocks.Keys, s);
      CheckedList(reg, all, s.nodes, Entered(s, args, a), h);
    }
  }

  /** Checked programs do not go wrong: however the store came to be, by any
      series of loads, replacements, upserts and removals of decoded sequences
      under the registry they run with. */
  lemma CheckedProgramsDoNotGoWrong(
    mus: seq<Mutation>, reg: Registry, s: Sequence, args: Json, h: History)
    requires forall mu :: mu in mus ==> Possible(mu, reg.blocks.Keys)
    requires var all := After(mus, reg.blocks.Keys); PlainIds(all) && s in all && !s.broken
    ensures !WentWrong(EvalSequence(Over(reg, After(mus, reg.blocks.Keys)), s, args, IDLE, h).result)
  {
    StoreIsAlwaysSound(mus, reg.blocks.Keys);
    CheckedSequence(reg, After(mus, reg.blocks.Keys), s, args, IDLE, h);
  }

  // ----- exactly which ids are safe, for whole programs -----

  /** The arguments that bind each name to the text. */
  function BindingAll(names: seq<string>, v: string): (ms: seq<Member>)
    ensures DistinctKeys(ms) && forall m :: m in ms ==> m.value == Text(v)
    ensures forall n :: n in names ==> n in Keys(ms)
  {
    if names == [] then []
    else
      var ms := BindingAll(names[1..], v);
      PutKeepsDistinct(ms, names[0], Text(v));
      PutBinds(ms, names[0], Text(v));
      Put(ms, names[0], Text(v))
  }

  lemma {:induction false} PutBinds(ms: seq<Member>, key: string, v: Json)
    ensures Keys(Put(ms, key, v)) == Keys(ms) + {key}
    ensures forall m :: m in Put(ms, key, v) ==> m in ms || m.value == v
  {
    if ms != [] && ms[0].key != key {
      PutBinds(ms[1..], key, v);
      KeysCons(ms[0], ms[1..]);
      KeysCons(ms[0], Put(ms[1..], key, v));
      assert [ms[0]] + ms[1..] == ms;
    } else if ms != [] {
      KeysCons(ms[0], ms[1..]);
      KeysCons(Member(key, v), ms[1..]);
      assert [ms[0]] + ms[1..] == ms;
    } else {
      KeysCons(Member(key, v), []);
      assert [Member(key, v)] + [] == [Member(key, v)];
    }
  }

  lemma KeysCons(m: Member, ms: seq<Member>)
    ensures Keys([m] + ms) == {m.key} + Keys(ms)
  {
    var all := [m] + ms;
    assert forall i :: 0 <= i < |ms| ==> all[i + 1] == ms[i];
    forall key | key in {m.key} + Keys(ms) ensures key in Keys(all) {
      if key == m.key {
        assert all[0].key == key;
      } else {
        var i :| 0 <= i < |ms| && ms[i].key == key;
        assert all[i + 1].key == key;
      }
    }
  }

  /** The arguments under which a call to this id goes wrong. */
  function AlienArgs(id: string): Json {
    Obj(BindingAll(TextNames(id), Alien(id)))
  }

  lemma AlienArgsMakeAlienFrame(id: string)
    ensures AlienFrame(id, FrameOf([], AlienArgs(id)))
  {
    var ms := BindingAll(TextNames(id), Alien(id));
    forall n | n in TextNames(id) ensures n in Overlay(map[], ms) && Overlay(map[], ms)[n] == Text(Alien(id)) {
      OverlayAt(map[], ms, n);
      FindIffKey(ms, n);
      assert Member(n, Find(ms, n).value) in ms;
    }
  }

  /** How a store with just this one sequence comes about. */
  function LoadingOnly(s: Sequence): Mutation {
    Loading(map[KEY := Arr(EncodeSequences([s]))])
  }

  lemma OnlyIsStored(s: Sequence, known: set<string>)
    requires DecodeSequence(EncodeSequence(s), known) == s && Checked([s], s) == s
    ensures After([LoadingOnly(s)], known) == [s]
  {
    assert EncodeSequences([s]) == [EncodeSequence(s)] by { assert [s][..0] == []; }
    var items := [EncodeSequence(s)];
    assert items[..0] == [];
    assert DecodeSequences(items, known) == [s];
    assert Validate([s]) == [s];
    var mus := [LoadingOnly(s)];
    assert mus[..0] == [];
  }

  lemma SelfCallerIsStored(id: string, known: set<string>)
    ensures After([LoadingOnly(SelfCaller(id))], known) == [SelfCaller(id)]
  {
    SelfCallerSurvives(id, known);
    SelfCallerIsSatisfiable(id);
    OnlyIsStored(SelfCaller(id), known);
  }

  lemma CallToIsNormal(id: string)
    ensures Normal(CallTo(id)) == CallTo(id)
  {
  }

  lemma SelfCallerSurvives(id: string, known: set<string>)
    ensures DecodeSequence(EncodeSequence(SelfCaller(id)), known) == SelfCaller(id)
  {
    SequenceRoundTrip(SelfCaller(id), known);
    LeafMark(CallTo(id), known);
    NormalSingleton(CallTo(id));
    CallToIsNormal(id);
  }

  lemma SelfCallerIsSatisfiable(id: string)
    ensures FirstFault([SelfCaller(id)], [CallTo(id)]) == None
  {
    var all := [SelfCaller(id)];
    FindAt(CallTo(id).params.members, 0);
    assert FindById(all, id) == Some(all[0]);
    assert CallFault(all, CallTo(id)) == None;
    assert [CallTo(id)][1..] == [];
  }

  lemma CallToIsLive(id: string)
    ensures !IsDisabled(CallTo(id))
  {
    var ms := CallTo(id).params.members;
    assert ms[1..] == [];
    assert Find(ms[1..], "_disabled") == None && ms[0].key != "_disabled";
  }

  lemma SelfCallerFails(reg: Registry, id: string, h: History)
    requires !PlainId(id)
    ensures var r := EvalSequence(Over(reg, [SelfCaller(id)]), SelfCaller(id), AlienArgs(id), IDLE, h).result;
            if id == "" then r == Failed(MissingSequenceId)
            else r.Failed? && r.error.UnknownSequence? && r.error.id != id
  {
    var s := SelfCaller(id);
    var inner := Entered(s, AlienArgs(id), IDLE);
    AlienArgsMakeAlienFrame(id);
    UnplainCallGoesWrong(reg, id, inner, h);
    CallToIsLive(id);
    EvalSingleton(Over(reg, [s]), CallTo(id), inner, h);
  }

  /** In the store that came about like this the run goes wrong, although it
      starts from a stored sequence that is not marked broken. */
  ghost predicate GoesWrong(reg: Registry, mus: seq<Mutation>, s: Sequence, args: Json, h: History) {
    var all := After(mus, reg.blocks.Keys);
    && (forall mu :: mu in mus ==> Possible(mu, reg.blocks.Keys))
    && s in all && !s.broken
    && WentWrong(EvalSequence(Over(reg, all), s, args, IDLE, h).result)
  }

  lemma OneLoadGoesWrong(reg: Registry, load: Mutation, s: Sequence, args: Json, h: History)
    requires load.Loading? && After([load], reg.blocks.Keys) == [s] && !s.broken
    requires WentWrong(EvalSequence(Over(reg, [s]), s, args, IDLE, h).result)
    ensures GoesWrong(reg, [load], s, args, h)
  {
    assert Possible(load, reg.blocks.Keys);
  }

  /** For every id that is not plain one load is enough: the store's only
      sequence has that id, passes the check, and goes wrong when run. */
  lemma UnplainIdGoesWrong(reg: Registry, id: string, h: History)
    requires !PlainId(id)
    ensures After([LoadingOnly(SelfCaller(id))], reg.blocks.Keys) == [SelfCaller(id)]
    ensures GoesWrong(reg, [LoadingOnly(SelfCaller(id))], SelfCaller(id), AlienArgs(id), h)
  {
    SelfCallerIsStored(id, reg.blocks.Keys);
    SelfCallerFails(reg, id, h);
    OneLoadGoesWrong(reg, LoadingOnly(SelfCaller(id)), SelfCaller(id), AlienArgs(id), h);
  }

  ghost predicate IdsAmong(all: seq<Sequence>, ids: set<string>) {
    forall s :: s in all ==> s.id in ids
  }

  lemma ProgramThatGoesWrong(reg: Registry, id: string) returns (mus: seq<Mutation>, s: Sequence, args: Json)
    requires !PlainId(id)
    ensures GoesWrong(reg, mus, s, args, []) && IdsAmong(After(mus, reg.blocks.Keys), {id})
  {
    mus, s, args := [LoadingOnly(SelfCaller(id))], SelfCaller(id), AlienArgs(id);
    UnplainIdGoesWrong(reg, id, []);
  }

  /** Programs whose ids are among these never go wrong, however their store came
      to be, if and only if all these ids are plain. */
  lemma ProgramsAreSafeIff(reg: Registry, ids: set<string>)
    ensures (forall id :: id in ids ==> PlainId(id)) <==>
            forall mus, s, args, h :: GoesWrong(reg, mus, s, args, h) ==> !IdsAmong(After(mus, reg.blocks.Keys), ids)
  {
    if forall id :: id in ids ==> PlainId(id) {
      forall mus, s, args, h | GoesWrong(reg, mus, s, args, h)
        ensures !IdsAmong(After(mus, reg.blocks.Keys), ids)
      {
        if IdsAmong(After(mus, reg.blocks.Keys), ids) { CheckedProgramsDoNotGoWrong(mus, reg, s, args, h); }
      }
    } else {
      var id :| id in ids && !PlainId(id);
      var mus, s, args := ProgramThatGoesWrong(reg, id);
      assert IdsAmong(After(mus, reg.blocks.Keys), ids);
    }
  }

  // ----- required arguments -----

  lemma {:induction false} OverlayBinds(sc: Scope, ms: seq<Member>)
    ensures Overlay(sc, ms).Keys == sc.Keys + Keys(ms)
  {
    if ms == [] {
      assert Keys(ms) == {};
    } else {
      var front := ms[..|ms| - 1];
      OverlayBinds(sc, front);
      assert Keys(ms) == Keys(front) + {ms[|ms| - 1].key};
    }
  }

  /** The static check looks at the arguments as written, the frame is built
      from them resolved. */
  lemma CheckedArgs(all: seq<Sequence>, n: Node, sc: Scope)
    requires n.ty == "call-sequence" && Satisfiable(all, n) && WritesPlainId(n) && Resolve(n.params, sc).Bound?
    ensures Resolve(Get(n.params, "args"), sc) == Bound(Get(Resolve(n.params, sc).value, "args"))
    ensures FindById(all, Get(n.params, "sequenceId").s).Some?
    ensures var callee := FindById(all, Get(n.params, "sequenceId").s).value;
            forall p :: p in callee.params && p.required && p.defaultValue == Null ==> Has(Get(n.params, "args"), p.key)
  {
    CheckedIdIsAskedFor(all, n, sc);
    ResolveAt(n.params, sc, "args");
  }

  /** Whenever a checked call reaches its callee, every required parameter with
      a key other than `$param` is bound in the callee's new frame, from the
      arguments or from its default. */
  lemma RequiredArgsAreBound(
    reg: Registry, all: seq<Sequence>, n: Node, a: Activation, h: History, callee: Sequence, args: Json, p: ParamDef)
    requires n.ty == "call-sequence" && Satisfiable(all, n) && WritesPlainId(n) && a.scope.Some?
    requires PlanOfCall(Over(reg, all), n, a, h) == Call(callee, args)
    requires p in callee.params && p.required && p.key != "$param"
    ensures p.key in FrameOf(callee.params, args)
  {
    var sc := a.scope.value;
    CheckedIdIsAskedFor(all, n, sc);
    CheckedArgs(all, n, sc);
    BoundInFrame(callee.params, args);
    if p.defaultValue == Null {
      var written := Get(n.params, "args");
      assert Has(written, p.key);
      FindIffKey(written.members, p.key);
      ResolveAt(written, sc, p.key);
      FindIffKey(args.members, p.key);
    } else {
      var i :| 0 <= i < |callee.params| && callee.params[i] == p;
      DefaultsBind(callee.params, i);
    }
  }

  lemma BoundInFrame(params: seq<ParamDef>, args: Json)
    ensures FrameOf(params, args).Keys == Defaults(params).Keys + if args.Obj? then Keys(args.members) else {}
  {
    if args.Obj? { OverlayBinds(Defaults(params), args.members); }
  }

  /** With the key `$param` itself the arguments may read as a typed reference.
      Exactly then the parameter can be missing: a required parameter without
      default is bound if and only if the arguments are no typed reference, or
      refer to an object that has the key. */
  lemma RequiredArgIsBoundIff(
    reg: Registry, all: seq<Sequence>, n: Node, a: Activation, h: History, callee: Sequence, args: Json, p: ParamDef)
    requires n.ty == "call-sequence" && Satisfiable(all, n) && WritesPlainId(n) && a.scope.Some?
    requires PlanOfCall(Over(reg, all), n, a, h) == Call(callee, args)
    requires p in callee.params && p.required && p.key !in Defaults(callee.params)
    ensures p.key in FrameOf(callee.params, args) <==>
            var written := Get(n.params, "args");
            IsParamObject(written) ==>
              var name := written.members[0].value.s;
              name in a.scope.value && Has(a.scope.value[name], p.key)
  {
    var sc := a.scope.value;
    CheckedIdIsAskedFor(all, n, sc);
    CheckedArgs(all, n, sc);
    BoundInFrame(callee.params, args);
    if args.Obj? { FindIffKey(args.members, p.key); }
    if p.defaultValue != Null {
      var i :| 0 <= i < |callee.params| && callee.params[i] == p;
      DefaultsBind(callee.params, i);
    }
    var written := Get(n.params, "args");
    if !IsParamObject(written) {
      ResolveAt(written, sc, p.key);
    }
  }

  /** A checked call to a callee whose one required parameter is keyed `$param`,
      with the arguments `{"$param": name}`: the callee gets what the name stands
      for, and unless that is an object with the key its parameter is missing. */
  lemma ParamKeyIsMissing(reg: Registry, id: string, name: string, a: Activation, h: History)
    requires PlainId(id) && id !in a.active
    requires a.scope.Some? && name in a.scope.value && !Has(a.scope.value[name], "$param")
    ensures var p := ParamDef("$param", StringField, "", Null, "", true);
            var callee := Sequence(id, "", 60000, [p], [], false, NoReason);
            var n := Node("call-sequence", Obj([
              Member("sequenceId", Text(id)), Member("args", Obj([Member("$param", Text(name))]))]), []);
            && Satisfiable([callee], n)
            && PlanOfCall(Over(reg, [callee]), n, a, h) == Call(callee, a.scope.value[name])
            && "$param" !in FrameOf(callee.params, a.scope.value[name])
  {
    var p := ParamDef("$param", StringField, "", Null, "", true);
    var callee := Sequence(id, "", 60000, [p], [], false, NoReason);
    var args := Obj([Member("$param", Text(name))]);
    var n := Node("call-sequence", Obj([Member("sequenceId", Text(id)), Member("args", args)]), []);
    var sc := a.scope.value;
    FindAt(n.params.members, 0);
    FindAt(n.params.members, 1);
    FindAt(args.members, 0);
    assert FindById([callee], id) == Some(callee);
    NamelessText(id, sc);
    assert n.params.members[1..] == [Member("args", args)] && [Member("args", args)][1..] == [];
    assert Resolve(args, sc) == Bound(sc[name]);
    assert [Member("args", sc[name])] + [] == [Member("args", sc[name])];
    assert ResolveMembers(n.params.members[1..], sc) == Bound([Member("args", sc[name])]);
    assert Resolve(n.params.members[0].value, sc) == Bound(Text(id));
    assert ResolveMembers(n.params.members, sc).Bound?;
    CheckedIdIsAskedFor([callee], n, sc);
    CheckedArgs([callee], n, sc);
    assert PlanOfCall(Over(reg, [callee]), n, a, h) == Call(callee, sc[name]);
    assert "$param" !in Defaults(callee.params) by { assert [p][..0] == []; }
    RequiredArgIsBoundIff(reg, [callee], n, a, h, callee, sc[name], p);
  }
}
