/** The one-deep run queue and the run branch of the main loop (src/main.cpp). */
module MainLoop {
  import opened JsonTree
  import opened Sequences
  import opened Evaluator
  import opened CallDepth
  import opened CheckedPrograms
  import opened SequenceCodec
  import opened CodecLaws
  import opened StoreLaws
  import Interpreter
  import SequenceStore
  import TriggerManager

  /** A request to run a sequence. */
  datatype Request = Request(id: string, args: Json)

  datatype LoopError = NoError | NoSuchSequence(id: string) | RunError(error: Evaluator.RunError)

  /** How an attempt to join the idle network turns out, if one is due. */
  datatype Attempt = NotDue | Joined(bleBindings: nat) | GaveUp | NotJoined

  /** What a pass finds out about the network: whether it is connected, what an
      attempt to connect does, and whether the idle network is still in place
      after a run. */
  datatype Network = Network(connected: bool, attempt: Attempt, settled: bool)

  // ----- the step machine -----

  datatype State = State(
    inRuntime: bool, wifiReady: bool, bleStarted: bool, scanning: bool,
    pending: Option<Request>, lastError: LoopError, history: History,
    accepted: seq<Request>, consumed: seq<Request>, started: seq<Request>)

  /** A full queue turns a request away. */
  function Enqueue(st: State, r: Request): State {
    if st.pending.Some? then st else st.(pending := Some(r), accepted := st.accepted + [r])
  }

  function Connect(st: State, attempt: Attempt): State {
    match attempt
    case NotDue => st
    case NotJoined => st
    case GaveUp => st.(inRuntime := false)
    case Joined(n) =>
      if st.bleStarted || n == 0 then st.(wifiReady := true)
      else st.(wifiReady := true, bleStarted := true, scanning := true)
  }

  /** Taking the pending request and running its sequence, if there is one. */
  function Consume(m: Surroundings, pauses: bool, st: State, r: Request, settled: bool): State
    requires m.lookup.Some?
  {
    var taken := st.(pending := None, consumed := st.consumed + [r]);
    match m.lookup.value(r.id)
    case None => taken.(lastError := NoSuchSequence(r.id))
    case Some(s) => Ended(pauses, taken, r, EvalSequence(m, s, r.args, IDLE, st.history), settled)
  }

  /** After a run: what it left behind, and what to do about scanning and Wi-Fi. */
  function Ended(pauses: bool, st: State, r: Request, run: Run, settled: bool): State {
    st.(
      history := run.history,
      lastError := if run.result.Failed? then RunError(run.result.error) else NoError,
      started := st.started + [r],
      scanning := st.scanning || (st.bleStarted && pauses),
      wifiReady := settled)
  }

  predicate Ready(st: State, net: Network) {
    st.inRuntime && st.wifiReady && net.connected
  }

  function Pass(m: Surroundings, pauses: bool, st: State, net: Network): State
    requires m.lookup.Some?
  {
    if !st.inRuntime then st
    else if !st.wifiReady then Connect(st, net.attempt)
    else if !net.connected then st.(wifiReady := false)
    else if st.pending.None? then st
    else Consume(m, pauses, st, st.pending.value, net.settled)
  }

  // ----- the globals -----

  class Firmware {
    const store: SequenceStore.SequenceStore
    const trigMgr: TriggerManager.TriggerManager
    const interp: Interpreter.Interpreter
    var inRuntime: bool
    var wifiReady: bool
    var bleStarted: bool
    var scanning: bool
    var sequencePending: bool
    var pendingSeqId: string
    var pendingArgs: Json
    var lastError: LoopError
    var history: History
    ghost var accepted: seq<Request>
    ghost var consumed: seq<Request>
    ghost var started: seq<Request>

    constructor (store: SequenceStore.SequenceStore, trigMgr: TriggerManager.TriggerManager, interp: Interpreter.Interpreter)
      ensures this.store == store && this.trigMgr == trigMgr && this.interp == interp
      ensures Model() == BOOT
    {
      this.store, this.trigMgr, this.interp := store, trigMgr, interp;
      inRuntime, wifiReady, bleStarted, scanning := true, false, false, false;
      sequencePending, pendingSeqId, pendingArgs := false, "", Null;
      lastError, history := NoError, [];
      accepted, consumed, started := [], [], [];
    }

    ghost function Model(): State
      reads this
    {
      State(
        inRuntime, wifiReady, bleStarted, scanning,
        if sequencePending then Some(Request(pendingSeqId, pendingArgs)) else None,
        lastError, history, accepted, consumed, started)
    }

    ghost function In(): Surroundings
      reads store
    {
      Over(interp.reg, store.seqs)
    }

    method EnqueueRun(id: string, args: Json)
      modifies this
      ensures Model() == Enqueue(old(Model()), Request(id, args))
    {
      if sequencePending {
        return;
      }
      pendingSeqId := id;
      pendingArgs := Null;
      if args != Null {
        pendingArgs := args;
      }
      sequencePending := true;
      accepted := accepted + [Request(id, args)];
    }

    method Loop(net: Network)
      modifies this
      ensures Model() == Pass(In(), trigMgr.anyPauses, old(Model()), net)
    {
      if !inRuntime {
        return;
      }
      if !wifiReady {
        TryConnectIdle(net.attempt);
      } else if !net.connected {
        wifiReady := false;
      } else if sequencePending {
        RunPending(net);
      }
    }

    method TryConnectIdle(attempt: Attempt)
      modifies this
      ensures Model() == Connect(old(Model()), attempt)
    {
      match attempt {
        case NotDue =>
        case NotJoined =>
        case GaveUp => inRuntime := false;
        case Joined(n) =>
          wifiReady := true;
          if !bleStarted && n != 0 {
            scanning := true;
            bleStarted := true;
          }
      }
    }

    /** The run branch. */
    method RunPending(net: Network)
      requires sequencePending
      modifies this
      ensures Model() == Consume(In(), trigMgr.anyPauses, old(Model()), Request(old(pendingSeqId), old(pendingArgs)), net.settled)
    {
      sequencePending := false;
      var sid := pendingSeqId;
      pendingSeqId := "";
      consumed := consumed + [Request(sid, pendingArgs)];
      var s := store.Lookup(sid);
      if s.None? {
        lastError := NoSuchSequence(sid);
        return;
      }
      var _ := RunFound(s.value, sid, net);
    }

    /** The run itself, with scanning paused around it if a trigger asks for that. */
    method RunFound(s: Sequence, ghost sid: string, net: Network) returns (run: Run)
      requires !sequencePending
      modifies this
      ensures run == EvalSequence(In(), s, old(pendingArgs), IDLE, old(history))
      ensures Model() == Ended(trigMgr.anyPauses, old(Model()), Request(sid, old(pendingArgs)), run, net.settled)
    {
      ghost var r := Request(sid, pendingArgs);
      var pauses := trigMgr.AnyPausesBleScan();
      if bleStarted && pauses {
        scanning := false;
      }
      lastError := NoError;
      run := RunFresh(s, pendingArgs);
      EndRun(run, r, net);
      pauses := trigMgr.AnyPausesBleScan();
      if bleStarted && pauses {
        scanning := true;
      }
    }

    method EndRun(run: Run, ghost r: Request, net: Network)
      modifies `history, `pendingArgs, `lastError, `wifiReady, `started
      ensures history == run.history && wifiReady == net.settled && started == old(started) + [r]
      ensures lastError == if run.result.Failed? then RunError(run.result.error) else old(lastError)
    {
      started := started + [r];
      history := run.history;
      pendingArgs := Null;
      if run.result.Failed? {
        lastError := RunError(run.result.error);
      }
      wifiReady := net.settled;
    }

    /** Running a sequence in a new context. */
    method RunFresh(s: Sequence, args: Json) returns (run: Run)
      ensures run == EvalSequence(In(), s, args, IDLE, history)
    {
      var ctx := new Interpreter.RunCtx(Over(interp.reg, store.seqs).lookup, history);
      assert Interpreter.Ids([]) == {};
      var r := interp.RunSequence(s, ctx, args);
      run := Run(r, ctx.history);
    }
  }

  const BOOT := State(true, false, false, false, None, NoError, [], [], [], [])

  // ----- every run -----

  /** One step of the device: a request arrives, or the loop passes once, over
      whatever sequences and triggers are configured at the time. */
  datatype Step =
    | Requested(r: Request)
    | Passed(reg: Registry, all: seq<Sequence>, pauses: bool, net: Network)

  function Next(st: State, step: Step): State {
    match step
    case Requested(r) => Enqueue(st, r)
    case Passed(reg, all, pauses, net) => Pass(Over(reg, all), pauses, st, net)
  }

  function AfterSteps(steps: seq<Step>): State {
    if steps == [] then BOOT else Next(AfterSteps(steps[..|steps| - 1]), steps[|steps| - 1])
  }

  /** What was accepted is what was consumed, in the same order and with the
      same ids and arguments, and then what is still pending. */
  predicate QueueConserves(st: State) {
    st.accepted == st.consumed + if st.pending.Some? then [st.pending.value] else []
  }

  lemma NextConserves(st: State, step: Step)
    requires QueueConserves(st)
    ensures QueueConserves(Next(st, step))
  {
    match step
    case Requested(r) =>
      assert st.consumed + [] == st.consumed;
    case Passed(reg, all, pauses, net) =>
      if st.pending.Some? {
        assert (st.consumed + [st.pending.value]) + [] == st.consumed + [st.pending.value];
      }
  }

  /** Scanning is on whenever it was ever started. */
  predicate ScanningKept(st: State) {
    st.bleStarted ==> st.scanning
  }

  /** In every run each accepted request is consumed at most once, with its own
      id and arguments, in order, and one is left exactly when one is pending;
      BLE scanning, once started, is on after every step. */
  lemma {:induction false} QueueNeverLosesRequests(steps: seq<Step>)
    ensures QueueConserves(AfterSteps(steps))
    ensures |AfterSteps(steps).accepted| ==
            |AfterSteps(steps).consumed| + if AfterSteps(steps).pending.Some? then 1 else 0
    ensures ScanningKept(AfterSteps(steps))
  {
    if steps == [] {
      assert BOOT.consumed + [] == [];
    } else {
      QueueNeverLosesRequests(steps[..|steps| - 1]);
      NextConserves(AfterSteps(steps[..|steps| - 1]), steps[|steps| - 1]);
    }
  }

  /** A sequence starts only in a pass that finds Wi-Fi ready and connected, and
      then it is the pending one; nothing but such a start adds to the history. */
  lemma StartsOnlyWhenReady(st: State, step: Step)
    ensures Next(st, step).started != st.started ==>
              && step.Passed? && Ready(st, step.net) && st.pending.Some?
              && Next(st, step).started == st.started + [st.pending.value]
              && FindById(step.all, st.pending.value.id).Some?
    ensures Next(st, step).started == st.started ==> Next(st, step).history == st.history
  {
    if st.pending.Some? {
      assert |st.started + [st.pending.value]| == |st.started| + 1;
    }
  }

  predicate Increasing(ns: seq<nat>) {
    forall i, j :: 0 <= i < j < |ns| ==> ns[i] < ns[j]
  }

  /** Pass k finds Wi-Fi ready and connected and takes this request, after c others. */
  predicate TakenIn(steps: seq<Step>, k: nat, c: nat, r: Request) {
    k < |steps| && steps[k].Passed? &&
    var before := AfterSteps(steps[..k]);
    Ready(before, steps[k].net) && before.pending == Some(r) && |before.consumed| == c
  }

  lemma ConsumedGrows(st: State, step: Step)
    ensures st.consumed <= Next(st, step).consumed
    ensures Next(st, step).started != st.started ==>
              st.pending.Some? && Next(st, step).consumed == st.consumed + [st.pending.value]
  {
  }

  lemma PushIncreasing(ns: seq<nat>, n: nat)
    requires Increasing(ns) && forall i :: 0 <= i < |ns| ==> ns[i] < n
    ensures Increasing(ns + [n])
  {
  }

  /** In every run the starts happen one each in passes that find Wi-Fi ready and
      connected, later starts in later passes, each of the request then pending;
      so what was started is, in order, a part of what was consumed. */
  lemma {:induction false} EveryStartWasReady(steps: seq<Step>) returns (ks: seq<nat>, cs: seq<nat>)
    ensures |ks| == |cs| == |AfterSteps(steps).started| && Increasing(ks) && Increasing(cs)
    ensures forall i :: 0 <= i < |ks| ==> TakenIn(steps, ks[i], cs[i], AfterSteps(steps).started[i])
    ensures forall i :: 0 <= i < |ks| ==>
              cs[i] < |AfterSteps(steps).consumed| && AfterSteps(steps).consumed[cs[i]] == AfterSteps(steps).started[i]
  {
    if steps == [] {
      ks, cs := [], [];
    } else {
      var front, last := steps[..|steps| - 1], steps[|steps| - 1];
      var before := AfterSteps(front);
      ks, cs := EveryStartWasReady(front);
      StartsOnlyWhenReady(before, last);
      ConsumedGrows(before, last);
      forall i | 0 <= i < |ks| ensures TakenIn(steps, ks[i], cs[i], before.started[i]) {
        assert front[..ks[i]] == steps[..ks[i]];
      }
      if AfterSteps(steps).started != before.started {
        PushIncreasing(ks, |front|);
        PushIncreasing(cs, |before.consumed|);
        assert TakenIn(steps, |front|, |before.consumed|, before.pending.value);
        ks, cs := ks + [|front|], cs + [|before.consumed|];
      }
    }
  }

  /** The loop does not look at the broken mark of what it starts, so a start can
      go wrong; but only a sequence that is marked broken does. */
  lemma OnlyBrokenRootsGoWrong(st: State, step: Step)
    requires step.Passed? && Sound(step.all, step.reg.blocks.Keys) && PlainIds(step.all)
    requires Next(st, step).started != st.started && Next(st, step).lastError.RunError?
    requires WentWrong(Failed(Next(st, step).lastError.error))
    ensures st.pending.Some? && FindById(step.all, st.pending.value.id).Some?
    ensures FindById(step.all, st.pending.value.id).value.broken
  {
    StartsOnlyWhenReady(st, step);
    var r := st.pending.value;
    var s := FindById(step.all, r.id).value;
    if !s.broken {
      CheckedSequence(step.reg, step.all, s, r.args, IDLE, st.history);
    }
  }

  /** A started sequence whose first node is live and of an unregistered type
      ends in "unknown block". */
  lemma UnknownFirstNodeGoesWrong(st: State, step: Step, s: Sequence)
    requires step.Passed? && Ready(st, step.net) && st.pending.Some?
    requires FindById(step.all, st.pending.value.id) == Some(s) && s.nodes != []
    requires !IsDisabled(s.nodes[0]) && UnknownType(s.nodes[0].ty, step.reg.blocks.Keys)
    ensures Next(st, step).started == st.started + [st.pending.value]
    ensures Next(st, step).lastError == RunError(UnknownBlock(s.nodes[0].ty))
  {
    var inner := Entered(s, st.pending.value.args, IDLE);
    assert EvalNode(Over(step.reg, step.all), s.nodes[0], inner, st.history) ==
           Run(Failed(UnknownBlock(s.nodes[0].ty)), st.history);
  }

  /** A sequence of one node, marked as decoding marks it. */
  function OfUnknownType(id: string, ty: string): Sequence {
    Sequence(id, "", 60000, [], [Node(ty, Obj([]), [])], true, UnknownBlockType(ty))
  }

  /** A broken root does go wrong: one load of a sequence with an unknown type
      marks it, and the loop starts it nevertheless. */
  lemma BrokenRootGoesWrong(st: State, reg: Registry, pauses: bool, net: Network, ty: string)
    requires Ready(st, net) && st.pending.Some? && UnknownType(ty, reg.blocks.Keys)
    ensures var s := OfUnknownType(st.pending.value.id, ty);
            var r := Next(st, Passed(reg, [s], pauses, net));
            && After([LoadingOnly(s)], reg.blocks.Keys) == [s] && s.broken
            && r.started == st.started + [st.pending.value]
            && r.lastError == RunError(UnknownBlock(ty))
  {
    var id := st.pending.value.id;
    OfUnknownTypeIsStored(id, ty, reg.blocks.Keys);
    assert FindById([OfUnknownType(id, ty)], id) == Some(OfUnknownType(id, ty));
    UnknownFirstNodeGoesWrong(st, Passed(reg, [OfUnknownType(id, ty)], pauses, net), OfUnknownType(id, ty));
  }

  lemma OfUnknownTypeIsStored(id: string, ty: string, known: set<string>)
    requires UnknownType(ty, known)
    ensures After([LoadingOnly(OfUnknownType(id, ty))], known) == [OfUnknownType(id, ty)]
  {
    var s := OfUnknownType(id, ty);
    LeafMark(s.nodes[0], known);
    NormalSingleton(s.nodes[0]);
    SequenceRoundTrip(s, known);
    OnlyIsStored(s, known);
  }

  // ----- requests that arrive during a run -----

  /** A run in progress: of which request, and what it comes to. */
  datatype Running = Running(r: Request, run: Run, pauses: bool)

  /** The device between two steps of a finer grain, where requests may arrive
      during a run. For each accepted request it is noted whether it did. */
  datatype Device = Device(st: State, running: Option<Running>, during: seq<bool>)

  datatype FineStep =
    | Arrives(r: Request)
    | Passes(reg: Registry, all: seq<Sequence>, pauses: bool, net: Network)
    | RunEnds(settled: bool)

  /** Taking the pending request up to the start of its run. */
  function Begin(m: Surroundings, pauses: bool, d: Device, r: Request): Device
    requires m.lookup.Some?
  {
    var taken := d.st.(pending := None, consumed := d.st.consumed + [r]);
    match m.lookup.value(r.id)
    case None => d.(st := taken.(lastError := NoSuchSequence(r.id)))
    case Some(s) =>
      d.(st := taken.(lastError := NoError, scanning := taken.scanning && !(taken.bleStarted && pauses)),
         running := Some(Running(r, EvalSequence(m, s, r.args, IDLE, d.st.history), pauses)))
  }

  /** The end of a run clears the arguments, whosever they are by now. */
  function Finish(d: Device, settled: bool): Device
    requires d.running.Some?
  {
    var now := d.running.value;
    var st := d.st.(pending := match d.st.pending case None => None case Some(r) => Some(Request(r.id, Null)));
    d.(st := Ended(now.pauses, st, now.r, now.run, settled), running := None)
  }

  function FineNext(d: Device, step: FineStep): Device {
    match step
    case Arrives(r) =>
      if d.st.pending.Some? then d else d.(st := Enqueue(d.st, r), during := d.during + [d.running.Some?])
    case Passes(reg, all, pauses, net) =>
      if d.running.Some? then d
      else if Ready(d.st, net) && d.st.pending.Some? then Begin(Over(reg, all), pauses, d, d.st.pending.value)
      else d.(st := Pass(Over(reg, all), pauses, d.st, net))
    case RunEnds(settled) => if d.running.Some? then Finish(d, settled) else d
  }

  function AfterFineSteps(steps: seq<FineStep>): Device {
    if steps == [] then Device(BOOT, None, []) else FineNext(AfterFineSteps(steps[..|steps| - 1]), steps[|steps| - 1])
  }

  /** If nothing arrives during the run, its two halves come to the one pass. */
  lemma HalvesArePass(d: Device, reg: Registry, all: seq<Sequence>, pauses: bool, net: Network)
    requires d.running.None?
    ensures FineNext(FineNext(d, Passes(reg, all, pauses, net)), RunEnds(net.settled)) ==
            d.(st := Pass(Over(reg, all), pauses, d.st, net))
  {
  }

  /** A request as it comes out of the queue. */
  function Delivered(r: Request, during: bool): Request {
    if during then Request(r.id, Null) else r
  }

  /** What is pending is the next accepted request, as it will come out, but for
      the arguments that a run in progress is still to clear. */
  ghost predicate PendingIsNext(d: Device) {
    var k := |d.st.consumed|;
    d.st.pending.Some? ==>
      && k < |d.during| == |d.st.accepted|
      && (d.running.Some? ==> d.during[k])
      && d.st.pending.value == Delivered(d.st.accepted[k], d.during[k] && d.running.None?)
  }

  ghost predicate ArgsAccounted(d: Device) {
    && |d.during| == |d.st.accepted| == |d.st.consumed| + (if d.st.pending.Some? then 1 else 0)
    && (forall i :: 0 <= i < |d.st.consumed| ==> d.st.consumed[i] == Delivered(d.st.accepted[i], d.during[i]))
    && PendingIsNext(d)
  }

  lemma BeginAccounts(m: Surroundings, pauses: bool, d: Device, r: Request)
    requires ArgsAccounted(d) && d.running.None? && d.st.pending == Some(r) && m.lookup.Some?
    ensures ArgsAccounted(Begin(m, pauses, d, r))
  {
    var d' := Begin(m, pauses, d, r);
    assert d'.st.consumed == d.st.consumed + [r] && d'.st.accepted == d.st.accepted && d'.st.pending == None;
  }

  lemma FinishAccounts(d: Device, settled: bool)
    requires ArgsAccounted(d) && d.running.Some?
    ensures ArgsAccounted(Finish(d, settled))
  {
  }

  lemma ArrivalAccounts(d: Device, r: Request)
    requires ArgsAccounted(d)
    ensures ArgsAccounted(FineNext(d, Arrives(r)))
  {
  }

  lemma FineNextAccounts(d: Device, step: FineStep)
    requires ArgsAccounted(d)
    ensures ArgsAccounted(FineNext(d, step))
  {
    match step
    case Arrives(r) => ArrivalAccounts(d, r);
    case Passes(reg, all, pauses, net) =>
      if d.running.None? && Ready(d.st, net) && d.st.pending.Some? {
        BeginAccounts(Over(reg, all), pauses, d, d.st.pending.value);
      }
    case RunEnds(settled) =>
      if d.running.Some? { FinishAccounts(d, settled); }
  }

  /** In every run of the finer machine the requests come out in the order they
      were accepted in, each with its own id, and with its own arguments if and
      only if it did not arrive during a run or has none. */
  lemma {:induction false} ArgsSurviveIff(steps: seq<FineStep>)
    ensures ArgsAccounted(AfterFineSteps(steps))
    ensures var d := AfterFineSteps(steps);
            forall i :: 0 <= i < |d.st.consumed| ==>
              && d.st.consumed[i].id == d.st.accepted[i].id
              && (d.st.consumed[i] == d.st.accepted[i] <==> !d.during[i] || d.st.accepted[i].args == Null)
  {
    if steps != [] {
      ArgsSurviveIff(steps[..|steps| - 1]);
      FineNextAccounts(AfterFineSteps(steps[..|steps| - 1]), steps[|steps| - 1]);
    }
  }

  /** A request that arrives during a run is taken after it without its arguments. */
  lemma RequestDuringRunLosesArgs(d: Device, r: Request, reg: Registry, all: seq<Sequence>, pauses: bool, net: Network)
    requires d.running.Some? && d.st.pending.None? && d.st.inRuntime && net.connected
    ensures var arrived := FineNext(d, Arrives(r));
            var over := FineNext(arrived, RunEnds(true));
            && arrived.st.accepted == d.st.accepted + [r]
            && FineNext(over, Passes(reg, all, pauses, net)).st.consumed == d.st.consumed + [Request(r.id, Null)]
  {
  }
}
