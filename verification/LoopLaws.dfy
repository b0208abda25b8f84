/** What the main loop does, situation by situation. */
module LoopLaws {
  import opened JsonTree
  import opened Sequences
  import opened Evaluator
  import opened MainLoop
  import opened CheckedPrograms
  import CheckLaws

  // ----- one step -----

  /** A request is kept, with its id and arguments, when none is pending, and
      otherwise changes nothing. */
  lemma RequestIsKept(st: State, r: Request)
    ensures Next(st, Requested(r)) ==
            if st.pending == None then st.(pending := Some(r), accepted := st.accepted + [r]) else st
  {
  }

  /** Outside the runtime mode a pass changes nothing, nor does a ready one
      without a request. */
  lemma NothingToDo(st: State, reg: Registry, all: seq<Sequence>, pauses: bool, net: Network)
    requires !st.inRuntime || (st.wifiReady && net.connected && st.pending == None)
    ensures Next(st, Passed(reg, all, pauses, net)) == st
  {
  }

  /** A pass that finds the network gone clears the readiness and nothing else. */
  lemma LostConnectionIsNoticed(st: State, reg: Registry, all: seq<Sequence>, pauses: bool, net: Network)
    requires st.inRuntime && st.wifiReady && !net.connected
    ensures Next(st, Passed(reg, all, pauses, net)) == st.(wifiReady := false)
  {
  }

  /** Without readiness a pass makes the attempt that is due. Joining makes Wi-Fi
      ready, and starts scanning the first time if a binding needs it; giving up
      leaves the runtime mode; else nothing changes. The request stays. */
  lemma AttemptDecides(st: State, reg: Registry, all: seq<Sequence>, pauses: bool, net: Network)
    requires st.inRuntime && !st.wifiReady
    ensures var r := Next(st, Passed(reg, all, pauses, net));
            && (net.attempt == NotDue || net.attempt == NotJoined ==> r == st)
            && (net.attempt == GaveUp ==> r == st.(inRuntime := false))
            && (forall n :: net.attempt == Joined(n) ==>
                  r == if !st.bleStarted && n > 0 then st.(wifiReady := true, bleStarted := true, scanning := true)
                       else st.(wifiReady := true))
  {
  }

  /** After the network was lost, the next pass that joins makes Wi-Fi ready again. */
  lemma LostThenJoined(
    st: State, reg: Registry, all: seq<Sequence>, pauses: bool, lost: Network,
    reg': Registry, all': seq<Sequence>, pauses': bool, back: Network)
    requires st.inRuntime && st.wifiReady && !lost.connected && back.attempt.Joined?
    ensures var after := Next(Next(st, Passed(reg, all, pauses, lost)), Passed(reg', all', pauses', back));
            && after.wifiReady && after.inRuntime
            && after.pending == st.pending && after.history == st.history && after.consumed == st.consumed
  {
    LostConnectionIsNoticed(st, reg, all, pauses, lost);
    AttemptDecides(st.(wifiReady := false), reg', all', pauses', back);
  }

  /** A request for a sequence that is not stored is used up, and its id reported. */
  lemma UnknownIsReported(st: State, r: Request, reg: Registry, all: seq<Sequence>, pauses: bool, net: Network)
    requires st.inRuntime && st.wifiReady && net.connected && st.pending == Some(r)
    requires forall s :: s in all ==> s.id != r.id
    ensures Next(st, Passed(reg, all, pauses, net)) ==
            st.(pending := None, consumed := st.consumed + [r], lastError := NoSuchSequence(r.id))
  {
    assert FindById(all, r.id) == None;
  }

  /** A request for a stored sequence runs the first one with the id, with the
      request's arguments, from no frame and with nothing in flight. The run's
      history is kept, its error is reported or none, scanning is on again if it
      was started, and Wi-Fi stays ready if the network is still in place. */
  lemma StoredSequenceRuns(
    st: State, r: Request, s: Sequence, front: seq<Sequence>, rest: seq<Sequence>,
    reg: Registry, pauses: bool, net: Network)
    requires st.inRuntime && st.wifiReady && net.connected && st.pending == Some(r)
    requires s.id == r.id && forall x :: x in front ==> x.id != r.id
    ensures var all := front + [s] + rest;
            var run := EvalSequence(
              Surroundings(reg, Some(LookupIn(all))), s, r.args, Activation(None, 0, {}), st.history);
            Next(st, Passed(reg, all, pauses, net)) ==
            st.(pending := None, consumed := st.consumed + [r], started := st.started + [r],
                history := run.history,
                lastError := match run.result case Ok => NoError case Failed(e) => RunError(e),
                scanning := st.scanning || (st.bleStarted && pauses),
                wifiReady := net.settled)
  {
    CheckLaws.FirstIsFound(front, s, rest);
  }

  // ----- whole runs -----

  /** The step joins the network, in a state that is not ready. */
  predicate Joins(st: State, step: Step) {
    step.Passed? && st.inRuntime && !st.wifiReady && step.net.attempt.Joined?
  }

  predicate IsStored(all: seq<Sequence>, id: string) {
    exists s :: s in all && s.id == id
  }

  /** The step finds Wi-Fi ready and the network gone, or runs a stored sequence
      after which the network is not in place. */
  predicate Loses(st: State, step: Step) {
    step.Passed? && st.inRuntime && st.wifiReady
    && (!step.net.connected
        || (st.pending.Some? && IsStored(step.all, st.pending.value.id) && !step.net.settled))
  }

  lemma ConsumeReady(m: Surroundings, pauses: bool, st: State, r: Request, settled: bool)
    requires m.lookup.Some?
    ensures Consume(m, pauses, st, r, settled).wifiReady == if m.lookup.value(r.id).Some? then settled else st.wifiReady
  {
  }

  /** After a step Wi-Fi is ready if and only if the step joined, or it was ready
      before and the step did not lose it. */
  lemma ReadyAfterStep(st: State, step: Step)
    ensures Next(st, step).wifiReady <==> Joins(st, step) || (st.wifiReady && !Loses(st, step))
  {
    if step.Passed? && st.inRuntime && st.wifiReady && step.net.connected && st.pending.Some? {
      ConsumeReady(Over(step.reg, step.all), step.pauses, st, st.pending.value, step.net.settled);
      assert FindById(step.all, st.pending.value.id).Some? <==> IsStored(step.all, st.pending.value.id);
    }
  }

  predicate JoinsAt(steps: seq<Step>, k: nat) {
    k < |steps| && Joins(AfterSteps(steps[..k]), steps[k])
  }

  predicate LosesAt(steps: seq<Step>, k: nat) {
    k < |steps| && Loses(AfterSteps(steps[..k]), steps[k])
  }

  /** Step k joined, and no later one lost the network. */
  predicate HeldSince(steps: seq<Step>, k: nat) {
    JoinsAt(steps, k) && forall j :: k < j < |steps| ==> !LosesAt(steps, j)
  }

  /** After any steps Wi-Fi is ready if and only if one of them joined and none
      since then lost the network. */
  lemma {:induction false} ReadyIff(steps: seq<Step>)
    ensures AfterSteps(steps).wifiReady <==> exists k: nat :: HeldSince(steps, k)
  {
    if steps != [] {
      var front, last := steps[..|steps| - 1], |steps| - 1;
      ReadyIff(front);
      ReadyAfterStep(AfterSteps(front), steps[last]);
      assert AfterSteps(steps) == Next(AfterSteps(front), steps[last]);
      HeldOneMore(steps);
    }
  }

  lemma SameInFront(steps: seq<Step>, k: nat)
    requires k < |steps| - 1
    ensures JoinsAt(steps, k) == JoinsAt(steps[..|steps| - 1], k)
    ensures LosesAt(steps, k) == LosesAt(steps[..|steps| - 1], k)
  {
    assert steps[..|steps| - 1][..k] == steps[..k];
  }

  lemma HeldInFront(steps: seq<Step>, k: nat)
    requires k < |steps| - 1
    ensures HeldSince(steps, k) <==> HeldSince(steps[..|steps| - 1], k) && !LosesAt(steps, |steps| - 1)
  {
    var front, last := steps[..|steps| - 1], |steps| - 1;
    SameInFront(steps, k);
    if HeldSince(steps, k) {
      forall j | k < j < last ensures !LosesAt(front, j) { SameInFront(steps, j); }
    }
    if HeldSince(front, k) && !LosesAt(steps, last) {
      forall j | k < j < |steps| ensures !LosesAt(steps, j) {
        if j < last { SameInFront(steps, j); }
      }
    }
  }

  lemma HeldOneMore(steps: seq<Step>)
    requires steps != []
    ensures var front, last := steps[..|steps| - 1], |steps| - 1;
            (exists k: nat :: HeldSince(steps, k)) <==>
            JoinsAt(steps, last) || ((exists k: nat :: HeldSince(front, k)) && !LosesAt(steps, last))
  {
    var front, last := steps[..|steps| - 1], |steps| - 1;
    assert JoinsAt(steps, last) <==> HeldSince(steps, last);
    forall k: nat | k < last ensures HeldSince(steps, k) <==> HeldSince(front, k) && !LosesAt(steps, last) {
      HeldInFront(steps, k);
    }
    assert forall k: nat :: HeldSince(front, k) ==> k < last;
    assert forall k: nat :: HeldSince(steps, k) ==> k <= last;
  }

  // ----- during a run -----

  /** While a run is in progress scanning is off if a trigger asks for that, and
      as it was otherwise; passes do nothing. */
  lemma ScanningDuringRun(d: Device, reg: Registry, all: seq<Sequence>, pauses: bool, net: Network)
    requires d.running == None && FineNext(d, Passes(reg, all, pauses, net)).running != None
    ensures var r := FineNext(d, Passes(reg, all, pauses, net));
            && r.st.scanning == (if d.st.bleStarted && pauses then false else d.st.scanning)
            && r.st.pending == None && r.st.lastError == NoError && r.st.history == d.st.history
            && forall reg', all', pauses', net' :: FineNext(r, Passes(reg', all', pauses', net')) == r
  {
  }
}
