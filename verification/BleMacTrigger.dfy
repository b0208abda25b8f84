/** Firing on BLE hits, at most once per cooldown, on a 32-bit millisecond clock
    that wraps (src/adapters/triggers/BleMacTrigger.cpp). */
module BleMacTrigger {
  import opened JsonTree

  datatype Active = Active(mac: string, sequenceId: string, cooldownMs: uint32, lastFireMs: uint32, args: Json)

  const WRAP := 0x1_0000_0000

  /** `millis()` at a true time. */
  function Clock(t: nat): uint32 {
    t % WRAP
  }

  /** Subtraction of two uint32_t. */
  function Elapsed(now: uint32, last: uint32): uint32 {
    if now >= last then now - last else now - last + WRAP
  }

  predicate Due(a: Active, mac: string, now: uint32) {
    a.mac == mac && Elapsed(now, a.lastFireMs) >= a.cooldownMs
  }

  function Hit(a: Active, mac: string, now: uint32): Active {
    if Due(a, mac, now) then a.(lastFireMs := now) else a
  }

  function HitAll(active: map<string, Active>, mac: string, now: uint32): map<string, Active> {
    map id | id in active :: Hit(active[id], mac, now)
  }

  function NewActive(mac: string, params: Json, sequenceId: string, args: Json): Active {
    Active(Lower(mac), sequenceId, UnsignedOr(Get(params, "cooldown_ms"), 60000), 0, args)
  }

  class BleMacTrigger {
    var active: map<string, Active>

    constructor ()
      ensures active == map[]
    {
      active := map[];
    }

    method Bind(id: string, params: Json, sequenceId: string, defaultArgs: Json)
      modifies this
      ensures active == match AsText(Get(params, "mac"))
                        case None => old(active)
                        case Some(mac) => old(active)[id := NewActive(mac, params, sequenceId, defaultArgs)]
    {
      var mac := AsText(Get(params, "mac"));
      if mac.None? {
        return;
      }
      active := active[id := NewActive(mac.value, params, sequenceId, defaultArgs)];
    }

    method Unbind(id: string)
      modifies this
      ensures active == old(active) - {id}
    {
      active := active - {id};
    }

    /** Every due binding fires once and starts its cooldown anew. */
    method OnHit(macLower: string, now: uint32) returns (fired: seq<string>)
      modifies this
      ensures active == HitAll(old(active), macLower, now)
      ensures forall id :: id in fired <==> id in old(active) && Due(old(active)[id], macLower, now)
      ensures forall i, j :: 0 <= i < j < |fired| ==> fired[i] != fired[j]
    {
      fired := [];
      var todo := active.Keys;
      while todo != {}
        invariant todo <= old(active.Keys) && active.Keys == old(active.Keys)
        invariant forall id :: id in active ==>
                    active[id] == if id in todo then old(active)[id] else Hit(old(active)[id], macLower, now)
        invariant forall id :: id in fired <==> id in old(active) && id !in todo && Due(old(active)[id], macLower, now)
        invariant forall i, j :: 0 <= i < j < |fired| ==> fired[i] != fired[j]
        decreases |todo|
      {
        var id :| id in todo;
        todo := todo - {id};
        var a := active[id];
        if a.mac != macLower {
          continue;
        }
        if Elapsed(now, a.lastFireMs) < a.cooldownMs {
          continue;
        }
        active := active[id := a.(lastFireMs := now)];
        fired := fired + [id];
      }
    }
  }

  /** A new binding has the MAC in lower case, the given cooldown or a minute,
      and no fire behind it. */
  lemma NewActiveHolds(mac: string, params: Json, sequenceId: string, args: Json)
    ensures var a, c := NewActive(mac, params, sequenceId, args), Get(params, "cooldown_ms");
            && |a.mac| == |mac|
            && (forall i :: 0 <= i < |mac| ==>
                  if 'A' <= mac[i] <= 'Z' then a.mac[i] as int == mac[i] as int + 32 else a.mac[i] == mac[i])
            && a.cooldownMs == (if c.Int? && 0 <= c.n < 0x1_0000_0000 then c.n else 60000)
            && a.lastFireMs == 0 && a.sequenceId == sequenceId && a.args == args
  {
  }

  // ----- one binding over a series of hits -----

  /** A hit of a device at a true time. */
  datatype Seen = Seen(mac: string, t: nat)

  predicate InTimeOrder(hits: seq<Seen>) {
    forall i, j :: 0 <= i < j < |hits| ==> hits[i].t <= hits[j].t
  }

  function After(a: Active, hits: seq<Seen>): Active {
    if hits == [] then a
    else Hit(After(a, hits[..|hits| - 1]), hits[|hits| - 1].mac, Clock(hits[|hits| - 1].t))
  }

  /** The true times at which the binding fires. */
  function Fires(a: Active, hits: seq<Seen>): seq<nat> {
    if hits == [] then []
    else
      var before, last := After(a, hits[..|hits| - 1]), hits[|hits| - 1];
      Fires(a, hits[..|hits| - 1]) + if Due(before, last.mac, Clock(last.t)) then [last.t] else []
  }

  function TableAfter(active: map<string, Active>, hits: seq<Seen>): map<string, Active> {
    if hits == [] then active
    else HitAll(TableAfter(active, hits[..|hits| - 1]), hits[|hits| - 1].mac, Clock(hits[|hits| - 1].t))
  }

  /** In the table each binding goes its own way. */
  lemma {:induction false} TableIsPointwise(active: map<string, Active>, hits: seq<Seen>, id: string)
    requires id in active
    ensures id in TableAfter(active, hits) && TableAfter(active, hits)[id] == After(active[id], hits)
  {
    if hits != [] { TableIsPointwise(active, hits[..|hits| - 1], id); }
  }

  lemma ClockUnderestimates(t: nat, last: nat)
    ensures Elapsed(Clock(t), Clock(last)) == (t - last) % WRAP
    ensures last <= t ==> (t - last) % WRAP <= t - last
  {
    var q, r := t / WRAP, last / WRAP;
    assert t - last == (q - r) * WRAP + (Clock(t) - Clock(last));
  }

  lemma {:induction false} OnlyClockMoves(a: Active, hits: seq<Seen>)
    ensures After(a, hits) == a.(lastFireMs := After(a, hits).lastFireMs)
  {
    if hits != [] { OnlyClockMoves(a, hits[..|hits| - 1]); }
  }

  lemma FrontInTimeOrder(hits: seq<Seen>)
    requires hits != [] && InTimeOrder(hits)
    ensures var front := hits[..|hits| - 1];
            InTimeOrder(front) && (front != [] ==> front[|front| - 1].t <= hits[|hits| - 1].t)
  {
    var front := hits[..|hits| - 1];
    forall i, j | 0 <= i < j < |front| ensures front[i].t <= front[j].t {
      assert front[i] == hits[i] && front[j] == hits[j];
    }
  }

  lemma {:induction false} LastFireIsRemembered(a: Active, hits: seq<Seen>)
    requires InTimeOrder(hits) && Fires(a, hits) != []
    ensures hits != []
    ensures var fires := Fires(a, hits);
            fires[|fires| - 1] <= hits[|hits| - 1].t && After(a, hits).lastFireMs == Clock(fires[|fires| - 1])
  {
    FrontInTimeOrder(hits);
    var front, last := hits[..|hits| - 1], hits[|hits| - 1];
    if !Due(After(a, front), last.mac, Clock(last.t)) {
      assert Fires(a, hits) == Fires(a, front);
      LastFireIsRemembered(a, front);
    }
  }

  /** Any two times of the series are at least d apart. */
  predicate Spaced(times: seq<nat>, d: nat) {
    forall i, j :: 0 <= i < j < |times| ==> times[j] >= times[i] + d
  }

  /** While it is not bound anew, any two fires are at least a cooldown of true
      time apart, across any number of clock wraps. */
  lemma {:induction false} FiresAreSpaced(a: Active, hits: seq<Seen>)
    requires InTimeOrder(hits)
    ensures Spaced(Fires(a, hits), a.cooldownMs)
  {
    if hits != [] {
      var front, last := hits[..|hits| - 1], hits[|hits| - 1];
      var fires := Fires(a, front);
      FrontInTimeOrder(hits);
      FiresAreSpaced(a, front);
      OnlyClockMoves(a, front);
      if fires != [] && Fires(a, hits) != fires {
        LastFireIsRemembered(a, front);
        ClockUnderestimates(last.t, fires[|fires| - 1]);
        SpacedPush(fires, a.cooldownMs, last.t);
      }
    }
  }

  lemma SpacedPush(times: seq<nat>, d: nat, t: nat)
    requires times != [] && Spaced(times, d) && t >= times[|times| - 1] + d
    ensures Spaced(times + [t], d)
  {
    forall i | 0 <= i < |times| ensures t >= times[i] + d {
      if i < |times| - 1 { assert times[|times| - 1] >= times[i] + d; }
    }
  }

  /** The times that lie in a window, in order. */
  function Within(times: seq<nat>, start: nat, end: nat): seq<nat> {
    if times == [] then []
    else
      Within(times[..|times| - 1], start, end)
      + if start <= times[|times| - 1] <= end then [times[|times| - 1]] else []
  }

  lemma {:induction false} WithinIsSpaced(times: seq<nat>, start: nat, end: nat, d: nat)
    requires Spaced(times, d)
    ensures Spaced(Within(times, start, end), d)
    ensures forall t :: t in Within(times, start, end) ==> t in times && start <= t <= end
  {
    if times != [] {
      var front, last := times[..|times| - 1], times[|times| - 1];
      WithinIsSpaced(front, start, end, d);
      var kept := Within(front, start, end);
      forall i | 0 <= i < |kept| ensures last >= kept[i] + d {
        assert kept[i] in front;
      }
    }
  }

  lemma {:induction false} SpacedSpan(times: seq<nat>, d: nat)
    requires times != [] && Spaced(times, d)
    ensures times[|times| - 1] >= times[0] + (|times| - 1) * d
  {
    if |times| > 1 {
      var front := times[..|times| - 1];
      SpacedSpan(front, d);
      assert (|times| - 1) * d == (|front| - 1) * d + d;
    }
  }

  lemma SpacedFits(times: seq<nat>, d: nat, start: nat, length: nat)
    requires times != [] && Spaced(times, d)
    requires forall t :: t in times ==> start <= t <= start + length
    ensures (|times| - 1) * d <= length
  {
    SpacedSpan(times, d);
    assert times[0] in times && times[|times| - 1] in times;
  }

  /** In a window of the given length there are at most length / cooldown + 1 fires. */
  lemma FiresInWindow(a: Active, hits: seq<Seen>, start: nat, length: nat)
    requires InTimeOrder(hits) && a.cooldownMs > 0
    ensures |Within(Fires(a, hits), start, start + length)| <= length / a.cooldownMs + 1
  {
    var kept := Within(Fires(a, hits), start, start + length);
    FiresAreSpaced(a, hits);
    WithinIsSpaced(Fires(a, hits), start, start + length, a.cooldownMs);
    SpacedCount(kept, a.cooldownMs, start, length);
  }

  lemma SpacedCount(times: seq<nat>, d: nat, start: nat, length: nat)
    requires d > 0 && Spaced(times, d)
    requires forall t :: t in times ==> start <= t <= start + length
    ensures |times| <= length / d + 1
  {
    if times != [] {
      SpacedFits(times, d, start, length);
      QuotientBound(|times| - 1, d, length);
    }
  }

  lemma ProductOrder(x: nat, y: nat, d: nat)
    requires x <= y
    ensures x * d <= y * d
  {
  }

  lemma QuotientBound(k: nat, d: nat, length: nat)
    requires d > 0 && k * d <= length
    ensures k <= length / d
  {
    var q := length / d;
    assert (q + 1) * d == q * d + d > length;
    if k > q {
      ProductOrder(q + 1, k, d);
      assert false;
    }
  }

  // ----- exactly which hits fire -----

  /** As bind leaves it. */
  predicate Unfired(a: Active) {
    a.lastFireMs == 0
  }

  /** The last fire; while there was none, what the binding started with. */
  function LastFire(a: Active, hits: seq<Seen>): nat {
    var fires := Fires(a, hits);
    if fires == [] then a.lastFireMs else fires[|fires| - 1]
  }

  lemma {:induction false} NothingFiredNothingChanged(a: Active, hits: seq<Seen>)
    requires Fires(a, hits) == []
    ensures After(a, hits) == a
  {
    if hits != [] { NothingFiredNothingChanged(a, hits[..|hits| - 1]); }
  }

  lemma ClockFits(x: uint32)
    ensures Clock(x) == x
  {
  }

  lemma LastFireIsOnClock(a: Active, hits: seq<Seen>)
    requires InTimeOrder(hits)
    ensures After(a, hits).lastFireMs == Clock(LastFire(a, hits))
  {
    if Fires(a, hits) == [] {
      NothingFiredNothingChanged(a, hits);
      ClockFits(a.lastFireMs);
    } else {
      LastFireIsRemembered(a, hits);
    }
  }

  /** After any series of hits on any binding, one more hit fires if and only if
      it is of the bound device and the true time since the last fire, or, while
      there was none, since what the binding started with, reaches the cooldown
      modulo 2^32. As bind leaves a binding, it starts with the start of the clock. */
  lemma HitFiresIff(a: Active, hits: seq<Seen>, hit: Seen)
    requires InTimeOrder(hits + [hit])
    ensures var fires := hit.mac == a.mac && (hit.t - LastFire(a, hits)) % 0x1_0000_0000 >= a.cooldownMs;
            Fires(a, hits + [hit]) == Fires(a, hits) + if fires then [hit.t] else []
  {
    var all := hits + [hit];
    assert all[..|all| - 1] == hits && all[|hits|] == hit;
    FrontInTimeOrder(all);
    LastFireIsOnClock(a, hits);
    OnlyClockMoves(a, hits);
    ClockUnderestimates(hit.t, LastFire(a, hits));
  }

  lemma FirstHit(a: Active, t: nat)
    requires Unfired(a)
    ensures Fires(a, [Seen(a.mac, t)]) == if Clock(t) >= a.cooldownMs then [t] else []
  {
    var hits := [Seen(a.mac, t)];
    assert hits[..|hits| - 1] == [];
    assert After(a, []) == a && Fires(a, []) == [];
    assert Elapsed(Clock(t), 0) == Clock(t);
  }

  /** A binding that has never fired ignores its device for one cooldown after
      the clock starts, and again after each wrap of the clock, although there is
      no fire to cool down from. */
  lemma EarlyHitIsSuppressed(a: Active, t: nat)
    requires Unfired(a) && Clock(t) < a.cooldownMs
    ensures Fires(a, [Seen(a.mac, t)]) == []
  {
    FirstHit(a, t);
  }

  /** With the default cooldown a hit one second after the start is ignored. */
  lemma HitAfterOneSecond(mac: string, sequenceId: string, args: Json)
    ensures var a := NewActive(mac, Null, sequenceId, args);
            a.cooldownMs == 60000 && Fires(a, [Seen(a.mac, 1000)]) == []
  {
    EarlyHitIsSuppressed(NewActive(mac, Null, sequenceId, args), 1000);
  }

  /** A hit one whole wrap after a fire is suppressed, although the cooldown is
      long over. */
  lemma HitAfterWholeWrap(a: Active, t: nat)
    requires Unfired(a) && 0 < a.cooldownMs <= Clock(t)
    ensures Fires(a, [Seen(a.mac, t), Seen(a.mac, t + WRAP)]) == [t]
  {
    var first, second := Seen(a.mac, t), Seen(a.mac, t + WRAP);
    FirstHit(a, t);
    assert [first] + [second] == [first, second];
    HitFiresIff(a, [first], second);
  }

  // ----- binding anew -----

  /** When the clock last read zero. */
  function CycleStart(t: nat): nat {
    t - Clock(t)
  }

  lemma LaterCycle(b: nat, t: nat)
    requires b <= t
    ensures CycleStart(b) <= CycleStart(t) && CycleStart(t) + Clock(t) == t
  {
    var q, r := b / WRAP, t / WRAP;
    assert CycleStart(b) == q * WRAP && CycleStart(t) == r * WRAP;
    QuotientOrder(b, t);
    ProductOrder(q, r, WRAP);
  }

  lemma QuotientOrder(b: nat, t: nat)
    requires b <= t
    ensures b / WRAP <= t / WRAP
  {
  }

  lemma ClockInCycle(b: nat, c: nat)
    requires c < WRAP
    ensures Clock(CycleStart(b) + c) == c
  {
    assert CycleStart(b) == (b / WRAP) * WRAP;
  }

  /** Hits in time order, none before time b. */
  predicate HitsFrom(hits: seq<Seen>, b: nat) {
    InTimeOrder(hits) && forall i :: 0 <= i < |hits| ==> hits[i].t >= b
  }

  lemma {:induction false} FirstFireReadsCooldown(a: Active, hits: seq<Seen>, b: nat)
    requires Unfired(a) && HitsFrom(hits, b) && Fires(a, hits) != []
    ensures Fires(a, hits)[0] >= b && Clock(Fires(a, hits)[0]) >= a.cooldownMs
  {
    var front, last := hits[..|hits| - 1], hits[|hits| - 1];
    FrontInTimeOrder(hits);
    if Fires(a, front) == [] {
      NothingFiredNothingChanged(a, front);
    } else {
      FirstFireReadsCooldown(a, front, b);
    }
  }

  lemma SpacedAfter(last: nat, times: seq<nat>, d: nat)
    requires Spaced(times, d) && (times != [] ==> times[0] >= last + d)
    ensures Spaced([last] + times, d)
  {
    var all := [last] + times;
    forall i, j | 0 <= i < j < |all| ensures all[j] >= all[i] + d {
      if i > 0 {
        assert all[i] == times[i - 1] && all[j] == times[j - 1];
      } else if j > 1 {
        assert times[j - 1] >= times[0] + d;
      }
    }
  }

  /** A binding is bound anew at time b, which forgets its last fire. Whatever
      hits come then, the fires after b keep their distance from that last one,
      if and only if b is a whole cooldown later, or the clock has started over
      in between. */
  lemma RebindKeepsSpacingIff(a: Active, last: nat, b: nat)
    requires Unfired(a) && last <= b
    ensures (forall hits :: HitsFrom(hits, b) ==> Spaced([last] + Fires(a, hits), a.cooldownMs)) <==>
            last + a.cooldownMs <= b || last <= CycleStart(b)
  {
    if last + a.cooldownMs <= b || last <= CycleStart(b) {
      forall hits | HitsFrom(hits, b) ensures Spaced([last] + Fires(a, hits), a.cooldownMs) {
        FiresAreSpaced(a, hits);
        if Fires(a, hits) != [] {
          FirstFireReadsCooldown(a, hits, b);
          LaterCycle(b, Fires(a, hits)[0]);
        }
        SpacedAfter(last, Fires(a, hits), a.cooldownMs);
      }
    } else {
      var t := FireTooEarly(a, last, b);
      var hits := [Seen(a.mac, t)];
      var all := [last] + Fires(a, hits);
      assert HitsFrom(hits, b) && all[0] == last && all[1] == t;
      assert !Spaced(all, a.cooldownMs);
    }
  }

  lemma FireTooEarly(a: Active, last: nat, b: nat) returns (t: nat)
    requires Unfired(a) && CycleStart(b) < last <= b < last + a.cooldownMs
    ensures b <= t < last + a.cooldownMs && Fires(a, [Seen(a.mac, t)]) == [t]
  {
    t := if Clock(b) >= a.cooldownMs then b else CycleStart(b) + a.cooldownMs;
    ClockInCycle(b, a.cooldownMs);
    FirstHit(a, t);
  }
}
