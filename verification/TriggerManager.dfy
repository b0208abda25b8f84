/** Keeping the binding tables of the triggers in step with a list of bindings
    (src/core/TriggerManager.cpp). */
module TriggerManager {
  import opened JsonTree
  import opened Sequences

  /** What a trigger remembers about one binding. */
  datatype Bound = Bound(params: Json, sequenceId: string, args: Json)

  /** A trigger type: which parameters it accepts, and whether it pauses scanning. */
  datatype Kind = Kind(accepts: Json -> bool, pauses: bool)

  type Kinds = map<string, Kind>

  type Tables = map<string, map<string, Bound>>

  /** All triggers' tables, which trigger type each active id went to, and the flag. */
  datatype State = State(tables: Tables, active: map<string, string>, pauses: bool)

  // ----- the specification -----

  function EmptyTables(kinds: Kinds): Tables {
    map ty | ty in kinds :: map[]
  }

  function Start(kinds: Kinds): State {
    State(EmptyTables(kinds), map[], false)
  }

  /** Enabled, and of a registered type. */
  predicate Live(kinds: Kinds, b: TriggerBinding) {
    b.enabled && b.ty in kinds
  }

  function Entry(b: TriggerBinding): Bound {
    Bound(b.params, b.sequenceId, b.args)
  }

  function Unbound(table: map<string, Bound>, ty: string, active: map<string, string>): map<string, Bound> {
    map id | id in table && !(id in active && active[id] == ty) :: table[id]
  }

  function Cleared(st: State): State {
    State(map ty | ty in st.tables :: Unbound(st.tables[ty], ty, st.active), map[], false)
  }

  function BindOne(kinds: Kinds, st: State, b: TriggerBinding): State
    requires st.tables.Keys == kinds.Keys
  {
    if !Live(kinds, b) then st
    else
      State(
        if kinds[b.ty].accepts(b.params) then st.tables[b.ty := st.tables[b.ty][b.id := Entry(b)]] else st.tables,
        st.active[b.id := b.ty],
        st.pauses || kinds[b.ty].pauses)
  }

  function BindAll(kinds: Kinds, st: State, bs: seq<TriggerBinding>): (r: State)
    requires st.tables.Keys == kinds.Keys
    ensures r.tables.Keys == kinds.Keys
  {
    if bs == [] then st else BindOne(kinds, BindAll(kinds, st, bs[..|bs| - 1]), bs[|bs| - 1])
  }

  function Apply(kinds: Kinds, st: State, bs: seq<TriggerBinding>): (r: State)
    requires st.tables.Keys == kinds.Keys
    ensures r.tables.Keys == kinds.Keys
  {
    BindAll(kinds, Cleared(st), bs)
  }

  // ----- the objects -----

  class Trigger {
    const ty: string
    const kind: Kind
    var table: map<string, Bound>

    constructor (ty: string, kind: Kind)
      ensures this.ty == ty && this.kind == kind && table == map[]
    {
      this.ty, this.kind, table := ty, kind, map[];
    }

    method Bind(id: string, b: Bound)
      modifies this
      ensures table == if kind.accepts(b.params) then old(table)[id := b] else old(table)
    {
      if !kind.accepts(b.params) {
        return;
      }
      table := table[id := b];
    }

    method Unbind(id: string)
      modifies this
      ensures table == old(table) - {id}
    {
      table := table - {id};
    }
  }

  class TriggerManager {
    /** The registered triggers, each under its own type. */
    const reg: map<string, Trigger>
    var active: map<string, Trigger>
    var anyPauses: bool

    ghost predicate Valid()
      reads this
    {
      && (forall ty :: ty in reg ==> reg[ty].ty == ty)
      && (forall id :: id in active ==> active[id].ty in reg && reg[active[id].ty] == active[id])
    }

    ghost function KindsOf(): Kinds {
      map ty | ty in reg :: reg[ty].kind
    }

    ghost function Tables(): Tables
      reads reg.Values
    {
      map ty | ty in reg :: reg[ty].table
    }

    ghost function Model(): State
      reads this, reg.Values
    {
      State(Tables(), map id | id in active :: active[id].ty, anyPauses)
    }

    constructor (reg: map<string, Trigger>)
      requires forall ty :: ty in reg ==> reg[ty].ty == ty
      ensures Valid() && this.reg == reg && active == map[] && !anyPauses
    {
      this.reg, active, anyPauses := reg, map[], false;
    }

    method AnyPausesBleScan() returns (b: bool)
      ensures b == anyPauses
    {
      b := anyPauses;
    }

    method ApplyBindings(bs: seq<TriggerBinding>)
      requires Valid()
      modifies this, reg.Values
      ensures Valid()
      ensures Model() == Apply(KindsOf(), old(Model()), bs)
    {
      UnbindAll();
      active := map[];
      anyPauses := false;
      assert Model() == Cleared(old(Model()));
      BindList(bs);
    }

    /** The second loop: every enabled binding of a registered type is bound. */
    method BindList(bs: seq<TriggerBinding>)
      requires Valid()
      modifies this, reg.Values
      ensures Valid()
      ensures Model() == BindAll(KindsOf(), old(Model()), bs)
    {
      ghost var st := Model();
      for i := 0 to |bs|
        invariant Valid()
        invariant Model() == BindAll(KindsOf(), st, bs[..i])
      {
        assert bs[..i + 1][..i] == bs[..i];
        ghost var before := Model();
        if bs[i].enabled && bs[i].ty in reg {
          BindListed(bs[i]);
        }
        assert Model() == BindOne(KindsOf(), before, bs[i]);
      }
      assert bs[..|bs|] == bs;
    }

    /** The first loop: every active id is unbound from the trigger it went to. */
    method UnbindAll()
      requires Valid()
      modifies reg.Values
      ensures Tables() == Cleared(old(Model())).tables
    {
      ghost var st := Model();
      var todo := active.Keys;
      assert st.active.Keys == todo;
      forall ty | ty in reg ensures reg[ty].table == UnboundSoFar(st, ty, todo) {
        UnboundAtEnds(st, ty);
      }
      while todo != {}
        invariant todo <= active.Keys
        invariant TablesAre(st, todo)
        decreases |todo|
      {
        var id :| id in todo;
        UnbindOne(id, st, todo);
        todo := todo - {id};
      }
      forall ty | ty in reg ensures reg[ty].table == Cleared(st).tables[ty] {
        UnboundAtEnds(st, ty);
      }
    }

    ghost predicate TablesAre(st: State, todo: set<string>)
      requires reg.Keys <= st.tables.Keys
      reads reg.Values
    {
      forall ty :: ty in reg ==> reg[ty].table == UnboundSoFar(st, ty, todo)
    }

    /** One round of the first loop. */
    method UnbindOne(id: string, ghost st: State, ghost todo: set<string>)
      requires Valid() && id in todo && id in active && reg.Keys <= st.tables.Keys
      requires id in st.active && st.active[id] == active[id].ty && TablesAre(st, todo)
      modifies reg.Values
      ensures TablesAre(st, todo - {id})
    {
      var t := active[id];
      forall ty | ty in reg
        ensures UnboundSoFar(st, ty, todo - {id}) ==
                if ty == t.ty then UnboundSoFar(st, ty, todo) - {id} else UnboundSoFar(st, ty, todo)
      {
        UnboundStep(st, ty, todo, id);
      }
      t.Unbind(id);
      assert forall ty :: ty in reg && ty != t.ty ==> reg[ty] != t;
    }

    /** One round of the second loop. */
    method BindListed(b: TriggerBinding)
      requires Valid() && b.enabled && b.ty in reg
      modifies this, reg.Values
      ensures Valid()
      ensures Tables() == if reg[b.ty].kind.accepts(b.params)
                          then old(Tables())[b.ty := old(Tables())[b.ty][b.id := Entry(b)]] else old(Tables())
      ensures Model().active == old(Model()).active[b.id := b.ty]
      ensures anyPauses == (old(anyPauses) || reg[b.ty].kind.pauses)
    {
      ghost var before := Model().active;
      var t := reg[b.ty];
      BindIn(t, b);
      active := active[b.id := t];
      assert Model().active == before[b.id := b.ty];
      if t.kind.pauses {
        anyPauses := true;
      }
    }

    /** The call of the trigger itself. */
    method BindIn(t: Trigger, b: TriggerBinding)
      requires Valid() && b.ty in reg && t == reg[b.ty]
      modifies reg.Values
      ensures Tables() == if t.kind.accepts(b.params)
                          then old(Tables())[b.ty := old(Tables())[b.ty][b.id := Entry(b)]] else old(Tables())
    {
      t.Bind(b.id, Entry(b));
      assert forall ty :: ty in reg && ty != b.ty ==> reg[ty] != t;
    }
  }

  lemma UnboundAtEnds(st: State, ty: string)
    requires ty in st.tables
    ensures UnboundSoFar(st, ty, st.active.Keys) == st.tables[ty]
    ensures UnboundSoFar(st, ty, {}) == Unbound(st.tables[ty], ty, st.active)
  {
  }

  lemma UnboundStep(st: State, ty: string, todo: set<string>, id: string)
    requires ty in st.tables && id in todo && id in st.active
    ensures UnboundSoFar(st, ty, todo - {id}) ==
            if st.active[id] == ty then UnboundSoFar(st, ty, todo) - {id} else UnboundSoFar(st, ty, todo)
  {
  }

  /** A table while some active ids are still to be unbound. */
  function UnboundSoFar(st: State, ty: string, todo: set<string>): map<string, Bound>
    requires ty in st.tables
  {
    map id | id in st.tables[ty] && !(id in st.active && st.active[id] == ty && id !in todo) :: st.tables[ty][id]
  }

  // ----- tables and list in step -----

  /** Whatever a table holds is active, and known to have gone to that table. */
  ghost predicate InSync(st: State) {
    forall ty, id :: ty in st.tables && id in st.tables[ty] ==> id in st.active && st.active[id] == ty
  }

  /** Clearing empties all tables exactly when they are in step. */
  lemma ClearedIffInSync(kinds: Kinds, st: State)
    requires st.tables.Keys == kinds.Keys
    ensures Cleared(st) == Start(kinds) <==> InSync(st)
  {
    if InSync(st) {
      assert forall ty :: ty in kinds ==> Unbound(st.tables[ty], ty, st.active) == map[];
    } else {
      var ty, id :| ty in st.tables && id in st.tables[ty] && !(id in st.active && st.active[id] == ty);
      assert id in Cleared(st).tables[ty];
    }
  }

  /** The last live binding of the list with this id. */
  function LastLive(kinds: Kinds, bs: seq<TriggerBinding>, id: string): Option<TriggerBinding> {
    if bs == [] then None
    else
      var b := bs[|bs| - 1];
      if Live(kinds, b) && b.id == id then Some(b) else LastLive(kinds, bs[..|bs| - 1], id)
  }

  /** The last accepted live binding of the list with this id and type. */
  function LastHeld(kinds: Kinds, bs: seq<TriggerBinding>, ty: string, id: string): Option<TriggerBinding> {
    if bs == [] then None
    else
      var b := bs[|bs| - 1];
      if Live(kinds, b) && b.id == id && b.ty == ty && kinds[ty].accepts(b.params) then Some(b)
      else LastHeld(kinds, bs[..|bs| - 1], ty, id)
  }

  lemma {:induction false} ActiveAfterBinding(kinds: Kinds, st: State, bs: seq<TriggerBinding>, id: string)
    requires st.tables.Keys == kinds.Keys
    ensures var active := BindAll(kinds, st, bs).active;
            match LastLive(kinds, bs, id)
            case None => (id in active <==> id in st.active) && (id in active ==> active[id] == st.active[id])
            case Some(b) => id in active && active[id] == b.ty
  {
    if bs != [] { ActiveAfterBinding(kinds, st, bs[..|bs| - 1], id); }
  }

  lemma {:induction false} HeldAfterBinding(kinds: Kinds, st: State, bs: seq<TriggerBinding>, ty: string, id: string)
    requires st.tables.Keys == kinds.Keys && ty in kinds
    ensures var table := BindAll(kinds, st, bs).tables[ty];
            match LastHeld(kinds, bs, ty, id)
            case None => (id in table <==> id in st.tables[ty]) && (id in table ==> table[id] == st.tables[ty][id])
            case Some(b) => id in table && table[id] == Entry(b)
  {
    if bs != [] { HeldAfterBinding(kinds, st, bs[..|bs| - 1], ty, id); }
  }

  lemma {:induction false} PausesAfterBinding(kinds: Kinds, st: State, bs: seq<TriggerBinding>)
    requires st.tables.Keys == kinds.Keys
    ensures BindAll(kinds, st, bs).pauses <==>
            st.pauses || exists b :: b in bs && Live(kinds, b) && kinds[b.ty].pauses
  {
    if bs != [] {
      var front, b := bs[..|bs| - 1], bs[|bs| - 1];
      PausesAfterBinding(kinds, st, front);
      assert forall x :: x in bs <==> x in front || x == b;
    }
  }

  /** Said on the list itself: the last binding with the id that is enabled and
      of a registered type. */
  lemma {:induction false} LastLiveIsLast(kinds: Kinds, bs: seq<TriggerBinding>, id: string, k: nat)
    requires k < |bs| ==> bs[k].enabled && bs[k].ty in kinds && bs[k].id == id
    requires forall j :: 0 <= j < |bs| && (k < j || k >= |bs|) ==>
               !(bs[j].enabled && bs[j].ty in kinds && bs[j].id == id)
    ensures LastLive(kinds, bs, id) == if k < |bs| then Some(bs[k]) else None
  {
    if bs != [] && k != |bs| - 1 { LastLiveIsLast(kinds, bs[..|bs| - 1], id, k); }
  }

  /** The last one with the id that is enabled, of this type, and accepted. */
  lemma {:induction false} LastHeldIsLast(kinds: Kinds, bs: seq<TriggerBinding>, ty: string, id: string, k: nat)
    requires ty in kinds
    requires k < |bs| ==> bs[k].enabled && bs[k].ty == ty && bs[k].id == id && kinds[ty].accepts(bs[k].params)
    requires forall j :: 0 <= j < |bs| && (k < j || k >= |bs|) ==>
               !(bs[j].enabled && bs[j].ty == ty && bs[j].id == id && kinds[ty].accepts(bs[j].params))
    ensures LastHeld(kinds, bs, ty, id) == if k < |bs| then Some(bs[k]) else None
  {
    if bs != [] && k != |bs| - 1 { LastHeldIsLast(kinds, bs[..|bs| - 1], ty, id, k); }
  }

  // ----- one call, from any state -----

  /** In the table, but not active under its type: unbinding misses it. */
  predicate Stale(st: State, ty: string, id: string) {
    ty in st.tables && id in st.tables[ty] && !(id in st.active && st.active[id] == ty)
  }

  /** What one call makes of a state, whatever the state: a table holds the last
      accepted live binding of its type with the id, and else what it held
      before if that was stale; the last live binding with an id says where it is
      active; the flag depends on the list alone. */
  lemma AppliedAt(kinds: Kinds, st: State, bs: seq<TriggerBinding>, ty: string, id: string)
    requires st.tables.Keys == kinds.Keys && ty in kinds
    ensures var table := Apply(kinds, st, bs).tables[ty];
            match LastHeld(kinds, bs, ty, id)
            case Some(b) => id in table && table[id] == Entry(b)
            case None =>
              if Stale(st, ty, id) then id in table && table[id] == st.tables[ty][id]
              else id !in table
    ensures var active := Apply(kinds, st, bs).active;
            match LastLive(kinds, bs, id)
            case Some(b) => id in active && active[id] == b.ty
            case None => id !in active
    ensures Apply(kinds, st, bs).pauses <==> exists b :: b in bs && Live(kinds, b) && kinds[b.ty].pauses
  {
    HeldAfterBinding(kinds, Cleared(st), bs, ty, id);
    ActiveAfterBinding(kinds, Cleared(st), bs, id);
    PausesAfterBinding(kinds, Cleared(st), bs);
  }

  /** The last live binding with the id is of this type, so that the next call
      unbinds the id from this table. */
  predicate ActiveUnder(kinds: Kinds, bs: seq<TriggerBinding>, ty: string, id: string) {
    LastLive(kinds, bs, id).Some? && LastLive(kinds, bs, id).value.ty == ty
  }

  /** If the table holds the id after the call, the id is active there. */
  ghost predicate KeptInStep(kinds: Kinds, st: State, bs: seq<TriggerBinding>, ty: string, id: string) {
    ty in kinds && (LastHeld(kinds, bs, ty, id).Some? || Stale(st, ty, id)) ==> ActiveUnder(kinds, bs, ty, id)
  }

  /** A call leaves the tables in step exactly when the last live binding is of
      the type wherever the list has an accepted one, and wherever an entry was
      stale before. */
  lemma InSyncIff(kinds: Kinds, st: State, bs: seq<TriggerBinding>)
    requires st.tables.Keys == kinds.Keys
    ensures InSync(Apply(kinds, st, bs)) <==> forall ty, id :: KeptInStep(kinds, st, bs, ty, id)
  {
    var r := Apply(kinds, st, bs);
    forall ty, id
      ensures KeptInStep(kinds, st, bs, ty, id) <==>
              (ty in r.tables && id in r.tables[ty] ==> id in r.active && r.active[id] == ty)
    {
      if ty in kinds { AppliedAt(kinds, st, bs, ty, id); }
    }
  }

  /** A stale entry is never removed by the next call: it is overwritten if the
      list has an accepted live binding with its id and type, and else unchanged. */
  lemma StaleEntrySurvives(kinds: Kinds, st: State, bs: seq<TriggerBinding>, ty: string, id: string)
    requires st.tables.Keys == kinds.Keys && Stale(st, ty, id)
    ensures id in Apply(kinds, st, bs).tables[ty]
    ensures Apply(kinds, st, bs).tables[ty][id] ==
            match LastHeld(kinds, bs, ty, id) case Some(b) => Entry(b) case None => st.tables[ty][id]
  {
    AppliedAt(kinds, st, bs, ty, id);
  }

  /** After one more call a table holds an id if and only if that call's list
      brings it, or it was there and the earlier list's last live binding with
      the id is not of that type. */
  lemma EntryGoesIff(
    kinds: Kinds, st: State, bs: seq<TriggerBinding>, next: seq<TriggerBinding>, ty: string, id: string)
    requires st.tables.Keys == kinds.Keys && ty in kinds
    ensures id !in Apply(kinds, Apply(kinds, st, bs), next).tables[ty] <==>
            LastHeld(kinds, next, ty, id).None?
            && (id !in Apply(kinds, st, bs).tables[ty] || ActiveUnder(kinds, bs, ty, id))
  {
    AppliedAt(kinds, st, bs, ty, id);
    AppliedAt(kinds, Apply(kinds, st, bs), next, ty, id);
  }

  /** Binding the id once more under its type makes a stale entry removable. */
  lemma StaleEntryCanGo(kinds: Kinds, st: State, b: TriggerBinding)
    requires st.tables.Keys == kinds.Keys && Stale(st, b.ty, b.id) && Live(kinds, b)
    ensures b.id !in Apply(kinds, Apply(kinds, st, [b]), []).tables[b.ty]
  {
    assert [b][..0] == [];
    StaleEntrySurvives(kinds, st, [b], b.ty, b.id);
    EntryGoesIff(kinds, st, [b], [], b.ty, b.id);
  }

  // ----- series of calls -----

  /** Each id is used for one binding only. */
  predicate DistinctBindings(bs: seq<TriggerBinding>) {
    forall i, j :: 0 <= i < j < |bs| ==> bs[i].id != bs[j].id
  }

  lemma {:induction false} LastIsOnly(kinds: Kinds, bs: seq<TriggerBinding>, ty: string, id: string)
    requires DistinctBindings(bs)
    ensures LastHeld(kinds, bs, ty, id).Some? ==>
              LastLive(kinds, bs, id) == LastHeld(kinds, bs, ty, id)
    ensures forall b :: LastHeld(kinds, bs, ty, id) == Some(b) <==>
              b in bs && Live(kinds, b) && b.id == id && b.ty == ty && kinds[ty].accepts(b.params)
    ensures LastLive(kinds, bs, id).Some? ==> LastLive(kinds, bs, id).value.id == id && LastLive(kinds, bs, id).value in bs
  {
    if bs != [] {
      var front, b := bs[..|bs| - 1], bs[|bs| - 1];
      LastIsOnly(kinds, front, ty, id);
      assert forall x :: x in bs <==> x in front || x == b;
      assert forall x :: x in front ==> x.id != b.id;
    }
  }

  /** If a table of this type holds the id, its last live binding is of the type. */
  ghost predicate HeldByLast(kinds: Kinds, bs: seq<TriggerBinding>, ty: string, id: string) {
    ty in kinds && LastHeld(kinds, bs, ty, id).Some? ==> ActiveUnder(kinds, bs, ty, id)
  }

  /** From empty tables a list leaves the tables in step exactly when no table
      holds an id whose last live binding went to another type. */
  lemma InSyncFromStartIff(kinds: Kinds, bs: seq<TriggerBinding>)
    ensures InSync(BindAll(kinds, Start(kinds), bs)) <==> forall ty, id :: HeldByLast(kinds, bs, ty, id)
  {
    InSyncIff(kinds, Start(kinds), bs);
    ClearedIffInSync(kinds, Start(kinds));
    assert forall ty, id :: HeldByLast(kinds, bs, ty, id) <==> KeptInStep(kinds, Start(kinds), bs, ty, id);
  }

  lemma DistinctBindingsInSync(kinds: Kinds, bs: seq<TriggerBinding>)
    requires DistinctBindings(bs)
    ensures InSync(BindAll(kinds, Start(kinds), bs))
  {
    InSyncFromStartIff(kinds, bs);
    forall ty, id ensures HeldByLast(kinds, bs, ty, id) {
      LastIsOnly(kinds, bs, ty, id);
    }
  }

  /** The state after a series of calls, from empty tables. */
  function AfterAll(kinds: Kinds, calls: seq<seq<TriggerBinding>>): (r: State)
    ensures r.tables.Keys == kinds.Keys
  {
    if calls == [] then Start(kinds) else Apply(kinds, AfterAll(kinds, calls[..|calls| - 1]), calls[|calls| - 1])
  }

  lemma {:induction false} AlwaysInSync(kinds: Kinds, calls: seq<seq<TriggerBinding>>)
    requires forall bs :: bs in calls ==> DistinctBindings(bs)
    ensures InSync(AfterAll(kinds, calls))
    ensures calls != [] ==> AfterAll(kinds, calls) == BindAll(kinds, Start(kinds), calls[|calls| - 1])
  {
    if calls != [] {
      var before := AfterAll(kinds, calls[..|calls| - 1]);
      AlwaysInSync(kinds, calls[..|calls| - 1]);
      ClearedIffInSync(kinds, before);
      DistinctBindingsInSync(kinds, calls[|calls| - 1]);
    }
  }

  /** After any series of calls whose lists have distinct ids, a trigger's table
      holds exactly the enabled bindings of that type in the last list that the
      trigger accepts, with nothing left over; and the flag is set exactly when
      an enabled binding of the last list is of a type that pauses scanning. */
  lemma TablesMatchLastList(kinds: Kinds, calls: seq<seq<TriggerBinding>>, ty: string, id: string, e: Bound)
    requires calls != [] && forall bs :: bs in calls ==> DistinctBindings(bs)
    requires ty in kinds
    ensures var st, last := AfterAll(kinds, calls), calls[|calls| - 1];
            && (id in st.tables[ty] && st.tables[ty][id] == e <==>
                exists b :: b in last && b.enabled && b.ty == ty && b.id == id
                            && kinds[ty].accepts(b.params) && e == Bound(b.params, b.sequenceId, b.args))
            && (st.pauses <==> exists b :: b in last && b.enabled && b.ty in kinds && kinds[b.ty].pauses)
  {
    var last := calls[|calls| - 1];
    AlwaysInSync(kinds, calls);
    HeldAfterBinding(kinds, Start(kinds), last, ty, id);
    PausesAfterBinding(kinds, Start(kinds), last);
    LastIsOnly(kinds, last, ty, id);
  }

  /** An id used under two types leaves the first one's entry behind: it
      survives a call with an empty list. */
  lemma SharedIdLeavesEntry(kinds: Kinds, a: TriggerBinding, b: TriggerBinding)
    requires Live(kinds, a) && Live(kinds, b) && a.id == b.id && a.ty != b.ty && kinds[a.ty].accepts(a.params)
    ensures var st := AfterAll(kinds, [[a, b], []]);
            a.id in st.tables[a.ty] && st.active == map[]
  {
    var calls := [[a, b], []];
    assert calls[..1] == [[a, b]] && [[a, b]][..0] == [];
    assert [a, b][..1] == [a] && [a][..0] == [];
    assert Cleared(Start(kinds)) == Start(kinds) by { ClearedIffInSync(kinds, Start(kinds)); }
    var st := BindAll(kinds, Start(kinds), [a, b]);
    assert BindAll(kinds, Start(kinds), [a]) == BindOne(kinds, Start(kinds), a);
    assert a.id in st.tables[a.ty] && st.active[a.id] == b.ty;
    assert AfterAll(kinds, calls[..1]) == st;
  }
}
