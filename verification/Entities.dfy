/** Simulations whose instances are entities and processes (src/bin/llhd-sim/engine.rs, `step` and `step_instance`):
    the table of every entity follows the signals over whole runs. */
module Entities {
  import EE = EntityEval
  import EP = EntityPointers
  import opened Engine
  import opened Kernel
  import opened Options
  import opened PointerAccess
  import opened Pointers
  import opened SignalOrder
  import opened SimTime
  import opened Values

  /** What an entity is between steps. */
  datatype Entity = Entity(unit: EE.Unit, signals: seq<nat>, signalValues: map<nat, EE.ValueId>, values: EE.Table)

  /** An instance evaluates an entity, or runs a process. */
  datatype Body<Q> = EntityBody(entity: Entity) | ProcessBody(process: Q)

  /** Units are well-formed, and the instance knows all signals that the unit refers to. */
  ghost predicate EntityOk(e: Entity) {
    EE.UnitOk(e.unit) && EE.Rooted(e.unit, e.values) && EE.OneValue(e.values, e.signals, e.signalValues)
  }

  /** Every slot is what its instruction computes on the signals. */
  ghost predicate SettledIn(sem: EE.Semantics, e: Entity, signals: Store) {
    EntityOk(e) && EE.AllSettled(e.unit, sem, e.values, signals)
  }

  function Sensitivity(e: Entity): set<nat> {
    set s | s in e.signals
  }

  function ChangedTargets(changed: set<nat>): set<Target> {
    set i | i in changed :: SignalTarget(i)
  }

  // ---------------------------------------------------------------- one instance

  /** The event of a drive. */
  function DriveOf(e: EE.Event): Drive<Pointer, Value> {
    Drive(
      if e.delay.Const? && e.delay.value.Time? then TimeValue(e.delay.value.time, e.delay.value.delta,
        e.delay.value.epsilon) else ZERO,
      e.signal,
      if e.value.Const? then e.value.value else Array([]))
  }

  function DrivesOf(events: seq<EE.Event>): (r: seq<Drive<Pointer, Value>>)
    ensures |r| == |events|
  {
    seq(|events|, k requires 0 <= k < |events| => DriveOf(events[k]))
  }

  /** What running an entity yields: the fully evaluated table, a wait for all of its signals, and the events of its
      drives, each of which saw the final table when it was last executed. */
  ghost predicate Evaluates<Q>(sem: EE.Semantics, e: Entity, signals: Store,
      o: Outcome<Body<Q>, Pointer, Value>)
  {
    && EntityOk(e) && o.data.EntityBody? && SettledIn(sem, o.data.entity, signals)
    && o.data.entity
      == e.(values := EE.FullEval(e.unit, sem, EE.Roots(e.unit, e.values), signals, |e.unit|))
    && o.suspend == Sleep(None, Sensitivity(e))
    && exists origins, events {:trigger EE.DrivesOk(e.unit, e.values, o.data.entity.values, origins, events, {})} ::
      EE.DrivesOk(e.unit, e.values, o.data.entity.values, origins, events, {}) && o.drives == DrivesOf(events)
  }

  /** What the evaluation relies on: it is the first one, or the table is that of signals that differ from the current
      ones at most where they changed. */
  ghost predicate Prepared(sem: EE.Semantics, e: Entity, signals: Store, changed: set<nat>, first: bool) {
    EntityOk(e) && (first || exists before: Store {:trigger EE.Differ(before, signals, ChangedTargets(changed))} ::
      SettledIn(sem, e, before) && EE.Differ(before, signals, ChangedTargets(changed)))
  }

  /** `step_instance` on an entity. */
  method RunEntity<Q>(sem: EE.Semantics, e: Entity, signals: Store, changed: set<nat>, first: bool,
      ghost before: Store) returns (o: Outcome<Body<Q>, Pointer, Value>)
    requires EE.WellBehaved(sem) && EntityOk(e)
    requires !first ==> SettledIn(sem, e, before) && EE.Differ(before, signals, ChangedTargets(changed))
    ensures Evaluates(sem, e, signals, o)
  {
    var instance := new EE.Instance(e.unit, e.signals, e.signalValues, e.values);
    var events, origins := instance.StepEntity(sem, signals, ChangedTargets(changed), first, before);
    var after := e.(values := instance.values);
    o := Outcome(EntityBody(after), Sleep(None, Sensitivity(e)), DrivesOf(events));
  }

  /** A machine that runs entities in this way; what it does with processes is not restricted. */
  ghost predicate RunsEntities<Q(!new)>(sem: EE.Semantics, m: Machine<Store, Body<Q>, Pointer, Value>) {
    forall i, e, signals, now, changed, first {:trigger m.run(i, EntityBody(e), signals, now, changed, first)} ::
      Prepared(sem, e, signals, changed, first) ==>
        Evaluates(sem, e, signals, m.run(i, EntityBody(e), signals, now, changed, first))
  }

  /** No process turns into an entity. */
  ghost predicate KindsKept<Q(!new)>(m: Machine<Store, Body<Q>, Pointer, Value>) {
    forall i, q, signals, now, changed, first {:trigger m.run(i, ProcessBody(q), signals, now, changed, first)} ::
      m.run(i, ProcessBody(q), signals, now, changed, first).data.ProcessBody?
  }

  /** Evaluate everything in order, and drive everything then. */
  ghost function Reference<Q>(sem: EE.Semantics, d: Body<Q>, signals: Store): (o: Outcome<Body<Q>, Pointer, Value>)
    ensures d.EntityBody? && EntityOk(d.entity) ==> Evaluates(sem, d.entity, signals, o)
    ensures d.ProcessBody? ==> o.data.ProcessBody?
  {
    if d.EntityBody? && EntityOk(d.entity) then
      var e := d.entity;
      var after := EE.FullEval(e.unit, sem, EE.Roots(e.unit, e.values), signals, |e.unit|);
      ReferenceSettles(sem, e, signals, after);
      var o := Outcome(EntityBody(e.(values := after)), Sleep(None, Sensitivity(e)),
        DrivesOf(EE.DriveAll(e.unit, after, |e.unit|)));
      assert EE.DrivesOk(e.unit, e.values, o.data.entity.values, EE.DriveIds(e.unit, |e.unit|),
        EE.DriveAll(e.unit, after, |e.unit|), {});
      o
    else Outcome(d, Halt, [])
  }

  lemma ReferenceSettles(sem: EE.Semantics, e: Entity, signals: Store, after: EE.Table)
    requires EntityOk(e) && after == EE.FullEval(e.unit, sem, EE.Roots(e.unit, e.values), signals, |e.unit|)
    ensures SettledIn(sem, e.(values := after), signals)
    ensures forall i: nat :: i < |e.unit| && e.unit[i].op.Drv? ==> EE.InstOk(e.unit, i) && EE.Has(e.unit, i, after)
    ensures EE.DrivesOk(e.unit, e.values, after, EE.DriveIds(e.unit, |e.unit|), EE.DriveAll(e.unit, after, |e.unit|),
      {})
  {
    EE.FullEvalSettles(e.unit, sem, e.values, signals, |e.unit|);
    forall i: nat | i < |e.unit|
      ensures EE.InstOk(e.unit, i) && EE.Has(e.unit, i, after)
    {
      EE.HasBelow(e.unit, sem, e.values, signals, |e.unit|, after, i);
    }
    assert EE.AllSettled(e.unit, sem, after, signals) by {
      forall i: nat | EE.Valued(e.unit, i)
        ensures EE.InstOk(e.unit, i) && EE.Settled(e.unit, sem, after, signals, i)
      {
        assert EE.InstOk(e.unit, i);
      }
    }
    EE.DriveAllOk(e.unit, e.values, after);
  }

  /** There is such a machine for every semantics. */
  lemma SomeMachineRuns<Q(!new)>(sem: EE.Semantics, types: Types, typeOf: Pointer -> Type)
      returns (m: Machine<Store, Body<Q>, Pointer, Value>)
    ensures RunsEntities(sem, m) && KindsKept(m) && m == SignalMachine(types, typeOf, m.run)
  {
    m := SignalMachine(types, typeOf, (i: nat, d: Body<Q>, signals: Store, now: TimeValue, changed: set<nat>,
      first: bool) => Reference(sem, d, signals));
  }

  // ---------------------------------------------------------------- changed signals

  /** An event drives signals, and fits them. */
  ghost predicate SignalEvent(types: Types, typeOf: Pointer -> Type, p: Pointer, v: Value) {
    EventOk(types, p, typeOf(p), v) && forall k :: 0 <= k < |p| ==> p[k].target.SignalTarget?
  }

  /** Nothing differs but what is reported as changed. */
  lemma {:induction false} WriteDiffers(types: Types, s: Store, p: Pointer, ty: Type, v: Value)
    requires StoreTyped(s, types) && EventOk(types, p, ty, v) && forall k :: 0 <= k < |p| ==> p[k].target.SignalTarget?
    ensures EE.Differ(s, WritePtr(s, types, p, ty, v), ChangedTargets(Touched(types, s, p, SubValues(v, ty, p, 0))))
  {
    var s', xs := WritePtr(s, types, p, ty, v), SubValues(v, ty, p, 0);
    KeepsTyped(types, s, p, ty, v);
    forall t | t in s && s'[t] != s[t]
      ensures t in ChangedTargets(Touched(types, s, p, xs))
    {
      ChangesTouch(types, s, p, ty, v, t);
      var k :| 0 <= k < |p| && p[k].target == t && GetSlice(types)(s, p[k]) != xs[k];
      TouchedIn(types, s, p, xs, t.id);
    }
  }

  lemma DifferOn(a: Store, b: Store, c: Store, x: set<nat>, y: set<nat>)
    requires EE.Differ(a, b, ChangedTargets(x)) && EE.Differ(b, c, ChangedTargets(y))
    ensures EE.Differ(a, c, ChangedTargets(x + y))
  {
    assert ChangedTargets(x + y) == ChangedTargets(x) + ChangedTargets(y);
  }

  /** All events that are due together. */
  lemma {:induction false} AppliedDiffers<Q>(types: Types, typeOf: Pointer -> Type,
      m: Machine<Store, Body<Q>, Pointer, Value>, s: Store, evs: seq<(Pointer, Value)>)
    requires m == SignalMachine(types, typeOf, m.run) && StoreTyped(s, types)
    requires forall k :: 0 <= k < |evs| ==> SignalEvent(types, typeOf, evs[k].0, evs[k].1)
    ensures StoreTyped(ApplyAll(m, s, evs), types)
    ensures EE.Differ(s, ApplyAll(m, s, evs), ChangedTargets(ChangedAll(m, s, evs)))
    decreases |evs|
  {
    if evs == [] {
    } else {
      var init, last := evs[..|evs| - 1], evs[|evs| - 1];
      AppliedDiffers(types, typeOf, m, s, init);
      var mid := ApplyAll(m, s, init);
      KeepsTyped(types, mid, last.0, typeOf(last.0), last.1);
      WriteDiffers(types, mid, last.0, typeOf(last.0), last.1);
      DifferOn(s, mid, ApplyAll(m, s, evs), ChangedAll(m, s, init), m.changed(mid, last.0, last.1));
    }
  }

  // ---------------------------------------------------------------- steps and runs

  /** An entity that does not wake is up to date anyway. */
  lemma Undisturbed(sem: EE.Semantics, e: Entity, a: Store, b: Store, changed: set<nat>)
    requires EE.WellBehaved(sem) && SettledIn(sem, e, a) && EE.Differ(a, b, ChangedTargets(changed))
    requires Sensitivity(e) * changed == {}
    ensures SettledIn(sem, e, b)
  {
    forall v | v in e.values && e.values[v].SignalSlot?
      ensures SignalTarget(e.values[v].signal) !in ChangedTargets(changed)
    {
      var sig := e.values[v].signal;
      assert sig in Sensitivity(e);
      assert sig in changed ==> sig in Sensitivity(e) * changed;
    }
    EE.PendingStart(e.unit, sem, e.values, a, b, ChangedTargets(changed), {});
    EE.PendingDone(e.unit, sem, e.values, b);
  }

  /** Between steps, every entity is up to date, and waits for its signals. */
  ghost predicate UpToDate<Q>(sem: EE.Semantics, insts: seq<Instance<Body<Q>>>, signals: Store) {
    forall i {:trigger insts[i]} :: 0 <= i < |insts| && insts[i].data.EntityBody? ==>
      SettledIn(sem, insts[i].data.entity, signals)
      && insts[i].state == Wait(None, Sensitivity(insts[i].data.entity))
  }

  /** Before the first step, every instance is ready. */
  ghost predicate Initial<Q>(insts: seq<Instance<Body<Q>>>) {
    forall i {:trigger insts[i]} :: 0 <= i < |insts| ==>
      insts[i].state.Ready? && (insts[i].data.EntityBody? ==> EntityOk(insts[i].data.entity))
  }

  /** An entity that runs is evaluated. */
  lemma RunSettles<Q(!new)>(sem: EE.Semantics, m: Machine<Store, Body<Q>, Pointer, Value>, i: nat,
      inst: Instance<Body<Q>>, signals: Store, now: TimeValue, changed: set<nat>, first: bool)
    requires RunsEntities(sem, m) && KindsKept(m)
    requires inst.data.EntityBody? ==> Prepared(sem, inst.data.entity, signals, changed, first)
    ensures var r := Resumed(now, Engine.Run(m, i, inst, signals, now, changed, first));
      r.data.EntityBody? ==>
        SettledIn(sem, r.data.entity, signals) && r.state == Wait(None, Sensitivity(r.data.entity))
  {
    if inst.data.EntityBody? {
      assert Evaluates(sem, inst.data.entity, signals,
        m.run(i, EntityBody(inst.data.entity), signals, now, changed, first));
    } else {
      assert m.run(i, ProcessBody(inst.data.process), signals, now, changed, first).data.ProcessBody?;
    }
  }

  /** After a step every entity is up to date: those that run are evaluated, and no other refers to what has changed. */
  lemma {:induction false} StepSettles<Q(!new)>(sem: EE.Semantics, types: Types, typeOf: Pointer -> Type,
      m: Machine<Store, Body<Q>, Pointer, Value>, first: bool, a: Snapshot<Store, Body<Q>, Pointer, Value>,
      order: seq<(Pointer, Value)>, changed: set<nat>, ready: seq<nat>, b: Snapshot<Store, Body<Q>, Pointer, Value>)
    requires EE.WellBehaved(sem) && RunsEntities(sem, m) && KindsKept(m) && m == SignalMachine(types, typeOf, m.run)
    requires Stepped(m, first, a, order, changed, ready, b) && StoreTyped(a.signals, types)
    requires forall p :: p in a.DueEvents() ==> SignalEvent(types, typeOf, p, a.DueEvents()[p])
    requires if first then Initial(a.insts) else UpToDate(sem, a.insts, a.signals)
    ensures UpToDate(sem, b.insts, b.signals) && StoreTyped(b.signals, types)
  {
    AppliedDiffers(types, typeOf, m, a.signals, order);
    forall i: nat | i < |b.insts| && b.insts[i].data.EntityBody?
      ensures SettledIn(sem, b.insts[i].data.entity, b.signals)
      ensures b.insts[i].state == Wait(None, Sensitivity(b.insts[i].data.entity))
    {
      var was := a.insts[i];
      assert Wakes(was, i, a.DueInsts(), changed) <==> i in ready;
      if i in ready {
        if was.data.EntityBody? && !first {
          assert SettledIn(sem, was.data.entity, a.signals)
            && EE.Differ(a.signals, b.signals, ChangedTargets(changed));
        }
        RunSettles(sem, m, i, was, b.signals, a.time, changed, first);
      } else {
        Undisturbed(sem, was.data.entity, a.signals, b.signals, changed);
      }
    }
  }

  /** All due events of a run drive signals, and fit them. */
  ghost predicate EventsFit<Q>(types: Types, typeOf: Pointer -> Type,
      states: seq<Snapshot<Store, Body<Q>, Pointer, Value>>)
  {
    forall k, p {:trigger p in states[k].DueEvents()} :: 0 <= k < |states| && p in states[k].DueEvents() ==>
      SignalEvent(types, typeOf, p, states[k].DueEvents()[p])
  }

  /** Over a whole run, every entity is up to date after each step. */
  lemma {:induction false} RunsSettle<Q(!new)>(sem: EE.Semantics, types: Types, typeOf: Pointer -> Type,
      m: Machine<Store, Body<Q>, Pointer, Value>, states: seq<Snapshot<Store, Body<Q>, Pointer, Value>>, k: nat)
    requires EE.WellBehaved(sem) && RunsEntities(sem, m) && KindsKept(m) && m == SignalMachine(types, typeOf, m.run)
    requires Trace(m, 0, states) && StoreTyped(states[0].signals, types) && Initial(states[0].insts)
    requires EventsFit(types, typeOf, states) && k < |states|
    ensures StoreTyped(states[k].signals, types) && (k > 0 ==> UpToDate(sem, states[k].insts, states[k].signals))
    decreases k
  {
    if k == 0 {
    } else {
      RunsSettle(sem, types, typeOf, m, states, k - 1);
      var a, b := states[k - 1], states[k];
      assert StepsTo(m, k - 1 == 0, a, b);
      var order, changed, ready :| Stepped(m, k - 1 == 0, a, order, changed, ready, b);
      StepSettles(sem, types, typeOf, m, k - 1 == 0, a, order, changed, ready, b);
    }
  }

  /** Run a simulation from its beginning. */
  method Simulate<Q(!new)>(ghost sem: EE.Semantics, ghost types: Types, ghost typeOf: Pointer -> Type,
      m: Machine<Store, Body<Q>, Pointer, Value>, sim: Simulation<Store, Body<Q>, Pointer, Value>, untilStep: nat)
      returns (ghost states: seq<Snapshot<Store, Body<Q>, Pointer, Value>>)
    requires EE.WellBehaved(sem) && RunsEntities(sem, m) && KindsKept(m) && m == SignalMachine(types, typeOf, m.run)
    requires Engine.Valid(sim.state) && Forward(m) && sim.steps == 0
    requires StoreTyped(sim.state.signals, types) && Initial(sim.state.insts)
    modifies sim`steps, sim.state
    ensures Trace(m, 0, states) && states[0] == old(Current(sim.state)) && states[|states| - 1] == Current(sim.state)
    ensures |states| == sim.steps + 1
    ensures EventsFit(types, typeOf, states) && sim.steps > 0 ==>
      UpToDate(sem, sim.state.insts, sim.state.signals)
  {
    ghost var times;
    times, states := sim.Run(m, untilStep);
    if EventsFit(types, typeOf, states) {
      RunsSettle(sem, types, typeOf, m, states, |states| - 1);
    }
  }

  /** A probe of a signal or pointer of its type. */
  predicate TypedProbe(types: Types, e: Entity, k: nat) {
    && k < |e.unit| && e.unit[k].op.Prb? && |e.unit[k].args| == 1 && e.unit[k].args[0] in e.values
    && Typed(types, EE.PtrOf(e.values[e.unit[k].args[0]]), e.unit[k].op.ty)
  }

  /** The probe's slot is what is read through its signal or pointer. */
  predicate HoldsSignal(types: Types, e: Entity, signals: Store, k: nat)
    requires StoreTyped(signals, types) && TypedProbe(types, e, k)
  {
    EE.Result(k) in e.values && e.values[EE.Result(k)].Const?
    && IsRead(signals, types, EE.PtrOf(e.values[e.unit[k].args[0]]), e.unit[k].op.ty, e.values[EE.Result(k)].value)
  }

  /** With the operations of the simulator, each probe of each entity then holds what its signal holds. */
  lemma {:induction false} ProbesFollow<Q>(pure: (nat, seq<EE.Slot>) -> Value, types: Types,
      insts: seq<Instance<Body<Q>>>, signals: Store, i: nat, k: nat)
    requires UpToDate(EP.Simulator(pure), insts, signals) && StoreTyped(signals, types)
    requires i < |insts| && insts[i].data.EntityBody?
    requires TypedProbe(types, insts[i].data.entity, k)
    ensures HoldsSignal(types, insts[i].data.entity, signals, k)
  {
    var e := insts[i].data.entity;
    assert SettledIn(EP.Simulator(pure), e, signals);
    assert EE.InstOk(e.unit, k) && EE.Valued(e.unit, k);
    EP.ProbesHoldSignals(e.unit, pure, e.values, signals, types, k);
  }
}
