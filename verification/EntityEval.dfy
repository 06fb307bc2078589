/** Incremental evaluation of an entity (src/bin/llhd-sim/engine.rs, `step_entity`):
    a worklist of dirty instructions brings the value table back in line with the
    signals. */
module EntityEval {
  import opened Options
  import opened Pointers
  import opened Values

  /** A value of the unit: one of its arguments, or the result of an instruction. */
  datatype ValueId = Input(index: nat) | Result(inst: nat)

  /** Operations that yield pointers to signals; a field is that of a value of some type. */
  datatype PointOp = ExtField(ty: Type, field: nat) | ExtSlice(offset: nat, length: nat) | Shift(left: bool)

  /** Probes read signals of some type, pure operations compute on constants; `Other` stands for instructions
      without a result, such as inst. */
  datatype Op = Prb(ty: Type) | Pointing(op: PointOp) | Pure(code: nat) | Drv | Sig | Other

  datatype Inst = Inst(op: Op, args: seq<ValueId>)

  /** The instructions of an entity in the order of its layout. */
  type Unit = seq<Inst>

  /** An entry in the value table; the width of a signal is that of the value's type. */
  datatype Slot = Const(value: Value) | SignalSlot(signal: nat, width: nat) | PointerSlot(ptr: Pointer)

  type Table = map<ValueId, Slot>

  type Signals = map<Target, Value>

  /** What pure operations, pointer operations and probes compute. */
  datatype Semantics = Semantics(
    pure: (nat, seq<Slot>) -> Value,
    point: (PointOp, seq<Slot>) -> Pointer,
    probe: (Type, Signals, Pointer) -> Value)

  /** The targets of a pointer. */
  function Targets(ptr: Pointer): set<Target> {
    if ptr == [] then {} else {ptr[0].target} + Targets(ptr[1..])
  }

  function SlotTargets(slot: Slot): set<Target> {
    match slot
    case Const(_) => {}
    case SignalSlot(s, _) => {SignalTarget(s)}
    case PointerSlot(p) => Targets(p)
  }

  function AllTargets(slots: seq<Slot>): set<Target> {
    if slots == [] then {} else SlotTargets(slots[0]) + AllTargets(slots[1..])
  }

  predicate Agree(a: Signals, b: Signals, on: set<Target>) {
    forall t :: t in on ==> (t in a <==> t in b) && (t in a ==> a[t] == b[t])
  }

  /** Pointer operations only rearrange pointers, and probes only look at what they point to. */
  ghost predicate WellBehaved(sem: Semantics) {
    && (forall op, slots :: Targets(sem.point(op, slots)) <= AllTargets(slots))
    && (forall ty, a, b, ptr {:trigger sem.probe(ty, a, ptr), sem.probe(ty, b, ptr)} ::
         Agree(a, b, Targets(ptr)) ==> sem.probe(ty, a, ptr) == sem.probe(ty, b, ptr))
  }

  // ---------------------------------------------------------------- units and their execution

  predicate Valued(unit: Unit, i: nat) {
    i < |unit| && (unit[i].op.Prb? || unit[i].op.Pointing? || unit[i].op.Pure?)
  }

  /** Values that are set up before the simulation starts: arguments and signals. */
  predicate IsRoot(unit: Unit, v: ValueId) {
    v.Input? || (v.inst < |unit| && unit[v.inst].op.Sig?)
  }

  predicate IsSignal(unit: Unit, v: ValueId) {
    IsRoot(unit, v) || (v.inst < |unit| && unit[v.inst].op.Pointing?)
  }

  predicate ArgOk(unit: Unit, i: nat, v: ValueId) {
    IsRoot(unit, v) || (v.inst < i && Valued(unit, v.inst))
  }

  predicate InstOk(unit: Unit, i: nat) {
    i < |unit| && (forall k :: 0 <= k < |unit[i].args| ==> ArgOk(unit, i, unit[i].args[k])) &&
    match unit[i].op
    case Prb(_) => |unit[i].args| == 1 && IsSignal(unit, unit[i].args[0])
    case Pure(_) => forall k :: 0 <= k < |unit[i].args| ==> !IsSignal(unit, unit[i].args[k])
    case Drv => |unit[i].args| == 3 && IsSignal(unit, unit[i].args[0]) && !IsSignal(unit, unit[i].args[1])
      && !IsSignal(unit, unit[i].args[2])
    case _ => true
  }

  /** Definitions come before uses, and arguments are signals where they need to be. */
  predicate UnitOk(unit: Unit) {
    forall i: nat {:trigger InstOk(unit, i)} :: 0 <= i < |unit| ==> InstOk(unit, i)
  }

  /** All instructions that have the value as an argument. */
  function Uses(unit: Unit, v: ValueId): set<nat> {
    set i: nat | i < |unit| && v in unit[i].args
  }

  predicate Has(unit: Unit, i: nat, values: Table)
    requires i < |unit|
  {
    forall k :: 0 <= k < |unit[i].args| ==> unit[i].args[k] in values
  }

  function ArgSlots(args: seq<ValueId>, values: Table): (r: seq<Slot>)
    requires forall k :: 0 <= k < |args| ==> args[k] in values
    ensures |r| == |args| && forall k :: 0 <= k < |args| ==> r[k] == values[args[k]]
  {
    seq(|args|, k requires 0 <= k < |args| => values[args[k]])
  }

  /** The pointer to a signal. */
  function PtrOf(slot: Slot): Pointer {
    match slot
    case SignalSlot(s, w) => [ValueSlice(SignalTarget(s), [], w)]
    case PointerSlot(p) => p
    case Const(_) => []
  }

  /** Execute an instruction that yields a value. */
  function Compute(unit: Unit, sem: Semantics, i: nat, values: Table, signals: Signals): Slot
    requires Valued(unit, i) && InstOk(unit, i) && Has(unit, i, values)
  {
    var slots := ArgSlots(unit[i].args, values);
    match unit[i].op
    case Prb(ty) => Const(sem.probe(ty, signals, PtrOf(slots[0])))
    case Pointing(op) => PointerSlot(sem.point(op, slots))
    case Pure(c) => Const(sem.pure(c, slots))
  }

  datatype Event = Event(signal: Pointer, value: Slot, delay: Slot)

  /** Execute a drive. */
  function Drive(unit: Unit, i: nat, values: Table): Event
    requires i < |unit| && unit[i].op.Drv? && InstOk(unit, i) && Has(unit, i, values)
  {
    Event(PtrOf(values[unit[i].args[0]]), values[unit[i].args[1]], values[unit[i].args[2]])
  }

  /** An instruction's slot is what executing it yields. */
  predicate Settled(unit: Unit, sem: Semantics, values: Table, signals: Signals, i: nat)
    requires Valued(unit, i) && InstOk(unit, i)
  {
    Result(i) in values && Has(unit, i, values) && values[Result(i)] == Compute(unit, sem, i, values, signals)
  }

  /** The whole table is what executing every instruction yields. */
  ghost predicate AllSettled(unit: Unit, sem: Semantics, values: Table, signals: Signals)
    requires UnitOk(unit)
  {
    forall i: nat {:trigger InstOk(unit, i)} :: Valued(unit, i) ==>
      InstOk(unit, i) && Settled(unit, sem, values, signals, i)
  }

  /** Arguments and signals refer to signals. */
  ghost predicate Rooted(unit: Unit, values: Table) {
    && (forall i, k {:trigger unit[i].args[k]} ::
      0 <= i < |unit| && 0 <= k < |unit[i].args| && IsRoot(unit, unit[i].args[k]) ==>
         unit[i].args[k] in values)
    && (forall v {:trigger values[v]} :: v in values ==> (IsRoot(unit, v) <==> values[v].SignalSlot?))
    && (forall v {:trigger values[v]} :: v in values && !IsRoot(unit, v) ==> Valued(unit, v.inst))
    && (forall i: nat {:trigger Result(i)} :: Valued(unit, i) && Result(i) in values ==>
      (unit[i].op.Pointing? <==> values[Result(i)].PointerSlot?))
  }

  // ---------------------------------------------------------------- what is still to be done

  /** Some dirty instruction reaches this one through pointers only. */
  ghost predicate Upstream(unit: Unit, dirty: set<nat>, i: nat)
    requires i < |unit|
    decreases i, 1
  {
    exists k :: 0 <= k < |unit[i].args| && Via(unit, dirty, i, unit[i].args[k])
  }

  /** The argument is a pointer that is dirty, or behind something dirty. */
  ghost predicate Via(unit: Unit, dirty: set<nat>, i: nat, a: ValueId)
    requires i < |unit|
    decreases i, 0
  {
    a.Result? && a.inst < i && unit[a.inst].op.Pointing? && (a.inst in dirty || Upstream(unit, dirty, a.inst))
  }

  lemma UpstreamVia(unit: Unit, dirty: set<nat>, i: nat, a: ValueId)
    requires i < |unit| && a in unit[i].args && Via(unit, dirty, i, a)
    ensures Upstream(unit, dirty, i)
  {
    var k :| 0 <= k < |unit[i].args| && unit[i].args[k] == a;
  }

  lemma {:induction false} NothingUpstream(unit: Unit, i: nat)
    requires i < |unit|
    ensures !Upstream(unit, {}, i)
    decreases i
  {
    if Upstream(unit, {}, i) {
      var k :| 0 <= k < |unit[i].args| && Via(unit, {}, i, unit[i].args[k]);
      NothingUpstream(unit, unit[i].args[k].inst);
    }
  }

  /** Executing a pointer operation hands the dirt on to its users. */
  lemma {:induction false} UpstreamStep(unit: Unit, dirty: set<nat>, i: nat, next: set<nat>, j: nat)
    requires i < |unit| && j < |unit| && Upstream(unit, dirty, j)
    requires dirty - {i} <= next && (unit[i].op.Pointing? ==> Uses(unit, Result(i)) <= next)
    ensures j in next || Upstream(unit, next, j)
    decreases j
  {
    var k :| 0 <= k < |unit[j].args| && Via(unit, dirty, j, unit[j].args[k]);
    var a := unit[j].args[k];
    if a.inst == i {
      assert j in Uses(unit, Result(i));
    } else {
      if a.inst !in dirty {
        UpstreamStep(unit, dirty, i, next, a.inst);
      }
      UpstreamVia(unit, next, j, a);
    }
  }

  /** Everything that is not up to date is dirty or behind something dirty. */
  ghost predicate Pending(unit: Unit, sem: Semantics, values: Table, signals: Signals, dirty: set<nat>)
    requires UnitOk(unit)
  {
    forall i: nat {:trigger InstOk(unit, i)} :: Valued(unit, i) ==>
      InstOk(unit, i) && (i in dirty || Upstream(unit, dirty, i) || Settled(unit, sem, values, signals, i))
  }

  lemma PendingDone(unit: Unit, sem: Semantics, values: Table, signals: Signals)
    requires UnitOk(unit) && Pending(unit, sem, values, signals, {})
    ensures AllSettled(unit, sem, values, signals)
  {
    forall i: nat | Valued(unit, i)
      ensures InstOk(unit, i) && Settled(unit, sem, values, signals, i)
    {
      assert InstOk(unit, i);
      NothingUpstream(unit, i);
    }
  }

  /** The slot that was written is no argument of the instruction. */
  lemma ComputeLocal(unit: Unit, sem: Semantics, i: nat, a: Table, b: Table, signals: Signals)
    requires Valued(unit, i) && InstOk(unit, i) && Has(unit, i, a)
    requires forall v :: v in unit[i].args ==> v in b && b[v] == a[v]
    ensures Has(unit, i, b) && Compute(unit, sem, i, b, signals) == Compute(unit, sem, i, a, signals)
  {
    assert ArgSlots(unit[i].args, a) == ArgSlots(unit[i].args, b);
  }

  /** Executing a dirty instruction, with its users made dirty if its slot changed. */
  lemma PendingStep(unit: Unit, sem: Semantics, values: Table, signals: Signals, dirty: set<nat>, i: nat,
      next: set<nat>)
    requires UnitOk(unit) && Pending(unit, sem, values, signals, dirty) && Valued(unit, i) && InstOk(unit, i)
      && Has(unit, i, values)
    requires dirty - {i} <= next
    requires (Result(i) in values && values[Result(i)] == Compute(unit, sem, i, values, signals)
      && !unit[i].op.Pointing?)
      || Uses(unit, Result(i)) <= next
    ensures Pending(unit, sem, values[Result(i) := Compute(unit, sem, i, values, signals)], signals, next)
  {
    var after := values[Result(i) := Compute(unit, sem, i, values, signals)];
    forall j: nat | Valued(unit, j)
      ensures InstOk(unit, j) && (j in next || Upstream(unit, next, j) || Settled(unit, sem, after, signals, j))
    {
      assert InstOk(unit, j);
      if j == i {
        assert Result(i) !in unit[i].args;
        ComputeLocal(unit, sem, i, values, after, signals);
      } else if j !in next {
        if Upstream(unit, dirty, j) {
          UpstreamStep(unit, dirty, i, next, j);
        } else if Result(i) in unit[j].args {
          assert j in Uses(unit, Result(i));
          assert after == values;
        } else {
          ComputeLocal(unit, sem, j, values, after, signals);
        }
      }
    }
  }

  // ---------------------------------------------------------------- where to start

  /** The signals differ at most where they changed. */
  ghost predicate Differ(before: Signals, after: Signals, changed: set<Target>) {
    forall t :: t !in changed ==> (t in before <==> t in after) && (t in before ==> before[t] == after[t])
  }

  /** The instructions that have a changed signal as an argument are dirty. */
  ghost predicate Triggered(unit: Unit, values: Table, changed: set<Target>, dirty: set<nat>) {
    forall v, i: nat {:trigger v in unit[i].args, i in dirty} ::
      v in values && values[v].SignalSlot? && SignalTarget(values[v].signal) in changed && Valued(unit, i)
        && v in unit[i].args ==>
        i in dirty
  }

  lemma {:induction false} TargetOf(slots: seq<Slot>, t: Target) returns (k: nat)
    requires t in AllTargets(slots)
    ensures k < |slots| && t in SlotTargets(slots[k])
    decreases |slots|
  {
    if t in SlotTargets(slots[0]) {
      k := 0;
    } else {
      k := TargetOf(slots[1..], t);
      k := k + 1;
    }
  }

  /** A pointer to a changed signal comes from something dirty. */
  lemma {:induction false} TargetsUpstream(unit: Unit, sem: Semantics, values: Table, before: Signals,
      changed: set<Target>, dirty: set<nat>, i: nat, t: Target)
    requires UnitOk(unit) && WellBehaved(sem) && Rooted(unit, values) && AllSettled(unit, sem, values, before)
      && Triggered(unit, values, changed, dirty)
    requires Valued(unit, i) && unit[i].op.Pointing? && Result(i) in values && t in SlotTargets(values[Result(i)])
      && t in changed
    ensures i in dirty || Upstream(unit, dirty, i)
    decreases i
  {
    assert InstOk(unit, i);
    var slots := ArgSlots(unit[i].args, values);
    var k := TargetOf(slots, t);
    var a := unit[i].args[k];
    assert slots[k] == values[a] && a in unit[i].args;
    if !IsRoot(unit, a) {
      TargetsUpstream(unit, sem, values, before, changed, dirty, a.inst, t);
      UpstreamVia(unit, dirty, i, a);
    }
  }

  lemma PtrTargets(slot: Slot)
    requires !slot.Const?
    ensures Targets(PtrOf(slot)) == SlotTargets(slot)
  {
    if slot.SignalSlot? {
      var p := PtrOf(slot);
      assert p[1..] == [];
      assert Targets(p[1..]) == {};
      assert Targets(p) == {SignalTarget(slot.signal)} + Targets(p[1..]);
    }
  }

  /** A probe that sees a change is dirty or behind something dirty. */
  lemma ProbeStart(unit: Unit, sem: Semantics, values: Table, before: Signals, after: Signals, changed: set<Target>,
      dirty: set<nat>, i: nat)
    requires UnitOk(unit) && WellBehaved(sem) && Rooted(unit, values) && AllSettled(unit, sem, values, before)
      && Triggered(unit, values, changed, dirty)
    requires Differ(before, after, changed) && Valued(unit, i) && unit[i].op.Prb? && InstOk(unit, i)
    ensures i in dirty || Upstream(unit, dirty, i) || Settled(unit, sem, values, after, i)
  {
    var a := unit[i].args[0];
    assert a in unit[i].args && Settled(unit, sem, values, before, i);
    PtrTargets(values[a]);
    var ptr := PtrOf(values[a]);
    if t :| t in Targets(ptr) && t in changed {
      if !IsRoot(unit, a) {
        TargetsUpstream(unit, sem, values, before, changed, dirty, a.inst, t);
        UpstreamVia(unit, dirty, i, a);
      }
    } else {
      assert Agree(before, after, Targets(ptr));
      assert ArgSlots(unit[i].args, values)[0] == values[a];
      assert sem.probe(unit[i].op.ty, before, ptr) == sem.probe(unit[i].op.ty, after, ptr);
    }
  }

  /** A consistent table is pending once the users of changed signals are dirty. */
  lemma PendingStart(unit: Unit, sem: Semantics, values: Table, before: Signals, after: Signals, changed: set<Target>,
      dirty: set<nat>)
    requires UnitOk(unit) && WellBehaved(sem) && Rooted(unit, values) && AllSettled(unit, sem, values, before)
      && Triggered(unit, values, changed, dirty)
    requires Differ(before, after, changed)
    ensures Pending(unit, sem, values, after, dirty)
  {
    forall i: nat | Valued(unit, i)
      ensures InstOk(unit, i) && (i in dirty || Upstream(unit, dirty, i) || Settled(unit, sem, values, after, i))
    {
      assert InstOk(unit, i);
      if unit[i].op.Prb? {
        ProbeStart(unit, sem, values, before, after, changed, dirty, i);
      } else {
        assert Settled(unit, sem, values, before, i);
      }
    }
  }

  // ---------------------------------------------------------------- termination

  /** How much work an instruction can cause. */
  ghost function Weight(unit: Unit, i: nat): nat
    requires i < |unit|
    decreases |unit| - i, 0
  {
    1 + Effort(unit, Uses(unit, Result(i)), i + 1)
  }

  /** The weight of all instructions of a set from k on. */
  ghost function Effort(unit: Unit, s: set<nat>, k: nat): nat
    requires k <= |unit|
    decreases |unit| - k, 1
  {
    if k == |unit| then 0 else (if k in s then Weight(unit, k) else 0) + Effort(unit, s, k + 1)
  }

  lemma {:induction false} EffortUnion(unit: Unit, s: set<nat>, t: set<nat>, u: set<nat>, k: nat)
    requires k <= |unit| && u <= s + t
    ensures Effort(unit, u, k) <= Effort(unit, s, k) + Effort(unit, t, k)
    decreases |unit| - k
  {
    if k < |unit| {
      EffortUnion(unit, s, t, u, k + 1);
    }
  }

  lemma {:induction false} EffortRemove(unit: Unit, s: set<nat>, i: nat, k: nat)
    requires k <= i < |unit| && i in s
    ensures Effort(unit, s - {i}, k) + Weight(unit, i) == Effort(unit, s, k)
    decreases |unit| - k
  {
    if k < i {
      EffortRemove(unit, s, i, k + 1);
    } else {
      EffortSame(unit, s - {i}, s, k + 1);
    }
  }

  lemma {:induction false} EffortSame(unit: Unit, s: set<nat>, t: set<nat>, k: nat)
    requires k <= |unit| && forall i :: k <= i ==> (i in s <==> i in t)
    ensures Effort(unit, s, k) == Effort(unit, t, k)
    decreases |unit| - k
  {
    if k < |unit| {
      EffortSame(unit, s, t, k + 1);
    }
  }

  lemma {:induction false} EffortSkip(unit: Unit, s: set<nat>, k: nat, m: nat)
    requires k <= m <= |unit| && forall i :: i in s ==> m <= i
    ensures Effort(unit, s, k) == Effort(unit, s, m)
    decreases m - k
  {
    if k < m {
      EffortSkip(unit, s, k + 1, m);
    }
  }

  lemma UsersBehind(unit: Unit, i: nat, j: nat)
    requires UnitOk(unit) && Valued(unit, i) && j in Uses(unit, Result(i))
    ensures i < j
  {
    assert InstOk(unit, j);
    var k :| 0 <= k < |unit[j].args| && unit[j].args[k] == Result(i);
    assert ArgOk(unit, j, unit[j].args[k]);
  }

  /** Replacing an instruction by its users is progress. */
  lemma EffortDrops(unit: Unit, dirty: set<nat>, i: nat, next: set<nat>)
    requires UnitOk(unit) && i < |unit| && i in dirty
    requires next <= dirty - {i} + if Valued(unit, i) then Uses(unit, Result(i)) else {}
    ensures Effort(unit, next, 0) < Effort(unit, dirty, 0)
  {
    EffortRemove(unit, dirty, i, 0);
    if Valued(unit, i) {
      var users := Uses(unit, Result(i));
      forall j | j in users
        ensures i + 1 <= j
      {
        UsersBehind(unit, i, j);
      }
      EffortUnion(unit, dirty - {i}, users, next, 0);
      EffortSkip(unit, users, 0, i + 1);
    } else {
      EffortUnion(unit, dirty - {i}, {}, next, 0);
      EffortSkip(unit, {}, 0, |unit|);
    }
  }

  // ---------------------------------------------------------------- the queue

  /** The queue holds every dirty instruction once. */
  ghost predicate Tracks(unit: Unit, queue: seq<nat>, dirty: set<nat>) {
    && (forall j, k {:trigger queue[j], queue[k]} :: 0 <= j < k < |queue| ==> queue[j] != queue[k])
    && (forall i :: i in dirty <==> i in queue)
    && (forall i :: i in dirty ==> i < |unit|)
  }

  /** Every argument of the k-th instruction in the queue is there, or will be by then. */
  ghost predicate WillHave(unit: Unit, values: Table, queue: seq<nat>, k: nat) {
    k < |queue| && queue[k] < |unit| && forall m {:trigger unit[queue[k]].args[m]} :: 0 <= m < |unit[queue[k]].args| ==>
      unit[queue[k]].args[m] in values || (unit[queue[k]].args[m].Result? && unit[queue[k]].args[m].inst in queue[..k])
  }

  ghost predicate Ordered(unit: Unit, values: Table, queue: seq<nat>) {
    forall k: nat {:trigger WillHave(unit, values, queue, k)} :: k < |queue| ==> WillHave(unit, values, queue, k)
  }

  /** Every slot that is missing will be filled. */
  ghost predicate MissingQueued(unit: Unit, values: Table, queue: seq<nat>) {
    forall i: nat {:trigger Result(i)} :: Valued(unit, i) && Result(i) !in values ==> i in queue
  }

  lemma FrontHas(unit: Unit, values: Table, queue: seq<nat>)
    requires queue != [] && Ordered(unit, values, queue)
    ensures queue[0] < |unit| && Has(unit, queue[0], values)
  {
    assert WillHave(unit, values, queue, 0);
    assert queue[..0] == [];
  }

  /** Once the front of the queue has been executed, the others may rely on its slot. */
  lemma OrderedPop(unit: Unit, values: Table, queue: seq<nat>, after: Table)
    requires UnitOk(unit) && queue != [] && Ordered(unit, values, queue) && Rooted(unit, values)
    requires values.Keys <= after.Keys && (Valued(unit, queue[0]) ==> Result(queue[0]) in after)
    ensures Ordered(unit, after, queue[1..])
  {
    var rest := queue[1..];
    forall k: nat | k < |rest|
      ensures WillHave(unit, after, rest, k)
    {
      assert WillHave(unit, values, queue, k + 1) && rest[k] == queue[k + 1];
      assert InstOk(unit, rest[k]);
      forall m | 0 <= m < |unit[rest[k]].args|
        ensures unit[rest[k]].args[m] in after || (unit[rest[k]].args[m].Result?
          && unit[rest[k]].args[m].inst in rest[..k])
      {
        var a := unit[rest[k]].args[m];
        if a !in values {
          assert a == unit[queue[k + 1]].args[m];
          assert ArgOk(unit, rest[k], a);
          assert queue[..k + 1] == [queue[0]] + rest[..k];
        }
      }
    }
  }

  /** A user may be put at the end of the queue. */
  lemma OrderedPush(unit: Unit, values: Table, queue: seq<nat>, j: nat)
    requires UnitOk(unit) && Ordered(unit, values, queue) && Rooted(unit, values) && MissingQueued(unit, values, queue)
      && j < |unit|
    ensures Ordered(unit, values, queue + [j]) && MissingQueued(unit, values, queue + [j])
  {
    var next := queue + [j];
    assert forall i :: i in queue ==> i in next;
    forall k: nat | k < |next|
      ensures WillHave(unit, values, next, k)
    {
      if k < |queue| {
        assert WillHave(unit, values, queue, k);
        assert next[k] == queue[k] && next[..k] == queue[..k];
      } else {
        assert next[k] == j && next[..k] == queue && InstOk(unit, j);
        forall m | 0 <= m < |unit[j].args|
          ensures unit[j].args[m] in values || (unit[j].args[m].Result? && unit[j].args[m].inst in queue)
        {
          assert ArgOk(unit, j, unit[j].args[m]);
        }
      }
    }
  }

  // ---------------------------------------------------------------- drives

  /** The last event of a drive, given which drive each event is from. */
  ghost function LastEvent(origins: seq<nat>, events: seq<Event>, i: nat): Option<Event>
    requires |origins| == |events|
    decreases |origins|
  {
    if origins == [] then None
    else if origins[|origins| - 1] == i then Some(events[|origins| - 1])
    else LastEvent(origins[..|origins| - 1], events[..|origins| - 1], i)
  }

  lemma LastEventAppend(origins: seq<nat>, events: seq<Event>, j: nat, e: Event, i: nat)
    requires |origins| == |events|
    ensures LastEvent(origins + [j], events + [e], i) == if i == j then Some(e) else LastEvent(origins, events, i)
  {
    assert (origins + [j])[..|origins|] == origins && (events + [e])[..|origins|] == events;
  }

  /** A drive's last event carries what it drives now; without an event, nothing changed for it. */
  ghost predicate DriveOk(unit: Unit, was: Table, values: Table, origins: seq<nat>, events: seq<Event>, i: nat)
    requires i < |unit| && unit[i].op.Drv? && InstOk(unit, i) && |origins| == |events|
  {
    match LastEvent(origins, events, i)
    case Some(e) => Has(unit, i, values) && e == Drive(unit, i, values)
    case None => forall v :: v in unit[i].args ==> v in was && v in values && values[v] == was[v]
  }

  ghost predicate DrivesOk(unit: Unit, was: Table, values: Table, origins: seq<nat>, events: seq<Event>,
      dirty: set<nat>)
    requires UnitOk(unit)
  {
    |origins| == |events| && forall i: nat {:trigger InstOk(unit, i)} :: i < |unit| && unit[i].op.Drv? ==>
      InstOk(unit, i) && (i in dirty || DriveOk(unit, was, values, origins, events, i))
  }

  lemma DriveLocal(unit: Unit, i: nat, a: Table, b: Table)
    requires i < |unit| && unit[i].op.Drv? && InstOk(unit, i) && Has(unit, i, a)
    requires forall v :: v in unit[i].args ==> v in b && b[v] == a[v]
    ensures Has(unit, i, b) && Drive(unit, i, b) == Drive(unit, i, a)
  {
  }

  /** A slot changes. */
  lemma DrivesAfterValue(unit: Unit, was: Table, values: Table, origins: seq<nat>, events: seq<Event>, dirty: set<nat>,
      i: nat, slot: Slot, next: set<nat>)
    requires UnitOk(unit) && DrivesOk(unit, was, values, origins, events, dirty) && Valued(unit, i)
    requires dirty - {i} <= next && ((Result(i) in values && values[Result(i)] == slot)
      || Uses(unit, Result(i)) <= next)
    ensures DrivesOk(unit, was, values[Result(i) := slot], origins, events, next)
  {
    var after := values[Result(i) := slot];
    forall j: nat | j < |unit| && unit[j].op.Drv?
      ensures InstOk(unit, j) && (j in next || DriveOk(unit, was, after, origins, events, j))
    {
      assert InstOk(unit, j);
      if j !in next {
        if Result(i) in unit[j].args {
          assert j in Uses(unit, Result(i));
          assert after == values;
        } else if LastEvent(origins, events, j).Some? {
          DriveLocal(unit, j, values, after);
        }
      }
    }
  }

  /** A drive is executed. */
  lemma DrivesAfterEvent(unit: Unit, was: Table, values: Table, origins: seq<nat>, events: seq<Event>, dirty: set<nat>,
      i: nat)
    requires UnitOk(unit) && DrivesOk(unit, was, values, origins, events, dirty)
    requires i < |unit| && unit[i].op.Drv? && InstOk(unit, i) && Has(unit, i, values)
    ensures DrivesOk(unit, was, values, origins + [i], events + [Drive(unit, i, values)], dirty - {i})
  {
    forall j: nat | j < |unit| && unit[j].op.Drv?
      ensures InstOk(unit, j) && (j in dirty - {i}
        || DriveOk(unit, was, values, origins + [i], events + [Drive(unit, i, values)], j))
    {
      assert InstOk(unit, j);
      LastEventAppend(origins, events, i, Drive(unit, i, values), j);
    }
  }

  // ---------------------------------------------------------------- the worklist

  /** What holds whenever the next dirty instruction is taken off the queue. */
  ghost predicate Inv(unit: Unit, sem: Semantics, signals: Signals, was: Table, values: Table, queue: seq<nat>,
      dirty: set<nat>, origins: seq<nat>, events: seq<Event>)
  {
    && UnitOk(unit) && Rooted(unit, values) && Tracks(unit, queue, dirty)
    && Ordered(unit, values, queue) && MissingQueued(unit, values, queue)
    && Pending(unit, sem, values, signals, dirty)
    && DrivesOk(unit, was, values, origins, events, dirty)
  }

  /** Make the users of a value dirty. */
  method PushUsers(unit: Unit, v: ValueId, queue: seq<nat>, dirty: set<nat>, ghost values: Table)
      returns (queue': seq<nat>, dirty': set<nat>)
    requires UnitOk(unit) && Rooted(unit, values) && Tracks(unit, queue, dirty)
    requires Ordered(unit, values, queue) && MissingQueued(unit, values, queue)
    ensures Tracks(unit, queue', dirty') && Ordered(unit, values, queue') && MissingQueued(unit, values, queue')
    ensures dirty' == dirty + Uses(unit, v)
  {
    queue', dirty' := queue, dirty;
    var users := Uses(unit, v);
    while users != {}
      invariant users <= Uses(unit, v) && dirty' + users == dirty + Uses(unit, v)
      invariant Tracks(unit, queue', dirty') && Ordered(unit, values, queue') && MissingQueued(unit, values, queue')
      decreases |users|
    {
      var i :| i in users;
      users := users - {i};
      if i !in dirty' {
        OrderedPush(unit, values, queue', i);
        TracksPush(unit, queue', dirty', i);
        queue' := queue' + [i];
        dirty' := dirty' + {i};
      }
    }
  }

  lemma TracksPush(unit: Unit, queue: seq<nat>, dirty: set<nat>, i: nat)
    requires Tracks(unit, queue, dirty) && i < |unit| && i !in dirty
    ensures Tracks(unit, queue + [i], dirty + {i})
  {
  }

  lemma TracksPop(unit: Unit, queue: seq<nat>, dirty: set<nat>)
    requires Tracks(unit, queue, dirty) && queue != []
    ensures Tracks(unit, queue[1..], dirty - {queue[0]}) && queue[0] in dirty
  {
    var rest := queue[1..];
    assert queue == [queue[0]] + rest;
    assert forall k :: 0 <= k < |rest| ==> rest[k] == queue[k + 1];
  }

  lemma RootedStep(unit: Unit, sem: Semantics, values: Table, signals: Signals, i: nat, slot: Slot)
    requires Rooted(unit, values) && Valued(unit, i) && slot.Const? == !unit[i].op.Pointing?
      && slot.PointerSlot? == unit[i].op.Pointing?
    ensures Rooted(unit, values[Result(i) := slot])
  {
  }

  lemma PopInv(unit: Unit, values: Table, queue: seq<nat>, dirty: set<nat>, after: Table)
    requires UnitOk(unit) && Rooted(unit, values) && Tracks(unit, queue, dirty) && queue != []
    requires Ordered(unit, values, queue) && MissingQueued(unit, values, queue)
    requires values.Keys <= after.Keys && (Valued(unit, queue[0]) ==> Result(queue[0]) in after)
    ensures Tracks(unit, queue[1..], dirty - {queue[0]}) && Ordered(unit, after, queue[1..])
      && MissingQueued(unit, after, queue[1..])
  {
    TracksPop(unit, queue, dirty);
    OrderedPop(unit, values, queue, after);
    assert queue == [queue[0]] + queue[1..];
  }

  /** The tables differ only in results. */
  predicate SameRoots(unit: Unit, a: Table, b: Table) {
    && a.Keys <= b.Keys && (forall v :: v in b && v !in a ==> v.Result? && Valued(unit, v.inst))
    && (forall v :: v in a && IsRoot(unit, v) ==> b[v] == a[v])
  }

  /** Execute an instruction that yields a value: note the value, and make its users dirty if it changed. */
  method ExecuteValue(unit: Unit, sem: Semantics, signals: Signals, ghost was: Table, values: Table, queue: seq<nat>,
      dirty: set<nat>,
      ghost origins: seq<nat>, ghost events: seq<Event>, i: nat)
        returns (values': Table, queue': seq<nat>, dirty': set<nat>)
    requires Inv(unit, sem, signals, was, values, queue, dirty, origins, events) && queue != [] && i == queue[0]
      && Valued(unit, i)
    ensures Inv(unit, sem, signals, was, values', queue', dirty', origins, events)
    ensures Effort(unit, dirty', 0) < Effort(unit, dirty, 0) && SameRoots(unit, values, values')
  {
    FrontHas(unit, values, queue);
    assert InstOk(unit, i);
    TracksPop(unit, queue, dirty);
    var new_ := Compute(unit, sem, i, values, signals);
    var changed := Result(i) in values && values[Result(i)].Const? ==> values[Result(i)] != new_;
    values' := values[Result(i) := new_];
    RootedStep(unit, sem, values, signals, i, new_);
    PopInv(unit, values, queue, dirty, values');
    queue', dirty' := queue[1..], dirty - {i};
    if changed {
      queue', dirty' := PushUsers(unit, Result(i), queue', dirty', values');
    }
    PendingStep(unit, sem, values, signals, dirty, i, dirty');
    DrivesAfterValue(unit, was, values, origins, events, dirty, i, new_, dirty');
    EffortDrops(unit, dirty, i, dirty');
  }

  /** An instruction without a value is taken off the queue. */
  lemma DropPending(unit: Unit, sem: Semantics, signals: Signals, values: Table, dirty: set<nat>, i: nat)
    requires UnitOk(unit) && Pending(unit, sem, values, signals, dirty) && i < |unit| && !Valued(unit, i)
    ensures Pending(unit, sem, values, signals, dirty - {i})
  {
    forall j: nat | Valued(unit, j)
      ensures InstOk(unit, j) && (j in dirty - {i} || Upstream(unit, dirty - {i}, j)
        || Settled(unit, sem, values, signals, j))
    {
      assert InstOk(unit, j);
      if j !in dirty && Upstream(unit, dirty, j) {
        UpstreamStep(unit, dirty, i, dirty - {i}, j);
      }
    }
  }

  lemma DropDrives(unit: Unit, was: Table, values: Table, origins: seq<nat>, events: seq<Event>, dirty: set<nat>,
      i: nat)
    requires UnitOk(unit) && DrivesOk(unit, was, values, origins, events, dirty) && i < |unit| && !unit[i].op.Drv?
    ensures DrivesOk(unit, was, values, origins, events, dirty - {i})
  {
    forall j: nat | j < |unit| && unit[j].op.Drv?
      ensures InstOk(unit, j) && (j in dirty - {i} || DriveOk(unit, was, values, origins, events, j))
    {
      assert InstOk(unit, j);
    }
  }

  /** At the very first step everything is dirty. */
  lemma StartFirst(unit: Unit, sem: Semantics, now: Signals, values: Table, queue: seq<nat>, dirty: set<nat>)
    requires UnitOk(unit) && Rooted(unit, values) && Tracks(unit, queue, dirty) && queue == seq(|unit|, i => i)
    ensures Inv(unit, sem, now, values, values, queue, dirty, [], [])
  {
    forall i: nat | i < |unit|
      ensures i in dirty && InstOk(unit, i)
    {
      assert queue[i] == i;
      assert InstOk(unit, i);
    }
    forall k: nat | k < |queue|
      ensures WillHave(unit, values, queue, k)
    {
      assert InstOk(unit, queue[k]);
      forall m | 0 <= m < |unit[k].args|
        ensures unit[k].args[m] in values || (unit[k].args[m].Result? && unit[k].args[m].inst in queue[..k])
      {
        assert ArgOk(unit, k, unit[k].args[m]);
        if unit[k].args[m] !in values {
          assert queue[..k][unit[k].args[m].inst] == unit[k].args[m].inst;
        }
      }
    }
  }

  lemma SettledHas(unit: Unit, sem: Semantics, before: Signals, values: Table, i: nat)
    requires UnitOk(unit) && Rooted(unit, values) && AllSettled(unit, sem, values, before) && i < |unit|
    ensures InstOk(unit, i) && Has(unit, i, values)
  {
    assert InstOk(unit, i);
    forall k | 0 <= k < |unit[i].args|
      ensures unit[i].args[k] in values
    {
      var a := unit[i].args[k];
      assert ArgOk(unit, i, a);
      if !IsRoot(unit, a) {
        assert InstOk(unit, a.inst);
      }
    }
  }

  /** Later on, the instructions that react to a change are. */
  lemma StartChanged(unit: Unit, sem: Semantics, before: Signals, now: Signals, values: Table, queue: seq<nat>,
      dirty: set<nat>, changed: set<Target>)
    requires UnitOk(unit) && WellBehaved(sem) && Rooted(unit, values) && Tracks(unit, queue, dirty)
    requires AllSettled(unit, sem, values, before) && Differ(before, now, changed)
      && Triggered(unit, values, changed, dirty)
    ensures Inv(unit, sem, now, values, values, queue, dirty, [], [])
  {
    PendingStart(unit, sem, values, before, now, changed, dirty);
    forall k: nat | k < |queue|
      ensures WillHave(unit, values, queue, k)
    {
      assert queue[k] in dirty;
      SettledHas(unit, sem, before, values, queue[k]);
    }
    forall i: nat | Valued(unit, i)
      ensures Result(i) in values
    {
      assert InstOk(unit, i);
    }
    forall i: nat | i < |unit| && unit[i].op.Drv?
      ensures InstOk(unit, i) && DriveOk(unit, values, values, [], [], i)
    {
      SettledHas(unit, sem, before, values, i);
    }
  }

  /** Execute an instruction that yields no value: a drive schedules an event. */
  method ExecuteOther(unit: Unit, ghost sem: Semantics, ghost signals: Signals, ghost was: Table, values: Table,
      queue: seq<nat>, dirty: set<nat>,
      ghost origins: seq<nat>, events: seq<Event>, i: nat)
        returns (queue': seq<nat>, dirty': set<nat>, ghost origins': seq<nat>, events': seq<Event>)
    requires Inv(unit, sem, signals, was, values, queue, dirty, origins, events) && queue != [] && i == queue[0]
    requires i < |unit| && !Valued(unit, i)
    ensures Inv(unit, sem, signals, was, values, queue', dirty', origins', events')
    ensures Effort(unit, dirty', 0) < Effort(unit, dirty, 0)
  {
    FrontHas(unit, values, queue);
    assert InstOk(unit, i);
    PopInv(unit, values, queue, dirty, values);
    TracksPop(unit, queue, dirty);
    EffortDrops(unit, dirty, i, dirty - {i});
    DropPending(unit, sem, signals, values, dirty, i);
    queue', dirty', events', origins' := queue[1..], dirty - {i}, events, origins;
    if unit[i].op.Drv? {
      DrivesAfterEvent(unit, was, values, origins, events, dirty, i);
      events', origins' := events + [Drive(unit, i, values)], origins + [i];
    } else {
      DropDrives(unit, was, values, origins, events, dirty, i);
    }
  }

  // ---------------------------------------------------------------- the reference: execute everything in order

  ghost function Roots(unit: Unit, values: Table): Table {
    map v | v in values && IsRoot(unit, v) :: values[v]
  }

  /** The table after executing the first n instructions on the roots. */
  ghost function FullEval(unit: Unit, sem: Semantics, roots: Table, signals: Signals, n: nat): Table
    requires n <= |unit|
  {
    if n == 0 then roots
    else
      var t := FullEval(unit, sem, roots, signals, n - 1);
      if Valued(unit, n - 1) && InstOk(unit, n - 1) && Has(unit, n - 1, t) then
        t[Result(n - 1) := Compute(unit, sem, n - 1, t, signals)]
      else t
  }

  /** A table in which everything is settled, as far as the first n instructions. */
  ghost predicate UpTo(unit: Unit, values: Table, n: nat, t: Table) {
    && (forall v :: v in t <==> v in values && (IsRoot(unit, v) || v.inst < n))
    && (forall v :: v in t ==> t[v] == values[v])
  }

  lemma {:induction false} FullEvalUpTo(unit: Unit, sem: Semantics, values: Table, signals: Signals, n: nat)
    requires UnitOk(unit) && Rooted(unit, values) && AllSettled(unit, sem, values, signals) && n <= |unit|
    ensures UpTo(unit, values, n, FullEval(unit, sem, Roots(unit, values), signals, n))
    decreases n
  {
    if n > 0 {
      var i := n - 1;
      var t := FullEval(unit, sem, Roots(unit, values), signals, i);
      FullEvalUpTo(unit, sem, values, signals, i);
      assert InstOk(unit, i);
      if Valued(unit, i) {
        assert Settled(unit, sem, values, signals, i);
        forall v | v in unit[i].args
          ensures v in t && t[v] == values[v]
        {
          var k :| 0 <= k < |unit[i].args| && unit[i].args[k] == v;
          assert ArgOk(unit, i, v);
        }
        ComputeLocal(unit, sem, i, values, t, signals);
      }
    }
  }

  /** A settled table is what executing everything in order yields. */
  lemma SettledIsFullEval(unit: Unit, sem: Semantics, values: Table, signals: Signals)
    requires UnitOk(unit) && Rooted(unit, values) && AllSettled(unit, sem, values, signals)
    ensures values == FullEval(unit, sem, Roots(unit, values), signals, |unit|)
  {
    FullEvalUpTo(unit, sem, values, signals, |unit|);
    assert UpTo(unit, values, |unit|, values);
  }

  /** Executing everything in order settles everything. */
  ghost predicate SettledBelow(unit: Unit, sem: Semantics, values: Table, signals: Signals, n: nat, t: Table)
    requires UnitOk(unit)
  {
    && Rooted(unit, t) && (forall v {:trigger v in t} :: v in t ==> IsRoot(unit, v) || v.inst < n)
    && (forall v {:trigger v in t} :: IsRoot(unit, v) ==> (v in t <==> v in values) && (v in t ==> t[v] == values[v]))
    && (forall i: nat {:trigger InstOk(unit, i)} :: i < n && Valued(unit, i) ==>
      InstOk(unit, i) && Settled(unit, sem, t, signals, i))
  }

  lemma {:induction false} HasBelow(unit: Unit, sem: Semantics, values: Table, signals: Signals, n: nat, t: Table,
      i: nat)
    requires UnitOk(unit) && Rooted(unit, values) && SettledBelow(unit, sem, values, signals, n, t)
    requires i <= n && i < |unit|
    ensures InstOk(unit, i) && Has(unit, i, t)
  {
    assert InstOk(unit, i);
    forall k | 0 <= k < |unit[i].args|
      ensures unit[i].args[k] in t
    {
      var a := unit[i].args[k];
      assert ArgOk(unit, i, a);
      if !IsRoot(unit, a) {
        assert InstOk(unit, a.inst);
      }
    }
  }

  lemma {:induction false} SettleNext(unit: Unit, sem: Semantics, values: Table, signals: Signals, i: nat, t: Table)
    requires UnitOk(unit) && Rooted(unit, values) && SettledBelow(unit, sem, values, signals, i, t)
    requires Valued(unit, i) && InstOk(unit, i) && Has(unit, i, t)
    ensures SettledBelow(unit, sem, values, signals, i + 1, t[Result(i) := Compute(unit, sem, i, t, signals)])
  {
    var slot := Compute(unit, sem, i, t, signals);
    var t' := t[Result(i) := slot];
    RootedStep(unit, sem, t, signals, i, slot);
    forall j: nat | j < i + 1 && Valued(unit, j)
      ensures InstOk(unit, j) && Settled(unit, sem, t', signals, j)
    {
      assert InstOk(unit, j);
      HasBelow(unit, sem, values, signals, i, t, j);
      forall v | v in unit[j].args
        ensures v in t' && t'[v] == t[v]
      {
        var k :| 0 <= k < |unit[j].args| && unit[j].args[k] == v;
        assert ArgOk(unit, j, v);
      }
      ComputeLocal(unit, sem, j, t, t', signals);
    }
  }

  lemma SettleSkip(unit: Unit, sem: Semantics, values: Table, signals: Signals, i: nat, t: Table)
    requires UnitOk(unit) && SettledBelow(unit, sem, values, signals, i, t) && !Valued(unit, i)
    ensures SettledBelow(unit, sem, values, signals, i + 1, t)
  {
    forall j: nat | j < i + 1 && Valued(unit, j)
      ensures InstOk(unit, j) && Settled(unit, sem, t, signals, j)
    {
      assert InstOk(unit, j);
    }
  }

  lemma {:induction false} FullEvalSettles(unit: Unit, sem: Semantics, values: Table, signals: Signals, n: nat)
    requires UnitOk(unit) && Rooted(unit, values) && n <= |unit|
    ensures SettledBelow(unit, sem, values, signals, n, FullEval(unit, sem, Roots(unit, values), signals, n))
    decreases n
  {
    if n > 0 {
      var t := FullEval(unit, sem, Roots(unit, values), signals, n - 1);
      FullEvalSettles(unit, sem, values, signals, n - 1);
      HasBelow(unit, sem, values, signals, n - 1, t, n - 1);
      if Valued(unit, n - 1) {
        SettleNext(unit, sem, values, signals, n - 1, t);
      } else {
        SettleSkip(unit, sem, values, signals, n - 1, t);
      }
    }
  }

  /** The first n instructions that are drives. */
  ghost function DriveIds(unit: Unit, n: nat): (r: seq<nat>)
    requires n <= |unit|
    ensures forall k :: 0 <= k < |r| ==> r[k] < n && unit[r[k]].op.Drv?
  {
    if n == 0 then [] else DriveIds(unit, n - 1) + if unit[n - 1].op.Drv? then [n - 1] else []
  }

  /** Each drive's event on a table. */
  ghost function DriveAll(unit: Unit, values: Table, n: nat): (r: seq<Event>)
    requires n <= |unit| && forall i: nat :: i < |unit| && unit[i].op.Drv? ==> InstOk(unit, i) && Has(unit, i, values)
    ensures |r| == |DriveIds(unit, n)|
  {
    if n == 0 then []
    else DriveAll(unit, values, n - 1) + if unit[n - 1].op.Drv? then [Drive(unit, n - 1, values)] else []
  }

  lemma {:induction false} DriveAllLast(unit: Unit, values: Table, n: nat, i: nat)
    requires n <= |unit| && forall i: nat :: i < |unit| && unit[i].op.Drv? ==> InstOk(unit, i) && Has(unit, i, values)
    requires i < n && unit[i].op.Drv?
    ensures LastEvent(DriveIds(unit, n), DriveAll(unit, values, n), i) == Some(Drive(unit, i, values))
    decreases n
  {
    var origins, events := DriveIds(unit, n - 1), DriveAll(unit, values, n - 1);
    if i < n - 1 {
      DriveAllLast(unit, values, n - 1, i);
    }
    if unit[n - 1].op.Drv? {
      LastEventAppend(origins, events, n - 1, Drive(unit, n - 1, values), i);
    } else {
      assert DriveIds(unit, n) == origins && DriveAll(unit, values, n) == events;
    }
  }

  /** Driving everything once the table is settled is a proper evaluation. */
  lemma {:induction false} DriveAllOk(unit: Unit, was: Table, values: Table)
    requires UnitOk(unit) && forall i: nat :: i < |unit| && unit[i].op.Drv? ==> InstOk(unit, i) && Has(unit, i, values)
    ensures DrivesOk(unit, was, values, DriveIds(unit, |unit|), DriveAll(unit, values, |unit|), {})
  {
    forall i: nat | i < |unit| && unit[i].op.Drv?
      ensures InstOk(unit, i) && DriveOk(unit, was, values, DriveIds(unit, |unit|), DriveAll(unit, values, |unit|), i)
    {
      assert InstOk(unit, i);
      DriveAllLast(unit, values, |unit|, i);
    }
  }

  lemma SameRootsTransitive(unit: Unit, a: Table, b: Table, c: Table)
    requires SameRoots(unit, a, b) && SameRoots(unit, b, c)
    ensures SameRoots(unit, a, c)
  {
  }

  lemma SameRootsSame(unit: Unit, a: Table, b: Table)
    requires SameRoots(unit, a, b) && Rooted(unit, b) && Rooted(unit, a)
    ensures Roots(unit, a) == Roots(unit, b)
  {
  }

  // ---------------------------------------------------------------- the instance

  datatype InstanceState = Ready | Wait(signals: seq<nat>) | Done

  /** Every signal has one value in the unit, and the instance knows it. */
  ghost predicate OneValue(values: Table, signals: seq<nat>, signalValues: map<nat, ValueId>) {
    && (forall v {:trigger values[v]} :: v in values && values[v].SignalSlot? ==>
         values[v].signal in signals && values[v].signal in signalValues && signalValues[values[v].signal] == v)
    && (forall s :: s in signals ==> s in signalValues)
  }

  class Instance {
    const unit: Unit
    const signals: seq<nat>
    const signalValues: map<nat, ValueId>
    var values: Table
    var state: InstanceState

    constructor (unit: Unit, signals: seq<nat>, signalValues: map<nat, ValueId>, values: Table)
      ensures this.unit == unit && this.signals == signals && this.signalValues == signalValues && this.values == values
        && state == Ready
    {
      this.unit, this.signals, this.signalValues, this.values, state := unit, signals, signalValues, values, Ready;
    }

    /** The instructions that use a value and yield one themselves. */
    ghost function ValuedUses(v: ValueId): set<nat>
      reads this
    {
      set i | i in Uses(unit, v) && Valued(unit, i)
    }

    /** The probes and other instructions that react to a changed signal. */
    method Trigger(v: ValueId, queue: seq<nat>, dirty: set<nat>) returns (queue': seq<nat>, dirty': set<nat>)
      requires Tracks(unit, queue, dirty)
      ensures Tracks(unit, queue', dirty')
      ensures dirty' == dirty + ValuedUses(v)
    {
      queue', dirty' := queue, dirty;
      var users := Uses(unit, v);
      ghost var wanted := ValuedUses(v);
      while users != {}
        invariant users <= Uses(unit, v) && Tracks(unit, queue', dirty')
        invariant dirty <= dirty' <= dirty + wanted && wanted <= dirty' + users
        decreases |users|
      {
        var i :| i in users;
        users := users - {i};
        if unit[i].op.Drv? || unit[i].op.Sig? || unit[i].op.Other? {
          continue;
        }
        if i !in dirty' {
          TracksPush(unit, queue', dirty', i);
          queue' := queue' + [i];
          dirty' := dirty' + {i};
        }
      }
    }

    /** Collect the instructions to start with. */
    method Collect(changed: set<Target>, first: bool) returns (queue: seq<nat>, dirty: set<nat>)
      requires OneValue(values, signals, signalValues)
      ensures Tracks(unit, queue, dirty)
      ensures first ==> queue == seq(|unit|, i => i)
      ensures !first ==> Triggered(unit, values, changed, dirty)
    {
      queue, dirty := [], {};
      if first {
        for i := 0 to |unit|
          invariant queue == seq(i, k => k) && Tracks(unit, queue, dirty) && forall j :: j in dirty ==> j < i
        {
          TracksPush(unit, queue, dirty, i);
          queue := queue + [i];
          dirty := dirty + {i};
        }
      } else {
        for k := 0 to |signals|
          invariant Tracks(unit, queue, dirty)
          invariant forall j, i: nat ::
            0 <= j < k && SignalTarget(signals[j]) in changed && Valued(unit, i)
              && signalValues[signals[j]] in unit[i].args ==>
              i in dirty
        {
          if SignalTarget(signals[k]) in changed {
            queue, dirty := Trigger(signalValues[signals[k]], queue, dirty);
          }
        }
        forall v, i: nat | v in values && values[v].SignalSlot? && SignalTarget(values[v].signal) in changed
          && Valued(unit, i) && v in unit[i].args
          ensures i in dirty
        {
          var j :| 0 <= j < |signals| && signals[j] == values[v].signal;
          assert signalValues[signals[j]] == v;
        }
      }
    }

    /** `step_entity`: evaluate what depends on the changed signals. */
    method StepEntity(sem: Semantics, now: Signals, changed: set<Target>, first: bool, ghost before: Signals)
        returns (events: seq<Event>, ghost origins: seq<nat>)
      requires UnitOk(unit) && WellBehaved(sem) && Rooted(unit, values) && OneValue(values, signals, signalValues)
      requires !first ==> AllSettled(unit, sem, values, before) && Differ(before, now, changed)
      modifies this
      ensures values == FullEval(unit, sem, Roots(unit, old(values)), now, |unit|)
      ensures AllSettled(unit, sem, values, now) && Rooted(unit, values) && OneValue(values, signals, signalValues)
      ensures DrivesOk(unit, old(values), values, origins, events, {})
      ensures state == Wait(signals)
    {
      ghost var was := values;
      events, origins := [], [];
      var queue, dirty := Collect(changed, first);
      if first {
        StartFirst(unit, sem, now, values, queue, dirty);
      } else {
        StartChanged(unit, sem, before, now, values, queue, dirty, changed);
      }
      while queue != []
        invariant Inv(unit, sem, now, was, values, queue, dirty, origins, events) && SameRoots(unit, was, values)
        decreases Effort(unit, dirty, 0)
      {
        var i := queue[0];
        FrontHas(unit, values, queue);
        if Valued(unit, i) {
          var values', queue', dirty' := ExecuteValue(unit, sem, now, was, values, queue, dirty, origins, events, i);
          SameRootsTransitive(unit, was, values, values');
          values, queue, dirty := values', queue', dirty';
        } else {
          queue, dirty, origins, events := ExecuteOther(unit, sem, now, was, values, queue, dirty, origins, events, i);
        }
      }
      assert dirty == {};
      state := Wait(signals);
      PendingDone(unit, sem, values, now);
      SettledIsFullEval(unit, sem, values, now);
      SameRootsSame(unit, was, values);
    }
  }
}
