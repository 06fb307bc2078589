/** Turning the conditional drives of a process into storage elements (src/pass/deseq.rs,
    `deseq_process` and `Migrator`). */
module Deseq {
  import opened Dnf
  import opened Options
  import opened Triggers

  // ---------------------------------------------------------------- storage elements

  datatype RegMode = RiseMode | FallMode | HighMode

  datatype RegTrigger = RegTrigger(data: Value, mode: RegMode, trigger: Value, gate: Option<Value>)

  datatype Reg = Reg(target: Value, triggers: seq<RegTrigger>)

  /** A trigger of a storage element fires when the signals change from what they were before the wait. */
  predicate RegFires(dst: seq<Node>, env: Env, t: RegTrigger) {
    var was, now := AsBit(Eval(dst, env, At(Before), t.trigger)), AsBit(Eval(dst, env, At(Behind), t.trigger));
    && (match t.mode
        case RiseMode => !was && now
        case FallMode => was && !now
        case HighMode => now)
    && (t.gate.Some? ==> AsBit(Eval(dst, env, At(Behind), t.gate.value)))
  }

  // ---------------------------------------------------------------- instructions that are added

  /** Arguments come first. */
  predicate DstOk(dst: seq<Node>) {
    forall i, k {:trigger dst[i].data.args[k]} :: 0 <= i < |dst| && 0 <= k < |dst[i].data.args| ==>
      Rank(dst[i].data.args[k]) <= i
  }

  lemma {:induction false} EvalGrow(a: seq<Node>, b: seq<Node>, env: Env, when_: When, v: Value)
    requires DstOk(a) && a <= b && Rank(v) <= |a|
    ensures Eval(b, env, when_, v) == Eval(a, env, when_, v)
    decreases Rank(v), 0
  {
    if v.Res? {
      assert b[v.inst] == a[v.inst];
      ArgsGrow(a, b, env, when_, a[v.inst].data.args, v.inst);
    }
  }

  lemma {:induction false} ArgsGrow(a: seq<Node>, b: seq<Node>, env: Env, when_: When, args: seq<Value>, bound: nat)
    requires DstOk(a) && a <= b && bound <= |a|
    ensures EvalArgs(b, env, when_, args, bound) == EvalArgs(a, env, when_, args, bound)
    decreases bound, 1 + |args|
  {
    if args == [] {
    } else {
      if Rank(args[0]) <= bound {
        EvalGrow(a, b, env, when_, args[0]);
      }
      ArgsGrow(a, b, env, when_, args[1..], bound);
    }
  }

  // ---------------------------------------------------------------- known signal values

  type Ties = map<(Value, Region), TriggerLevel>

  ghost predicate Tied(env: Env, ties: Ties) {
    forall k :: k in ties ==> env.bit(k.0, k.1) == ties[k].High?
  }

  /** A migrated value is what the original one is, if the signals are what they are known to be. */
  ghost predicate Migrated(src: seq<Node>, dst: seq<Node>, ties: Ties, value: Value, v: Value) {
    && Rank(v) <= |dst| && (value.Arg? ==> v == value)
    && forall env {:trigger Tied(env, ties)} :: Tied(env, ties) ==>
      Eval(dst, env, At(Behind), v) == Eval(src, env, Own, value)
  }

  lemma MigratedGrow(src: seq<Node>, a: seq<Node>, b: seq<Node>, ties: Ties, value: Value, v: Value)
    requires Migrated(src, a, ties, value, v) && DstOk(a) && a <= b
    ensures Migrated(src, b, ties, value, v)
  {
    forall env | Tied(env, ties)
      ensures Eval(b, env, At(Behind), v) == Eval(src, env, Own, value)
    {
      EvalGrow(a, b, env, At(Behind), v);
    }
  }

  /** All arguments have been migrated. */
  ghost predicate AllMigrated(src: seq<Node>, dst: seq<Node>, ties: Ties, args: seq<Value>, vs: seq<Value>) {
    |vs| <= |args| && forall k :: 0 <= k < |vs| ==> Migrated(src, dst, ties, args[k], vs[k])
  }

  lemma AllMigratedGrow(src: seq<Node>, a: seq<Node>, b: seq<Node>, ties: Ties, args: seq<Value>, vs: seq<Value>)
    requires AllMigrated(src, a, ties, args, vs) && DstOk(a) && a <= b
    ensures AllMigrated(src, b, ties, args, vs)
  {
    forall k | 0 <= k < |vs|
      ensures Migrated(src, b, ties, args[k], vs[k])
    {
      MigratedGrow(src, a, b, ties, args[k], vs[k]);
    }
  }

  /** A value can be moved unless it depends on something unknown: a probe before the wait of a signal that is not
      known, or a value that no instruction yields. */
  predicate Movable(src: seq<Node>, ties: Ties, value: Value)
    requires NodesOk(src)
    decreases Rank(value)
  {
    value.Arg? || (value.inst < |src| &&
    assert NodeOk(src, value.inst);
    var node := src[value.inst];
    if node.data.op.Prb? then (node.data.args[0], node.region) in ties || node.region == Behind
    else forall k :: 0 <= k < |node.data.args| ==> Movable(src, ties, node.data.args[k]))
  }

  /** The arguments have the same values. */
  lemma SameArgs(src: seq<Node>, dst: seq<Node>, env: Env, ties: Ties, args: seq<Value>, vs: seq<Value>, i: nat, j: nat)
    requires AllMigrated(src, dst, ties, args, vs) && |args| == |vs| && Tied(env, ties)
    requires (forall k :: 0 <= k < |args| ==> Rank(args[k]) <= i) && forall k :: 0 <= k < |vs| ==> Rank(vs[k]) <= j
    ensures EvalArgs(dst, env, At(Behind), vs, j) == EvalArgs(src, env, Own, args, i)
  {
    var l, r := EvalArgs(dst, env, At(Behind), vs, j), EvalArgs(src, env, Own, args, i);
    forall k | 0 <= k < |args|
      ensures l[k] == r[k]
    {
      EvalArgsAt(dst, env, At(Behind), vs, j, k);
      EvalArgsAt(src, env, Own, args, i, k);
      assert Migrated(src, dst, ties, args[k], vs[k]);
    }
  }

  /** An instruction with migrated arguments computes the same, unless it probes a signal before the wait. */
  lemma InstMigrated(src: seq<Node>, dst: seq<Node>, ties: Ties, i: nat, vs: seq<Value>, j: nat)
    requires NodesOk(src) && i < |src| && DstOk(dst) && j < |dst|
    requires AllMigrated(src, dst, ties, src[i].data.args, vs) && |vs| == |src[i].data.args|
    requires dst[j].data == src[i].data.(args := vs) && (src[i].data.op.Prb? ==> src[i].region == Behind)
    ensures Migrated(src, dst, ties, Res(i), Res(j))
  {
    assert NodeOk(src, i);
    forall env | Tied(env, ties)
      ensures Eval(dst, env, At(Behind), Res(j)) == Eval(src, env, Own, Res(i))
    {
      assert forall k :: 0 <= k < |vs| ==> dst[j].data.args[k] == vs[k];
      SameArgs(src, dst, env, ties, src[i].data.args, vs, i, j);
      if src[i].data.op.Prb? {
        assert Migrated(src, dst, ties, src[i].data.args[0], vs[0]);
      }
    }
  }

  /** A probe of a signal that is known is a constant. */
  lemma ProbeMigrated(src: seq<Node>, dst: seq<Node>, ties: Ties, i: nat, level: TriggerLevel, j: nat)
    requires NodesOk(src) && i < |src| && j < |dst| && src[i].data.op.Prb? && |src[i].data.args| == 1
      && src[i].data.width == 1
    requires (src[i].data.args[0], src[i].region) in ties && ties[(src[i].data.args[0], src[i].region)] == level
    requires dst[j].data == Data(Const(if level.High? then 1 else 0), [], 1)
    ensures Migrated(src, dst, ties, Res(i), Res(j))
  {
  }

  /** Probes of signals that are known are of type i1. */
  ghost predicate BitTies(src: seq<Node>, ties: Ties) {
    forall i {:trigger src[i]} ::
      0 <= i < |src| && src[i].data.op.Prb? && |src[i].data.args| == 1
        && (src[i].data.args[0], src[i].region) in ties ==>
        src[i].data.width == 1
  }

  // ---------------------------------------------------------------- gates

  ghost predicate MeansLevels(dst: seq<Node>, v: Value, levels: map<Value, TriggerLevel>) {
    Rank(v) <= |dst| && forall env {:trigger LevelsHold(env, levels)} :: AsBit(Eval(dst, env, At(Behind), v)) <==>
      LevelsHold(env, levels)
  }

  lemma MeansLevelsGrow(a: seq<Node>, b: seq<Node>, v: Value, levels: map<Value, TriggerLevel>)
    requires MeansLevels(a, v, levels) && DstOk(a) && a <= b
    ensures MeansLevels(b, v, levels)
  {
    forall env
      ensures AsBit(Eval(b, env, At(Behind), v)) <==> LevelsHold(env, levels)
    {
      EvalGrow(a, b, env, At(Behind), v);
    }
  }

  /** A new storage trigger fires exactly when the old trigger does, and then stores what the old drive drives. */
  ghost predicate RegStands(src: seq<Node>, dst: seq<Node>, t: Trigger, value: Value, r: RegTrigger) {
    && Rank(r.data) <= |dst| && Rank(r.trigger) <= |dst| && (r.gate.Some? ==> Rank(r.gate.value) <= |dst|)
    && forall env {:trigger Fires(env, t)} ::
         (RegFires(dst, env, r) <==> Fires(env, t))
           && (Fires(env, t) ==> Eval(dst, env, At(Behind), r.data) == Eval(src, env, Own, value))
  }

  lemma RegStandsGrow(src: seq<Node>, a: seq<Node>, b: seq<Node>, t: Trigger, value: Value, r: RegTrigger)
    requires RegStands(src, a, t, value, r) && DstOk(a) && a <= b
    ensures RegStands(src, b, t, value, r)
  {
    forall env
      ensures RegFires(b, env, r) <==> Fires(env, t)
      ensures Fires(env, t) ==> Eval(b, env, At(Behind), r.data) == Eval(src, env, Own, value)
    {
      EvalGrow(a, b, env, At(Behind), r.data);
      EvalGrow(a, b, env, At(Behind), r.trigger);
      EvalGrow(a, b, env, At(Before), r.trigger);
      if r.gate.Some? {
        EvalGrow(a, b, env, At(Behind), r.gate.value);
      }
    }
  }

  ghost predicate AllRegsStand(src: seq<Node>, dst: seq<Node>, ts: seq<Trigger>, value: Value, rs: seq<RegTrigger>) {
    |rs| <= |ts| && forall k :: 0 <= k < |rs| ==> RegStands(src, dst, ts[k], value, rs[k])
  }

  lemma AllRegsStandGrow(src: seq<Node>, a: seq<Node>, b: seq<Node>, ts: seq<Trigger>, value: Value,
      rs: seq<RegTrigger>)
    requires AllRegsStand(src, a, ts, value, rs) && DstOk(a) && a <= b
    ensures AllRegsStand(src, b, ts, value, rs)
  {
    forall k | 0 <= k < |rs|
      ensures RegStands(src, b, ts[k], value, rs[k])
    {
      RegStandsGrow(src, a, b, ts[k], value, rs[k]);
    }
  }

  // ---------------------------------------------------------------- the migrator

  class Migrator {
    const src: seq<Node>
    var dst: seq<Node>
    var cache: map<Data, Value>
    var regs: seq<Reg>

    constructor (src: seq<Node>)
      ensures this.src == src && dst == [] && cache == map[] && regs == [] && Valid()
    {
      this.src, dst, cache, regs := src, [], map[], [];
    }

    /** Cached instructions are there. */
    ghost predicate Valid()
      reads this
    {
      && DstOk(dst)
      && (forall d {:trigger cache[d]} :: d in cache ==>
        cache[d].Res? && cache[d].inst < |dst| && dst[cache[d].inst].data == d)
    }

    /** Build an instruction. */
    method Build(data: Data) returns (v: Value)
      requires Valid() && forall k :: 0 <= k < |data.args| ==> Rank(data.args[k]) <= |dst|
      modifies `dst
      ensures Valid() && dst == old(dst) + [Node(data, Behind)] && v == Res(|old(dst)|)
    {
      v := Res(|dst|);
      dst := dst + [Node(data, Behind)];
    }

    /** `migrate_inst_data`: build an instruction, unless the same one is there already. */
    method MigrateInstData(data: Data) returns (v: Value)
      requires Valid() && forall k :: 0 <= k < |data.args| ==> Rank(data.args[k]) <= |dst|
      modifies `dst, `cache
      ensures Valid() && old(dst) <= dst && v.Res? && v.inst < |dst| && dst[v.inst].data == data
    {
      if data in cache {
        v := cache[data];
      } else {
        v := Build(data);
        cache := cache[data := v];
      }
    }

    /** `migrate_value`: migrate a value and everything that it depends on. */
    method MigrateValue(value: Value, ties: Ties) returns (r: Option<Value>)
      requires Valid() && NodesOk(src) && BitTies(src, ties)
      modifies `dst, `cache
      ensures Valid() && old(dst) <= dst
      ensures r.Some? <==> Movable(src, ties, value)
      ensures r.Some? ==> Migrated(src, dst, ties, value, r.value)
      decreases Rank(value), 1
    {
      if value.Arg? {
        return Some(value);
      }
      if value.inst >= |src| {
        return None;
      }
      var data, region := src[value.inst].data, src[value.inst].region;
      assert NodeOk(src, value.inst);
      if data.op.Prb? {
        var sig := data.args[0];
        if (sig, region) in ties {
          var level := ties[(sig, region)];
          var v := MigrateInstData(Data(Const(if level.High? then 1 else 0), [], 1));
          ProbeMigrated(src, dst, ties, value.inst, level, v.inst);
          return Some(v);
        }
        if region != Behind {
          return None;
        }
      }
      var args := MigrateArgs(data.args, ties, value.inst);
      if args.None? {
        return None;
      }
      ghost var was := dst;
      var v := MigrateInstData(data.(args := args.value));
      AllMigratedGrow(src, was, dst, ties, data.args, args.value);
      InstMigrated(src, dst, ties, value.inst, args.value, v.inst);
      r := Some(v);
    }

    /** Migrate the arguments of an instruction. */
    method MigrateArgs(args: seq<Value>, ties: Ties, bound: nat) returns (r: Option<seq<Value>>)
      requires Valid() && NodesOk(src) && BitTies(src, ties) && forall k :: 0 <= k < |args| ==> Rank(args[k]) <= bound
      modifies `dst, `cache
      ensures Valid() && old(dst) <= dst
      ensures r.Some? <==> forall k :: 0 <= k < |args| ==> Movable(src, ties, args[k])
      ensures r.Some? ==> |r.value| == |args| && AllMigrated(src, dst, ties, args, r.value)
      decreases bound, 2
    {
      var out: seq<Value> := [];
      for k := 0 to |args|
        invariant Valid() && old(dst) <= dst && |out| == k && AllMigrated(src, dst, ties, args, out)
        invariant forall n :: 0 <= n < k ==> Movable(src, ties, args[n])
      {
        ghost var was := dst;
        var v := MigrateValue(args[k], ties);
        if v.None? {
          return None;
        }
        AllMigratedGrow(src, was, dst, ties, args, out);
        out := out + [v.value];
      }
      r := Some(out);
    }

    /** Probe a signal in the new entity, inverted for a low level. */
    method ProbeLevel(sig: Value, level: TriggerLevel) returns (v: Value)
      requires Valid() && sig.Arg?
      modifies `dst
      ensures Valid() && old(dst) <= dst && MeansLevels(dst, v, map[sig := level])
    {
      v := Build(Data(Prb, [sig], 1));
      ghost var probe, was := v, dst;
      if level.Low? {
        v := Build(Data(Not, [v], 1));
      }
      forall env
        ensures AsBit(Eval(dst, env, At(Behind), v)) <==> LevelsHold(env, map[sig := level])
      {
        assert sig in map[sig := level];
        EvalGrow(was, dst, env, At(Behind), probe);
        if level.Low? {
          EvalArgsAt(dst, env, At(Behind), [probe], v.inst, 0);
        }
      }
    }

    /** The conjunction of all levels, if there are any. */
    method MigrateLevels(levels: map<Value, TriggerLevel>) returns (gate: Option<Value>)
      requires Valid() && forall s :: s in levels ==> s.Arg?
      modifies `dst
      ensures Valid() && old(dst) <= dst && (gate.None? <==> levels == map[])
      ensures gate.Some? ==> MeansLevels(dst, gate.value, levels)
    {
      gate := None;
      var rest := levels.Keys;
      ghost var done: map<Value, TriggerLevel> := map[];
      while rest != {}
        invariant rest <= levels.Keys && Valid() && old(dst) <= dst && (gate.None? <==> done == map[])
        invariant gate.Some? ==> MeansLevels(dst, gate.value, done)
        invariant done.Keys == levels.Keys - rest && forall s :: s in done ==> done[s] == levels[s]
        decreases |rest|
      {
        var s :| s in rest;
        rest := rest - {s};
        ghost var was := dst;
        var v := ProbeLevel(s, levels[s]);
        if gate.None? {
          assert map[s := levels[s]] == done[s := levels[s]];
          gate := Some(v);
        } else {
          MeansLevelsGrow(was, dst, gate.value, done);
          ghost var mid := dst;
          var both := Build(Data(And, [gate.value, v], 1));
          BothLevels(mid, dst, gate.value, v, both, done, s, levels[s]);
          gate := Some(both);
        }
        done := done[s := levels[s]];
        assert s in done;
      }
      assert done == levels;
    }

    /** Migrate the levels of a trigger, and the driven value under what the trigger makes known. */
    method MigrateGated(t: Trigger, ties: Ties, value: Value) returns (gate: Option<Value>, data: Option<Value>)
      requires Valid() && NodesOk(src) && BitTies(src, ties) && forall s :: s in t.levels ==> s.Arg?
      modifies `dst, `cache
      ensures Valid() && old(dst) <= dst && (gate.None? <==> t.levels == map[])
      ensures gate.Some? ==> MeansLevels(dst, gate.value, t.levels)
      ensures data.Some? <==> !(t.Level? && t.levels == map[]) && Movable(src, ties, value)
      ensures data.Some? ==> Migrated(src, dst, ties, value, data.value)
    {
      gate := MigrateLevels(t.levels);
      if t.Level? && gate.None? {
        return gate, None;
      }
      ghost var was := dst;
      data := MigrateValue(value, ties);
      if gate.Some? {
        MeansLevelsGrow(was, dst, gate.value, t.levels);
      }
    }

    /** Migrate one trigger of a drive. */
    method MigrateTrigger(t: Trigger, value: Value) returns (r: Option<RegTrigger>)
      requires Valid() && NodesOk(src) && TriggerOk(src, t)
      modifies `dst, `cache
      ensures Valid() && old(dst) <= dst
      ensures r.Some? <==> TriggerMoves(src, t, value)
      ensures r.Some? ==> RegStands(src, dst, t, value, r.value)
    {
      var ties := TiesOf(t);
      TiesMean(src, t);
      var gate, data := MigrateGated(t, ties, value);
      if data.None? || (t.Level? && gate.None?) {
        return None;
      }
      if t.Edge? {
        ghost var was := dst;
        var trigger := Build(Data(Prb, [t.sig], 1));
        r := Some(RegTrigger(data.value, if t.edge.Rise? then RiseMode else FallMode, trigger, gate));
        MigratedGrow(src, was, dst, ties, value, data.value);
        if gate.Some? {
          MeansLevelsGrow(was, dst, gate.value, t.levels);
        }
        EdgeStands(src, dst, t, ties, value, r.value);
      } else {
        r := Some(RegTrigger(data.value, HighMode, gate.value, None));
        LevelStands(src, dst, t, ties, value, r.value);
      }
    }

    /** `migrate_drive`: a storage element whose triggers stand for those of the drive. */
    method MigrateDrive(target: Value, value: Value, trigs: seq<Trigger>) returns (ok: bool)
      requires Valid() && NodesOk(src) && forall k :: 0 <= k < |trigs| ==> TriggerOk(src, trigs[k])
      modifies this
      ensures Valid() && old(dst) <= dst
      ensures ok <==> Movable(src, map[], target) && forall k :: 0 <= k < |trigs| ==> TriggerMoves(src, trigs[k], value)
      ensures !ok ==> regs == old(regs)
      ensures ok ==>
        |regs| == |old(regs)| + 1 && old(regs) <= regs
        && DriveStands(src, dst, target, value, trigs, regs[|old(regs)|])
    {
      var migTarget := MigrateValue(target, map[]);
      if migTarget.None? {
        return false;
      }
      var triggers: seq<RegTrigger> := [];
      for k := 0 to |trigs|
        invariant Valid() && old(dst) <= dst && regs == old(regs) && |triggers| == k
          && AllRegsStand(src, dst, trigs, value, triggers)
        invariant forall n :: 0 <= n < k ==> TriggerMoves(src, trigs[n], value)
      {
        ghost var was := dst;
        var t := MigrateTrigger(trigs[k], value);
        if t.None? {
          return false;
        }
        AllRegsStandGrow(src, was, dst, trigs, value, triggers);
        triggers := triggers + [t.value];
      }
      regs := regs + [Reg(migTarget.value, triggers)];
      ok := true;
    }
  }

  lemma BothLevels(a: seq<Node>, b: seq<Node>, gate: Value, v: Value, both: Value, done: map<Value, TriggerLevel>,
      s: Value, level: TriggerLevel)
    requires DstOk(a) && a <= b && MeansLevels(a, gate, done) && MeansLevels(a, v, map[s := level]) && s !in done
    requires both == Res(|a|) && |b| == |a| + 1 && b[|a|].data == Data(And, [gate, v], 1)
    ensures MeansLevels(b, both, done[s := level])
  {
    var all := done[s := level];
    forall env
      ensures AsBit(Eval(b, env, At(Behind), both)) <==> LevelsHold(env, all)
    {
      EvalGrow(a, b, env, At(Behind), gate);
      EvalGrow(a, b, env, At(Behind), v);
      EvalArgsAt(b, env, At(Behind), [gate, v], |a|, 0);
      EvalArgsAt(b, env, At(Behind), [gate, v], |a|, 1);
      assert LevelsHold(env, all) <==> LevelsHold(env, done) && LevelsHold(env, map[s := level]) by {
        assert s in all && s in map[s := level];
        assert forall r :: r in done ==> r in all && all[r] == done[r];
      }
    }
  }

  /** The signals of a trigger are arguments of type i1. */
  ghost predicate TriggerOk(src: seq<Node>, t: Trigger) {
    && (t.Edge? ==> BitSignal(src, t.sig))
    && (forall s :: s in t.levels ==> BitSignal(src, s))
  }

  ghost predicate BitSignal(src: seq<Node>, s: Value) {
    s.Arg? && forall i {:trigger src[i]} :: 0 <= i < |src| && src[i].data.op.Prb? && src[i].data.args == [s] ==>
      src[i].data.width == 1
  }

  /** What is known when a trigger fires. */
  function TiesOf(t: Trigger): Ties {
    var levels: Ties := map s | s in t.levels :: (s, Behind) := t.levels[s];
    if t.Edge? then
      map[(t.sig, Before) := if t.edge.Rise? then Low else High, (t.sig, Behind) := if t.edge.Rise? then High
        else Low] + levels
    else levels
  }

  /** A trigger needs something to fire on, and a value that can be moved under what it makes known. */
  predicate TriggerMoves(src: seq<Node>, t: Trigger, value: Value)
    requires NodesOk(src)
  {
    !(t.Level? && t.levels == map[]) && Movable(src, TiesOf(t), value)
  }

  ghost predicate TiedBy(t: Trigger, ties: Ties) {
    forall env {:trigger Fires(env, t)} :: Fires(env, t) ==> Tied(env, ties)
  }

  lemma TiesMean(src: seq<Node>, t: Trigger)
    requires TriggerOk(src, t) && NodesOk(src)
    ensures TiedBy(t, TiesOf(t)) && BitTies(src, TiesOf(t)) && forall s :: s in t.levels ==> s.Arg?
  {
    var ties := TiesOf(t);
    forall s | s in t.levels
      ensures s.Arg?
    {
      assert BitSignal(src, s);
    }
    forall i | 0 <= i < |src| && src[i].data.op.Prb? && |src[i].data.args| == 1
      && (src[i].data.args[0], src[i].region) in ties
      ensures src[i].data.width == 1
    {
      assert src[i].data.args == [src[i].data.args[0]];
      assert BitSignal(src, src[i].data.args[0]);
    }
  }

  /** A storage element stands for a drive with its triggers. */
  ghost predicate DriveStands(src: seq<Node>, dst: seq<Node>, target: Value, value: Value, trigs: seq<Trigger>,
      reg: Reg)
  {
    |reg.triggers| == |trigs| && AllRegsStand(src, dst, trigs, value, reg.triggers)
      && (target.Arg? ==> reg.target == target)
  }

  lemma EdgeStands(src: seq<Node>, dst: seq<Node>, t: Trigger, ties: Ties, value: Value, r: RegTrigger)
    requires t.Edge? && TiedBy(t, ties) && Migrated(src, dst, ties, value, r.data)
    requires r.trigger.Res? && r.trigger.inst < |dst| && dst[r.trigger.inst].data == Data(Prb, [t.sig], 1)
    requires r.mode == if t.edge.Rise? then RiseMode else FallMode
    requires if r.gate.None? then t.levels == map[] else MeansLevels(dst, r.gate.value, t.levels)
    ensures RegStands(src, dst, t, value, r)
  {
  }

  lemma LevelStands(src: seq<Node>, dst: seq<Node>, t: Trigger, ties: Ties, value: Value, r: RegTrigger)
    requires t.Level? && TiedBy(t, ties) && Migrated(src, dst, ties, value, r.data)
    requires r.mode == HighMode && r.gate.None? && MeansLevels(dst, r.trigger, t.levels)
    ensures RegStands(src, dst, t, value, r)
  {
  }

  // ---------------------------------------------------------------- signals in conditions

  /** Some probe of type i1 samples the signal. */
  ghost predicate ProbedBit(nodes: seq<Node>, s: Value) {
    exists i :: 0 <= i < |nodes| && nodes[i].data.op.Prb? && nodes[i].data.args == [s] && nodes[i].data.width == 1
  }

  ghost predicate SignalsOk(nodes: seq<Node>, dnf: Dnf) {
    forall c, t {:trigger c in dnf, t in c} :: c in dnf && t in c && t.Signal? ==> ProbedBit(nodes, t.sig)
  }

  lemma ConjunctionSignals(nodes: seq<Node>, a: Dnf, b: Dnf)
    requires SignalsOk(nodes, a) && SignalsOk(nodes, b)
    ensures SignalsOk(nodes, Conjunction(a, b)) && SignalsOk(nodes, Disjunction(a, b))
  {
  }

  lemma SingleSignals(nodes: seq<Node>, t: Term, inv: bool)
    requires t.Signal? ==> ProbedBit(nodes, t.sig)
    ensures SignalsOk(nodes, Single(t, inv))
  {
  }

  lemma ParitySignals(nodes: seq<Node>, lp: Dnf, rp: Dnf, ln: Dnf, rn: Dnf, same: bool)
    requires SignalsOk(nodes, lp) && SignalsOk(nodes, rp) && SignalsOk(nodes, ln) && SignalsOk(nodes, rn)
    ensures SignalsOk(nodes, Parity(lp, rp, ln, rn, same))
  {
    ConjunctionSignals(nodes, lp, rp);
    ConjunctionSignals(nodes, ln, rn);
    ConjunctionSignals(nodes, lp, rn);
    ConjunctionSignals(nodes, ln, rp);
    ConjunctionSignals(nodes, Conjunction(lp, rp), Conjunction(ln, rn));
    ConjunctionSignals(nodes, Conjunction(lp, rn), Conjunction(ln, rp));
  }

  /** All signals in the normal form of a condition are probed as bits. */
  lemma {:induction false} CanonSignals(nodes: seq<Node>, v: Value, inv: bool)
    requires NodesOk(nodes)
    ensures SignalsOk(nodes, Canon(nodes, v, inv))
    decreases Rank(v)
  {
    if WidthOf(nodes, v) != 1 {
      SingleSignals(nodes, Invalid(v), inv);
    } else {
      assert NodeOk(nodes, v.inst);
      var d := nodes[v.inst].data;
      match d.op
      case Const(_) =>
      case Not => CanonSignals(nodes, d.args[0], !inv);
      case And | Or =>
        CanonSignals(nodes, d.args[0], inv);
        CanonSignals(nodes, d.args[1], inv);
        ConjunctionSignals(nodes, Canon(nodes, d.args[0], inv), Canon(nodes, d.args[1], inv));
      case Xor | Eq | Neq =>
        CanonSignals(nodes, d.args[0], false);
        CanonSignals(nodes, d.args[1], false);
        CanonSignals(nodes, d.args[0], true);
        CanonSignals(nodes, d.args[1], true);
        ParitySignals(nodes, Canon(nodes, d.args[0], false), Canon(nodes, d.args[1], false),
          Canon(nodes, d.args[0], true), Canon(nodes, d.args[1], true),
          if d.op.Eq? then !inv else inv);
      case Prb =>
        assert d.args == [d.args[0]];
        SingleSignals(nodes, Signal(d.args[0], nodes[v.inst].region), inv);
      case Pure(_) => SingleSignals(nodes, Invalid(v), inv);
    }
  }

  /** All probes of a signal have the same type. */
  ghost predicate ProbesAgree(nodes: seq<Node>) {
    forall i, j {:trigger nodes[i], nodes[j]} :: 0 <= i < |nodes| && 0 <= j < |nodes| ==>
      nodes[i].data.op.Prb? && nodes[j].data.op.Prb? && nodes[i].data.args == nodes[j].data.args ==>
        nodes[i].data.width == nodes[j].data.width
  }

  lemma ProbedIsBit(nodes: seq<Node>, s: Value)
    requires NodesOk(nodes) && ProbesAgree(nodes) && ProbedBit(nodes, s)
    ensures BitSignal(nodes, s)
  {
    var i :| 0 <= i < |nodes| && nodes[i].data.op.Prb? && nodes[i].data.args == [s] && nodes[i].data.width == 1;
    assert NodeOk(nodes, i);
  }

  lemma DetectedOk(nodes: seq<Node>, dnf: Dnf, trigs: seq<Trigger>)
    requires NodesOk(nodes) && ProbesAgree(nodes) && SignalsOk(nodes, dnf) && Detected(dnf, trigs)
    ensures forall k :: 0 <= k < |trigs| ==> TriggerOk(nodes, trigs[k])
  {
    forall k | 0 <= k < |trigs|
      ensures TriggerOk(nodes, trigs[k])
    {
      assert TriggerOf(dnf, trigs[k]);
      var c :| c in dnf && TriggerFor(c, trigs[k]);
      if trigs[k].Edge? {
        assert Signal(trigs[k].sig, Before) in c;
        ProbedIsBit(nodes, trigs[k].sig);
      }
      forall s | s in trigs[k].levels
        ensures BitSignal(nodes, s)
      {
        assert Signal(s, Behind) in c;
        ProbedIsBit(nodes, s);
      }
    }
  }

  // ---------------------------------------------------------------- the process

  datatype Drive = Drive(target: Value, value: Value, cond: Option<Value>)

  ghost predicate SomeRegFires(dst: seq<Node>, env: Env, reg: Reg) {
    exists k :: 0 <= k < |reg.triggers| && RegFires(dst, env, reg.triggers[k])
  }

  /** For all samples, whichever trigger fires stores the driven value, for the driven signal. */
  ghost predicate StoresValue(src: seq<Node>, dst: seq<Node>, reg: Reg, drive: Drive) {
    && (drive.target.Arg? ==> reg.target == drive.target)
    && (forall env, k {:trigger RegFires(dst, env, reg.triggers[k])} ::
      0 <= k < |reg.triggers| && RegFires(dst, env, reg.triggers[k]) ==>
         Eval(dst, env, At(Behind), reg.triggers[k].data) == Eval(src, env, Own, drive.value))
  }

  /** For all samples, some trigger fires exactly if the normal form holds. */
  ghost predicate FiresAs(src: seq<Node>, dst: seq<Node>, reg: Reg, dnf: Dnf) {
    forall env {:trigger SomeRegFires(dst, env, reg)} {:trigger Holds(src, env, dnf)} ::
      SomeRegFires(dst, env, reg) <==> Holds(src, env, dnf)
  }

  /** For all samples, some trigger fires exactly if the condition is 1, and whichever fires stores the driven value. */
  ghost predicate Replaces(src: seq<Node>, dst: seq<Node>, reg: Reg, drive: Drive) {
    && drive.cond.Some? && StoresValue(src, dst, reg, drive)
    && (forall env {:trigger SomeRegFires(dst, env, reg)} {:trigger Eval(src, env, Own, drive.cond.value)} ::
         SomeRegFires(dst, env, reg) <==> AsBit(Eval(src, env, Own, drive.cond.value)))
  }

  /** Some conjunction of the condition's normal form is no trigger. */
  ghost predicate Unclear(src: seq<Node>, cond: Value)
    requires NodesOk(src)
  {
    exists c :: c in Canon(src, cond, false) && Undetectable(c)
  }

  /** All triggers of the condition can be moved. */
  ghost predicate AllMove(src: seq<Node>, cond: Value, value: Value)
    requires NodesOk(src)
  {
    forall c, t {:trigger TriggerFor(c, t)} ::
      c in Canon(src, cond, false) && TriggerFor(c, t) ==> TriggerMoves(src, t, value)
  }

  /** Exactly the triggers that were detected need to be moved. */
  lemma DetectedMove(src: seq<Node>, cond: Value, value: Value, trigs: seq<Trigger>)
    requires NodesOk(src) && Detected(Canon(src, cond, false), trigs) && !Unclear(src, cond)
    ensures AllMove(src, cond, value) <==> forall k :: 0 <= k < |trigs| ==> TriggerMoves(src, trigs[k], value)
  {
    var dnf := Canon(src, cond, false);
    if forall k :: 0 <= k < |trigs| ==> TriggerMoves(src, trigs[k], value) {
      forall c, t | c in dnf && TriggerFor(c, t)
        ensures TriggerMoves(src, t, value)
      {
        assert HasTrigger(trigs, c);
        var k :| 0 <= k < |trigs| && TriggerFor(c, trigs[k]);
        OneTrigger(c, t, trigs[k]);
      }
    }
    if AllMove(src, cond, value) {
      forall k | 0 <= k < |trigs|
        ensures TriggerMoves(src, trigs[k], value)
      {
        assert TriggerOf(dnf, trigs[k]);
        var c :| c in dnf && TriggerFor(c, trigs[k]);
      }
    }
  }

  /** Whatever is stored is right; and it is stored at the right time exactly if the normal form is faithful. */
  lemma StandsReplaces(src: seq<Node>, dst: seq<Node>, drive: Drive, trigs: seq<Trigger>, reg: Reg)
    requires NodesOk(src) && drive.cond.Some?
    requires Detected(Canon(src, drive.cond.value, false), trigs)
      && DriveStands(src, dst, drive.target, drive.value, trigs, reg)
    ensures StoresValue(src, dst, reg, drive) && FiresAs(src, dst, reg, Canon(src, drive.cond.value, false))
    ensures Replaces(src, dst, reg, drive) <==> Faithful(src, drive.cond.value)
  {
    var cond := drive.cond.value;
    forall env
      ensures SomeRegFires(dst, env, reg) <==> Holds(src, env, Canon(src, cond, false))
    {
      assert Holds(src, env, Canon(src, cond, false)) <==> SomeFires(env, trigs);
      if k :| 0 <= k < |trigs| && Fires(env, trigs[k]) {
        assert RegStands(src, dst, trigs[k], drive.value, reg.triggers[k]) && RegFires(dst, env, reg.triggers[k]);
      }
      if k :| 0 <= k < |reg.triggers| && RegFires(dst, env, reg.triggers[k]) {
        assert RegStands(src, dst, trigs[k], drive.value, reg.triggers[k]) && Fires(env, trigs[k]);
      }
    }
    forall env, k | 0 <= k < |reg.triggers| && RegFires(dst, env, reg.triggers[k])
      ensures Eval(dst, env, At(Behind), reg.triggers[k].data) == Eval(src, env, Own, drive.value)
    {
      assert RegStands(src, dst, trigs[k], drive.value, reg.triggers[k]) && Fires(env, trigs[k]);
    }
  }

  /** A drive is conditional, each conjunction of its condition is a trigger, and everything it needs can be moved. */
  ghost predicate Accepted(src: seq<Node>, drive: Drive)
    requires NodesOk(src)
  {
    && drive.cond.Some? && !Unclear(src, drive.cond.value) && Movable(src, map[], drive.target)
    && AllMove(src, drive.cond.value, drive.value)
  }

  /** Storage elements that stand for drives keep doing so as the entity grows. */
  ghost predicate AllStandFor(src: seq<Node>, dst: seq<Node>, drives: seq<Drive>, trigs: seq<seq<Trigger>>,
      regs: seq<Reg>)
    requires NodesOk(src)
  {
    && |regs| == |trigs| <= |drives|
    && (forall k :: 0 <= k < |regs| ==>
      Accepted(src, drives[k]) && Detected(Canon(src, drives[k].cond.value, false), trigs[k]))
    && (forall k :: 0 <= k < |regs| ==> DriveStands(src, dst, drives[k].target, drives[k].value, trigs[k], regs[k]))
  }

  lemma AllStandForGrow(src: seq<Node>, a: seq<Node>, b: seq<Node>, drives: seq<Drive>, trigs: seq<seq<Trigger>>,
      regs: seq<Reg>)
    requires NodesOk(src) && AllStandFor(src, a, drives, trigs, regs) && DstOk(a) && a <= b
    ensures AllStandFor(src, b, drives, trigs, regs)
  {
    forall k | 0 <= k < |regs|
      ensures DriveStands(src, b, drives[k].target, drives[k].value, trigs[k], regs[k])
    {
      AllRegsStandGrow(src, a, b, trigs[k], drives[k].value, regs[k].triggers);
    }
  }

  /** A storage element has taken the place of a drive: it stores the right values, and it does so at the right times
      exactly if the normal form of the condition is faithful. That is so if no comparisons of wider values form a
      cycle, and, unless constants are compared with each other, exactly if the condition is settled by bits. */
  ghost predicate Replaced(src: seq<Node>, dst: seq<Node>, reg: Reg, drive: Drive)
    requires NodesOk(src)
  {
    && drive.cond.Some?
    && StoresValue(src, dst, reg, drive) && FiresAs(src, dst, reg, Canon(src, drive.cond.value, false))
    && (Replaces(src, dst, reg, drive) <==> Faithful(src, drive.cond.value))
    && (Acyclic(Compared(src, drive.cond.value)) ==> Replaces(src, dst, reg, drive))
    && (NoConstants(src, Compared(src, drive.cond.value)) ==>
         (Replaces(src, dst, reg, drive) <==> BitsDecide(src, drive.cond.value)))
  }

  lemma ReplacedBy(src: seq<Node>, dst: seq<Node>, drive: Drive, trigs: seq<Trigger>, reg: Reg)
    requires NodesOk(src) && Accepted(src, drive)
    requires Detected(Canon(src, drive.cond.value, false), trigs)
      && DriveStands(src, dst, drive.target, drive.value, trigs, reg)
    ensures Replaced(src, dst, reg, drive)
  {
    StandsReplaces(src, dst, drive, trigs, reg);
    if WidthOf(src, drive.cond.value) != 1 {
      WideUndetectable(src, drive.cond.value);
    }
    if Acyclic(Compared(src, drive.cond.value)) {
      AcyclicFaithful(src, drive.cond.value, trigs);
    }
    if NoConstants(src, Compared(src, drive.cond.value)) {
      FaithfulExactly(src, drive.cond.value, trigs);
    }
  }

  /** `deseq_process`: replace all drives of a process by storage elements, or none. */
  method DeseqProcess(src: seq<Node>, drives: seq<Drive>) returns (entity: Option<Migrator>)
    requires NodesOk(src) && ProbesAgree(src)
    ensures entity.Some? ==> |entity.value.regs| == |drives|
    ensures entity.Some? ==> forall k :: 0 <= k < |drives| ==>
      Replaced(src, entity.value.dst, entity.value.regs[k], drives[k])
    ensures entity.Some? <==> forall k :: 0 <= k < |drives| ==> Accepted(src, drives[k])
  {
    var mig := new Migrator(src);
    ghost var trigs: seq<seq<Trigger>> := [];
    for k := 0 to |drives|
      invariant fresh(mig) && mig.src == src && mig.Valid() && |mig.regs| == k
        && AllStandFor(src, mig.dst, drives, trigs, mig.regs)
    {
      if drives[k].cond.None? {
        assert !Accepted(src, drives[k]);
        return None;
      }
      var dnf := Canon(src, drives[k].cond.value, false);
      CanonSignals(src, drives[k].cond.value, false);
      var detected := DetectTriggers(dnf);
      if detected.None? {
        assert !Accepted(src, drives[k]);
        return None;
      }
      DetectedOk(src, dnf, detected.value);
      ghost var was, regsWas := mig.dst, mig.regs;
      var ok := mig.MigrateDrive(drives[k].target, drives[k].value, detected.value);
      DetectedMove(src, drives[k].cond.value, drives[k].value, detected.value);
      if !ok {
        assert !Accepted(src, drives[k]);
        return None;
      }
      AllStandForGrow(src, was, mig.dst, drives, trigs, regsWas);
      trigs := trigs + [detected.value];
      assert mig.regs == regsWas + [mig.regs[k]];
    }
    forall k | 0 <= k < |drives|
      ensures Replaced(src, mig.dst, mig.regs[k], drives[k])
    {
      ReplacedBy(src, mig.dst, drives[k], trigs[k], mig.regs[k]);
    }
    entity := Some(mig);
  }

  lemma ThreeWordsProbes()
    ensures ProbesAgree(ThreeWords())
  {
  }

  /** A drive whose condition finds three words to be different is taken for one that never drives anything. */
  method DriveIsLost() returns (entity: Migrator)
    ensures AsBit(Eval(ThreeWords(), Different(), Own, Res(7)))
    ensures |entity.regs| == 1 && forall env :: !SomeRegFires(entity.dst, env, entity.regs[0])
  {
    WideComparisonsGoWrong();
    ThreeWordsProbes();
    var nodes := ThreeWords();
    var drive := Drive(Arg(3), Res(0), Some(Res(7)));
    LostAccepted(nodes, drive);
    var replaced := DeseqProcess(nodes, [drive]);
    entity := replaced.value;
    assert Replaced(nodes, entity.dst, entity.regs[0], [drive][0]);
    NeverFires(nodes, entity.dst, entity.regs[0], drive);
  }

  /** A drive whose condition has an empty normal form is accepted. */
  lemma LostAccepted(src: seq<Node>, drive: Drive)
    requires NodesOk(src) && drive.cond.Some? && drive.target.Arg? && Canon(src, drive.cond.value, false) == Zero()
    ensures Accepted(src, drive)
  {
  }

  lemma NeverFires(src: seq<Node>, dst: seq<Node>, reg: Reg, drive: Drive)
    requires NodesOk(src) && Replaced(src, dst, reg, drive) && Canon(src, drive.cond.value, false) == Zero()
    ensures forall env :: !SomeRegFires(dst, env, reg)
  {
    forall env
      ensures !SomeRegFires(dst, env, reg)
    {
      OneHolds(src, env);
    }
  }
}
