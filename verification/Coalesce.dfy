/** Coalescing the conditional drives of a block (src/pass/tcm.rs, `coalesce_drives`). */
module Coalesce {
  import opened Options

  /** A condition: a value of the unit, the constant 1 that is built for the drive at some place, which has no
      condition, or a disjunction. */
  datatype Cond = Operand(id: nat) | Ones(place: nat) | Or(left: Cond, right: Cond)

  /** A driven value: a value of the unit, or a multiplexer. */
  datatype Data = Given(id: nat) | Mux(ifZero: Data, ifOne: Data, cond: Cond)

  /** A drive; its target and delay are values of the unit. */
  datatype Drive = Drive(target: nat, value: Data, delay: nat, cond: Option<Cond>)

  /** The places of drives in a block, some of which may be vacant. */
  type Block = seq<Option<Drive>>

  /** What the values of a unit stand for. */
  datatype Env = Env(target: nat -> nat, delay: nat -> nat, cond: nat -> bool, value: nat -> nat)

  function Truth(c: Cond, env: Env): bool {
    match c
    case Operand(id) => env.cond(id)
    case Ones(_) => true
    case Or(l, r) => Truth(l, env) || Truth(r, env)
  }

  function Eval(d: Data, env: Env): nat {
    match d
    case Given(id) => env.value(id)
    case Mux(a, b, c) => if Truth(c, env) then Eval(b, env) else Eval(a, env)
  }

  predicate Enabled(d: Drive, env: Env) {
    d.cond.Some? ==> Truth(d.cond.value, env)
  }

  /** A drive that is enabled, and schedules a value for the target after the delay. */
  predicate Schedules(slot: Option<Drive>, env: Env, delay: nat, target: nat) {
    slot.Some? && Enabled(slot.value, env) && env.delay(slot.value.delay) == delay
      && env.target(slot.value.target) == target
  }

  /** The value that a block schedules for a target after a delay: that of the last drive that is enabled. */
  function Scheduled(block: Block, env: Env, delay: nat, target: nat): Option<nat> {
    if block == [] then None
    else if Schedules(block[|block| - 1], env, delay, target) then Some(Eval(block[|block| - 1].value.value, env))
    else Scheduled(block[..|block| - 1], env, delay, target)
  }

  function Original(drives: seq<Drive>): (r: Block)
    ensures |r| == |drives| && forall k :: 0 <= k < |r| ==> r[k] == Some(drives[k])
  {
    seq(|drives|, k requires 0 <= k < |drives| => Some(drives[k]))
  }

  // ---------------------------------------------------------------- runs

  /** The last place before k with a delay. */
  function Before(drives: seq<Drive>, k: nat, delay: nat): (r: Option<nat>)
    requires k <= |drives|
    ensures r.Some? ==> r.value < k
  {
    if k == 0 then None else if drives[k - 1].delay == delay then Some(k - 1) else Before(drives, k - 1, delay)
  }

  /** The first place from k on with a delay. */
  function Behind(drives: seq<Drive>, k: nat, delay: nat): (r: Option<nat>)
    requires k <= |drives|
    ensures r.Some? ==> k <= r.value < |drives|
    decreases |drives| - k
  {
    if k == |drives| then None else if drives[k].delay == delay then Some(k) else Behind(drives, k + 1, delay)
  }

  lemma {:induction false} BeforeIs(drives: seq<Drive>, k: nat, delay: nat)
    requires k <= |drives|
    ensures match Before(drives, k, delay)
      case None => forall m :: 0 <= m < k ==> drives[m].delay != delay
      case Some(p) => drives[p].delay == delay && forall m :: p < m < k ==> drives[m].delay != delay
  {
    if k > 0 {
      BeforeIs(drives, k - 1, delay);
    }
  }

  lemma {:induction false} BehindIs(drives: seq<Drive>, k: nat, delay: nat)
    requires k <= |drives|
    ensures match Behind(drives, k, delay)
      case None => forall m :: k <= m < |drives| ==> drives[m].delay != delay
      case Some(n) => drives[n].delay == delay && forall m :: k <= m < n ==> drives[m].delay != delay
    decreases |drives| - k
  {
    if k < |drives| {
      BehindIs(drives, k + 1, delay);
    }
  }

  /** The drive before this one in its run: among the drives with its delay, the one before, if it has
      the same target. */
  function Prev(drives: seq<Drive>, k: nat): (r: Option<nat>)
    requires k < |drives|
    ensures r.Some? ==> r.value < k
  {
    match Before(drives, k, drives[k].delay)
    case None => None
    case Some(p) => if drives[p].target == drives[k].target then Some(p) else None
  }

  /** The drive behind this one in its run. */
  function Next(drives: seq<Drive>, k: nat): (r: Option<nat>)
    requires k < |drives|
    ensures r.Some? ==> k < r.value < |drives|
  {
    match Behind(drives, k + 1, drives[k].delay)
    case None => None
    case Some(n) => if drives[n].target == drives[k].target then Some(n) else None
  }

  lemma PrevNext(drives: seq<Drive>, p: nat, k: nat)
    requires p < k < |drives|
    ensures Prev(drives, k) == Some(p) <==> Next(drives, p) == Some(k)
  {
    BeforeIs(drives, k, drives[k].delay);
    BehindIs(drives, p + 1, drives[p].delay);
  }

  /** Two drives of one run. */
  predicate SameRun(drives: seq<Drive>, i: nat, j: nat)
    requires j < |drives|
    decreases j
  {
    i == j || (Prev(drives, j).Some? && i <= Prev(drives, j).value && SameRun(drives, i, Prev(drives, j).value))
  }

  /** A run has one delay and one target, and all drives between with that delay belong to it. */
  lemma {:induction false} RunIs(drives: seq<Drive>, i: nat, j: nat)
    requires j < |drives| && SameRun(drives, i, j)
    ensures i <= j && drives[i].delay == drives[j].delay && drives[i].target == drives[j].target
    ensures forall m :: i <= m <= j && drives[m].delay == drives[j].delay ==>
      SameRun(drives, i, m) && SameRun(drives, m, j)
    decreases j
  {
    if i != j {
      var p := Prev(drives, j).value;
      BeforeIs(drives, j, drives[j].delay);
      RunIs(drives, i, p);
      forall m | i <= m <= j && drives[m].delay == drives[j].delay
        ensures SameRun(drives, i, m) && SameRun(drives, m, j)
      {
        assert m <= p || m == j;
      }
    }
  }

  lemma {:induction false} NotLast(drives: seq<Drive>, i: nat, j: nat)
    requires i < j < |drives| && SameRun(drives, i, j)
    ensures Next(drives, i).Some?
    decreases j
  {
    var p := Prev(drives, j).value;
    if p == i {
      PrevNext(drives, i, j);
    } else {
      NotLast(drives, i, p);
    }
  }

  lemma {:induction false} RunChain(drives: seq<Drive>, i: nat, m: nat, j: nat)
    requires m <= j < |drives| && SameRun(drives, i, m) && SameRun(drives, m, j)
    ensures SameRun(drives, i, j)
    decreases j
  {
    RunIs(drives, i, m);
    if m != j {
      RunIs(drives, m, Prev(drives, j).value);
      RunChain(drives, i, m, Prev(drives, j).value);
    }
  }

  /** The last drive of the run. */
  function EndOf(drives: seq<Drive>, k: nat): (e: nat)
    requires k < |drives|
    ensures k <= e < |drives| && Next(drives, e).None? && SameRun(drives, k, e)
    decreases |drives| - k
  {
    match Next(drives, k)
    case None => k
    case Some(n) =>
      PrevNext(drives, k, n);
      RunChain(drives, k, n, EndOf(drives, n));
      EndOf(drives, n)
  }

  /** Whatever lies behind a drive and belongs to its run ends where the run ends. */
  lemma {:induction false} OneEnd(drives: seq<Drive>, i: nat, j: nat)
    requires j < |drives| && SameRun(drives, i, j) && Next(drives, j).None?
    ensures EndOf(drives, i) == j
  {
    var e := EndOf(drives, i);
    RunIs(drives, i, j);
    RunIs(drives, i, e);
    if e < j {
      NotLast(drives, e, j);
    } else if j < e {
      NotLast(drives, j, e);
    }
  }

  // ---------------------------------------------------------------- the coalesced block

  /** `drive_cond`. */
  function CondOf(d: Drive, place: nat): Cond {
    match d.cond
    case Some(c) => c
    case None => Ones(place)
  }

  function Joined(cond: Cond, c: Cond): Cond {
    if cond != c then Or(cond, c) else cond
  }

  function Selected(value: Data, v: Data, c: Cond): Data {
    if value != v then Mux(value, v, c) else value
  }

  /** The condition and the value accumulated over a run, up to some place. */
  function Gathered(drives: seq<Drive>, k: nat): (Cond, Data)
    requires k < |drives|
    decreases k
  {
    var c := CondOf(drives[k], k);
    match Prev(drives, k)
    case None => (c, drives[k].value)
    case Some(p) =>
      var (cond, value) := Gathered(drives, p);
      (Joined(cond, c), Selected(value, drives[k].value, c))
  }

  /** What coalescing leaves in a place: at the end of a run, a drive for all of it. */
  function Place(drives: seq<Drive>, k: nat): Option<Drive>
    requires k < |drives|
  {
    if Next(drives, k).Some? then None
    else if Prev(drives, k).Some? then
      var (cond, value) := Gathered(drives, k);
      Some(Drive(drives[k].target, value, drives[k].delay, Some(cond)))
    else Some(drives[k])
  }

  function Coalesced(drives: seq<Drive>): (r: Block)
    ensures |r| == |drives| && forall k :: 0 <= k < |r| ==> r[k] == Place(drives, k)
  {
    seq(|drives|, k requires 0 <= k < |drives| => Place(drives, k))
  }

  // ---------------------------------------------------------------- the algorithm

  /** The places of all drives with some delay, in order. */
  ghost predicate IsGroup(drives: seq<Drive>, delay: nat, n: nat, g: seq<nat>) {
    && (forall j, k {:trigger g[j], g[k]} :: 0 <= j < k < |g| ==> g[j] < g[k])
    && (forall j {:trigger g[j]} :: 0 <= j < |g| ==> g[j] < n && g[j] < |drives| && drives[g[j]].delay == delay)
    && (forall k: nat {:trigger drives[k]} :: k < n && k < |drives| && drives[k].delay == delay ==> k in g)
  }

  /** In a group, neighbours are neighbours among the drives with the delay. */
  lemma GroupNeighbours(drives: seq<Drive>, delay: nat, g: seq<nat>, j: nat)
    requires IsGroup(drives, delay, |drives|, g) && j < |g|
    ensures Before(drives, g[j], delay) == if j == 0 then None else Some(g[j - 1])
    ensures Behind(drives, g[j] + 1, delay) == if j + 1 == |g| then None else Some(g[j + 1])
  {
    BeforeIs(drives, g[j], delay);
    BehindIs(drives, g[j] + 1, delay);
    if j > 0 {
      assert g[j - 1] < g[j] && drives[g[j - 1]].delay == delay;
      var p := Before(drives, g[j], delay).value;
      var i: nat :| i < |g| && g[i] == p;
      assert i <= j - 1;
    }
    if j + 1 < |g| {
      assert g[j] < g[j + 1] && drives[g[j + 1]].delay == delay;
      var n := Behind(drives, g[j] + 1, delay).value;
      var i: nat :| i < |g| && g[i] == n;
      assert i >= j + 1;
    }
  }

  lemma GroupRun(drives: seq<Drive>, delay: nat, g: seq<nat>, j: nat)
    requires IsGroup(drives, delay, |drives|, g) && j < |g|
    ensures Prev(drives, g[j]) == if j > 0 && drives[g[j - 1]].target == drives[g[j]].target then Some(g[j - 1])
      else None
    ensures Next(drives, g[j]) == if j + 1 < |g| && drives[g[j + 1]].target == drives[g[j]].target then Some(g[j + 1])
      else None
  {
    GroupNeighbours(drives, delay, g, j);
  }

  /** The places from `from` up to `to` of a group are a run. */
  ghost predicate IsRun(drives: seq<Drive>, g: seq<nat>, from: nat, to: nat) {
    && from < to <= |g|
    && (forall j {:trigger g[j]} :: 0 <= j < |g| ==> g[j] < |drives|)
    && (forall j {:trigger g[j]} :: from <= j < to ==> drives[g[j]].target == drives[g[from]].target)
    && (from > 0 ==> drives[g[from - 1]].target != drives[g[from]].target)
    && (to < |g| ==> drives[g[to]].target != drives[g[from]].target)
  }

  /** The block without the drives at some places of a group. */
  function Vacated(block: Block, g: seq<nat>, from: nat, end: nat): (r: Block)
    requires from <= end <= |g| && forall j {:trigger g[j]} :: 0 <= j < |g| ==> g[j] < |block|
    ensures |r| == |block|
    decreases end
  {
    if end == from then block else Vacated(block, g, from, end - 1)[g[end - 1] := None]
  }

  lemma {:induction false} VacatedAt(block: Block, g: seq<nat>, from: nat, end: nat, k: nat)
    requires from <= end <= |g| && (forall j {:trigger g[j]} :: 0 <= j < |g| ==> g[j] < |block|) && k < |block|
    ensures (exists j :: from <= j < end && g[j] == k) ==> Vacated(block, g, from, end)[k] == None
    ensures (forall j :: from <= j < end ==> g[j] != k) ==> Vacated(block, g, from, end)[k] == block[k]
    decreases end
  {
    if from < end {
      VacatedAt(block, g, from, end - 1, k);
    }
  }

  /** A run is coalesced, and everything else is as it was. */
  ghost predicate RunCoalesced(drives: seq<Drive>, block: Block, g: seq<nat>, from: nat, to: nat, block': Block) {
    && |block'| == |block| == |drives| && (forall j {:trigger g[j]} :: 0 <= j < |g| ==> g[j] < |drives|)
    && (forall j {:trigger g[j]} :: from <= j < to && j < |g| ==> block'[g[j]] == Place(drives, g[j]))
    && (forall k: nat {:trigger block'[k]} :: k < |block| && (forall j :: from <= j < to && j < |g| ==> g[j] != k) ==>
      block'[k] == block[k])
  }

  lemma RunPlace(drives: seq<Drive>, block: Block, delay: nat, g: seq<nat>, from: nat, to: nat, last: Drive, j: nat)
    requires IsGroup(drives, delay, |drives|, g) && IsRun(drives, g, from, to) && from + 1 < to && |block| == |drives|
    requires Some(last) == Place(drives, g[to - 1]) && from <= j < to
    ensures Vacated(block, g, from, to)[g[to - 1] := Some(last)][g[j]] == Place(drives, g[j])
  {
    if j < to - 1 {
      GroupRun(drives, delay, g, j);
      assert drives[g[j + 1]].target == drives[g[from]].target == drives[g[j]].target;
      VacatedAt(block, g, from, to, g[j]);
      assert g[j] < g[to - 1];
    }
  }

  lemma RunIsCoalesced(drives: seq<Drive>, block: Block, delay: nat, g: seq<nat>, from: nat, to: nat, last: Drive)
    requires IsGroup(drives, delay, |drives|, g) && IsRun(drives, g, from, to) && from + 1 < to && |block| == |drives|
    requires Some(last) == Place(drives, g[to - 1])
    ensures RunCoalesced(drives, block, g, from, to, Vacated(block, g, from, to)[g[to - 1] := Some(last)])
  {
    var r := Vacated(block, g, from, to)[g[to - 1] := Some(last)];
    forall j | from <= j < to
      ensures r[g[j]] == Place(drives, g[j])
    {
      RunPlace(drives, block, delay, g, from, to, last, j);
    }
    forall k: nat | k < |block| && forall j :: from <= j < to ==> g[j] != k
      ensures r[k] == block[k]
    {
      VacatedAt(block, g, from, to, k);
    }
  }

  /** What one more drive adds to the condition and the value. */
  lemma GatheredNext(drives: seq<Drive>, delay: nat, g: seq<nat>, from: nat, to: nat, j: nat)
    requires IsGroup(drives, delay, |drives|, g) && IsRun(drives, g, from, to) && from < j < to
    ensures var (cond, value), d := Gathered(drives, g[j - 1]), drives[g[j]];
      Gathered(drives, g[j]) == (Joined(cond, CondOf(d, g[j])), Selected(value, d.value, CondOf(d, g[j])))
  {
    GroupRun(drives, delay, g, j);
    assert drives[g[j - 1]].target == drives[g[from]].target;
  }

  /** Coalesce a run of at least two drives. */
  method CoalesceRun(drives: seq<Drive>, block: Block, delay: nat, g: seq<nat>, from: nat, to: nat)
      returns (block': Block)
    requires IsGroup(drives, delay, |drives|, g) && IsRun(drives, g, from, to) && from + 1 < to && |block| == |drives|
    ensures RunCoalesced(drives, block, g, from, to, block')
  {
    var first := drives[g[from]];
    var cond, value := CondOf(first, g[from]), first.value;
    GroupRun(drives, delay, g, from);
    block' := block[g[from] := None];
    for j := from + 1 to to
      invariant (cond, value) == Gathered(drives, g[j - 1]) && block' == Vacated(block, g, from, j)
    {
      GatheredNext(drives, delay, g, from, to, j);
      var d := drives[g[j]];
      var c := CondOf(d, g[j]);
      if cond != c {
        cond := Or(cond, c);
      }
      if value != d.value {
        value := Mux(value, d.value, c);
      }
      block' := block'[g[j] := None];
    }
    GroupRun(drives, delay, g, to - 1);
    assert drives[g[to - 1]].target == first.target && drives[g[to - 2]].target == first.target;
    RunIsCoalesced(drives, block, delay, g, from, to, Drive(first.target, value, delay, Some(cond)));
    block' := block'[g[to - 1] := Some(Drive(first.target, value, delay, Some(cond)))];
  }

  /** The drives of a group are coalesced up to some place of it, and everything else is as it was. */
  ghost predicate GroupDone(drives: seq<Drive>, block: Block, g: seq<nat>, n: nat, block': Block) {
    && |block'| == |block| == |drives|
    && (forall j {:trigger g[j]} :: 0 <= j < |g| ==>
      g[j] < |drives| && block'[g[j]] == if j < n then Place(drives, g[j]) else block[g[j]])
    && (forall k: nat {:trigger block'[k]} :: k < |block| && k !in g ==> block'[k] == block[k])
  }

  lemma GroupNext(drives: seq<Drive>, block: Block, delay: nat, g: seq<nat>, from: nat, to: nat, mid: Block,
      block': Block)
    requires IsGroup(drives, delay, |drives|, g) && GroupDone(drives, block, g, from, mid) && from < to <= |g|
    requires RunCoalesced(drives, mid, g, from, to, block')
    ensures GroupDone(drives, block, g, to, block')
  {
    forall j | 0 <= j < |g|
      ensures block'[g[j]] == if j < to then Place(drives, g[j]) else block[g[j]]
    {
      if !(from <= j < to) {
        assert forall i :: from <= i < to ==> g[i] != g[j];
        assert block'[g[j]] == mid[g[j]];
      }
    }
    forall k: nat | k < |block| && k !in g
      ensures block'[k] == block[k]
    {
      assert block'[k] == mid[k] == block[k];
    }
  }

  lemma SingleRun(drives: seq<Drive>, block: Block, delay: nat, g: seq<nat>, from: nat)
    requires IsGroup(drives, delay, |drives|, g) && IsRun(drives, g, from, from + 1) && |block| == |drives|
      && block[g[from]] == Some(drives[g[from]])
    ensures RunCoalesced(drives, block, g, from, from + 1, block)
  {
    GroupRun(drives, delay, g, from);
  }

  /** Coalesce a group of drives with the same delay, run by run. */
  method CoalesceGroup(drives: seq<Drive>, block: Block, delay: nat, g: seq<nat>) returns (block': Block)
    requires IsGroup(drives, delay, |drives|, g) && |block| == |drives|
    requires forall j {:trigger g[j]} :: 0 <= j < |g| ==> block[g[j]] == Some(drives[g[j]])
    ensures GroupDone(drives, block, g, |g|, block')
  {
    block' := block;
    var from := 0;
    while from < |g|
      invariant from <= |g| && GroupDone(drives, block, g, from, block')
      invariant 0 < from < |g| ==> drives[g[from - 1]].target != drives[g[from]].target
      decreases |g| - from
    {
      var to := from + 1;
      while to < |g| && drives[g[to]].target == drives[g[from]].target
        invariant from < to <= |g|
        invariant forall j {:trigger g[j]} :: from <= j < to ==> drives[g[j]].target == drives[g[from]].target
      {
        to := to + 1;
      }
      ghost var mid := block';
      if to - from > 1 {
        block' := CoalesceRun(drives, block', delay, g, from, to);
      } else {
        SingleRun(drives, block', delay, g, from);
      }
      GroupNext(drives, block, delay, g, from, to, mid, block');
      from := to;
    }
  }

  lemma IsGroupNext(drives: seq<Drive>, d: nat, n: nat, g: seq<nat>)
    requires IsGroup(drives, d, n, g) && n < |drives|
    ensures drives[n].delay == d ==> IsGroup(drives, d, n + 1, g + [n])
    ensures drives[n].delay != d ==> IsGroup(drives, d, n + 1, g)
  {
    var h := g + [n];
    assert forall k :: k in g ==> k in h;
    assert h[|g|] == n;
  }

  function Of(groups: map<nat, seq<nat>>, d: nat): seq<nat> {
    if d in groups then groups[d] else []
  }

  ghost predicate AllGroups(drives: seq<Drive>, n: nat, groups: map<nat, seq<nat>>) {
    forall d: nat {:trigger Of(groups, d)} :: IsGroup(drives, d, n, Of(groups, d))
  }

  lemma AllGroupsNext(drives: seq<Drive>, n: nat, groups: map<nat, seq<nat>>, d: nat)
    requires AllGroups(drives, n, groups) && n < |drives| && d == drives[n].delay
    ensures AllGroups(drives, n + 1, groups[d := Of(groups, d) + [n]])
  {
    var next := groups[d := Of(groups, d) + [n]];
    forall e: nat {:trigger Of(next, e)}
      ensures IsGroup(drives, e, n + 1, Of(next, e))
    {
      assert IsGroup(drives, e, n, Of(groups, e));
      IsGroupNext(drives, e, n, Of(groups, e));
    }
  }

  /** The places of the drives, grouped by delay. */
  method GroupByDelay(drives: seq<Drive>) returns (groups: map<nat, seq<nat>>)
    ensures AllGroups(drives, |drives|, groups) && forall k :: 0 <= k < |drives| ==> drives[k].delay in groups
  {
    groups := map[];
    for n := 0 to |drives|
      invariant AllGroups(drives, n, groups) && forall k :: 0 <= k < n ==> drives[k].delay in groups
    {
      AllGroupsNext(drives, n, groups, drives[n].delay);
      groups := groups[drives[n].delay := Of(groups, drives[n].delay) + [n]];
    }
  }

  lemma GroupPlaces(drives: seq<Drive>, block: Block, delay: nat, g: seq<nat>, block': Block)
    requires IsGroup(drives, delay, |drives|, g) && GroupDone(drives, block, g, |g|, block')
    ensures forall k: nat :: k < |drives| ==> block'[k] == if drives[k].delay == delay then Place(drives, k)
      else block[k]
  {
    forall k: nat | k < |drives|
      ensures block'[k] == if drives[k].delay == delay then Place(drives, k) else block[k]
    {
      if drives[k].delay == delay {
        var j: nat :| j < |g| && g[j] == k;
      } else {
        assert k !in g;
      }
    }
  }

  /** `coalesce_drives`, for any order of the groups. */
  method CoalesceDrives(drives: seq<Drive>) returns (block: Block)
    ensures block == Coalesced(drives)
  {
    block := Original(drives);
    var groups := GroupByDelay(drives);
    var rest := groups.Keys;
    while rest != {}
      invariant rest <= groups.Keys && |block| == |drives|
      invariant forall k: nat :: k < |drives| ==> block[k] == if drives[k].delay in rest then Some(drives[k])
        else Place(drives, k)
      decreases |rest|
    {
      var d :| d in rest;
      rest := rest - {d};
      assert IsGroup(drives, d, |drives|, Of(groups, d));
      ghost var was := block;
      block := CoalesceGroup(drives, block, d, groups[d]);
      GroupPlaces(drives, was, d, groups[d], block);
    }
  }

  // ---------------------------------------------------------------- what a run schedules

  /** The last enabled drive of a run, up to some place. */
  function LastEnabled(drives: seq<Drive>, k: nat, env: Env): Option<nat>
    requires k < |drives|
    decreases k
  {
    if Enabled(drives[k], env) then Some(k)
    else
      match Prev(drives, k)
      case None => None
      case Some(p) => LastEnabled(drives, p, env)
  }

  /** The accumulated condition says that some drive is enabled, the accumulated value is that of the last one. */
  lemma {:induction false} GatheredMeans(drives: seq<Drive>, k: nat, env: Env)
    requires k < |drives|
    ensures Truth(Gathered(drives, k).0, env) <==> LastEnabled(drives, k, env).Some?
    ensures match LastEnabled(drives, k, env)
      case None => true
      case Some(m) =>
        m <= k && Enabled(drives[m], env) && SameRun(drives, m, k)
        && Eval(Gathered(drives, k).1, env) == Eval(drives[m].value, env)
    decreases k
  {
    assert Truth(CondOf(drives[k], k), env) <==> Enabled(drives[k], env);
    match Prev(drives, k)
    case None =>
    case Some(p) => GatheredMeans(drives, p, env);
  }

  lemma PlaceMeans(drives: seq<Drive>, k: nat, env: Env)
    requires k < |drives| && Next(drives, k).None?
    ensures Place(drives, k).Some? && Place(drives, k).value.delay == drives[k].delay
      && Place(drives, k).value.target == drives[k].target
    ensures Enabled(Place(drives, k).value, env) <==> LastEnabled(drives, k, env).Some?
    ensures match LastEnabled(drives, k, env)
      case None => true
      case Some(m) =>
        m <= k && Enabled(drives[m], env) && SameRun(drives, m, k)
        && Eval(Place(drives, k).value.value, env) == Eval(drives[m].value, env)
  {
    GatheredMeans(drives, k, env);
  }

  lemma {:induction false} LastEnabledIs(drives: seq<Drive>, m: nat, k: nat, env: Env)
    requires k < |drives| && SameRun(drives, m, k) && m < |drives| && Enabled(drives[m], env)
    requires forall j :: m < j <= k && SameRun(drives, m, j) ==> !Enabled(drives[j], env)
    ensures LastEnabled(drives, k, env) == Some(m)
    decreases k
  {
    RunIs(drives, m, k);
    if m != k {
      LastEnabledIs(drives, m, Prev(drives, k).value, env);
    }
  }

  // ---------------------------------------------------------------- what a block schedules

  /** The last place that schedules a value for a target after a delay. */
  function LastPlace(block: Block, env: Env, delay: nat, target: nat): (r: Option<nat>)
    ensures r.Some? ==> r.value < |block| && Schedules(block[r.value], env, delay, target)
  {
    if block == [] then None
    else if Schedules(block[|block| - 1], env, delay, target) then Some(|block| - 1)
    else LastPlace(block[..|block| - 1], env, delay, target)
  }

  /** It decides what is scheduled. */
  lemma {:induction false} LastPlaceIs(block: Block, env: Env, delay: nat, target: nat)
    ensures var r := LastPlace(block, env, delay, target);
      Scheduled(block, env, delay, target) == if r.None? then None else Some(Eval(block[r.value].value.value, env))
    decreases |block|
  {
    if block == [] {
    } else {
      LastPlaceIs(block[..|block| - 1], env, delay, target);
    }
  }

  lemma {:induction false} NotBehind(block: Block, env: Env, delay: nat, target: nat, k: nat)
    requires k < |block| && Schedules(block[k], env, delay, target)
    ensures LastPlace(block, env, delay, target).Some? && k <= LastPlace(block, env, delay, target).value
    decreases |block|
  {
    if k < |block| - 1 {
      NotBehind(block[..|block| - 1], env, delay, target, k);
    }
  }

  /** Some other drive schedules for the same target after the same delay, although its delay operand
      is another one, and lies between two drives of a run. */
  predicate Clash(drives: seq<Drive>, delay: nat -> nat, target: nat -> nat, i: nat, k: nat, j: nat) {
    && i < k < j < |drives| && SameRun(drives, i, j) && drives[k].delay != drives[i].delay
    && delay(drives[k].delay) == delay(drives[i].delay) && target(drives[k].target) == target(drives[i].target)
  }

  ghost predicate NoClash(drives: seq<Drive>, delay: nat -> nat, target: nat -> nat) {
    forall i: nat, k: nat, j: nat {:trigger Clash(drives, delay, target, i, k, j)} ::
      !Clash(drives, delay, target, i, k, j)
  }

  /** What is in a place of the coalesced block comes from an enabled drive of the run. */
  lemma FromDrive(drives: seq<Drive>, env: Env, delay: nat, target: nat, e: nat) returns (m: nat)
    requires e < |drives| && Schedules(Coalesced(drives)[e], env, delay, target)
    ensures m <= e && SameRun(drives, m, e) && Next(drives, e).None? && LastEnabled(drives, e, env) == Some(m)
    ensures Schedules(Original(drives)[m], env, delay, target)
    ensures Eval(Coalesced(drives)[e].value.value, env) == Eval(drives[m].value, env)
  {
    PlaceMeans(drives, e, env);
    m := LastEnabled(drives, e, env).value;
    RunIs(drives, m, e);
  }

  /** What an enabled drive schedules is in the place of its run's end, unless a later one of the run is enabled. */
  lemma ToPlace(drives: seq<Drive>, env: Env, delay: nat, target: nat, k: nat)
    requires k < |drives| && Schedules(Original(drives)[k], env, delay, target)
    requires forall j :: k < j < |drives| && SameRun(drives, k, j) ==> !Enabled(drives[j], env)
    ensures var e := EndOf(drives, k);
      Schedules(Coalesced(drives)[e], env, delay, target)
        && Eval(Coalesced(drives)[e].value.value, env) == Eval(drives[k].value, env)
  {
    var e := EndOf(drives, k);
    LastEnabledIs(drives, k, e, env);
    PlaceMeans(drives, e, env);
    RunIs(drives, k, e);
  }

  /** If a run that ends later schedules as well, it clashes with the last drive. */
  lemma {:induction false} LaterClash(drives: seq<Drive>, env: Env, delay: nat, target: nat, k: nat, e': nat)
      returns (m: nat)
    requires LastPlace(Original(drives), env, delay, target) == Some(k) && EndOf(drives, k) < e' < |drives|
    requires Schedules(Coalesced(drives)[e'], env, delay, target)
    ensures Clash(drives, env.delay, env.target, m, k, e')
  {
    m := FromDrive(drives, env, delay, target, e');
    NotBehind(Original(drives), env, delay, target, m);
    RunIs(drives, m, e');
    OtherRun(drives, m, k, e');
  }

  lemma {:induction false} OtherRun(drives: seq<Drive>, m: nat, k: nat, e': nat)
    requires m <= k < |drives| && e' < |drives| && SameRun(drives, m, e') && EndOf(drives, k) < e'
    ensures drives[k].delay != drives[e'].delay
  {
    var e := EndOf(drives, k);
    RunIs(drives, m, e');
    RunIs(drives, k, e);
    if drives[k].delay == drives[e'].delay {
      NotLast(drives, e, e');
    }
  }

  lemma {:induction false} NothingKept(drives: seq<Drive>, env: Env, delay: nat, target: nat)
    requires LastPlace(Original(drives), env, delay, target).None?
    ensures LastPlace(Coalesced(drives), env, delay, target).None?
  {
    var there := LastPlace(Coalesced(drives), env, delay, target);
    if there.Some? {
      var m := FromDrive(drives, env, delay, target, there.value);
      NotBehind(Original(drives), env, delay, target, m);
    }
  }

  lemma {:induction false} LaterDisabled(drives: seq<Drive>, env: Env, delay: nat, target: nat, k: nat)
    requires LastPlace(Original(drives), env, delay, target) == Some(k)
    ensures forall j :: k < j < |drives| && SameRun(drives, k, j) ==> !Enabled(drives[j], env)
  {
    forall j | k < j < |drives| && SameRun(drives, k, j)
      ensures !Enabled(drives[j], env)
    {
      RunIs(drives, k, j);
      if Enabled(drives[j], env) {
        NotBehind(Original(drives), env, delay, target, j);
      }
    }
  }

  lemma {:induction false} NotLater(drives: seq<Drive>, env: Env, delay: nat, target: nat, k: nat, last: nat)
    requires NoClash(drives, env.delay, env.target) && LastPlace(Original(drives), env, delay, target) == Some(k)
    requires LastPlace(Coalesced(drives), env, delay, target) == Some(last)
    ensures last <= EndOf(drives, k)
  {
    if last > EndOf(drives, k) {
      var m := LaterClash(drives, env, delay, target, k, last);
    }
  }

  lemma {:induction false} EndKept(drives: seq<Drive>, env: Env, delay: nat, target: nat, k: nat) returns (last: nat)
    requires LastPlace(Original(drives), env, delay, target) == Some(k)
    ensures LastPlace(Coalesced(drives), env, delay, target) == Some(last) && EndOf(drives, k) <= last
    ensures Eval(Coalesced(drives)[EndOf(drives, k)].value.value, env) == Eval(drives[k].value, env)
  {
    LaterDisabled(drives, env, delay, target, k);
    ToPlace(drives, env, delay, target, k);
    NotBehind(Coalesced(drives), env, delay, target, EndOf(drives, k));
    last := LastPlace(Coalesced(drives), env, delay, target).value;
  }

  lemma {:induction false} LastKept(drives: seq<Drive>, env: Env, delay: nat, target: nat, k: nat)
    requires NoClash(drives, env.delay, env.target) && LastPlace(Original(drives), env, delay, target) == Some(k)
    ensures var e := EndOf(drives, k);
      LastPlace(Coalesced(drives), env, delay, target) == Some(e)
        && Eval(Coalesced(drives)[e].value.value, env) == Eval(drives[k].value, env)
  {
    var last := EndKept(drives, env, delay, target, k);
    NotLater(drives, env, delay, target, k, last);
  }

  /** Without a clash, the coalesced block schedules what the drives do. */
  lemma {:induction false} NoClashKeeps(drives: seq<Drive>, env: Env, delay: nat, target: nat)
    requires NoClash(drives, env.delay, env.target)
    ensures Scheduled(Coalesced(drives), env, delay, target) == Scheduled(Original(drives), env, delay, target)
  {
    LastPlaceIs(Original(drives), env, delay, target);
    LastPlaceIs(Coalesced(drives), env, delay, target);
    match LastPlace(Original(drives), env, delay, target)
    case None => NothingKept(drives, env, delay, target);
    case Some(k) => LastKept(drives, env, delay, target, k);
  }

  // ---------------------------------------------------------------- the exact condition

  /** Drives with these targets and delays; conditions and values are free. */
  predicate HasShape(drives: seq<Drive>, shape: seq<Drive>) {
    |drives| == |shape| && forall k :: 0 <= k < |drives| ==>
      drives[k].target == shape[k].target && drives[k].delay == shape[k].delay
  }

  /** The schedule is the same before and after. */
  ghost predicate Kept(drives: seq<Drive>, env: Env) {
    forall delay, target {:trigger Scheduled(Coalesced(drives), env, delay, target)} ::
      Scheduled(Coalesced(drives), env, delay, target) == Scheduled(Original(drives), env, delay, target)
  }

  lemma {:induction false} ShapeBefore(drives: seq<Drive>, shape: seq<Drive>, k: nat, delay: nat)
    requires HasShape(drives, shape) && k <= |drives|
    ensures Before(drives, k, delay) == Before(shape, k, delay)
  {
    if k > 0 {
      ShapeBefore(drives, shape, k - 1, delay);
    }
  }

  lemma {:induction false} ShapeRuns(drives: seq<Drive>, shape: seq<Drive>, i: nat, j: nat)
    requires HasShape(drives, shape) && j < |drives|
    ensures Prev(drives, j) == Prev(shape, j)
    ensures SameRun(drives, i, j) <==> SameRun(shape, i, j)
    decreases j
  {
    ShapeBefore(drives, shape, j, drives[j].delay);
    if Prev(drives, j).Some? {
      ShapeRuns(drives, shape, i, Prev(drives, j).value);
    }
  }

  lemma {:induction false} ShapeClash(drives: seq<Drive>, shape: seq<Drive>, delay: nat -> nat, target: nat -> nat,
      i: nat, k: nat, j: nat)
    requires HasShape(drives, shape)
    ensures Clash(drives, delay, target, i, k, j) <==> Clash(shape, delay, target, i, k, j)
  {
    if j < |drives| {
      ShapeRuns(drives, shape, i, j);
    }
  }

  /** Every drive has a condition and a value of its own. */
  function Free(shape: seq<Drive>): (r: seq<Drive>)
    ensures HasShape(r, shape) && forall k :: 0 <= k < |r| ==> r[k].cond == Some(Operand(k)) && r[k].value == Given(k)
  {
    seq(|shape|, k requires 0 <= k < |shape| => Drive(shape[k].target, Given(k), shape[k].delay, Some(Operand(k))))
  }

  /** Only two drives are enabled, and each drives its own place. */
  function Pair(delay: nat -> nat, target: nat -> nat, a: nat, b: nat): Env {
    Env(target, delay, (k: nat) => k == a || k == b, (k: nat) => k)
  }

  /** If only two drives of different runs are enabled, the later one is the last in the original block. */
  lemma {:induction false} LaterLast(drives: seq<Drive>, shape: seq<Drive>, env: Env, d: nat, t: nat, a: nat, b: nat)
    requires drives == Free(shape) && a < b < |drives| && env == Pair(env.delay, env.target, a, b)
    requires env.delay(drives[b].delay) == d && env.target(drives[b].target) == t
    ensures Scheduled(Original(drives), env, d, t) == Some(b)
  {
    assert Schedules(Original(drives)[b], env, d, t);
    NotBehind(Original(drives), env, d, t, b);
    LastPlaceIs(Original(drives), env, d, t);
  }

  /** If the earlier one's run ends last, that one wins in the coalesced block. */
  lemma {:induction false} EarlierLast(drives: seq<Drive>, shape: seq<Drive>, env: Env, d: nat, t: nat, a: nat, b: nat)
    requires drives == Free(shape) && a < b < |drives| && env == Pair(env.delay, env.target, a, b)
      && drives[a].delay != drives[b].delay
    requires env.delay(drives[a].delay) == d && env.target(drives[a].target) == t && EndOf(drives, b) < EndOf(drives, a)
    ensures Scheduled(Coalesced(drives), env, d, t) == Some(a)
  {
    forall j | a < j < |drives| && SameRun(drives, a, j)
      ensures !Enabled(drives[j], env)
    {
      RunIs(drives, a, j);
    }
    assert Schedules(Original(drives)[a], env, d, t);
    ToPlace(drives, env, d, t, a);
    NotBehind(Coalesced(drives), env, d, t, EndOf(drives, a));
    LastPlaceIs(Coalesced(drives), env, d, t);
    var last := LastPlace(Coalesced(drives), env, d, t).value;
    var m := FromDrive(drives, env, d, t, last);
    assert Enabled(drives[m], env);
    assert m == a || m == b;
    assert Eval(drives[m].value, env) == m;
    if m == b {
      OneEnd(drives, b, last);
    }
    assert m == a;
    assert Eval(Coalesced(drives)[last].value.value, env) == a;
  }

  lemma {:induction false} EarlierWins(drives: seq<Drive>, shape: seq<Drive>, delay: nat -> nat, target: nat -> nat,
      a: nat, b: nat)
    requires drives == Free(shape) && a < b < |drives| && drives[a].delay != drives[b].delay
    requires delay(drives[a].delay) == delay(drives[b].delay) && target(drives[a].target) == target(drives[b].target)
    requires EndOf(drives, b) < EndOf(drives, a)
    ensures !Kept(drives, Pair(delay, target, a, b))
  {
    var env, d, t := Pair(delay, target, a, b), delay(drives[a].delay), target(drives[a].target);
    LaterLast(drives, shape, env, d, t, a, b);
    EarlierLast(drives, shape, env, d, t, a, b);
    assert Scheduled(Coalesced(drives), env, d, t) != Scheduled(Original(drives), env, d, t);
  }

  lemma {:induction false} ClashBreaks(shape: seq<Drive>, delay: nat -> nat, target: nat -> nat, i: nat, k: nat, j: nat)
      returns (env: Env)
    requires Clash(shape, delay, target, i, k, j)
    ensures env.delay == delay && env.target == target && !Kept(Free(shape), env)
  {
    var drives := Free(shape);
    ShapeClash(drives, shape, delay, target, i, k, j);
    RunIs(drives, i, j);
    EndsApart(drives, i, k, j);
    if EndOf(drives, k) < EndOf(drives, i) {
      env := Pair(delay, target, i, k);
      EarlierWins(drives, shape, delay, target, i, k);
    } else {
      env := Pair(delay, target, k, j);
      EarlierWins(drives, shape, delay, target, k, j);
    }
  }

  lemma {:induction false} EndsApart(drives: seq<Drive>, i: nat, k: nat, j: nat)
    requires i <= j < |drives| && k < |drives| && SameRun(drives, i, j) && drives[k].delay != drives[i].delay
    ensures EndOf(drives, i) == EndOf(drives, j) && EndOf(drives, k) != EndOf(drives, i)
  {
    EndBehind(drives, i, j);
    RunIs(drives, i, EndOf(drives, i));
    RunIs(drives, k, EndOf(drives, k));
  }

  lemma {:induction false} EndBehind(drives: seq<Drive>, i: nat, j: nat)
    requires j < |drives| && SameRun(drives, i, j)
    ensures EndOf(drives, i) == EndOf(drives, j)
  {
    RunIs(drives, i, j);
    RunChain(drives, i, j, EndOf(drives, j));
    OneEnd(drives, i, EndOf(drives, j));
  }

  /** For given targets and delays, coalescing keeps the schedule for all conditions and values if and
      only if no drive with another delay operand, but the same delay and target, lies between two
      drives of a run. */
  lemma {:induction false} KeptExactly(shape: seq<Drive>, delay: nat -> nat, target: nat -> nat)
    ensures NoClash(shape, delay, target) <==>
      forall drives: seq<Drive>, env: Env {:trigger Kept(drives, env)} ::
        HasShape(drives, shape) && env.delay == delay && env.target == target ==> Kept(drives, env)
  {
    if NoClash(shape, delay, target) {
      forall drives: seq<Drive>, env: Env | HasShape(drives, shape) && env.delay == delay && env.target == target
        ensures Kept(drives, env)
      {
        forall i: nat, k: nat, j: nat
          ensures !Clash(drives, delay, target, i, k, j)
        {
          ShapeClash(drives, shape, delay, target, i, k, j);
        }
        forall d, t
          ensures Scheduled(Coalesced(drives), env, d, t) == Scheduled(Original(drives), env, d, t)
        {
          NoClashKeeps(drives, env, d, t);
        }
      }
    } else {
      var i: nat, k: nat, j: nat :| Clash(shape, delay, target, i, k, j);
      var env := ClashBreaks(shape, delay, target, i, k, j);
      assert !Kept(Free(shape), env);
    }
  }

  /** Distinct delay operands that are distinct delays never clash. */
  lemma DistinctDelaysKeep(drives: seq<Drive>, env: Env)
    requires forall j, k {:trigger drives[j], drives[k]} ::
      0 <= j < |drives| && 0 <= k < |drives| && drives[j].delay != drives[k].delay ==>
      env.delay(drives[j].delay) != env.delay(drives[k].delay)
    ensures Kept(drives, env)
  {
    forall d, t
      ensures Scheduled(Coalesced(drives), env, d, t) == Scheduled(Original(drives), env, d, t)
    {
      NoClashKeeps(drives, env, d, t);
    }
  }

  /** Three drives of a target after the same delay, which the second one has from another operand. */
  lemma EqualDelaysClash(target: nat, d: nat, e: nat, delay: nat -> nat, on: nat -> nat)
    requires d != e && delay(d) == delay(e)
    ensures var drives := [Drive(target, Given(0), d, None), Drive(target, Given(1), e, None),
      Drive(target, Given(2), d, Some(Operand(0)))];
      !Kept(drives, Env(on, delay, (k: nat) => false, (k: nat) => k))
  {
    var drives := [Drive(target, Given(0), d, None), Drive(target, Given(1), e, None),
      Drive(target, Given(2), d, Some(Operand(0)))];
    var env := Env(on, delay, (k: nat) => false, (k: nat) => k);
    assert Before(drives, 2, d) == Some(0) && Before(drives, 0, d) == None && Behind(drives, 3, d) == None;
    assert Place(drives, 2) == Some(Drive(target, Mux(Given(0), Given(2), Operand(0)), d,
      Some(Or(Ones(0), Operand(0)))));
    assert Schedules(Coalesced(drives)[2], env, delay(d), on(target));
    assert Schedules(Original(drives)[1], env, delay(d), on(target))
      && !Schedules(Original(drives)[2], env, delay(d), on(target));
    NotBehind(Coalesced(drives), env, delay(d), on(target), 2);
    NotBehind(Original(drives), env, delay(d), on(target), 1);
    LastPlaceIs(Coalesced(drives), env, delay(d), on(target));
    LastPlaceIs(Original(drives), env, delay(d), on(target));
    assert Scheduled(Coalesced(drives), env, delay(d), on(target)) == Some(0);
  }
}
