/** Reading edge and level triggers off a drive condition (src/pass/deseq.rs,
    `canonicalize_inner`, `detect_triggers` and `detect_term_triggers`). */
module Triggers {
  import opened Dnf
  import opened Options

  // ---------------------------------------------------------------- canonicalization

  /** The normal form of a condition, or of its negation. */
  function Canon(nodes: seq<Node>, v: Value, inv: bool): Dnf
    requires NodesOk(nodes)
    decreases Rank(v)
  {
    if WidthOf(nodes, v) != 1 then Single(Invalid(v), inv)
    else
      assert NodeOk(nodes, v.inst);
      var d := nodes[v.inst].data;
      match d.op
      case Const(c) => if (c == 1) != inv then One() else Zero()
      case Not => Canon(nodes, d.args[0], !inv)
      case And =>
        var l, r := Canon(nodes, d.args[0], inv), Canon(nodes, d.args[1], inv);
        if inv then Disjunction(l, r) else Conjunction(l, r)
      case Or =>
        var l, r := Canon(nodes, d.args[0], inv), Canon(nodes, d.args[1], inv);
        if inv then Conjunction(l, r) else Disjunction(l, r)
      case Xor | Eq | Neq => Parity(
        Canon(nodes, d.args[0], false), Canon(nodes, d.args[1], false), Canon(nodes, d.args[0], true),
          Canon(nodes, d.args[1], true),
        if d.op.Eq? then !inv else inv)
      case Prb => Single(Signal(d.args[0], nodes[v.inst].region), inv)
      case Pure(_) => Single(Invalid(v), inv)
  }

  /** Both sides are the same, or they are different. */
  function Parity(leftPos: Dnf, rightPos: Dnf, leftNeg: Dnf, rightNeg: Dnf, same: bool): Dnf {
    if same then Disjunction(Conjunction(leftPos, rightPos), Conjunction(leftNeg, rightNeg))
    else Disjunction(Conjunction(leftPos, rightNeg), Conjunction(leftNeg, rightPos))
  }

  /** The pairs of wider values that a condition compares. */
  function Compared(nodes: seq<Node>, v: Value): seq<(Value, Value)>
    requires NodesOk(nodes)
    decreases Rank(v)
  {
    if WidthOf(nodes, v) != 1 then []
    else
      assert NodeOk(nodes, v.inst);
      var d := nodes[v.inst].data;
      match d.op
      case Not => Compared(nodes, d.args[0])
      case And | Or | Xor => Compared(nodes, d.args[0]) + Compared(nodes, d.args[1])
      case Eq | Neq =>
        if WidthOf(nodes, d.args[0]) != 1 then [(d.args[0], d.args[1])]
        else Compared(nodes, d.args[0]) + Compared(nodes, d.args[1])
      case _ => []
  }

  predicate Same(nodes: seq<Node>, env: Env, p: (Value, Value)) {
    Eval(nodes, env, Own, p.0) == Eval(nodes, env, Own, p.1)
  }

  /** The words are taken for bits that are the same exactly where the words are. */
  ghost predicate Alike(nodes: seq<Node>, env: Env, pairs: seq<(Value, Value)>) {
    forall p {:trigger p in pairs} :: p in pairs ==> ((env.truth(p.0) == env.truth(p.1)) <==> Same(nodes, env, p))
  }

  lemma ParityHolds(nodes: seq<Node>, env: Env, lp: Dnf, rp: Dnf, ln: Dnf, rn: Dnf, same: bool, l: bool, r: bool)
    requires (Holds(nodes, env, lp) <==> l) && (Holds(nodes, env, rp) <==> r)
    requires (Holds(nodes, env, ln) <==> !l) && (Holds(nodes, env, rn) <==> !r)
    ensures Holds(nodes, env, Parity(lp, rp, ln, rn, same)) <==> ((l == r) == same)
  {
    if same {
      ConjunctionHolds(nodes, env, lp, rp);
      ConjunctionHolds(nodes, env, ln, rn);
      DisjunctionHolds(nodes, env, Conjunction(lp, rp), Conjunction(ln, rn));
    } else {
      ConjunctionHolds(nodes, env, lp, rn);
      ConjunctionHolds(nodes, env, ln, rp);
      DisjunctionHolds(nodes, env, Conjunction(lp, rn), Conjunction(ln, rp));
    }
  }

  lemma ApplyUnary(nodes: seq<Node>, env: Env, i: nat)
    requires NodeOk(nodes, i) && nodes[i].data.width == 1 && nodes[i].data.op.Not?
    ensures AsBit(Eval(nodes, env, Own, Res(i))) == !AsBit(Eval(nodes, env, Own, nodes[i].data.args[0]))
  {
    EvalArgsAt(nodes, env, Own, nodes[i].data.args, i, 0);
  }

  lemma ApplyBinary(nodes: seq<Node>, env: Env, i: nat, l: Val, r: Val)
    requires NodeOk(nodes, i) && nodes[i].data.width == 1 && |nodes[i].data.args| == 2
    requires l == Eval(nodes, env, Own, nodes[i].data.args[0]) && r == Eval(nodes, env, Own, nodes[i].data.args[1])
    ensures nodes[i].data.op.And? ==> AsBit(Eval(nodes, env, Own, Res(i))) == (AsBit(l) && AsBit(r))
    ensures nodes[i].data.op.Or? ==> AsBit(Eval(nodes, env, Own, Res(i))) == (AsBit(l) || AsBit(r))
    ensures nodes[i].data.op.Xor? ==> AsBit(Eval(nodes, env, Own, Res(i))) == (AsBit(l) != AsBit(r))
    ensures nodes[i].data.op.Eq? ==> AsBit(Eval(nodes, env, Own, Res(i))) == (l == r)
    ensures nodes[i].data.op.Neq? ==> AsBit(Eval(nodes, env, Own, Res(i))) == (l != r)
  {
    EvalArgsAt(nodes, env, Own, nodes[i].data.args, i, 0);
    EvalArgsAt(nodes, env, Own, nodes[i].data.args, i, 1);
  }

  lemma CanonBinary(nodes: seq<Node>, env: Env, i: nat, inv: bool)
    requires NodesOk(nodes) && NodeOk(nodes, i) && nodes[i].data.width == 1 && |nodes[i].data.args| == 2
    requires nodes[i].data.op.And? || nodes[i].data.op.Or? || nodes[i].data.op.Xor? || nodes[i].data.op.Eq?
      || nodes[i].data.op.Neq?
    requires WidthOf(nodes, nodes[i].data.args[0]) == 1
    requires forall k, n :: 0 <= k < 2 ==>
      (Holds(nodes, env, Canon(nodes, nodes[i].data.args[k], n)) <==>
        AsBit(Eval(nodes, env, Own, nodes[i].data.args[k])) != n)
    ensures Holds(nodes, env, Canon(nodes, Res(i), inv)) <==> AsBit(Eval(nodes, env, Own, Res(i))) != inv
  {
    var d := nodes[i].data;
    var a, b := d.args[0], d.args[1];
    var l, r := Eval(nodes, env, Own, a), Eval(nodes, env, Own, b);
    ApplyBinary(nodes, env, i, l, r);
    EvalBit(nodes, env, Own, a);
    EvalBit(nodes, env, Own, b);
    if d.op.And? || d.op.Or? {
      ConjunctionHolds(nodes, env, Canon(nodes, a, inv), Canon(nodes, b, inv));
      DisjunctionHolds(nodes, env, Canon(nodes, a, inv), Canon(nodes, b, inv));
    } else {
      ParityHolds(nodes, env, Canon(nodes, a, false), Canon(nodes, b, false), Canon(nodes, a, true),
        Canon(nodes, b, true),
        if d.op.Eq? then !inv else inv, AsBit(l), AsBit(r));
    }
  }

  /** A comparison of wider values means the same, if they are taken for bits that are the same where they are. */
  lemma CanonWide(nodes: seq<Node>, env: Env, i: nat, inv: bool)
    requires NodesOk(nodes) && NodeOk(nodes, i) && (nodes[i].data.op.Eq? || nodes[i].data.op.Neq?)
    requires WidthOf(nodes, nodes[i].data.args[0]) != 1
    requires Alike(nodes, env, [(nodes[i].data.args[0], nodes[i].data.args[1])])
    ensures Holds(nodes, env, Canon(nodes, Res(i), inv)) <==> AsBit(Eval(nodes, env, Own, Res(i))) != inv
  {
    var d := nodes[i].data;
    var a, b := d.args[0], d.args[1];
    assert (a, b) in [(a, b)];
    ApplyBinary(nodes, env, i, Eval(nodes, env, Own, a), Eval(nodes, env, Own, b));
    SingleHolds(nodes, env, Invalid(a), false);
    SingleHolds(nodes, env, Invalid(a), true);
    SingleHolds(nodes, env, Invalid(b), false);
    SingleHolds(nodes, env, Invalid(b), true);
    ParityHolds(nodes, env, Canon(nodes, a, false), Canon(nodes, b, false), Canon(nodes, a, true),
      Canon(nodes, b, true),
      if d.op.Eq? then !inv else inv, env.truth(a), env.truth(b));
  }

  lemma AlikeParts(nodes: seq<Node>, env: Env, i: nat)
    requires NodesOk(nodes) && NodeOk(nodes, i) && nodes[i].data.width == 1 && |nodes[i].data.args| == 2
    requires nodes[i].data.op.And? || nodes[i].data.op.Or? || nodes[i].data.op.Xor? || nodes[i].data.op.Eq?
      || nodes[i].data.op.Neq?
    requires WidthOf(nodes, nodes[i].data.args[0]) == 1 && Alike(nodes, env, Compared(nodes, Res(i)))
    ensures forall k :: 0 <= k < 2 ==>
      Rank(nodes[i].data.args[k]) <= i && WidthOf(nodes, nodes[i].data.args[k]) == 1
        && Alike(nodes, env, Compared(nodes, nodes[i].data.args[k]))
  {
    var l, r := Compared(nodes, nodes[i].data.args[0]), Compared(nodes, nodes[i].data.args[1]);
    assert Compared(nodes, Res(i)) == l + r;
    assert forall p :: p in l ==> p in l + r;
    assert forall p :: p in r ==> p in l + r;
  }

  /** The normal form of a condition means the same as the condition. */
  lemma {:induction false} CanonMeans(nodes: seq<Node>, env: Env, v: Value, inv: bool)
    requires NodesOk(nodes) && WidthOf(nodes, v) == 1 && Alike(nodes, env, Compared(nodes, v))
    ensures Holds(nodes, env, Canon(nodes, v, inv)) <==> AsBit(Eval(nodes, env, Own, v)) != inv
    decreases Rank(v), 0
  {
    assert NodeOk(nodes, v.inst);
    var d := nodes[v.inst].data;
    match d.op
    case Const(_) => OneHolds(nodes, env);
    case Not =>
      CanonMeans(nodes, env, d.args[0], !inv);
      ApplyUnary(nodes, env, v.inst);
    case And | Or | Xor => CanonParts(nodes, env, v.inst, inv);
    case Eq | Neq =>
      if WidthOf(nodes, d.args[0]) != 1 {
        CanonWide(nodes, env, v.inst, inv);
      } else {
        CanonParts(nodes, env, v.inst, inv);
      }
    case Prb => SingleHolds(nodes, env, Signal(d.args[0], nodes[v.inst].region), inv);
    case Pure(_) => SingleHolds(nodes, env, Invalid(v), inv);
  }

  lemma {:induction false} CanonParts(nodes: seq<Node>, env: Env, i: nat, inv: bool)
    requires NodesOk(nodes) && NodeOk(nodes, i) && nodes[i].data.width == 1 && |nodes[i].data.args| == 2
    requires nodes[i].data.op.And? || nodes[i].data.op.Or? || nodes[i].data.op.Xor? || nodes[i].data.op.Eq?
      || nodes[i].data.op.Neq?
    requires WidthOf(nodes, nodes[i].data.args[0]) == 1 && Alike(nodes, env, Compared(nodes, Res(i)))
    ensures Holds(nodes, env, Canon(nodes, Res(i), inv)) <==> AsBit(Eval(nodes, env, Own, Res(i))) != inv
    decreases i, 1
  {
    AlikeParts(nodes, env, i);
    var args := nodes[i].data.args;
    forall k, n | 0 <= k < 2
      ensures Holds(nodes, env, Canon(nodes, args[k], n)) <==> AsBit(Eval(nodes, env, Own, args[k])) != n
    {
      CanonMeans(nodes, env, args[k], n);
    }
    CanonBinary(nodes, env, i, inv);
  }

  // ---------------------------------------------------------------- triggers

  datatype TriggerEdge = Rise | Fall

  datatype TriggerLevel = Low | High

  datatype Trigger = Edge(sig: Value, edge: TriggerEdge,
      levels: map<Value, TriggerLevel>) | Level(levels: map<Value, TriggerLevel>)

  /** All signals are at their level after the wait. */
  ghost predicate LevelsHold(env: Env, levels: map<Value, TriggerLevel>) {
    forall s :: s in levels ==> env.bit(s, Behind) == levels[s].High?
  }

  /** The signal changed across the wait. */
  predicate EdgeSeen(env: Env, sig: Value, edge: TriggerEdge) {
    env.bit(sig, Before) == edge.Fall? && env.bit(sig, Behind) == edge.Rise?
  }

  ghost predicate Fires(env: Env, t: Trigger) {
    (t.Edge? ==> EdgeSeen(env, t.sig, t.edge)) && LevelsHold(env, t.levels)
  }

  /** A signal is sampled before the wait, and inverted behind it. */
  predicate EdgeIn(conds: Conj, s: Value) {
    Signal(s, Before) in conds && Signal(s, Behind) in conds && conds[Signal(s, Behind)] == !conds[Signal(s, Before)]
  }

  /** Something is not a signal, or is sampled before the wait only, or there are edges of two signals. */
  ghost predicate Undetectable(conds: Conj) {
    || (exists t :: t in conds && t.Invalid?)
    || (exists s :: Signal(s, Before) in conds && !EdgeIn(conds, s))
    || (exists s, r :: EdgeIn(conds, s) && EdgeIn(conds, r) && s != r)
  }

  /** The edges and levels among the terms seen so far. */
  ghost predicate Sorted(conds: Conj, rest: set<Term>, edges: map<Value, TriggerEdge>, levels: map<Value, TriggerLevel>)
  {
    && (forall t :: t in conds && t !in rest ==> t.Signal? && (t.region.Before? ==> EdgeIn(conds, t.sig)))
    && (forall s :: s in edges <==> Signal(s, Before) in conds && Signal(s, Before) !in rest)
    && (forall s :: s in edges ==> edges[s] == if conds[Signal(s, Before)] then Rise else Fall)
    && (forall s :: s in levels <==> Signal(s, Behind) in conds && Signal(s, Behind) !in rest && !EdgeIn(conds, s))
    && (forall s :: s in levels ==> levels[s] == if conds[Signal(s, Behind)] then Low else High)
  }

  lemma SortStep(conds: Conj, rest: set<Term>, edges: map<Value, TriggerEdge>, levels: map<Value, TriggerLevel>,
      t: Term, edges': map<Value, TriggerEdge>, levels': map<Value, TriggerLevel>)
    requires Sorted(conds, rest, edges, levels) && t in rest && t in conds && t.Signal?
      && (t.region.Before? ==> EdgeIn(conds, t.sig))
    requires edges' == if t.region.Before? then edges[t.sig := if conds[t] then Rise else Fall] else edges
    requires levels' == if t.region.Behind? && !EdgeIn(conds, t.sig) then levels[t.sig := if conds[t] then Low
      else High] else levels
    ensures Sorted(conds, rest - {t}, edges', levels')
  {
  }

  /** What a conjunction of sampled signals says about edges and levels. */
  lemma SortedMeans(nodes: seq<Node>, env: Env, conds: Conj, edges: map<Value, TriggerEdge>,
      levels: map<Value, TriggerLevel>)
    requires Sorted(conds, {}, edges, levels)
    ensures ConjHolds(nodes, env, conds) <==> LevelsHold(env, levels) && forall s :: s in edges ==>
      EdgeSeen(env, s, edges[s])
  {
    if ConjHolds(nodes, env, conds) {
      forall s | s in edges
        ensures EdgeSeen(env, s, edges[s])
      {
        assert TermHolds(nodes, env, Signal(s, Before)) != conds[Signal(s, Before)];
        assert TermHolds(nodes, env, Signal(s, Behind)) != conds[Signal(s, Behind)];
      }
      forall s | s in levels
        ensures env.bit(s, Behind) == levels[s].High?
      {
        assert TermHolds(nodes, env, Signal(s, Behind)) != conds[Signal(s, Behind)];
      }
    }
    if LevelsHold(env, levels) && forall s :: s in edges ==> EdgeSeen(env, s, edges[s]) {
      forall t | t in conds
        ensures TermHolds(nodes, env, t) != conds[t]
      {
        assert t.Signal?;
        var s := t.sig;
        if EdgeIn(conds, s) {
          assert s in edges && EdgeSeen(env, s, edges[s]);
          assert t == Signal(s, Before) || t == Signal(s, Behind);
        } else {
          assert t == Signal(s, Behind);
          assert s in levels && env.bit(s, Behind) == levels[s].High?;
        }
      }
    }
  }

  /** The trigger of a conjunction: its edge, if it has one, and the levels of all signals without an edge. */
  ghost predicate TriggerFor(conds: Conj, t: Trigger) {
    && (if t.Edge? then EdgeIn(conds, t.sig) && t.edge == (if conds[Signal(t.sig, Before)] then Rise else Fall)
        else forall s :: !EdgeIn(conds, s))
    && (forall s :: s in t.levels <==> Signal(s, Behind) in conds && !EdgeIn(conds, s))
    && (forall s :: s in t.levels ==> t.levels[s] == if conds[Signal(s, Behind)] then Low else High)
  }

  /** There is only one. */
  lemma OneTrigger(conds: Conj, t: Trigger, u: Trigger)
    requires !Undetectable(conds) && TriggerFor(conds, t) && TriggerFor(conds, u)
    ensures t == u
  {
    assert t.levels.Keys == u.levels.Keys;
    assert t.levels == u.levels;
  }

  /** A trigger fires exactly when a conjunction holds. */
  ghost predicate Stands(conds: Conj, t: Trigger) {
    && TriggerFor(conds, t)
    && (forall nodes, env {:trigger ConjHolds(nodes, env, conds)} :: ConjHolds(nodes, env, conds) <==> Fires(env, t))
  }

  /** `detect_term_triggers`: sort the terms into edges and levels. */
  method DetectTermTriggers(conds: Conj) returns (trig: Option<Trigger>)
    ensures trig.None? <==> Undetectable(conds)
    ensures trig.Some? ==> Stands(conds, trig.value)
  {
    var edges: map<Value, TriggerEdge>, levels: map<Value, TriggerLevel> := map[], map[];
    var rest := conds.Keys;
    while rest != {}
      invariant rest <= conds.Keys && Sorted(conds, rest, edges, levels)
      decreases |rest|
    {
      var t :| t in rest;
      ghost var edgesWas, levelsWas := edges, levels;
      match t {
        case Signal(sig, Before) =>
          if Signal(sig, Behind) in conds && conds[Signal(sig, Behind)] == !conds[t] {
            edges := edges[sig := if conds[t] then Rise else Fall];
          } else {
            assert !EdgeIn(conds, sig);
            return None;
          }
        case Signal(sig, Behind) =>
          if !(Signal(sig, Before) in conds && conds[Signal(sig, Before)] == !conds[t]) {
            levels := levels[sig := if conds[t] then Low else High];
          }
        case Invalid(_) =>
          return None;
      }
      SortStep(conds, rest, edgesWas, levelsWas, t, edges, levels);
      rest := rest - {t};
    }
    if |edges.Keys| > 1 {
      TwoEdges(conds, edges, levels);
      return None;
    }
    FewEdges(conds, edges, levels);
    forall nodes, env
      ensures ConjHolds(nodes, env, conds) <==> LevelsHold(env, levels) && forall s :: s in edges ==>
        EdgeSeen(env, s, edges[s])
    {
      SortedMeans(nodes, env, conds, edges, levels);
    }
    if edges.Keys != {} {
      var sig :| sig in edges.Keys;
      OnlyKey(edges.Keys, sig);
      trig := Some(Edge(sig, edges[sig], levels));
    } else {
      trig := Some(Level(levels));
    }
  }

  lemma TwoEdges(conds: Conj, edges: map<Value, TriggerEdge>, levels: map<Value, TriggerLevel>)
    requires Sorted(conds, {}, edges, levels) && |edges.Keys| > 1
    ensures Undetectable(conds)
  {
    var s :| s in edges.Keys;
    assert |edges.Keys - {s}| > 0;
    var r :| r in edges.Keys - {s};
    assert EdgeIn(conds, s) && EdgeIn(conds, r);
  }

  lemma OnlyKey(keys: set<Value>, s: Value)
    requires s in keys && |keys| <= 1
    ensures keys == {s}
  {
    assert |keys - {s}| == 0;
  }

  lemma FewEdges(conds: Conj, edges: map<Value, TriggerEdge>, levels: map<Value, TriggerLevel>)
    requires Sorted(conds, {}, edges, levels) && |edges.Keys| <= 1
    ensures !Undetectable(conds)
  {
    if s, r :| EdgeIn(conds, s) && EdgeIn(conds, r) && s != r {
      assert s in edges.Keys && r in edges.Keys;
      OnlyKey(edges.Keys, s);
    }
  }

  /** Each conjunction has its trigger. */
  ghost predicate AllStand(conjs: seq<Conj>, trigs: seq<Trigger>) {
    |conjs| == |trigs| && forall k :: 0 <= k < |trigs| ==> Stands(conjs[k], trigs[k])
  }

  /** `detect_triggers`: a trigger for each conjunction, or none at all. */
  method DetectTriggers(dnf: Dnf) returns (trigs: Option<seq<Trigger>>)
    ensures trigs.None? <==> exists c :: c in dnf && Undetectable(c)
    ensures trigs.Some? ==> Detected(dnf, trigs.value)
  {
    var rest, out: seq<Trigger> := dnf, [];
    ghost var conjs: seq<Conj> := [];
    while rest != {}
      invariant rest <= dnf && AllStand(conjs, out)
      invariant forall c :: c in dnf && c !in rest ==> c in conjs && !Undetectable(c)
      invariant forall k :: 0 <= k < |conjs| ==> conjs[k] in dnf
      decreases |rest|
    {
      var c :| c in rest;
      var trig := DetectTermTriggers(c);
      if trig.None? {
        return None;
      }
      out, conjs, rest := out + [trig.value], conjs + [c], rest - {c};
    }
    DetectedAll(dnf, conjs, out);
    trigs := Some(out);
  }

  /** A trigger is that of some conjunction. */
  ghost predicate TriggerOf(dnf: Dnf, t: Trigger) {
    exists c :: c in dnf && TriggerFor(c, t)
  }

  /** Some trigger is that of the conjunction. */
  ghost predicate HasTrigger(trigs: seq<Trigger>, c: Conj) {
    exists k :: 0 <= k < |trigs| && TriggerFor(c, trigs[k])
  }

  ghost predicate SomeFires(env: Env, trigs: seq<Trigger>) {
    exists k :: 0 <= k < |trigs| && Fires(env, trigs[k])
  }

  /** Some trigger fires exactly when the condition holds; and the triggers are exactly those of the conjunctions. */
  ghost predicate Detected(dnf: Dnf, trigs: seq<Trigger>) {
    && (forall nodes, env {:trigger Holds(nodes, env, dnf)} :: Holds(nodes, env, dnf) <==> SomeFires(env, trigs))
    && (forall k :: 0 <= k < |trigs| ==> TriggerOf(dnf, trigs[k]))
    && (forall c {:trigger HasTrigger(trigs, c)} :: c in dnf ==> HasTrigger(trigs, c))
  }

  lemma DetectedAll(dnf: Dnf, conjs: seq<Conj>, trigs: seq<Trigger>)
    requires AllStand(conjs, trigs) && (forall c :: c in dnf ==> c in conjs) && forall k :: 0 <= k < |conjs| ==>
      conjs[k] in dnf
    ensures Detected(dnf, trigs)
  {
    forall nodes, env {:trigger Holds(nodes, env, dnf)}
      ensures Holds(nodes, env, dnf) <==> SomeFires(env, trigs)
    {
      if Holds(nodes, env, dnf) {
        var c :| c in dnf && ConjHolds(nodes, env, c);
        var k :| 0 <= k < |conjs| && conjs[k] == c;
        assert Stands(conjs[k], trigs[k]) && Fires(env, trigs[k]);
      }
      if k :| 0 <= k < |trigs| && Fires(env, trigs[k]) {
        assert Stands(conjs[k], trigs[k]) && ConjHolds(nodes, env, conjs[k]);
      }
    }
    forall k | 0 <= k < |trigs|
      ensures TriggerOf(dnf, trigs[k])
    {
      assert Stands(conjs[k], trigs[k]) && conjs[k] in dnf;
    }
    forall c | c in dnf
      ensures HasTrigger(trigs, c)
    {
      var k :| 0 <= k < |conjs| && conjs[k] == c;
      assert Stands(conjs[k], trigs[k]);
    }
  }

  // ---------------------------------------------------------------- comparing wider values

  /** The value that stands for all that are linked with this one by comparisons. */
  function Class(pairs: seq<(Value, Value)>, x: Value): Value {
    if pairs == [] then x
    else
      var most, p := pairs[..|pairs| - 1], pairs[|pairs| - 1];
      if Class(most, x) == Class(most, p.1) then Class(most, p.0) else Class(most, x)
  }

  /** No chain of different comparisons leads from a value back to itself. */
  predicate Acyclic(pairs: seq<(Value, Value)>) {
    pairs == [] ||
    var most, p := pairs[..|pairs| - 1], pairs[|pairs| - 1];
    Acyclic(most) && (p in most || (p.1, p.0) in most || p.0 == p.1 || Class(most, p.0) != Class(most, p.1))
  }

  /** Take words for bits: whenever a comparison links values that were not linked before, all of one side can
      be flipped. */
  function Truth(nodes: seq<Node>, env: Env, pairs: seq<(Value, Value)>, x: Value): bool {
    if pairs == [] then false
    else
      var most, p := pairs[..|pairs| - 1], pairs[|pairs| - 1];
      var fits := (Truth(nodes, env, most, p.0) == Truth(nodes, env, most, p.1)) == Same(nodes, env, p);
      if Class(most, x) == Class(most, p.1) && !fits then !Truth(nodes, env, most, x) else Truth(nodes, env, most, x)
  }

  lemma {:induction false} Linked(pairs: seq<(Value, Value)>, p: (Value, Value))
    requires p in pairs
    ensures Class(pairs, p.0) == Class(pairs, p.1)
  {
    var most, q := pairs[..|pairs| - 1], pairs[|pairs| - 1];
    if p in most {
      Linked(most, p);
    } else {
      assert p == q;
    }
  }

  /** Without cycles, words can be taken for bits that are the same exactly where the compared words are. */
  lemma {:induction false} TruthFits(nodes: seq<Node>, env: Env, pairs: seq<(Value, Value)>, p: (Value, Value))
    requires Acyclic(pairs) && p in pairs
    ensures (Truth(nodes, env, pairs, p.0) == Truth(nodes, env, pairs, p.1)) <==> Same(nodes, env, p)
  {
    var most, q := pairs[..|pairs| - 1], pairs[|pairs| - 1];
    if p in most {
      TruthFits(nodes, env, most, p);
      Linked(most, p);
    } else if (p.1, p.0) in most {
      TruthFits(nodes, env, most, (p.1, p.0));
      Linked(most, (p.1, p.0));
    } else {
      assert p == q;
    }
  }

  /** The samples, with the words taken for bits that suit the comparisons of a condition. */
  function Suited(nodes: seq<Node>, env: Env, v: Value): Env
    requires NodesOk(nodes)
  {
    env.(truth := x => Truth(nodes, env, Compared(nodes, v), x))
  }

  lemma SuitedAlike(nodes: seq<Node>, env: Env, v: Value)
    requires NodesOk(nodes) && Acyclic(Compared(nodes, v))
    ensures Alike(nodes, Suited(nodes, env, v), Compared(nodes, v))
  {
    var pairs, suited := Compared(nodes, v), Suited(nodes, env, v);
    forall p | p in pairs
      ensures (suited.truth(p.0) == suited.truth(p.1)) <==> Same(nodes, suited, p)
    {
      TruthFits(nodes, env, pairs, p);
      EvalTruth(nodes, env, suited.truth, Own, p.0);
      EvalTruth(nodes, env, suited.truth, Own, p.1);
    }
  }

  /** What triggers see does not depend on what words are taken for. */
  lemma FiresTruth(a: Env, b: Env, trigs: seq<Trigger>)
    requires a.bit == b.bit
    ensures SomeFires(a, trigs) <==> SomeFires(b, trigs)
  {
    forall k | 0 <= k < |trigs|
      ensures Fires(a, trigs[k]) <==> Fires(b, trigs[k])
    {
    }
  }

  /** The normal form of a condition holds exactly when the condition is 1. */
  ghost predicate Faithful(nodes: seq<Node>, v: Value)
    requires NodesOk(nodes)
  {
    forall env {:trigger Holds(nodes, env, Canon(nodes, v, false))} {:trigger Eval(nodes, env, Own, v)} ::
      Holds(nodes, env, Canon(nodes, v, false)) <==> AsBit(Eval(nodes, env, Own, v))
  }

  /** If triggers can be detected, and no comparisons of wider values form a cycle, then the normal form is faithful. */
  lemma AcyclicFaithful(nodes: seq<Node>, v: Value, trigs: seq<Trigger>)
    requires NodesOk(nodes) && Acyclic(Compared(nodes, v))
    requires WidthOf(nodes, v) == 1 && Detected(Canon(nodes, v, false), trigs)
    ensures Faithful(nodes, v)
  {
    forall env
      ensures Holds(nodes, env, Canon(nodes, v, false)) <==> AsBit(Eval(nodes, env, Own, v))
    {
      var suited := Suited(nodes, env, v);
      SuitedAlike(nodes, env, v);
      CanonMeans(nodes, suited, v, false);
      EvalTruth(nodes, env, suited.truth, Own, v);
      FiresTruth(env, suited, trigs);
      assert Holds(nodes, suited, Canon(nodes, v, false)) <==> SomeFires(suited, trigs);
      assert Holds(nodes, env, Canon(nodes, v, false)) <==> SomeFires(env, trigs);
    }
  }

  // ---------------------------------------------------------------- exactly when the normal form is faithful

  /** The value of a condition is settled by the samples of signals that are bits, whatever wider signals are
      sampled as and whatever pure operations compute. */
  ghost predicate BitsDecide(nodes: seq<Node>, v: Value) {
    forall a: Env, b: Env {:trigger Eval(nodes, a, Own, v), Eval(nodes, b, Own, v)} ::
      a.bit == b.bit ==> AsBit(Eval(nodes, a, Own, v)) == AsBit(Eval(nodes, b, Own, v))
  }

  predicate IsConst(nodes: seq<Node>, v: Value) {
    v.Res? && v.inst < |nodes| && nodes[v.inst].data.op.Const?
  }

  /** No two constants are compared with each other. */
  predicate NoConstants(nodes: seq<Node>, pairs: seq<(Value, Value)>) {
    forall p {:trigger p in pairs} :: p in pairs ==> !(IsConst(nodes, p.0) && IsConst(nodes, p.1))
  }

  /** All words but constants are zero, and are taken for the same bit as a zero. */
  function Zeros(nodes: seq<Node>, env: Env): Env {
    env.(word := (s, r) => 0, number := (o, vs) => 0,
         truth := (v: Value) => IsConst(nodes, v) && nodes[v.inst].data.op.value != 0)
  }

  lemma ZerosWord(nodes: seq<Node>, env: Env, v: Value)
    requires WidthOf(nodes, v) != 1 && NodesOk(nodes)
    ensures Eval(nodes, Zeros(nodes, env), Own, v)
      == Word(WidthOf(nodes, v), if IsConst(nodes, v) then nodes[v.inst].data.op.value else 0)
  {
    if v.Res? && v.inst < |nodes| {
      assert NodeOk(nodes, v.inst);
    }
  }

  /** Compared values have the same width. */
  lemma {:induction false} ComparedWords(nodes: seq<Node>, v: Value, p: (Value, Value))
    requires NodesOk(nodes) && p in Compared(nodes, v)
    ensures WidthOf(nodes, p.0) == WidthOf(nodes, p.1) != 1
    decreases Rank(v), 0
  {
    assert NodeOk(nodes, v.inst);
    var d := nodes[v.inst].data;
    match d.op
    case Not => ComparedWords(nodes, d.args[0], p);
    case And | Or | Xor => ComparedPart(nodes, v.inst, p);
    case Eq | Neq =>
      if WidthOf(nodes, d.args[0]) == 1 {
        ComparedPart(nodes, v.inst, p);
      }
    case _ =>
  }

  lemma {:induction false} ComparedPart(nodes: seq<Node>, i: nat, p: (Value, Value))
    requires NodesOk(nodes) && NodeOk(nodes, i) && |nodes[i].data.args| == 2
    requires p in Compared(nodes, nodes[i].data.args[0]) + Compared(nodes, nodes[i].data.args[1])
    ensures WidthOf(nodes, p.0) == WidthOf(nodes, p.1) != 1
    decreases i, 1
  {
    if p in Compared(nodes, nodes[i].data.args[0]) {
      ComparedWords(nodes, nodes[i].data.args[0], p);
    } else {
      ComparedWords(nodes, nodes[i].data.args[1], p);
    }
  }

  lemma ZerosAlike(nodes: seq<Node>, env: Env, v: Value)
    requires NodesOk(nodes) && NoConstants(nodes, Compared(nodes, v))
    ensures Alike(nodes, Zeros(nodes, env), Compared(nodes, v))
  {
    forall p | p in Compared(nodes, v)
      ensures (Zeros(nodes, env).truth(p.0) == Zeros(nodes, env).truth(p.1)) <==> Same(nodes, Zeros(nodes, env), p)
    {
      ComparedWords(nodes, v, p);
      ZerosWord(nodes, env, p.0);
      ZerosWord(nodes, env, p.1);
    }
  }

  /** Unless two constants are compared, the normal form of a detected condition is faithful if and only if the value
      of the condition is settled by the samples of bits. */
  lemma FaithfulExactly(nodes: seq<Node>, v: Value, trigs: seq<Trigger>)
    requires NodesOk(nodes) && NoConstants(nodes, Compared(nodes, v))
    requires WidthOf(nodes, v) == 1 && Detected(Canon(nodes, v, false), trigs)
    ensures Faithful(nodes, v) <==> BitsDecide(nodes, v)
  {
    var dnf := Canon(nodes, v, false);
    forall a: Env, b: Env | a.bit == b.bit
      ensures Holds(nodes, a, dnf) <==> Holds(nodes, b, dnf)
    {
      FiresTruth(a, b, trigs);
    }
    if Faithful(nodes, v) {
      forall a: Env, b: Env | a.bit == b.bit
        ensures AsBit(Eval(nodes, a, Own, v)) == AsBit(Eval(nodes, b, Own, v))
      {
        assert Holds(nodes, a, dnf) <==> Holds(nodes, b, dnf);
      }
    }
    if BitsDecide(nodes, v) {
      forall env
        ensures Holds(nodes, env, dnf) <==> AsBit(Eval(nodes, env, Own, v))
      {
        var zeros := Zeros(nodes, env);
        ZerosAlike(nodes, env, v);
        CanonMeans(nodes, zeros, v, false);
        assert Holds(nodes, env, dnf) <==> Holds(nodes, zeros, dnf);
        assert AsBit(Eval(nodes, env, Own, v)) == AsBit(Eval(nodes, zeros, Own, v));
      }
    }
  }

  // ---------------------------------------------------------------- a cycle of comparisons

  /** A condition that is not a bit is never detected. */
  lemma WideUndetectable(nodes: seq<Node>, v: Value)
    requires NodesOk(nodes) && WidthOf(nodes, v) != 1
    ensures exists c :: c in Canon(nodes, v, false) && Undetectable(c)
  {
    var c: Conj := map[Invalid(v) := false];
    assert Invalid(v) in c;
    assert c in Canon(nodes, v, false);
  }

  /** Probes of three signals of type i8, all compared with each other. */
  function ThreeWords(): seq<Node> {
    [Node(Data(Prb, [Arg(0)], 8), Behind), Node(Data(Prb, [Arg(1)], 8), Behind), Node(Data(Prb, [Arg(2)], 8), Behind),
     Node(Data(Neq, [Res(0), Res(1)], 1), Behind), Node(Data(Neq, [Res(1), Res(2)], 1), Behind),
       Node(Data(Neq, [Res(0), Res(2)], 1), Behind),
     Node(Data(And, [Res(3), Res(4)], 1), Behind), Node(Data(And, [Res(6), Res(5)], 1), Behind)]
  }

  /** The words are different. */
  function Different(): Env {
    Env((s, r) => false, (s: Value, r) => if s.Arg? then s.index else 0, (o, vs) => false, (o, vs) => 0, v => false)
  }

  lemma DifferConj(a: Term, b: Term, c: Conj)
    requires a != b && c in Parity(Single(a, false), Single(b, false), Single(a, true), Single(b, true), false)
    ensures a in c && b in c && c[a] != c[b]
  {
  }

  /** Two terms differ. */
  function Differ(a: Term, b: Term): Dnf {
    Parity(Single(a, false), Single(b, false), Single(a, true), Single(b, true), false)
  }

  /** Of three bits, two are the same. */
  lemma ThreeBits(a: Term, b: Term, c: Term)
    requires a != b && b != c && a != c
    ensures Conjunction(Conjunction(Differ(a, b), Differ(b, c)), Differ(a, c)) == Zero()
  {
    forall e | e in Conjunction(Conjunction(Differ(a, b), Differ(b, c)), Differ(a, c))
      ensures false
    {
      var pq, r :| pq in Conjunction(Differ(a, b), Differ(b, c)) && r in Differ(a, c) && Both(pq, r) == Some(e);
      var p, q :| p in Differ(a, b) && q in Differ(b, c) && Both(p, q) == Some(pq);
      DifferConj(a, b, p);
      DifferConj(b, c, q);
      DifferConj(a, c, r);
    }
  }

  lemma ThreeWordsOk()
    ensures NodesOk(ThreeWords()) && !Acyclic(Compared(ThreeWords(), Res(7)))
  {
    var nodes := ThreeWords();
    forall i: nat | i < |nodes|
      ensures NodeOk(nodes, i)
    {
    }
    assert Compared(nodes, Res(3)) == [(Res(0), Res(1))];
    assert Compared(nodes, Res(4)) == [(Res(1), Res(2))];
    assert Compared(nodes, Res(5)) == [(Res(0), Res(2))];
    assert Compared(nodes, Res(6)) == [(Res(0), Res(1)), (Res(1), Res(2))];
    assert Compared(nodes, Res(7)) == [(Res(0), Res(1)), (Res(1), Res(2)), (Res(0), Res(2))];
    Triangle(Res(0), Res(1), Res(2));
  }

  lemma Triangle(a: Value, b: Value, c: Value)
    requires a != b && b != c && a != c
    ensures !Acyclic([(a, b), (b, c), (a, c)])
  {
    assert [(a, b), (b, c), (a, c)][..2] == [(a, b), (b, c)];
    assert [(a, b), (b, c)][..1] == [(a, b)];
    assert [(a, b)][..0] == [];
    assert Class([(a, b)], c) == c && Class([(a, b)], b) == a && Class([(a, b)], a) == a;
  }

  lemma CanonDiffer(nodes: seq<Node>, v: Value)
    requires NodesOk(nodes) && v.Res? && v.inst < |nodes| && nodes[v.inst].data.op.Neq?
    requires |nodes[v.inst].data.args| == 2 && WidthOf(nodes, nodes[v.inst].data.args[0]) == 8
    ensures Canon(nodes, v, false) == Differ(Invalid(nodes[v.inst].data.args[0]), Invalid(nodes[v.inst].data.args[1]))
  {
    assert NodeOk(nodes, v.inst);
  }

  /** Values wider than a bit are compared as if they were bits: this condition can hold, but its normal form
      never does. */
  lemma WideComparisonsGoWrong()
    ensures NodesOk(ThreeWords()) && !Acyclic(Compared(ThreeWords(), Res(7)))
    ensures Canon(ThreeWords(), Res(7), false) == Zero() && AsBit(Eval(ThreeWords(), Different(), Own, Res(7)))
    ensures !Faithful(ThreeWords(), Res(7))
  {
    var nodes := ThreeWords();
    ThreeWordsOk();
    CanonDiffer(nodes, Res(3));
    CanonDiffer(nodes, Res(4));
    CanonDiffer(nodes, Res(5));
    assert Canon(nodes, Res(6), false) == Conjunction(Canon(nodes, Res(3), false), Canon(nodes, Res(4), false));
    assert Canon(nodes, Res(7), false) == Conjunction(Canon(nodes, Res(6), false), Canon(nodes, Res(5), false));
    ThreeBits(Invalid(Res(0)), Invalid(Res(1)), Invalid(Res(2)));
    DifferentWords(nodes, Different());
    OneHolds(nodes, Different());
  }

  lemma DifferentWords(nodes: seq<Node>, env: Env)
    requires nodes == ThreeWords() && env == Different()
    ensures AsBit(Eval(nodes, env, Own, Res(7)))
  {
    assert NodeOk(nodes, 3) && NodeOk(nodes, 4) && NodeOk(nodes, 5) && NodeOk(nodes, 6) && NodeOk(nodes, 7);
    assert Eval(nodes, env, Own, Res(0)) == Word(8, 0);
    assert Eval(nodes, env, Own, Res(1)) == Word(8, 1);
    assert Eval(nodes, env, Own, Res(2)) == Word(8, 2);
    ApplyBinary(nodes, env, 3, Word(8, 0), Word(8, 1));
    ApplyBinary(nodes, env, 4, Word(8, 1), Word(8, 2));
    ApplyBinary(nodes, env, 5, Word(8, 0), Word(8, 2));
    ApplyBinary(nodes, env, 6, Eval(nodes, env, Own, Res(3)), Eval(nodes, env, Own, Res(4)));
    ApplyBinary(nodes, env, 7, Eval(nodes, env, Own, Res(6)), Eval(nodes, env, Own, Res(5)));
  }
}
