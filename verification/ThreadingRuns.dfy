/** Threading branches and pruning blocks: the unit that is left executes the same blocks with
    instructions, to the same effect (src/pass/dce.rs). */
module ThreadingRuns {
  import opened Options
  import Sets
  import opened Threading
  import opened ThreadingRewrite

  /** What the instructions of a block do, given the values of its phi nodes; the value of a condition;
      and where an `Other` terminator resumes, if ever. */
  datatype Machine<!S> = Machine(
    exec: (S, seq<Option<nat>>, nat) -> S,
    test: (S, nat) -> bool,
    resume: (S, nat) -> (S, Option<nat>))

  /** A unit as it stands: the bodies of its blocks, their phi nodes, and their terminators. */
  datatype Code = Code(bodies: seq<Block>, phis: seq<seq<Phi>>, terms: seq<Term>)

  predicate CodeOk(c: Code) {
    |c.bodies| == |c.phis| == |c.terms|
  }

  /** A block that does something other than branch. */
  predicate Visible(c: Code, b: nat)
    requires CodeOk(c)
  {
    b < |c.bodies| && (c.bodies[b].body != [] || c.terms[b].Other?)
  }

  /** Where a branch goes. */
  function Goto<S>(m: Machine<S>, s: S, t: Term): nat {
    match t
    case Br(b) => b
    case BrCond(Const(nonzero), b, d) => if nonzero then d else b
    case BrCond(Computed(v), b, d) => if m.test(s, v) then d else b
    case Other(_, _) => 0
  }

  /** The next visible block, and the block that control comes from, found in at most n steps. */
  function Next<S>(m: Machine<S>, c: Code, s: S, pred: Option<nat>, b: nat, n: nat): Option<(Option<nat>, nat)>
    requires CodeOk(c)
    decreases n
  {
    if b >= |c.bodies| then None
    else if Visible(c, b) then Some((pred, b))
    else if n == 0 then None
    else Next(m, c, s, Some(b), Goto(m, s, c.terms[b]), n - 1)
  }

  /** Where a block goes on when it has been executed. */
  function Continue<S>(m: Machine<S>, c: Code, s: S, b: nat): (S, Option<nat>)
    requires CodeOk(c) && b < |c.bodies|
  {
    match c.terms[b]
    case Other(_, bs) =>
      var (s2, k) := m.resume(s, b);
      (s2, if k.Some? && k.value < |bs| then Some(bs[k.value]) else None)
    case _ => (s, Some(Goto(m, s, c.terms[b])))
  }

  /** The visible blocks that are executed one after the other, with the states they lead to. */
  ghost predicate Runs<S>(m: Machine<S>, c: Code, s: S, pred: Option<nat>, b: nat, obs: seq<(S, nat)>)
    requires CodeOk(c)
    decreases |obs|, 0
  {
    obs == [] || exists n: nat, p: Option<nat> {:trigger StepsTo(m, c, s, pred, b, n, p, obs[0])} ::
      StepsTo(m, c, s, pred, b, n, p, obs[0]) && RunsOn(m, c, obs[0].0, obs[0].1, obs[1..])
  }

  /** The next visible block is executed, and leads to this state. */
  ghost predicate StepsTo<S>(m: Machine<S>, c: Code, s: S, pred: Option<nat>, b: nat, n: nat, p: Option<nat>,
      o: (S, nat))
    requires CodeOk(c)
  {
    Next(m, c, s, pred, b, n) == Some((p, o.1)) && o.1 < |c.bodies| && o.0 == m.exec(s, Entries(c.phis[o.1], p), o.1)
  }

  ghost predicate RunsOn<S>(m: Machine<S>, c: Code, s: S, b: nat, obs: seq<(S, nat)>)
    requires CodeOk(c) && b < |c.bodies|
    decreases |obs|, 1
  {
    obs == [] || (var (s', next) := Continue(m, c, s, b); next.Some? && Runs(m, c, s', Some(b), next.value, obs))
  }

  // ---------------------------------------------------------------- corresponding positions

  /** The original code, and the rewritten one. */
  ghost predicate Rewritten(unit: Unit, order: Order, a: Code, b: Code) {
    && UnitOk(unit) && a.bodies == unit && b.bodies == unit && |a.phis| == |a.terms| == |b.phis| == |b.terms| == |unit|
    && (forall k :: 0 <= k < |unit| ==>
      a.terms[k] == unit[k].term && a.phis[k] == unit[k].phis && b.phis[k] == RelistAll(unit[k].phis, order))
    && TermsOk(unit, b.terms)
  }

  /** The phi nodes of a block have the same values in both. */
  ghost predicate SameValues(unit: Unit, order: Order, c: nat, p: Option<nat>, p': Option<nat>) {
    c < |unit| && Entries(RelistAll(unit[c].phis, order), p') == Entries(unit[c].phis, p)
  }

  /** Where control is in the original, and where it is in the rewritten code: if a block has phi nodes, control
      comes to it from the same predecessor. */
  ghost predicate Rel(unit: Unit, b: nat, p: Option<nat>, b': nat, p': Option<nat>) {
    StandsIn(unit, b, b') && (b == b' && b < |unit| ==> SamePred(unit, b, p, p'))
  }

  predicate SamePred(unit: Unit, c: nat, p: Option<nat>, p': Option<nat>) {
    c < |unit| && (unit[c].phis == [] || p == p')
  }

  lemma NowhereSame(phis: seq<Phi>, order: Order)
    ensures Entries(RelistAll(phis, order), None) == Entries(phis, None)
  {
  }

  lemma GotoTaken<S>(m: Machine<S>, s: S, t: Term)
    requires !t.Other?
    ensures Taken(t, Goto(m, s, t))
  {
  }

  lemma GotoReaches<S>(unit: Unit, m: Machine<S>, s: S, n: nat, b: nat, t: nat)
    requires ReachIn(unit, n, b, t) && b != t
    ensures n > 0 && b < |unit| && unit[b].body == [] && !unit[b].term.Other?
    ensures ReachIn(unit, n - 1, Goto(m, s, unit[b].term), t)
  {
  }

  lemma GotoStandsIn<S>(unit: Unit, m: Machine<S>, s: S, was: Term, now: Term)
    requires TermOk(unit, was, now) && !was.Other?
    ensures !now.Other? && StandsIn(unit, Goto(m, s, was), Goto(m, s, now))
  {
  }

  lemma {:induction false} NextForward<S>(unit: Unit, order: Order, m: Machine<S>, x: Code, y: Code, s: S,
                                          b: nat, p: Option<nat>, b': nat, p': Option<nat>, n: nat)
                                            returns (n': nat, q': Option<nat>)
    requires Rewritten(unit, order, x, y) && Rel(unit, b, p, b', p') && Next(m, x, s, p, b, n).Some?
    ensures Next(m, y, s, p', b', n') == Some((q', Next(m, x, s, p, b, n).value.1))
    ensures SamePred(unit, Next(m, x, s, p, b, n).value.1, Next(m, x, s, p, b, n).value.0, q')
    decreases n
  {
    var k: nat :| ReachIn(unit, k, b, b');
    if b == b' {
      assert TermOk(unit, unit[b].term, y.terms[b]);
      if Visible(x, b) {
        n', q' := 0, p';
      } else {
        var c, c' := Goto(m, s, x.terms[b]), Goto(m, s, y.terms[b]);
        GotoStandsIn(unit, m, s, unit[b].term, y.terms[b]);
        n', q' := NextForward(unit, order, m, x, y, s, c, Some(b), c', Some(b), n - 1);
        n' := n' + 1;
      }
    } else {
      var c := Goto(m, s, x.terms[b]);
      GotoReaches(unit, m, s, k, b, b');
      assert StandsIn(unit, c, b');
      n', q' := NextForward(unit, order, m, x, y, s, c, Some(b), b', p', n - 1);
    }
  }

  lemma {:induction false} NextBackward<S>(unit: Unit, order: Order, m: Machine<S>, x: Code, y: Code, s: S,
                                           b: nat, p: Option<nat>, b': nat, p': Option<nat>, k: nat, n': nat)
                                             returns (n: nat, q: Option<nat>)
    requires Rewritten(unit, order, x, y) && Rel(unit, b, p, b', p')
    requires ReachIn(unit, k, b, b') && Next(m, y, s, p', b', n').Some?
    ensures Next(m, x, s, p, b, n) == Some((q, Next(m, y, s, p', b', n').value.1))
    ensures SamePred(unit, Next(m, y, s, p', b', n').value.1, q, Next(m, y, s, p', b', n').value.0)
    decreases n', k
  {
    if b == b' {
      assert TermOk(unit, unit[b].term, y.terms[b]);
      if Visible(y, b) {
        n, q := 0, p;
      } else {
        var c, c' := Goto(m, s, x.terms[b]), Goto(m, s, y.terms[b]);
        GotoStandsIn(unit, m, s, unit[b].term, y.terms[b]);
        var j: nat :| ReachIn(unit, j, c, c');
        n, q := NextBackward(unit, order, m, x, y, s, c, Some(b), c', Some(b), j, n' - 1);
        n := n + 1;
      }
    } else {
      var c := Goto(m, s, x.terms[b]);
      GotoReaches(unit, m, s, k, b, b');
      assert Reaches(unit, c, b') && StandsIn(unit, c, b');
      n, q := NextBackward(unit, order, m, x, y, s, c, Some(b), b', p', k - 1, n');
      n := n + 1;
    }
  }

  lemma ContinueSame<S>(unit: Unit, order: Order, m: Machine<S>, x: Code, y: Code, s: S, c: nat)
    requires Rewritten(unit, order, x, y) && c < |unit|
    ensures Continue(m, x, s, c).0 == Continue(m, y, s, c).0
    ensures Continue(m, x, s, c).1.Some? <==> Continue(m, y, s, c).1.Some?
    ensures Continue(m, x, s, c).1.Some? ==>
      Rel(unit, Continue(m, x, s, c).1.value, Some(c), Continue(m, y, s, c).1.value, Some(c))
  {
    var was, now := unit[c].term, y.terms[c];
    assert TermOk(unit, was, now);
    if !was.Other? {
      GotoStandsIn(unit, m, s, was, now);
    } else {
      var k := m.resume(s, c).1;
      if k.Some? && k.value < |was.succs| {
        assert StandsIn(unit, was.succs[k.value], now.succs[k.value]);
      }
    }
  }

  // ---------------------------------------------------------------- the phi nodes that are executed

  /** Control arrives at a visible block from some predecessor, after some others have been executed. */
  ghost predicate Arrives<S>(m: Machine<S>, c: Code, s: S, pred: Option<nat>, b: nat, obs: seq<(S, nat)>,
      q: Option<nat>, p: nat)
    requires CodeOk(c)
    decreases |obs|, 0
  {
    if obs == [] then exists n: nat {:trigger Next(m, c, s, pred, b, n)} :: Next(m, c, s, pred, b, n) == Some((q, p))
    else exists n: nat, r: Option<nat> {:trigger StepsTo(m, c, s, pred, b, n, r, obs[0])} ::
      StepsTo(m, c, s, pred, b, n, r, obs[0]) && ArrivesOn(m, c, obs[0].0, obs[0].1, obs[1..], q, p)
  }

  ghost predicate ArrivesOn<S>(m: Machine<S>, c: Code, s: S, b: nat, obs: seq<(S, nat)>, q: Option<nat>, p: nat)
    requires CodeOk(c) && b < |c.bodies|
    decreases |obs|, 1
  {
    var (s', next) := Continue(m, c, s, b);
    next.Some? && Arrives(m, c, s', Some(b), next.value, obs, q, p)
  }

  lemma ArrivesLater<S>(m: Machine<S>, c: Code, s: S, pred: Option<nat>, b: nat, n: nat, r: Option<nat>, o: (S, nat),
      obs: seq<(S, nat)>, q: Option<nat>, p: nat)
    requires CodeOk(c) && StepsTo(m, c, s, pred, b, n, r, o) && ArrivesOn(m, c, o.0, o.1, obs, q, p)
    ensures Arrives(m, c, s, pred, b, [o] + obs, q, p)
  {
    var all := [o] + obs;
    assert all[0] == o && all[1..] == obs;
  }

  /** Wherever control arrives from here on, the phi nodes have the values that they have without the replacements. */
  ghost predicate KeptFrom<S(!new)>(m: Machine<S>, unit: Unit, order: Order, c: Code, s: S, pred: Option<nat>, b: nat)
    requires CodeOk(c)
  {
    forall obs: seq<(S, nat)>, q: Option<nat>, p: nat {:trigger Arrives(m, c, s, pred, b, obs, q, p)} ::
      Arrives(m, c, s, pred, b, obs, q, p) ==> SameValues(unit, order, p, q, q)
  }

  lemma KeptNow<S(!new)>(m: Machine<S>, unit: Unit, order: Order, c: Code, s: S, pred: Option<nat>, b: nat, n: nat)
    requires CodeOk(c) && KeptFrom(m, unit, order, c, s, pred, b) && Next(m, c, s, pred, b, n).Some?
    ensures SameValues(unit, order, Next(m, c, s, pred, b, n).value.1, Next(m, c, s, pred, b, n).value.0,
      Next(m, c, s, pred, b, n).value.0)
  {
    var r := Next(m, c, s, pred, b, n).value;
    var none: seq<(S, nat)> := [];
    assert Arrives(m, c, s, pred, b, none, r.0, r.1);
  }

  lemma KeptOn<S(!new)>(m: Machine<S>, unit: Unit, order: Order, c: Code, s: S, pred: Option<nat>, b: nat, n: nat,
      r: Option<nat>, o: (S, nat))
    requires CodeOk(c) && KeptFrom(m, unit, order, c, s, pred, b) && StepsTo(m, c, s, pred, b, n, r, o)
    ensures var (s', next) := Continue(m, c, o.0, o.1);
      next.Some? ==> KeptFrom(m, unit, order, c, s', Some(o.1), next.value)
  {
    var (s', next) := Continue(m, c, o.0, o.1);
    if next.Some? {
      forall obs: seq<(S, nat)>, q: Option<nat>, p: nat | Arrives(m, c, s', Some(o.1), next.value, obs, q, p)
        ensures SameValues(unit, order, p, q, q)
      {
        ArrivesLater(m, c, s, pred, b, n, r, o, obs, q, p);
      }
    }
  }

  lemma {:induction false} RunsForward<S(!new)>(unit: Unit, order: Order, m: Machine<S>, x: Code, y: Code, s: S,
                                          b: nat, p: Option<nat>, b': nat, p': Option<nat>, obs: seq<(S, nat)>)
    requires Rewritten(unit, order, x, y) && KeptFrom(m, unit, order, x, s, p, b) && Rel(unit, b, p, b', p')
      && Runs(m, x, s, p, b, obs)
    ensures Runs(m, y, s, p', b', obs)
    decreases |obs|
  {
    if obs == [] {
    } else {
      var n: nat, q: Option<nat> :| StepsTo(m, x, s, p, b, n, q, obs[0]) && RunsOn(m, x, obs[0].0, obs[0].1, obs[1..]);
      var n', q' := NextForward(unit, order, m, x, y, s, b, p, b', p', n);
      KeptNow(m, unit, order, x, s, p, b, n);
      assert StepsTo(m, y, s, p', b', n', q', obs[0]);
      ContinueSame(unit, order, m, x, y, obs[0].0, obs[0].1);
      if obs[1..] != [] {
        KeptOn(m, unit, order, x, s, p, b, n, q, obs[0]);
        var (s', next) := Continue(m, x, obs[0].0, obs[0].1);
        var next' := Continue(m, y, obs[0].0, obs[0].1).1;
        RunsForward(unit, order, m, x, y, s', next.value, Some(obs[0].1), next'.value, Some(obs[0].1), obs[1..]);
      }
      assert RunsOn(m, y, obs[0].0, obs[0].1, obs[1..]);
    }
  }

  lemma {:induction false} RunsBackward<S(!new)>(unit: Unit, order: Order, m: Machine<S>, x: Code, y: Code, s: S,
                                           b: nat, p: Option<nat>, b': nat, p': Option<nat>, obs: seq<(S, nat)>)
    requires Rewritten(unit, order, x, y) && KeptFrom(m, unit, order, x, s, p, b) && Rel(unit, b, p, b', p')
      && Runs(m, y, s, p', b', obs)
    ensures Runs(m, x, s, p, b, obs)
    decreases |obs|
  {
    if obs == [] {
    } else {
      var n': nat, q': Option<nat> :| StepsTo(m, y, s, p', b', n', q', obs[0])
        && RunsOn(m, y, obs[0].0, obs[0].1, obs[1..]);
      var k: nat :| ReachIn(unit, k, b, b');
      var n, q := NextBackward(unit, order, m, x, y, s, b, p, b', p', k, n');
      KeptNow(m, unit, order, x, s, p, b, n);
      assert StepsTo(m, x, s, p, b, n, q, obs[0]);
      ContinueSame(unit, order, m, x, y, obs[0].0, obs[0].1);
      if obs[1..] != [] {
        KeptOn(m, unit, order, x, s, p, b, n, q, obs[0]);
        var (s', next') := Continue(m, y, obs[0].0, obs[0].1);
        var next := Continue(m, x, obs[0].0, obs[0].1).1;
        RunsBackward(unit, order, m, x, y, s', next.value, Some(obs[0].1), next'.value, Some(obs[0].1), obs[1..]);
      }
      assert RunsOn(m, x, obs[0].0, obs[0].1, obs[1..]);
    }
  }

  /** The original unit as code. */
  function Original(unit: Unit): Code {
    Code(unit, seq(|unit|, b requires 0 <= b < |unit| => unit[b].phis),
      seq(|unit|, b requires 0 <= b < |unit| => unit[b].term))
  }

  /** The unit as it is after threading. */
  function Threaded(cfg: Cfg): (c: Code)
    requires |cfg.phis| == |cfg.terms| == |cfg.unit|
    reads cfg
    ensures CodeOk(c)
  {
    Code(cfg.unit, cfg.phis, cfg.terms)
  }

  lemma CfgRewritten(cfg: Cfg)
    requires UnitOk(cfg.unit) && cfg.Valid()
    ensures Rewritten(cfg.unit, cfg.order, Original(cfg.unit), Threaded(cfg))
  {
  }

  /** If no phi node that a run executes changes its value, the original unit and the threaded one, each entered at
      its entry, execute the same blocks to the same effect. */
  lemma ThreadingKeepsRuns<S(!new)>(m: Machine<S>, cfg: Cfg, s: S, obs: seq<(S, nat)>)
    requires UnitOk(cfg.unit) && cfg.Valid()
    requires KeptFrom(m, cfg.unit, cfg.order, Original(cfg.unit), s, None, cfg.oldEntry)
    ensures Runs(m, Original(cfg.unit), s, None, cfg.oldEntry, obs) <==> Runs(m, Threaded(cfg), s, None, cfg.entry, obs)
  {
    CfgRewritten(cfg);
    if Runs(m, Original(cfg.unit), s, None, cfg.oldEntry, obs) {
      RunsForward(cfg.unit, cfg.order, m, Original(cfg.unit), Threaded(cfg), s, cfg.oldEntry, None, cfg.entry, None,
        obs);
    }
    if Runs(m, Threaded(cfg), s, None, cfg.entry, obs) {
      RunsBackward(cfg.unit, cfg.order, m, Original(cfg.unit), Threaded(cfg), s, cfg.oldEntry, None, cfg.entry, None,
        obs);
    }
  }

  /** Control comes to a block with phi nodes from a predecessor that may pass to it, or from nowhere. */
  lemma {:induction false} NextTaken<S>(m: Machine<S>, unit: Unit, c: Code, s: S, pred: Option<nat>, b: nat, n: nat)
    requires CodeOk(c) && c == Original(unit) && Next(m, c, s, pred, b, n).Some?
    requires pred.Some? ==> pred.value < |unit| && Taken(unit[pred.value].term, b)
    ensures var (q, p) := Next(m, c, s, pred, b, n).value;
      p < |unit| && (q.Some? ==> q.value < |unit| && Taken(unit[q.value].term, p))
    decreases n
  {
    if !Visible(c, b) {
      GotoTaken(m, s, c.terms[b]);
      NextTaken(m, unit, c, s, Some(b), Goto(m, s, c.terms[b]), n - 1);
    }
  }

  lemma ContinueTaken<S>(m: Machine<S>, unit: Unit, c: Code, s: S, b: nat)
    requires CodeOk(c) && c == Original(unit) && b < |unit| && Continue(m, c, s, b).1.Some?
    ensures Taken(unit[b].term, Continue(m, c, s, b).1.value)
  {
    if c.terms[b].Other? {
      var k := m.resume(s, b).1;
      assert c.terms[b].succs[k.value] in c.terms[b].succs;
    } else {
      GotoTaken(m, s, c.terms[b]);
    }
  }

  lemma {:induction false} ArrivesTaken<S>(m: Machine<S>, unit: Unit, c: Code, s: S, pred: Option<nat>, b: nat,
      obs: seq<(S, nat)>, q: Option<nat>, p: nat)
    requires CodeOk(c) && c == Original(unit) && Arrives(m, c, s, pred, b, obs, q, p)
    requires pred.Some? ==> pred.value < |unit| && Taken(unit[pred.value].term, b)
    ensures p < |unit| && (q.Some? ==> q.value < |unit| && Taken(unit[q.value].term, p))
    decreases |obs|
  {
    if obs == [] {
      var n: nat :| Next(m, c, s, pred, b, n) == Some((q, p));
      NextTaken(m, unit, c, s, pred, b, n);
    } else {
      var o := obs[0];
      assert ArrivesOn(m, c, o.0, o.1, obs[1..], q, p);
      var (s', next) := Continue(m, c, o.0, o.1);
      ContinueTaken(m, unit, c, o.0, o.1);
      ArrivesTaken(m, unit, c, s', Some(o.1), next.value, obs[1..], q, p);
    }
  }

  /** A phi node that is executed keeps its value exactly if no other entry captures that of the predecessor. */
  lemma {:induction false} ArrivalKeptExactly<S>(m: Machine<S>, unit: Unit, order: Order, s: S, entry: nat,
      obs: seq<(S, nat)>, q: nat, p: nat)
    requires UnitOk(unit) && OrderOk(unit, order) && Arrives(m, Original(unit), s, None, entry, obs, Some(q), p)
    ensures p < |unit| && (SameValues(unit, order, p, Some(q), Some(q)) <==>
      NothingCaptured(unit[p].phis, order, q))
  {
    ArrivesTaken(m, unit, Original(unit), s, None, entry, obs, Some(q), p);
    PhisKeptExactly(unit, order, p, q);
  }

  // ---------------------------------------------------------------- the edges that control can take

  /** The conditions that are true, and where a block resumes, as long as nothing happens to the state. */
  datatype Choice = Choice(yes: iset<nat>, succ: Option<nat>)

  /** Control as a list of choices has it; executing a block goes on to the next choice. */
  ghost function Chooser(): Machine<seq<Choice>> {
    Machine(
      (t: seq<Choice>, es: seq<Option<nat>>, b: nat) => Rest(t, 1),
      (t: seq<Choice>, v: nat) => t != [] && v in t[0].yes,
      (t: seq<Choice>, b: nat) => (t, if t == [] then None else t[0].succ))
  }

  function Rest(t: seq<Choice>, i: nat): seq<Choice> {
    if i <= |t| then t[i..] else []
  }

  /** With some choices, control comes to the block from the predecessor. */
  ghost predicate CanTake(unit: Unit, entry: nat, q: nat, p: nat) {
    exists t: seq<Choice>, obs: seq<(seq<Choice>, nat)>
        {:trigger Arrives(Chooser(), Original(unit), t, None, entry, obs, Some(q), p)} ::
      Arrives(Chooser(), Original(unit), t, None, entry, obs, Some(q), p)
  }

  /** On no edge that control can take from the entry does an entry of a phi node capture that of the predecessor. */
  ghost predicate EntriesKeptFrom(unit: Unit, entry: nat, order: Order) {
    forall q: nat, p: nat {:trigger CanTake(unit, entry, q, p)} :: CanTake(unit, entry, q, p) ==>
      p < |unit| && NothingCaptured(unit[p].phis, order, q)
  }

  ghost predicate NothingCaptured(phis: seq<Phi>, order: Order, q: nat) {
    forall j: nat, i: nat {:trigger Captures(phis[j], order, q, i)} :: j < |phis| ==> !Captures(phis[j], order, q, i)
  }

  ghost function Yes<S(!new)>(m: Machine<S>, s: S): iset<nat> {
    iset v: nat | m.test(s, v)
  }

  lemma {:induction false} NextChosen<S(!new)>(m: Machine<S>, c: Code, s: S, t: seq<Choice>, pred: Option<nat>, b: nat,
      n: nat)
    requires CodeOk(c) && t != [] && t[0].yes == Yes(m, s)
    ensures Next(Chooser(), c, t, pred, b, n) == Next(m, c, s, pred, b, n)
    decreases n
  {
    if b < |c.bodies| && !Visible(c, b) && n > 0 {
      NextChosen(m, c, s, t, Some(b), Goto(m, s, c.terms[b]), n - 1);
    }
  }

  /** The way that control takes can be chosen. */
  lemma {:induction false} ArrivalChosen<S(!new)>(m: Machine<S>, c: Code, s: S, pred: Option<nat>, b: nat,
      obs: seq<(S, nat)>, q: Option<nat>, p: nat, succ: Option<nat>)
      returns (t: seq<Choice>, way: seq<(seq<Choice>, nat)>)
    requires CodeOk(c) && Arrives(m, c, s, pred, b, obs, q, p)
    ensures t != [] && t[0] == Choice(Yes(m, s), succ) && Arrives(Chooser(), c, t, pred, b, way, q, p)
    decreases |obs|
  {
    var first := Choice(Yes(m, s), succ);
    if obs == [] {
      var n: nat :| Next(m, c, s, pred, b, n) == Some((q, p));
      t, way := [first], [];
      NextChosen(m, c, s, t, pred, b, n);
    } else {
      var o := obs[0];
      var n: nat, r: Option<nat> :| StepsTo(m, c, s, pred, b, n, r, o) && ArrivesOn(m, c, o.0, o.1, obs[1..], q, p);
      var (s', next) := Continue(m, c, o.0, o.1);
      var t', way' := ArrivalChosen(m, c, s', Some(o.1), next.value, obs[1..], q, p, m.resume(o.0, o.1).1);
      t, way := [first] + t', [(t', o.1)] + way';
      NextChosen(m, c, s, t, pred, b, n);
      assert t[1..] == t';
      assert Continue(Chooser(), c, t', o.1) == (t', next);
      ArrivesLater(Chooser(), c, t, pred, b, n, r, (t', o.1), way', q, p);
    }
  }

  /** Every run keeps its phi nodes if no edge that control can take is captured. */
  lemma {:induction false} KeptBy<S(!new)>(m: Machine<S>, unit: Unit, order: Order, s: S, entry: nat)
    requires UnitOk(unit) && OrderOk(unit, order) && EntriesKeptFrom(unit, entry, order)
    ensures KeptFrom(m, unit, order, Original(unit), s, None, entry)
  {
    forall obs: seq<(S, nat)>, q: Option<nat>, p: nat | Arrives(m, Original(unit), s, None, entry, obs, q, p)
      ensures SameValues(unit, order, p, q, q)
    {
      ArrivesTaken(m, unit, Original(unit), s, None, entry, obs, q, p);
      if q.None? {
        NowhereSame(unit[p].phis, order);
      } else {
        var t, way := ArrivalChosen(m, Original(unit), s, None, entry, obs, q, p, None);
        assert CanTake(unit, entry, q.value, p);
        ArrivalKeptExactly(m, unit, order, s, entry, obs, q.value, p);
      }
    }
  }

  /** That is so if no edge that a terminator allows is captured. */
  lemma {:induction false} KeptAnyway(unit: Unit, order: Order, entry: nat)
    requires UnitOk(unit) && OrderOk(unit, order) && EntriesKept(unit, order)
    ensures EntriesKeptFrom(unit, entry, order)
  {
    forall q: nat, p: nat | CanTake(unit, entry, q, p)
      ensures p < |unit| && NothingCaptured(unit[p].phis, order, q)
    {
      var t: seq<Choice>, obs: seq<(seq<Choice>, nat)> :|
        Arrives(Chooser(), Original(unit), t, None, entry, obs, Some(q), p);
      ArrivesTaken(Chooser(), unit, Original(unit), t, None, entry, obs, Some(q), p);
      PhisKeptExactly(unit, order, p, q);
    }
  }

  // ---------------------------------------------------------------- the exact condition

  /** States that can record the phi nodes of one more block. */
  type State = seq<seq<Option<nat>>>

  /** Do the same, and keep the values of the phi nodes of the last block on top. */
  function Recorder(m: Machine<State>): Machine<State> {
    Machine(
      (s: State, es: seq<Option<nat>>, b: nat) => [es] + m.exec(Below(s), es, b),
      (s: State, v: nat) => m.test(Below(s), v),
      (s: State, b: nat) => ([[]] + m.resume(Below(s), b).0, m.resume(Below(s), b).1))
  }

  function Below(s: State): State {
    if s == [] then [] else s[1..]
  }

  /** From the entry on, both units execute the same blocks to the same effect. */
  ghost predicate KeepsRuns(c: Code, entry: nat, d: Code, entry': nat)
    requires CodeOk(c) && CodeOk(d)
  {
    forall m: Machine<State>, s: State, obs: seq<(State, nat)> {:trigger Runs(m, c, s, None, entry, obs)}
        {:trigger Runs(m, d, s, None, entry', obs)} ::
      Runs(m, c, s, None, entry, obs) <==> Runs(m, d, s, None, entry', obs)
  }

  /** The machine that follows a list of choices, by the number of blocks that it has recorded. */
  ghost function Follower(t: seq<Choice>): Machine<State> {
    Machine(
      (s: State, es: seq<Option<nat>>, b: nat) => [[]] + s,
      (s: State, v: nat) => |s| < |t| && v in t[|s|].yes,
      (s: State, b: nat) => (s, if |s| < |t| then t[|s|].succ else None))
  }

  lemma {:induction false} NextFollowed(t: seq<Choice>, c: Code, s: State, pred: Option<nat>, b: nat, n: nat)
    requires CodeOk(c)
    ensures Next(Follower(t), c, s, pred, b, n) == Next(Chooser(), c, Rest(t, |s|), pred, b, n)
    decreases n
  {
    if b < |c.bodies| && !Visible(c, b) && n > 0 {
      NextFollowed(t, c, s, Some(b), Goto(Follower(t), s, c.terms[b]), n - 1);
    }
  }

  lemma ContinueFollowed(t: seq<Choice>, c: Code, s: State, b: nat)
    requires CodeOk(c) && b < |c.bodies|
    ensures Continue(Follower(t), c, s, b) == (s, Continue(Chooser(), c, Rest(t, |s|), b).1)
    ensures Continue(Chooser(), c, Rest(t, |s|), b).0 == Rest(t, |s|)
  {
  }

  lemma {:induction false} ArrivalFollowed(t: seq<Choice>, c: Code, s: State, pred: Option<nat>, b: nat,
      obs: seq<(seq<Choice>, nat)>, q: Option<nat>, p: nat) returns (way: seq<(State, nat)>)
    requires CodeOk(c) && Arrives(Chooser(), c, Rest(t, |s|), pred, b, obs, q, p)
    ensures Arrives(Follower(t), c, s, pred, b, way, q, p)
    decreases |obs|
  {
    if obs == [] {
      var n: nat :| Next(Chooser(), c, Rest(t, |s|), pred, b, n) == Some((q, p));
      way := [];
      NextFollowed(t, c, s, pred, b, n);
    } else {
      var o := obs[0];
      var n: nat, r: Option<nat> :| StepsTo(Chooser(), c, Rest(t, |s|), pred, b, n, r, o)
        && ArrivesOn(Chooser(), c, o.0, o.1, obs[1..], q, p);
      var s' := [[]] + s;
      assert o.0 == Rest(t, |s'|);
      ContinueFollowed(t, c, s', o.1);
      var rest := ArrivalFollowed(t, c, s', Some(o.1), Continue(Chooser(), c, o.0, o.1).1.value, obs[1..], q, p);
      NextFollowed(t, c, s, pred, b, n);
      ArrivesLater(Follower(t), c, s, pred, b, n, r, (s', o.1), rest, q, p);
      way := [(s', o.1)] + rest;
    }
  }

  /** Recording takes the same way. */
  lemma {:induction false} NextRecorded(m: Machine<State>, c: Code, s: State, v: seq<Option<nat>>, pred: Option<nat>,
      b: nat, n: nat)
    requires CodeOk(c)
    ensures Next(Recorder(m), c, [v] + s, pred, b, n) == Next(m, c, s, pred, b, n)
    decreases n
  {
    assert Below([v] + s) == s;
    if b < |c.bodies| && !Visible(c, b) && n > 0 {
      NextRecorded(m, c, s, v, Some(b), Goto(m, s, c.terms[b]), n - 1);
    }
  }

  lemma {:induction false} NextOnce<S>(m: Machine<S>, c: Code, s: S, pred: Option<nat>, b: nat, n: nat, k: nat)
    requires CodeOk(c) && Next(m, c, s, pred, b, n).Some? && Next(m, c, s, pred, b, k).Some?
    ensures Next(m, c, s, pred, b, n) == Next(m, c, s, pred, b, k)
    decreases n
  {
    if !Visible(c, b) {
      NextOnce(m, c, s, Some(b), Goto(m, s, c.terms[b]), n - 1, k - 1);
    }
  }

  /** All runs of the one are runs of the other. */
  ghost predicate Includes(m: Machine<State>, x: Code, y: Code, s: State, p: Option<nat>, b: nat, p': Option<nat>,
      b': nat)
    requires CodeOk(x) && CodeOk(y)
  {
    forall obs: seq<(State, nat)> {:trigger Runs(m, y, s, p', b', obs)} ::
      Runs(m, x, s, p, b, obs) ==> Runs(m, y, s, p', b', obs)
  }

  /** The phi nodes of the next block show in the recording. */
  lemma {:induction false} NextShows(m: Machine<State>, unit: Unit, order: Order, x: Code, y: Code, s: State,
      v: seq<Option<nat>>, b: nat, p: Option<nat>, b': nat, p': Option<nat>, n: nat)
    requires Rewritten(unit, order, x, y) && Rel(unit, b, p, b', p') && Next(m, x, s, p, b, n).Some?
    requires Includes(Recorder(m), x, y, [v] + s, p, b, p', b')
    ensures SameValues(unit, order, Next(m, x, s, p, b, n).value.1, Next(m, x, s, p, b, n).value.0,
      Next(m, x, s, p, b, n).value.0)
  {
    var r, s0 := Recorder(m), [v] + s;
    NextRecorded(m, x, s, v, p, b, n);
    var (q, c) := Next(m, x, s, p, b, n).value;
    var n', q' := NextForward(unit, order, r, x, y, s0, b, p, b', p', n);
    var obs := [(r.exec(s0, Entries(x.phis[c], q), c), c)];
    assert obs[1..] == [];
    assert StepsTo(r, x, s0, p, b, n, q, obs[0]) && RunsOn(r, x, obs[0].0, obs[0].1, obs[1..]);
    assert Runs(r, x, s0, p, b, obs) && Runs(r, y, s0, p', b', obs);
    var k: nat, t: Option<nat> :| StepsTo(r, y, s0, p', b', k, t, obs[0]) && RunsOn(r, y, obs[0].0, obs[0].1, obs[1..]);
    NextOnce(r, y, s0, p', b', n', k);
    assert obs[0].0[0] == Entries(x.phis[c], q) == Entries(y.phis[c], q');
  }

  /** After a block has been executed, the runs from the next ones are still included. */
  lemma {:induction false} IncludesOn(m: Machine<State>, unit: Unit, order: Order, x: Code, y: Code, s: State,
      b: nat, p: Option<nat>, b': nat, p': Option<nat>, n: nat, q: Option<nat>, o: (State, nat))
    requires Rewritten(unit, order, x, y) && Includes(m, x, y, s, p, b, p', b') && StepsTo(m, x, s, p, b, n, q, o)
    requires Continue(m, x, o.0, o.1).1.Some?
    ensures Continue(m, y, o.0, o.1).1.Some? && Continue(m, y, o.0, o.1).0 == Continue(m, x, o.0, o.1).0
    ensures Includes(m, x, y, Continue(m, x, o.0, o.1).0, Some(o.1), Continue(m, x, o.0, o.1).1.value,
      Some(o.1), Continue(m, y, o.0, o.1).1.value)
  {
    ContinueSame(unit, order, m, x, y, o.0, o.1);
    var (s', next) := Continue(m, x, o.0, o.1);
    var next' := Continue(m, y, o.0, o.1).1;
    forall obs: seq<(State, nat)> | Runs(m, x, s', Some(o.1), next.value, obs)
      ensures Runs(m, y, s', Some(o.1), next'.value, obs)
    {
      if obs != [] {
        var all := [o] + obs;
        assert all[0] == o && all[1..] == obs;
        assert RunsOn(m, x, all[0].0, all[0].1, all[1..]);
        assert Runs(m, x, s, p, b, all) && Runs(m, y, s, p', b', all);
        assert RunsOn(m, y, all[0].0, all[0].1, all[1..]);
      }
    }
  }

  /** If all recorded runs are kept, then the phi nodes of whatever block control arrives at are. */
  lemma {:induction false} ArrivalShows(m: Machine<State>, unit: Unit, order: Order, x: Code, y: Code, s: State,
      v: seq<Option<nat>>, b: nat, p: Option<nat>, b': nat, p': Option<nat>, obs: seq<(State, nat)>, q: Option<nat>,
      c: nat)
    requires Rewritten(unit, order, x, y) && Rel(unit, b, p, b', p') && Arrives(m, x, s, p, b, obs, q, c)
    requires Includes(Recorder(m), x, y, [v] + s, p, b, p', b')
    ensures SameValues(unit, order, c, q, q)
    decreases |obs|
  {
    if obs == [] {
      var n: nat :| Next(m, x, s, p, b, n) == Some((q, c));
      NextShows(m, unit, order, x, y, s, v, b, p, b', p', n);
    } else {
      var o, r := obs[0], Recorder(m);
      var n: nat, t: Option<nat> :| StepsTo(m, x, s, p, b, n, t, o) && ArrivesOn(m, x, o.0, o.1, obs[1..], q, c);
      var es := Entries(x.phis[o.1], t);
      var o' := ([es] + o.0, o.1);
      NextRecorded(m, x, s, v, p, b, n);
      assert Below([v] + s) == s && Below(o'.0) == o.0;
      assert StepsTo(r, x, [v] + s, p, b, n, t, o');
      var (s', next) := Continue(m, x, o.0, o.1);
      var v' := if x.terms[o.1].Other? then [] else es;
      assert Continue(r, x, o'.0, o'.1) == ([v'] + s', next);
      IncludesOn(r, unit, order, x, y, [v] + s, b, p, b', p', n, t, o');
      ContinueSame(unit, order, r, x, y, o'.0, o'.1);
      ArrivalShows(m, unit, order, x, y, s', v', next.value, Some(o.1), Continue(r, y, o'.0, o'.1).1.value, Some(o.1),
        obs[1..], q, c);
    }
  }

  /** If a phi node that is executed changes its value, some run of the original code is lost. */
  lemma {:induction false} RunLost(m: Machine<State>, unit: Unit, order: Order, y: Code, s: State, entry: nat,
      entry': nat, obs: seq<(State, nat)>, q: Option<nat>, p: nat) returns (r: Machine<State>, t: State,
      lost: seq<(State, nat)>)
    requires Rewritten(unit, order, Original(unit), y) && OrderOk(unit, order) && StandsIn(unit, entry, entry')
    requires Arrives(m, Original(unit), s, None, entry, obs, q, p) && !SameValues(unit, order, p, q, q)
    ensures !EntriesKeptFrom(unit, entry, order)
    ensures Runs(r, Original(unit), t, None, entry, lost) && !Runs(r, y, t, None, entry', lost)
  {
    var x := Original(unit);
    assert !KeptFrom(m, unit, order, x, s, None, entry);
    if EntriesKeptFrom(unit, entry, order) {
      KeptBy(m, unit, order, s, entry);
    }
    r, t := Recorder(m), [[]] + s;
    if Includes(r, x, y, t, None, entry, None, entry') {
      ArrivalShows(m, unit, order, x, y, s, [], entry, None, entry', None, obs, q, p);
    }
    lost :| Runs(r, x, t, None, entry, lost) && !Runs(r, y, t, None, entry', lost);
  }

  /** Threading keeps all runs from the entry if and only if, on every edge that control can take from there, the phi
      nodes keep the entry of the predecessor. */
  lemma {:induction false} ThreadingExactly(cfg: Cfg)
    requires UnitOk(cfg.unit) && cfg.Valid()
    ensures KeepsRuns(Original(cfg.unit), cfg.oldEntry, Threaded(cfg), cfg.entry)
      <==> EntriesKeptFrom(cfg.unit, cfg.oldEntry, cfg.order)
  {
    var unit, x, y := cfg.unit, Original(cfg.unit), Threaded(cfg);
    CfgRewritten(cfg);
    if EntriesKeptFrom(unit, cfg.oldEntry, cfg.order) {
      forall m: Machine<State>, s: State, obs: seq<(State, nat)>
        ensures Runs(m, x, s, None, cfg.oldEntry, obs) <==> Runs(m, y, s, None, cfg.entry, obs)
      {
        KeptBy(m, unit, cfg.order, s, cfg.oldEntry);
        ThreadingKeepsRuns(m, cfg, s, obs);
      }
    }
    if KeepsRuns(x, cfg.oldEntry, y, cfg.entry) {
      forall q: nat, p: nat | CanTake(unit, cfg.oldEntry, q, p)
        ensures p < |unit| && NothingCaptured(unit[p].phis, cfg.order, q)
      {
        EdgeKept(unit, cfg.order, y, cfg.oldEntry, cfg.entry, q, p);
      }
    }
  }

  /** If all runs are kept, then the phi nodes behind an edge that control can take keep the predecessor's entries. */
  lemma {:induction false} EdgeKept(unit: Unit, order: Order, y: Code, entry: nat, entry': nat, q: nat, p: nat)
    requires Rewritten(unit, order, Original(unit), y) && OrderOk(unit, order) && StandsIn(unit, entry, entry')
    requires KeepsRuns(Original(unit), entry, y, entry') && CanTake(unit, entry, q, p)
    ensures p < |unit| && NothingCaptured(unit[p].phis, order, q)
  {
    var x := Original(unit);
    var t: seq<Choice>, obs: seq<(seq<Choice>, nat)> :| Arrives(Chooser(), x, t, None, entry, obs, Some(q), p);
    var s: State := [];
    assert Rest(t, |s|) == t;
    var way := ArrivalFollowed(t, x, s, None, entry, obs, Some(q), p);
    assert Includes(Recorder(Follower(t)), x, y, [[]] + s, None, entry, None, entry');
    ArrivalShows(Follower(t), unit, order, x, y, s, [], entry, None, entry', None, way, Some(q), p);
    ArrivalKeptExactly(Follower(t), unit, order, s, entry, way, q, p);
  }

  // ---------------------------------------------------------------- a dead arm into a phi node

  /** The dead arm of an empty block enters a block whose phi node lists it first. */
  function DeadArms(): Unit {
    [Block([], [], BrCond(Const(true), 2, 1)), Block([0], [], Br(2)),
      Block([1], [[Incoming(0, 10), Incoming(1, 11)]], Other(0, []))]
  }

  lemma {:induction false} RenamedNot(order: Order, x: nat)
    requires forall k :: 0 <= k < |order| ==> order[k].0 != x
    ensures Renamed(x, order) == x
    decreases |order|
  {
    if order == [] {
    } else {
      RenamedNot(order[..|order| - 1], x);
    }
  }

  lemma {:induction false} RenamedOnce(order: Order, x: nat, k: nat)
    requires forall i, j {:trigger order[i], order[j]} :: 0 <= i < j < |order| ==> order[i].0 != order[j].0
    requires k < |order| && order[k].0 == x && forall j :: 0 <= j < |order| ==> order[j].0 != order[k].1
    ensures Renamed(x, order) == order[k].1
    decreases |order|
  {
    var init := order[..|order| - 1];
    assert forall j :: 0 <= j < |init| ==> init[j] == order[j];
    if k == |init| {
      RenamedNot(init, x);
    } else {
      RenamedOnce(init, x, k);
    }
  }

  lemma DeadArmsRenamed(order: Order, blocks: map<nat, Option<nat>>)
    requires MadeOf(order, blocks, {}) && BlocksOk(DeadArms(), blocks) && 0 in blocks && blocks[0] == Some(1)
    ensures Renamed(0, order) == 1 && Renamed(1, order) == 1
    ensures Entries(RelistAll(DeadArms()[2].phis, order), Some(1)) == [Some(10)]
      && Entries(DeadArms()[2].phis, Some(1)) == [Some(11)]
  {
    var unit := DeadArms();
    forall k | 0 <= k < |order|
      ensures order[k].0 != 1
    {
      assert order[k] in order;
      StuckAtBody(unit, 1, order[k].1);
    }
    assert (0, 1) in order;
    var k: nat :| k < |order| && order[k] == (0, 1);
    RenamedOnce(order, 0, k);
    RenamedNot(order, 1);
    var phi := unit[2].phis[0];
    assert phi[1..] == [Incoming(1, 11)];
    assert Relist(phi, order)[0] == Incoming(1, 10);
  }

  /** Control comes to the last block from the second one. */
  lemma DeadArmsArrives(m: Machine<State>, s: State) returns (obs: seq<(State, nat)>)
    ensures Arrives(m, Original(DeadArms()), s, None, 0, obs, Some(1), 2)
  {
    var x, nowhere: Option<nat> := Original(DeadArms()), None;
    var o := (m.exec(s, Entries(x.phis[1], Some(0)), 1), 1);
    var none: seq<(State, nat)> := [];
    obs := [o];
    assert Visible(x, 1) && !Visible(x, 0) && Visible(x, 2);
    assert Goto(m, s, x.terms[0]) == 1;
    assert Next(m, x, s, Some(0), 1, 0) == Some((Some(0), 1));
    assert Next(m, x, s, nowhere, 0, 1) == Some((Some(0), 1));
    assert StepsTo(m, x, s, nowhere, 0, 1, Some(0), obs[0]);
    assert Next(m, x, o.0, Some(1), 2, 0) == Some((Some(1), 2));
    assert Arrives(m, x, o.0, Some(1), 2, none, Some(1), 2);
    assert obs[1..] == none && ArrivesOn(m, x, obs[0].0, obs[0].1, obs[1..], Some(1), 2);
  }

  /** Threading goes wrong there: the original unit has a run that the threaded one has not. */
  method DeadArmsDiffer() returns (cfg: Cfg, ghost m: Machine<State>, ghost s: State, ghost obs: seq<(State, nat)>)
    ensures cfg.unit == DeadArms() && cfg.oldEntry == 0 && cfg.Valid()
    ensures !EntriesKeptFrom(cfg.unit, cfg.oldEntry, cfg.order)
    ensures Runs(m, Original(cfg.unit), s, None, cfg.oldEntry, obs)
      && !Runs(m, Threaded(cfg), s, None, cfg.entry, obs)
  {
    var unit := DeadArms();
    assert UnitOk(unit);
    ghost var branches, blocks;
    cfg, branches, blocks := ThreadBranches(unit, 0);
    assert Plain(unit, 0, 1);
    DeadArmsRenamed(cfg.order, blocks);
    CfgRewritten(cfg);
    ghost var still := Machine((t: State, es: seq<Option<nat>>, b: nat) => t, (t: State, v: nat) => false,
      (t: State, b: nat) => (t, None));
    ghost var way := DeadArmsArrives(still, []);
    m, s, obs := RunLost(still, unit, cfg.order, Threaded(cfg), [], 0, cfg.entry, way, Some(1), 2);
  }

  // ---------------------------------------------------------------- pruning

  /** Control may pass along the path. */
  predicate Path(terms: seq<Term>, path: seq<nat>) {
    path != [] && (forall k :: 0 <= k < |path| ==> path[k] < |terms|)
    && forall j, k {:trigger path[j], path[k]} :: 0 <= j && k == j + 1 < |path| ==> path[k] in Succs(terms[path[j]])
  }

  ghost predicate PathTo(terms: seq<Term>, entry: nat, b: nat) {
    exists path :: Path(terms, path) && path[0] == entry && path[|path| - 1] == b
  }

  lemma PathOn(terms: seq<Term>, entry: nat, b: nat, c: nat)
    requires PathTo(terms, entry, b) && b < |terms| && c in Succs(terms[b]) && c < |terms|
    ensures PathTo(terms, entry, c)
  {
    var path :| Path(terms, path) && path[0] == entry && path[|path| - 1] == b;
    var longer := path + [c];
    assert Path(terms, longer) && longer[0] == entry && longer[|longer| - 1] == c;
  }

  /** Blocks that are left only lead to blocks that are left. */
  ghost predicate Closed(terms: seq<Term>, live: set<nat>) {
    forall b, c: nat {:trigger b in live, c in Succs(terms[b])} :: b in live && b < |terms| && c in Succs(terms[b]) ==>
      c in live
  }

  function Ids(n: nat): (r: set<nat>)
    ensures forall b: nat :: b in r <==> b < n
  {
    if n == 0 then {} else Ids(n - 1) + {n - 1}
  }

  /** All blocks that are known to be reachable are, and the others are still to be found. */
  ghost predicate Found(terms: seq<Term>, entry: nat, unreachable: set<nat>, live: set<nat>, todo: seq<nat>) {
    && live == Ids(|terms|) - unreachable && entry in live
    && (forall b :: b in live ==> b < |terms| && PathTo(terms, entry, b))
    && (forall k :: 0 <= k < |todo| ==> todo[k] in live)
  }

  /** The blocks that have been left behind only lead to blocks that have been found. */
  ghost predicate Followed(terms: seq<Term>, live: set<nat>, todo: seq<nat>, except: set<nat>) {
    forall b, c: nat {:trigger b in live, c in Succs(terms[b])} ::
      b in live && b !in todo && b !in except && b < |terms| && c in Succs(terms[b]) ==> c in live
  }

  /** Put the successors of a block that are new on the list. */
  method FollowSuccs(terms: seq<Term>, ghost entry: nat, b: nat, unreachable: set<nat>, live: set<nat>, todo: seq<nat>)
      returns (unreachable': set<nat>, live': set<nat>, todo': seq<nat>)
    requires Found(terms, entry, unreachable, live, todo) && b in live && b < |terms|
    requires forall k :: 0 <= k < |Succs(terms[b])| ==> Succs(terms[b])[k] < |terms|
    requires Followed(terms, live, todo, {b})
    ensures Found(terms, entry, unreachable', live', todo') && Followed(terms, live', todo', {})
    ensures unreachable' < unreachable || (unreachable' == unreachable && todo' == todo)
  {
    unreachable', live', todo' := unreachable, live, todo;
    var succs := Succs(terms[b]);
    for k := 0 to |succs|
      invariant Found(terms, entry, unreachable', live', todo') && b in live' && Followed(terms, live', todo', {b})
      invariant forall j :: 0 <= j < k ==> succs[j] in live'
      invariant unreachable' < unreachable || (unreachable' == unreachable && todo' == todo)
    {
      var c := succs[k];
      if c in unreachable' {
        PathOn(terms, entry, b, c);
        unreachable', live', todo' := unreachable' - {c}, live' + {c}, todo' + [c];
      }
    }
  }

  /** `prune_blocks`: find the blocks that can be reached from the first one. */
  method LiveBlocks(terms: seq<Term>, entry: nat) returns (live: set<nat>)
    requires entry < |terms| && forall b :: 0 <= b < |terms| ==> forall k :: 0 <= k < |Succs(terms[b])| ==>
      Succs(terms[b])[k] < |terms|
    ensures entry in live && Closed(terms, live) && forall b :: b in live ==> b < |terms| && PathTo(terms, entry, b)
  {
    var unreachable := Ids(|terms|) - {entry};
    var todo := [entry];
    live := {entry};
    assert Path(terms, [entry]);
    while todo != []
      invariant Found(terms, entry, unreachable, live, todo) && Followed(terms, live, todo, {})
      decreases |unreachable|, |todo|
    {
      var b := todo[|todo| - 1];
      ghost var was, outer := todo, unreachable;
      todo := todo[..|todo| - 1];
      assert was == todo + [b];
      unreachable, live, todo := FollowSuccs(terms, entry, b, unreachable, live, todo);
      if unreachable != outer {
        Sets.Fewer(unreachable, outer);
      }
    }
  }

  /** The entries that are left of a phi node when those for some blocks have been removed. */
  ghost predicate PhiLeft(phi: Phi, dead: set<nat>, r: Phi) {
    && (forall e {:trigger e in r} :: e in r ==> e in phi)
    && (forall e {:trigger e in phi} :: e in phi && e.pred !in dead ==> e in r)
  }

  /** A predecessor has one value, however often it is listed. */
  ghost predicate Consistent(phi: Phi) {
    forall d, e {:trigger d in phi, e in phi} :: d in phi && e in phi && d.pred == e.pred ==> d.arg == e.arg
  }

  lemma {:induction false} EntryIn(phi: Phi, q: nat)
    ensures Entry(phi, Some(q)).Some? ==> Incoming(q, Entry(phi, Some(q)).value) in phi
    ensures (exists e :: e in phi && e.pred == q) ==> Entry(phi, Some(q)).Some?
    decreases |phi|
  {
    if phi == [] {
    } else {
      EntryIn(phi[1..], q);
      assert phi == [phi[0]] + phi[1..];
      if e :| e in phi && e.pred == q {
        assert e == phi[0] || e in phi[1..];
      }
    }
  }

  lemma {:induction false} EntryLeft(phi: Phi, dead: set<nat>, r: Phi, q: nat)
    requires PhiLeft(phi, dead, r) && Consistent(phi) && q !in dead
    ensures Entry(r, Some(q)) == Entry(phi, Some(q))
  {
    EntryIn(phi, q);
    EntryIn(r, q);
    if Entry(r, Some(q)).Some? {
      assert Incoming(q, Entry(r, Some(q)).value) in phi;
    }
    if Entry(phi, Some(q)).Some? {
      assert Incoming(q, Entry(phi, Some(q)).value) in r;
    }
  }

  /** The last entry takes the place of one that is removed. */
  function SwapRemove(phi: Phi, i: nat): (r: Phi)
    requires i < |phi|
    ensures |r| == |phi| - 1
  {
    phi[i := phi[|phi| - 1]][..|phi| - 1]
  }

  lemma SwapRemoveLeft(phi: Phi, i: nat, block: nat)
    requires i < |phi| && phi[i].pred == block
    ensures PhiLeft(phi, {block}, SwapRemove(phi, i))
  {
    var r := SwapRemove(phi, i);
    assert forall k :: 0 <= k < |r| ==> r[k] == phi[if k == i then |phi| - 1 else k];
    forall e | e in phi && e.pred != block
      ensures e in r
    {
      var k :| 0 <= k < |phi| && phi[k] == e;
      assert r[if k == |phi| - 1 then i else k] == e;
    }
  }

  lemma PhiLeftOn(phi: Phi, a: set<nat>, mid: Phi, b: set<nat>, r: Phi)
    requires PhiLeft(phi, a, mid) && PhiLeft(mid, b, r)
    ensures PhiLeft(phi, a + b, r)
  {
  }

  /** `remove_block` on a phi node. */
  method RemoveEntries(phi: Phi, block: nat) returns (r: Phi)
    ensures PhiLeft(phi, {block}, r)
  {
    r := phi;
    for i := 0 to |phi|
      invariant PhiLeft(phi, {block}, r)
    {
      if i >= |r| {
        break;
      }
      if r[i].pred == block {
        SwapRemoveLeft(r, i, block);
        PhiLeftOn(phi, {block}, r, {block}, SwapRemove(r, i));
        assert {block} + {block} == {block};
        r := SwapRemove(r, i);
      }
    }
  }

  ghost predicate PhisLeft(phis: seq<seq<Phi>>, dead: set<nat>, r: seq<seq<Phi>>) {
    && |r| == |phis|
    && (forall b {:trigger r[b]} :: 0 <= b < |r| ==> |r[b]| == |phis[b]|)
    && (forall b, j {:trigger r[b][j]} :: 0 <= b < |r| && 0 <= j < |r[b]| ==> PhiLeft(phis[b][j], dead, r[b][j]))
  }

  lemma PhisLeftOn(phis: seq<seq<Phi>>, a: set<nat>, mid: seq<seq<Phi>>, b: set<nat>, r: seq<seq<Phi>>)
    requires PhisLeft(phis, a, mid) && PhisLeft(mid, b, r)
    ensures PhisLeft(phis, a + b, r)
  {
    forall c, j | 0 <= c < |r| && 0 <= j < |r[c]|
      ensures PhiLeft(phis[c][j], a + b, r[c][j])
    {
      assert |mid[c]| == |phis[c]|;
      PhiLeftOn(phis[c][j], a, mid[c][j], b, r[c][j]);
    }
  }

  method RemoveFromPhis(phis: seq<Phi>, block: nat) returns (r: seq<Phi>)
    ensures |r| == |phis| && forall j {:trigger r[j]} :: 0 <= j < |r| ==> PhiLeft(phis[j], {block}, r[j])
  {
    r := [];
    for j := 0 to |phis|
      invariant |r| == j && forall i {:trigger r[i]} :: 0 <= i < j ==> PhiLeft(phis[i], {block}, r[i])
    {
      var left := RemoveEntries(phis[j], block);
      r := r + [left];
    }
  }

  /** `remove_block_use` on the phi nodes. */
  method RemoveBlock(phis: seq<seq<Phi>>, block: nat) returns (r: seq<seq<Phi>>)
    ensures PhisLeft(phis, {block}, r)
  {
    r := [];
    for b := 0 to |phis|
      invariant |r| == b && forall c {:trigger r[c]} :: 0 <= c < b ==> |r[c]| == |phis[c]|
      invariant forall c, j {:trigger r[c][j]} :: 0 <= c < b && 0 <= j < |r[c]| ==>
        PhiLeft(phis[c][j], {block}, r[c][j])
    {
      var left := RemoveFromPhis(phis[b], block);
      r := r + [left];
    }
  }

  /** Delete all dead blocks, in any order. */
  method DeleteBlocks(phis: seq<seq<Phi>>, dead: set<nat>) returns (r: seq<seq<Phi>>)
    ensures PhisLeft(phis, dead, r)
  {
    r := phis;
    var rest := dead;
    while rest != {}
      invariant rest <= dead && PhisLeft(phis, dead - rest, r)
      decreases |rest|
    {
      var block :| block in rest;
      var next := RemoveBlock(r, block);
      PhisLeftOn(phis, dead - rest, r, {block}, next);
      assert dead - (rest - {block}) == (dead - rest) + {block};
      r, rest := next, rest - {block};
    }
  }

  /** What is left of a unit after pruning. */
  ghost predicate Pruned(c: Code, d: Code, live: set<nat>) {
    && CodeOk(c) && CodeOk(d) && c.bodies == d.bodies && |c.terms| == |d.terms| && Closed(c.terms, live)
    && (forall b :: b in live ==> b < |c.terms| && d.terms[b] == c.terms[b])
    && PhisLeft(c.phis, Ids(|c.terms|) - live, d.phis)
  }

  /** No predecessor is listed with different values. */
  ghost predicate AllConsistent(phis: seq<seq<Phi>>) {
    forall b, j {:trigger phis[b][j]} :: 0 <= b < |phis| && 0 <= j < |phis[b]| ==> Consistent(phis[b][j])
  }

  lemma {:induction false} EntriesLive(c: Code, d: Code, live: set<nat>, b: nat, p: Option<nat>)
    requires Pruned(c, d, live) && AllConsistent(c.phis) && b in live && (p.Some? ==> p.value in live)
    ensures Entries(d.phis[b], p) == Entries(c.phis[b], p)
  {
    assert |d.phis[b]| == |c.phis[b]|;
    forall j | 0 <= j < |d.phis[b]|
      ensures Entry(d.phis[b][j], p) == Entry(c.phis[b][j], p)
    {
      if p.Some? {
        EntryLeft(c.phis[b][j], Ids(|c.terms|) - live, d.phis[b][j], p.value);
      }
    }
  }

  lemma GotoLive<S>(m: Machine<S>, s: S, c: Code, d: Code, live: set<nat>, b: nat)
    requires Pruned(c, d, live) && b in live && !c.terms[b].Other?
    ensures Goto(m, s, c.terms[b]) in live
  {
    var t := c.terms[b];
    assert t.Br? ==> Succs(t)[0] == t.target;
    assert t.BrCond? ==> Succs(t)[0] == t.ifZero && Succs(t)[1] == t.ifOne;
    assert Goto(m, s, t) in Succs(t);
  }

  /** Control stays among the live blocks. */
  ghost predicate AmongLive(live: set<nat>, r: Option<(Option<nat>, nat)>) {
    r.Some? ==> r.value.1 in live && (r.value.0.Some? ==> r.value.0.value in live)
  }

  lemma {:induction false} NextLive<S>(m: Machine<S>, c: Code, d: Code, live: set<nat>, s: S, p: Option<nat>, b: nat,
      n: nat)
    requires Pruned(c, d, live) && b in live && (p.Some? ==> p.value in live)
    ensures Next(m, d, s, p, b, n) == Next(m, c, s, p, b, n) && AmongLive(live, Next(m, c, s, p, b, n))
    decreases n
  {
    if !Visible(c, b) && n > 0 {
      GotoLive(m, s, c, d, live, b);
      NextLive(m, c, d, live, s, Some(b), Goto(m, s, c.terms[b]), n - 1);
    }
  }

  lemma ContinueLive<S>(m: Machine<S>, c: Code, d: Code, live: set<nat>, s: S, b: nat)
    requires Pruned(c, d, live) && b in live
    ensures Continue(m, d, s, b) == Continue(m, c, s, b)
    ensures Continue(m, c, s, b).1.Some? ==> Continue(m, c, s, b).1.value in live
  {
    if !c.terms[b].Other? {
      GotoLive(m, s, c, d, live, b);
    } else {
      var k := m.resume(s, b).1;
      if k.Some? && k.value < |c.terms[b].succs| {
        assert c.terms[b].succs[k.value] in Succs(c.terms[b]);
      }
    }
  }

  /** Pruning blocks that cannot be reached does not change any run. */
  lemma {:induction false} PruningKeepsRuns<S>(m: Machine<S>, c: Code, d: Code, live: set<nat>, s: S, p: Option<nat>,
      b: nat, obs: seq<(S, nat)>)
    requires Pruned(c, d, live) && AllConsistent(c.phis) && b in live && (p.Some? ==> p.value in live)
    ensures Runs(m, c, s, p, b, obs) <==> Runs(m, d, s, p, b, obs)
    decreases |obs|, 1
  {
    if obs != [] {
      if Runs(m, c, s, p, b, obs) {
        var n: nat, q: Option<nat> :| StepsTo(m, c, s, p, b, n, q, obs[0])
          && RunsOn(m, c, obs[0].0, obs[0].1, obs[1..]);
        StepLive(m, c, d, live, s, p, b, obs, n, q);
        assert StepsTo(m, d, s, p, b, n, q, obs[0]) && RunsOn(m, d, obs[0].0, obs[0].1, obs[1..]);
      }
      if Runs(m, d, s, p, b, obs) {
        var n: nat, q: Option<nat> :| StepsTo(m, d, s, p, b, n, q, obs[0])
          && RunsOn(m, d, obs[0].0, obs[0].1, obs[1..]);
        StepLive(m, c, d, live, s, p, b, obs, n, q);
        assert StepsTo(m, c, s, p, b, n, q, obs[0]) && RunsOn(m, c, obs[0].0, obs[0].1, obs[1..]);
      }
    }
  }

  lemma {:induction false} StepLive<S>(m: Machine<S>, c: Code, d: Code, live: set<nat>, s: S, p: Option<nat>, b: nat,
      obs: seq<(S, nat)>, n: nat, q: Option<nat>)
    requires Pruned(c, d, live) && AllConsistent(c.phis) && b in live && obs != [] && (p.Some? ==> p.value in live)
    ensures StepsTo(m, c, s, p, b, n, q, obs[0]) <==> StepsTo(m, d, s, p, b, n, q, obs[0])
    ensures StepsTo(m, c, s, p, b, n, q, obs[0]) ==>
      (RunsOn(m, c, obs[0].0, obs[0].1, obs[1..]) <==> RunsOn(m, d, obs[0].0, obs[0].1, obs[1..]))
    decreases |obs|, 0
  {
    NextLive(m, c, d, live, s, p, b, n);
    if Next(m, c, s, p, b, n) == Some((q, obs[0].1)) {
      EntriesLive(c, d, live, obs[0].1, q);
      ContinueLive(m, c, d, live, obs[0].0, obs[0].1);
      var (s', next) := Continue(m, c, obs[0].0, obs[0].1);
      if next.Some? && obs[1..] != [] {
        PruningKeepsRuns(m, c, d, live, s', Some(obs[0].1), next.value, obs[1..]);
      }
    }
  }

  // ---------------------------------------------------------------- threading and pruning together

  lemma StandsInBlock(unit: Unit, b: nat, c: nat)
    requires StandsIn(unit, b, c) && b < |unit|
    ensures c < |unit|
  {
  }

  /** Rewritten terminators lead to blocks of the unit. */
  lemma SuccsInRange(unit: Unit, was: Term, now: Term)
    requires TermOk(unit, was, now) && forall k :: 0 <= k < |Succs(was)| ==> Succs(was)[k] < |unit|
    ensures forall k :: 0 <= k < |Succs(now)| ==> Succs(now)[k] < |unit|
  {
    match was
    case Br(c) =>
      assert Succs(was)[0] == c;
      StandsInBlock(unit, c, now.target);
    case BrCond(_, c, d) =>
      assert Succs(was)[0] == c && Succs(was)[1] == d;
    case Other(_, bs) =>
      forall k | 0 <= k < |bs|
        ensures now.succs[k] < |unit|
      {
        assert Succs(was)[k] == bs[k];
        StandsInBlock(unit, bs[k], now.succs[k]);
      }
  }

  /** Thread the branches of a unit, and delete the blocks that cannot be reached any more. */
  method ThreadAndPrune(unit: Unit, entry: nat) returns (cfg: Cfg, live: set<nat>, code: Code)
    requires UnitOk(unit) && entry < |unit|
    ensures cfg.unit == unit && cfg.oldEntry == entry && cfg.Valid()
    ensures Pruned(Threaded(cfg), code, live) && cfg.entry in live && code.terms == cfg.terms
    ensures forall b :: b in live ==> PathTo(cfg.terms, cfg.entry, b)
  {
    ghost var branches, blocks;
    cfg, branches, blocks := ThreadBranches(unit, entry);
    StandsInBlock(unit, entry, cfg.entry);
    forall b: nat | b < |unit|
      ensures forall k :: 0 <= k < |Succs(cfg.terms[b])| ==> Succs(cfg.terms[b])[k] < |unit|
    {
      SuccsInRange(unit, unit[b].term, cfg.terms[b]);
    }
    live := LiveBlocks(cfg.terms, cfg.entry);
    var phis := DeleteBlocks(cfg.phis, Ids(|cfg.terms|) - live);
    code := Code(unit, phis, cfg.terms);
  }

  /** The unit that is left executes what the original one does, unless a phi node that is executed changes its value
      or a predecessor is listed with different values. */
  lemma ThreadingAndPruningKeepRuns<S(!new)>(m: Machine<S>, cfg: Cfg, live: set<nat>, code: Code, s: S,
      obs: seq<(S, nat)>)
    requires UnitOk(cfg.unit) && cfg.Valid() && AllConsistent(cfg.phis)
    requires KeptFrom(m, cfg.unit, cfg.order, Original(cfg.unit), s, None, cfg.oldEntry)
    requires Pruned(Threaded(cfg), code, live) && cfg.entry in live
    ensures Runs(m, Original(cfg.unit), s, None, cfg.oldEntry, obs) <==> Runs(m, code, s, None, cfg.entry, obs)
  {
    ThreadingKeepsRuns(m, cfg, s, obs);
    PruningKeepsRuns(m, Threaded(cfg), code, live, s, None, cfg.entry, obs);
  }

  /** That is so if no dead arm enters a block with phi nodes, and a predecessor is listed once. */
  lemma WithoutDeadArms(cfg: Cfg)
    requires UnitOk(cfg.unit) && cfg.Valid() && PhisOk(cfg.unit) && AllConsistent(Original(cfg.unit).phis)
    ensures EntriesKept(cfg.unit, cfg.order) && EntriesKeptFrom(cfg.unit, cfg.oldEntry, cfg.order)
    ensures AllConsistent(cfg.phis)
  {
    forall p: nat | p < |cfg.unit|
      ensures RelistAll(cfg.unit[p].phis, cfg.order) == cfg.unit[p].phis
    {
      PhisStay(cfg.unit, cfg.order, p);
    }
    assert cfg.phis == Original(cfg.unit).phis;
    KeptAnyway(cfg.unit, cfg.order, cfg.oldEntry);
  }
}
