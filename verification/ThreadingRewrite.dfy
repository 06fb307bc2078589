/** Rewriting branches and block uses once trivial ones are known, and pruning blocks that
    cannot be reached any more (src/pass/dce.rs). */
module ThreadingRewrite {
  import opened Options
  import opened Threading

  // ---------------------------------------------------------------- rewritten terminators

  /** A block stands in for another: control silently gets there, and phi nodes only see the block itself. */
  ghost predicate StandsIn(unit: Unit, b: nat, c: nat) {
    Reaches(unit, b, c) && (b == c || PhiFree(unit, c))
  }

  /** A terminator that leads to where the original one leads to. */
  ghost predicate TermOk(unit: Unit, was: Term, now: Term) {
    match was
    case Br(c) => now.Br? && StandsIn(unit, c, now.target)
    case BrCond(cond, c, d) =>
      if now.BrCond? then now.cond == cond && StandsIn(unit, c, now.ifZero) && StandsIn(unit, d, now.ifOne)
      else now.Br? && (if cond.Const? then StandsIn(unit, if cond.nonzero then d else c, now.target)
                       else StandsIn(unit, c, now.target) && StandsIn(unit, d, now.target))
    case Other(op, bs) => now.Other? && now.op == op && |now.succs| == |bs| && forall k :: 0 <= k < |bs| ==>
      StandsIn(unit, bs[k], now.succs[k])
  }

  ghost predicate TermsOk(unit: Unit, terms: seq<Term>) {
    |terms| == |unit| && forall b {:trigger terms[b]} :: 0 <= b < |unit| ==> TermOk(unit, unit[b].term, terms[b])
  }

  lemma StandsInSelf(unit: Unit, b: nat)
    ensures StandsIn(unit, b, b)
  {
    ReachesSelf(unit, b);
  }

  lemma StandsInOn(unit: Unit, b: nat, c: nat, d: nat)
    requires StandsIn(unit, b, c) && Reaches(unit, c, d) && PhiFree(unit, d)
    ensures StandsIn(unit, b, d)
  {
    ReachesOn(unit, b, c, d);
  }

  /** Use one block in place of another. */
  function Retarget(t: Term, from: nat, to: nat): Term {
    match t
    case Br(b) => Br(if b == from then to else b)
    case BrCond(c, b, d) => BrCond(c, if b == from then to else b, if d == from then to else d)
    case Other(op, bs) => Other(op, seq(|bs|, k requires 0 <= k < |bs| => if bs[k] == from then to else bs[k]))
  }

  lemma RetargetOne(unit: Unit, b: nat, c: nat, from: nat, to: nat)
    requires StandsIn(unit, b, c) && Reaches(unit, from, to) && PhiFree(unit, to)
    ensures StandsIn(unit, b, if c == from then to else c)
  {
    if c == from {
      StandsInOn(unit, b, from, to);
    }
  }

  lemma RetargetOk(unit: Unit, was: Term, now: Term, from: nat, to: nat)
    requires TermOk(unit, was, now) && Reaches(unit, from, to) && PhiFree(unit, to)
    ensures TermOk(unit, was, Retarget(now, from, to))
  {
    match now
    case Br(c) =>
      if was.Br? {
        RetargetOne(unit, was.target, c, from, to);
      } else {
        if StandsIn(unit, was.ifZero, c) { RetargetOne(unit, was.ifZero, c, from, to); }
        if StandsIn(unit, was.ifOne, c) { RetargetOne(unit, was.ifOne, c, from, to); }
      }
    case BrCond(_, c, d) =>
      RetargetOne(unit, was.ifZero, c, from, to);
      RetargetOne(unit, was.ifOne, d, from, to);
    case Other(_, bs) =>
      forall k | 0 <= k < |bs|
        ensures StandsIn(unit, was.succs[k], Retarget(now, from, to).succs[k])
      {
        RetargetOne(unit, was.succs[k], bs[k], from, to);
      }
  }

  lemma {:induction false} BranchStandsIn(unit: Unit, term: Term, t: nat)
    requires BranchReaches(unit, term, t) && PhiFree(unit, t)
    ensures TermOk(unit, term, Br(t))
  {
    var n: nat :| n > 0 && BranchIn(unit, n, term, t);
    match term
    case Br(c) => assert ReachIn(unit, n - 1, c, t);
    case BrCond(Const(nonzero), c, d) => assert ReachIn(unit, n - 1, if nonzero then d else c, t);
    case BrCond(Computed(_), c, d) => assert ReachIn(unit, n - 1, c, t) && ReachIn(unit, n - 1, d, t);
  }

  lemma TermSame(unit: Unit, t: Term)
    ensures TermOk(unit, t, t)
  {
    match t
    case Br(c) => StandsInSelf(unit, c);
    case BrCond(_, c, d) =>
      StandsInSelf(unit, c);
      StandsInSelf(unit, d);
    case Other(_, bs) =>
      forall k | 0 <= k < |bs|
        ensures StandsIn(unit, bs[k], bs[k])
      {
        StandsInSelf(unit, bs[k]);
      }
  }

  // ---------------------------------------------------------------- phi nodes

  /** Control may pass from the block to the other one. */
  predicate Taken(t: Term, c: nat) {
    match t
    case Br(b) => b == c
    case BrCond(Const(nonzero), b, d) => c == if nonzero then d else b
    case BrCond(Computed(_), b, d) => c == b || c == d
    case Other(_, bs) => c in bs
  }

  /** A branch into a block with phi nodes that can be taken is never rewritten: only the dead arm of a constant
      branch is. */
  lemma PhiEdgeKept(unit: Unit, b: nat, t: nat, p: nat)
    requires UnitOk(unit) && b < |unit| && p < |unit| && unit[p].phis != []
    requires BranchReaches(unit, unit[b].term, t) && PhiFree(unit, t)
    ensures !Taken(unit[b].term, p)
  {
    BranchStandsIn(unit, unit[b].term, t);
    StuckAtBody(unit, p, t);
  }

  /** Control does not silently leave a block with instructions. */
  lemma StuckAtBody(unit: Unit, b: nat, t: nat)
    requires UnitOk(unit) && b < |unit| && unit[b].body != []
    ensures Reaches(unit, b, t) <==> b == t
  {
    ReachesSelf(unit, b);
    if Reaches(unit, b, t) {
      var n: nat :| ReachIn(unit, n, b, t);
    }
  }

  // ---------------------------------------------------------------- replacements

  /** A block that is replaced by another, silently reached one. */
  ghost predicate Replaces(unit: Unit, from: nat, to: nat) {
    from != to && Reaches(unit, from, to) && PhiFree(unit, to)
  }

  /** Control never passes from a replaced block to a block with phi nodes. */
  lemma ReplacedNotTaken(unit: Unit, from: nat, to: nat, p: nat)
    requires UnitOk(unit) && Replaces(unit, from, to) && p < |unit| && unit[p].phis != []
    ensures from < |unit| && !Taken(unit[from].term, p)
  {
    var n: nat :| ReachIn(unit, n, from, to);
    assert BranchIn(unit, n, unit[from].term, to);
    PhiEdgeKept(unit, from, to, p);
  }

  /** Replacements, in the order in which they are made. */
  type Order = seq<(nat, nat)>

  ghost predicate OrderOk(unit: Unit, order: Order) {
    forall k {:trigger order[k]} :: 0 <= k < |order| ==> Replaces(unit, order[k].0, order[k].1)
  }

  /** What is left of a block after all replacements. */
  function Renamed(x: nat, order: Order): nat
    decreases |order|
  {
    if order == [] then x
    else
      var y, (from, to) := Renamed(x, order[..|order| - 1]), order[|order| - 1];
      if y == from then to else y
  }

  lemma RenamedSnoc(x: nat, order: Order, from: nat, to: nat)
    ensures Renamed(x, order + [(from, to)]) == if Renamed(x, order) == from then to else Renamed(x, order)
  {
    assert (order + [(from, to)])[..|order|] == order;
  }

  /** Lead to what is left of each block. */
  function RenameTerm(t: Term, order: Order): Term {
    match t
    case Br(b) => Br(Renamed(b, order))
    case BrCond(c, b, d) => BrCond(c, Renamed(b, order), Renamed(d, order))
    case Other(op, bs) => Other(op, seq(|bs|, k requires 0 <= k < |bs| => Renamed(bs[k], order)))
  }

  function RenameTerms(terms: seq<Term>, order: Order): (r: seq<Term>)
    ensures |r| == |terms|
  {
    seq(|terms|, b requires 0 <= b < |terms| => RenameTerm(terms[b], order))
  }

  lemma RenameTermSnoc(t: Term, order: Order, from: nat, to: nat)
    ensures Retarget(RenameTerm(t, order), from, to) == RenameTerm(t, order + [(from, to)])
  {
    match t
    case Br(b) => RenamedSnoc(b, order, from, to);
    case BrCond(c, b, d) =>
      RenamedSnoc(b, order, from, to);
      RenamedSnoc(d, order, from, to);
    case Other(op, bs) =>
      forall k | 0 <= k < |bs|
        ensures Retarget(RenameTerm(t, order), from, to).succs[k] == RenameTerm(t, order + [(from, to)]).succs[k]
      {
        RenamedSnoc(bs[k], order, from, to);
      }
  }

  lemma RenameTermsSnoc(terms: seq<Term>, order: Order, from: nat, to: nat)
    ensures RetargetAll(RenameTerms(terms, order), from, to) == RenameTerms(terms, order + [(from, to)])
  {
    forall b | 0 <= b < |terms|
      ensures RetargetAll(RenameTerms(terms, order), from, to)[b] == RenameTerms(terms, order + [(from, to)])[b]
    {
      RenameTermSnoc(terms[b], order, from, to);
    }
  }

  lemma RenameTermsNone(terms: seq<Term>)
    ensures RenameTerms(terms, []) == terms
  {
    forall b | 0 <= b < |terms|
      ensures RenameTerm(terms[b], []) == terms[b]
    {
    }
  }

  /** The terminators with trivial branches replaced. */
  function Simplified(unit: Unit, branches: map<nat, Option<nat>>): (r: seq<Term>)
    ensures |r| == |unit|
  {
    seq(|unit|, b requires 0 <= b < |unit| =>
      if b in branches && branches[b].Some? then Br(branches[b].value) else unit[b].term)
  }

  /** List other predecessors. */
  function Relist(phi: Phi, order: Order): (r: Phi)
    ensures |r| == |phi|
  {
    seq(|phi|, k requires 0 <= k < |phi| => Incoming(Renamed(phi[k].pred, order), phi[k].arg))
  }

  /** List one predecessor in place of another, in all phi nodes of a block. */
  function RelistOne(phis: seq<Phi>, from: nat, to: nat): (r: seq<Phi>)
    ensures |r| == |phis|
  {
    seq(|phis|, j requires 0 <= j < |phis| =>
      seq(|phis[j]|, k requires 0 <= k < |phis[j]| => if phis[j][k].pred == from then Incoming(to, phis[j][k].arg)
        else phis[j][k]))
  }

  function RelistAll(phis: seq<Phi>, order: Order): (r: seq<Phi>)
    ensures |r| == |phis|
  {
    seq(|phis|, j requires 0 <= j < |phis| => Relist(phis[j], order))
  }

  lemma RelistSnoc(phis: seq<Phi>, order: Order, from: nat, to: nat)
    ensures RelistOne(RelistAll(phis, order), from, to) == RelistAll(phis, order + [(from, to)])
  {
    var l, r := RelistOne(RelistAll(phis, order), from, to), RelistAll(phis, order + [(from, to)]);
    forall j | 0 <= j < |phis|
      ensures l[j] == r[j]
    {
      forall k | 0 <= k < |phis[j]|
        ensures l[j][k] == r[j][k]
      {
        RenamedSnoc(phis[j][k].pred, order, from, to);
      }
    }
  }

  lemma RelistNone(phis: seq<Phi>)
    ensures RelistAll(phis, []) == phis
  {
    forall j | 0 <= j < |phis|
      ensures RelistAll(phis, [])[j] == phis[j]
    {
      assert forall k :: 0 <= k < |phis[j]| ==> Relist(phis[j], [])[k] == phis[j][k];
    }
  }

  // ---------------------------------------------------------------- the entries of phi nodes

  /** The value of a phi node for a predecessor, if control comes from one. */
  function Entry(phi: Phi, pred: Option<nat>): Option<nat> {
    if phi == [] || pred.None? then None
    else if phi[0].pred == pred.value then Some(phi[0].arg)
    else Entry(phi[1..], pred)
  }

  function Entries(phis: seq<Phi>, pred: Option<nat>): (r: seq<Option<nat>>)
    ensures |r| == |phis|
  {
    seq(|phis|, j requires 0 <= j < |phis| => Entry(phis[j], pred))
  }

  /** Replacements do not change the value of any phi node for a predecessor that control can come from. */
  ghost predicate EntriesKept(unit: Unit, order: Order) {
    forall p: nat, q: nat {:trigger Taken(unit[q].term, p)} :: p < |unit| && q < |unit| && Taken(unit[q].term, p) ==>
      Entries(RelistAll(unit[p].phis, order), Some(q)) == Entries(unit[p].phis, Some(q))
  }

  /** A replaced predecessor is listed, and what replaces it is q, which is not listed before: the
      entry of the one is taken for the other. */
  predicate Captures(phi: Phi, order: Order, q: nat, i: nat) {
    && i < |phi| && phi[i].pred != q && Renamed(phi[i].pred, order) == q
    && (forall k :: 0 <= k < i ==> phi[k].pred != q && Renamed(phi[k].pred, order) != q)
    && Entry(phi, Some(q)) != Some(phi[i].arg)
  }

  /** A phi node's value for a predecessor that is not replaced itself changes exactly if another entry captures it. */
  lemma {:induction false} CaptureExactly(phi: Phi, order: Order, q: nat)
    requires Renamed(q, order) == q
    ensures Entry(Relist(phi, order), Some(q)) != Entry(phi, Some(q)) <==>
      exists i: nat {:trigger Captures(phi, order, q, i)} :: Captures(phi, order, q, i)
    decreases |phi|
  {
    if phi == [] {
    } else {
      var rest := phi[1..];
      assert Relist(phi, order)[1..] == Relist(rest, order);
      if phi[0].pred == q {
        forall i: nat
          ensures !Captures(phi, order, q, i)
        {
        }
      } else if Renamed(phi[0].pred, order) == q {
        assert Entry(Relist(phi, order), Some(q)) == Some(phi[0].arg);
        assert Captures(phi, order, q, 0) <==> Entry(phi, Some(q)) != Some(phi[0].arg);
        forall i: nat | i > 0
          ensures !Captures(phi, order, q, i)
        {
        }
      } else {
        CaptureExactly(rest, order, q);
        forall i: nat
          ensures Captures(phi, order, q, i) <==> i > 0 && Captures(rest, order, q, i - 1)
        {
          CapturesRest(phi, order, q, i);
        }
        if i: nat :| Captures(rest, order, q, i) {
          assert Captures(phi, order, q, i + 1);
        }
      }
    }
  }

  lemma CapturesRest(phi: Phi, order: Order, q: nat, i: nat)
    requires phi != [] && phi[0].pred != q && Renamed(phi[0].pred, order) != q
    ensures Captures(phi, order, q, i) <==> i > 0 && Captures(phi[1..], order, q, i - 1)
  {
    if i > 0 && Captures(phi[1..], order, q, i - 1) {
      forall k | 0 <= k < i
        ensures phi[k].pred != q && Renamed(phi[k].pred, order) != q
      {
        if k > 0 {
          assert phi[1..][k - 1] == phi[k];
        }
      }
    }
    if i > 0 && Captures(phi, order, q, i) {
      assert forall k :: 0 <= k < i - 1 ==> phi[1..][k] == phi[k + 1];
    }
  }

  /** A predecessor of a block with phi nodes stays what it is. */
  lemma {:induction false} TakenNotRenamed(unit: Unit, order: Order, q: nat, p: nat)
    requires UnitOk(unit) && OrderOk(unit, order) && p < |unit| && q < |unit| && unit[p].phis != []
      && Taken(unit[q].term, p)
    ensures Renamed(q, order) == q
    decreases |order|
  {
    if order == [] {
    } else {
      var init, last := order[..|order| - 1], order[|order| - 1];
      assert forall k :: 0 <= k < |init| ==> init[k] == order[k];
      TakenNotRenamed(unit, init, q, p);
      ReplacedNotTaken(unit, last.0, last.1, p);
    }
  }

  /** The replacements change no value exactly if no listed predecessor captures the entry of one that
      control can come from.  Listed predecessors that are replaced are empty, and control does not
      come from them: they enter the block by the dead arm of a constant branch, or not at all. */
  lemma {:induction false} EntriesKeptExactly(unit: Unit, order: Order)
    requires UnitOk(unit) && OrderOk(unit, order)
    ensures EntriesKept(unit, order) <==>
      forall p: nat, q: nat, j: nat, i: nat {:trigger Captures(unit[p].phis[j], order, q, i)} ::
        p < |unit| && q < |unit| && Taken(unit[q].term, p) && j < |unit[p].phis| ==>
          !Captures(unit[p].phis[j], order, q, i)
  {
    forall p: nat, q: nat | p < |unit| && q < |unit| && Taken(unit[q].term, p)
      ensures Entries(RelistAll(unit[p].phis, order), Some(q)) == Entries(unit[p].phis, Some(q)) <==>
        forall j: nat, i: nat {:trigger Captures(unit[p].phis[j], order, q, i)} :: j < |unit[p].phis| ==>
          !Captures(unit[p].phis[j], order, q, i)
    {
      PhisKeptExactly(unit, order, p, q);
    }
  }

  /** The same for the phi nodes of one block and one predecessor. */
  lemma {:induction false} PhisKeptExactly(unit: Unit, order: Order, p: nat, q: nat)
    requires UnitOk(unit) && OrderOk(unit, order) && p < |unit| && q < |unit| && Taken(unit[q].term, p)
    ensures Entries(RelistAll(unit[p].phis, order), Some(q)) == Entries(unit[p].phis, Some(q)) <==>
      forall j: nat, i: nat {:trigger Captures(unit[p].phis[j], order, q, i)} :: j < |unit[p].phis| ==>
        !Captures(unit[p].phis[j], order, q, i)
  {
    var phis := unit[p].phis;
    var l, r := Entries(RelistAll(phis, order), Some(q)), Entries(phis, Some(q));
    if phis != [] {
      TakenNotRenamed(unit, order, q, p);
    }
    forall j: nat | j < |phis|
      ensures l[j] != r[j] <==> exists i: nat {:trigger Captures(phis[j], order, q, i)} ::
        Captures(phis[j], order, q, i)
    {
      CaptureExactly(phis[j], order, q);
    }
    if l == r {
      forall j: nat, i: nat | j < |phis|
        ensures !Captures(phis[j], order, q, i)
      {
        assert l[j] == r[j];
      }
    }
  }

  /** Phi nodes list blocks that control can come from: no dead arm of a constant branch enters a
      block with phi nodes. */
  ghost predicate PhisOk(unit: Unit) {
    forall p, j, k {:trigger unit[p].phis[j][k]} ::
      0 <= p < |unit| && 0 <= j < |unit[p].phis| && 0 <= k < |unit[p].phis[j]| ==>
      unit[p].phis[j][k].pred < |unit| && Taken(unit[unit[p].phis[j][k].pred].term, p)
  }

  /** Then no phi node changes. */
  lemma {:induction false} PhisStay(unit: Unit, order: Order, p: nat)
    requires UnitOk(unit) && OrderOk(unit, order) && PhisOk(unit) && p < |unit|
    ensures RelistAll(unit[p].phis, order) == unit[p].phis
  {
    var phis := unit[p].phis;
    forall j | 0 <= j < |phis|
      ensures Relist(phis[j], order) == phis[j]
    {
      forall k | 0 <= k < |phis[j]|
        ensures Relist(phis[j], order)[k] == phis[j][k]
      {
        assert unit[p].phis[j][k] == phis[j][k];
        TakenNotRenamed(unit, order, phis[j][k].pred, p);
      }
    }
  }

  // ---------------------------------------------------------------- the rewriting

  class Cfg {
    const unit: Unit
    const oldEntry: nat
    var terms: seq<Term>
    var phis: seq<seq<Phi>>
    var entry: nat
    /** The replacements that have been made. */
    ghost var order: Order

    constructor (unit: Unit, entry: nat)
      ensures this.unit == unit && this.oldEntry == entry && this.entry == entry && order == []
      ensures |terms| == |unit| && forall b :: 0 <= b < |unit| ==> terms[b] == unit[b].term
      ensures Valid()
    {
      this.unit, oldEntry, this.entry, order := unit, entry, entry, [];
      terms := seq(|unit|, b requires 0 <= b < |unit| => unit[b].term);
      phis := seq(|unit|, b requires 0 <= b < |unit| => unit[b].phis);
      new;
      forall b: nat | b < |unit|
        ensures TermOk(unit, unit[b].term, terms[b]) && phis[b] == RelistAll(unit[b].phis, [])
      {
        TermSame(unit, unit[b].term);
        RelistNone(unit[b].phis);
      }
      StandsInSelf(unit, entry);
    }

    ghost predicate Valid()
      reads this
    {
      && TermsOk(unit, terms) && OrderOk(unit, order) && StandsIn(unit, oldEntry, entry)
      && |phis| == |unit| && forall b {:trigger phis[b]} :: 0 <= b < |unit| ==>
        phis[b] == RelistAll(unit[b].phis, order)
    }

    /** Simplify trivial branches, in the order in which the hash map yields them. */
    method SimplifyBranches(branches: map<nat, Option<nat>>)
      requires Valid() && BranchesOk(unit, branches) && (forall b: nat :: b < |unit| ==> terms[b] == unit[b].term)
      modifies this`terms
      ensures Valid()
      ensures terms == Simplified(unit, branches)
    {
      var rest := branches.Keys;
      while rest != {}
        invariant rest <= branches.Keys && Valid()
        invariant forall b: nat :: b < |unit| ==>
          terms[b] == if b in branches && b !in rest && branches[b].Some? then Br(branches[b].value) else unit[b].term
        decreases |rest|
      {
        var b :| b in rest;
        rest := rest - {b};
        if branches[b].Some? {
          var target := branches[b].value;
          if !(terms[b].Br? && terms[b].target == target) {
            BranchStandsIn(unit, unit[b].term, target);
            terms := terms[b := Br(target)];
          }
        }
      }
    }

    /** `replace_block_use`, for branches as well as for phi nodes. */
    method ReplaceBlockUse(from: nat, to: nat)
      requires Valid() && Replaces(unit, from, to)
      modifies this`terms, this`phis, this`order
      ensures Valid() && order == old(order) + [(from, to)] && terms == RetargetAll(old(terms), from, to)
    {
      ghost var was := terms;
      terms := RetargetAll(terms, from, to);
      var lists := phis;
      phis := seq(|lists|, b requires 0 <= b < |lists| => RelistOne(lists[b], from, to));
      order := order + [(from, to)];
      forall b: nat | b < |unit|
        ensures TermOk(unit, unit[b].term, terms[b]) && phis[b] == RelistAll(unit[b].phis, order)
      {
        RetargetOk(unit, unit[b].term, was[b], from, to);
        RelistSnoc(unit[b].phis, old(order), from, to);
      }
    }

    /** Replace trivial blocks, in the order in which the hash map yields them. */
    method ReplaceBlocks(blocks: map<nat, Option<nat>>)
      requires Valid() && BlocksOk(unit, blocks) && entry == oldEntry && order == []
      modifies this`terms, this`phis, this`entry, this`order
      ensures Valid()
      ensures entry == if oldEntry in blocks && blocks[oldEntry].Some? then blocks[oldEntry].value else oldEntry
      ensures MadeOf(order, blocks, {}) && terms == RenameTerms(old(terms), order)
    {
      var rest := blocks.Keys;
      ghost var was := terms;
      RenameTermsNone(was);
      while rest != {}
        invariant terms == RenameTerms(was, order)
        invariant rest <= blocks.Keys && Valid() && MadeOf(order, blocks, rest)
        invariant entry == if oldEntry in blocks && oldEntry !in rest
          && blocks[oldEntry].Some? then blocks[oldEntry].value else oldEntry
        decreases |rest|
      {
        var from :| from in rest;
        MadeOfNext(order, blocks, rest, from);
        rest := rest - {from};
        if blocks[from].Some? && blocks[from].value != from {
          var to := blocks[from].value;
          RenameTermsSnoc(was, order, from, to);
          ReplaceBlockUse(from, to);
          if from == oldEntry {
            StandsInOn(unit, oldEntry, oldEntry, to);
            entry := to;
          }
        }
      }
    }
  }

  /** The blocks that are not left over have been replaced, each once. */
  ghost predicate MadeOf(order: Order, blocks: map<nat, Option<nat>>, rest: set<nat>) {
    && (forall e {:trigger e in order} :: e in order <==>
      e.0 in blocks && e.0 !in rest && e.0 != e.1 && blocks[e.0] == Some(e.1))
    && (forall j, k {:trigger order[j], order[k]} :: 0 <= j < k < |order| ==> order[j].0 != order[k].0)
  }

  lemma MadeOfNext(order: Order, blocks: map<nat, Option<nat>>, rest: set<nat>, from: nat)
    requires MadeOf(order, blocks, rest) && from in rest && from in blocks
    ensures if blocks[from].Some? && blocks[from].value != from then MadeOf(order + [(from, blocks[from].value)],
      blocks, rest - {from})
      else MadeOf(order, blocks, rest - {from})
  {
    if blocks[from].Some? && blocks[from].value != from {
      var next := order + [(from, blocks[from].value)];
      forall k | 0 <= k < |order|
        ensures order[k].0 != from
      {
        assert order[k] in order;
      }
      assert next[|order|] == (from, blocks[from].value);
      assert forall e :: e in next <==> e in order || e == (from, blocks[from].value);
    }
  }

  /** Use one block in place of another in all terminators. */
  function RetargetAll(terms: seq<Term>, from: nat, to: nat): (r: seq<Term>)
    ensures |r| == |terms|
  {
    seq(|terms|, b requires 0 <= b < |terms| => Retarget(terms[b], from, to))
  }

  /** An empty entry is replaced by the block that its branch leads to for sure, if that one is not empty. */
  ghost predicate EntryForwarded(unit: Unit, entry: nat, blocks: map<nat, Option<nat>>) {
    entry in blocks && (Empty(unit, entry) && PhiFree(unit, entry) ==>
      forall c: nat {:trigger Plain(unit, entry, c)} :: Plain(unit, entry, c) ==> blocks[entry] == Some(c))
  }

  /** Find the trivial branches and blocks. */
  method Analyse(unit: Unit, entry: nat) returns (branches: map<nat, Option<nat>>, blocks: map<nat, Option<nat>>)
    requires UnitOk(unit) && entry < |unit|
    ensures BranchesOk(unit, branches) && BlocksOk(unit, blocks) && EntryForwarded(unit, entry, blocks)
    ensures forall b: nat :: b < |unit| ==> b in branches && Settled(unit, branches, b)
  {
    var analysis := new Analysis(unit);
    analysis.Run(entry);
    branches, blocks := analysis.branches, analysis.blocks;
    assert Settled(unit, branches, entry);
  }

  /** Thread the branches of a unit, given what the analysis finds of them and of the blocks. */
  method ThreadBranches(unit: Unit, entry: nat)
      returns (cfg: Cfg, ghost branches: map<nat, Option<nat>>, ghost blocks: map<nat, Option<nat>>)
    requires UnitOk(unit) && entry < |unit|
    ensures cfg.unit == unit && cfg.oldEntry == entry && cfg.Valid()
    ensures BranchesOk(unit, branches) && forall b: nat :: b < |unit| ==> b in branches && Settled(unit, branches, b)
    ensures cfg.terms == RenameTerms(Simplified(unit, branches), cfg.order)
    ensures BlocksOk(unit, blocks) && MadeOf(cfg.order, blocks, {}) && EntryForwarded(unit, entry, blocks)
    ensures cfg.entry == if blocks[entry].Some? then blocks[entry].value else entry
  {
    var trivialBranches, trivialBlocks := Analyse(unit, entry);
    branches, blocks := trivialBranches, trivialBlocks;
    cfg := new Cfg(unit, entry);
    cfg.SimplifyBranches(trivialBranches);
    cfg.ReplaceBlocks(trivialBlocks);
  }
}
