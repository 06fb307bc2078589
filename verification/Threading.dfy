/** Threading branches through empty blocks (src/pass/dce.rs): which blocks and branches
    are trivial, by a memoised recursion that may run into cycles. */
module Threading {
  import opened Options

  /** A branch condition: a constant, or a value computed at run time. */
  datatype Cond = Const(nonzero: bool) | Computed(value: nat)

  /** Terminators; `Other` stands for wait, halt and ret. */
  datatype Term = Br(target: nat) | BrCond(cond: Cond, ifZero: nat, ifOne: nat) | Other(op: nat, succs: seq<nat>)

  /** An entry of a phi node: the value for a predecessor. */
  datatype Incoming = Incoming(pred: nat, arg: nat)

  type Phi = seq<Incoming>

  /** A block with the instructions before its terminator, and the entries of its phi nodes. */
  datatype Block = Block(body: seq<nat>, phis: seq<Phi>, term: Term)

  type Unit = seq<Block>

  function Succs(t: Term): seq<nat> {
    match t
    case Br(b) => [b]
    case BrCond(_, b, c) => [b, c]
    case Other(_, bs) => bs
  }

  predicate UnitOk(unit: Unit) {
    forall b {:trigger unit[b]} :: 0 <= b < |unit| ==>
      (unit[b].phis != [] ==> unit[b].body != []) && forall k :: 0 <= k < |Succs(unit[b].term)| ==>
        Succs(unit[b].term)[k] < |unit|
  }

  predicate Empty(unit: Unit, b: nat) {
    b < |unit| && unit[b].body == []
  }

  predicate PhiFree(unit: Unit, b: nat) {
    b < |unit| && unit[b].phis == []
  }

  // ---------------------------------------------------------------- silent control flow

  /** Whatever the condition is, control passes from this block to the target, in at most n steps
      through blocks that hold only a branch. */
  predicate ReachIn(unit: Unit, n: nat, b: nat, t: nat)
    decreases n, 1
  {
    b == t || (n > 0 && Empty(unit, b) && BranchIn(unit, n, unit[b].term, t))
  }

  /** The same for a branch. */
  predicate BranchIn(unit: Unit, n: nat, term: Term, t: nat)
    requires n > 0
    decreases n, 0
  {
    match term
    case Br(c) => ReachIn(unit, n - 1, c, t)
    case BrCond(Const(nonzero), c, d) => ReachIn(unit, n - 1, if nonzero then d else c, t)
    case BrCond(Computed(_), c, d) => ReachIn(unit, n - 1, c, t) && ReachIn(unit, n - 1, d, t)
    case Other(_, _) => false
  }

  ghost predicate Reaches(unit: Unit, b: nat, t: nat) {
    exists n: nat :: ReachIn(unit, n, b, t)
  }

  ghost predicate BranchReaches(unit: Unit, term: Term, t: nat) {
    exists n: nat :: n > 0 && BranchIn(unit, n, term, t)
  }

  lemma {:induction false} ReachMore(unit: Unit, n: nat, m: nat, b: nat, t: nat)
    requires ReachIn(unit, n, b, t) && n <= m
    ensures ReachIn(unit, m, b, t)
    decreases n
  {
    if b != t {
      match unit[b].term
      case Br(c) => ReachMore(unit, n - 1, m - 1, c, t);
      case BrCond(Const(nonzero), c, d) => ReachMore(unit, n - 1, m - 1, if nonzero then d else c, t);
      case BrCond(Computed(_), c, d) =>
        ReachMore(unit, n - 1, m - 1, c, t);
        ReachMore(unit, n - 1, m - 1, d, t);
    }
  }

  lemma {:induction false} ReachOn(unit: Unit, n: nat, b: nat, t: nat, m: nat, u: nat)
    requires ReachIn(unit, n, b, t) && ReachIn(unit, m, t, u)
    ensures ReachIn(unit, n + m, b, u)
    decreases n
  {
    if b == t {
      ReachMore(unit, m, n + m, b, u);
    } else if b != u {
      match unit[b].term
      case Br(c) => ReachOn(unit, n - 1, c, t, m, u);
      case BrCond(Const(nonzero), c, d) => ReachOn(unit, n - 1, if nonzero then d else c, t, m, u);
      case BrCond(Computed(_), c, d) =>
        ReachOn(unit, n - 1, c, t, m, u);
        ReachOn(unit, n - 1, d, t, m, u);
    }
  }

  lemma ReachesOn(unit: Unit, b: nat, t: nat, u: nat)
    requires Reaches(unit, b, t) && Reaches(unit, t, u)
    ensures Reaches(unit, b, u)
  {
    var n: nat :| ReachIn(unit, n, b, t);
    var m: nat :| ReachIn(unit, m, t, u);
    ReachOn(unit, n, b, t, m, u);
  }

  lemma ReachesSelf(unit: Unit, b: nat)
    ensures Reaches(unit, b, b)
  {
    assert ReachIn(unit, 0, b, b);
  }

  lemma BranchOne(unit: Unit, term: Term, c: nat, t: nat)
    requires Reaches(unit, c, t)
    requires term == Br(c) || (term.BrCond? && term.cond.Const? && c == if term.cond.nonzero then term.ifOne
      else term.ifZero)
    ensures BranchReaches(unit, term, t)
  {
    var n: nat :| ReachIn(unit, n, c, t);
    assert BranchIn(unit, n + 1, term, t);
  }

  lemma BranchBoth(unit: Unit, term: Term, t: nat)
    requires term.BrCond? && term.cond.Computed? && Reaches(unit, term.ifZero, t) && Reaches(unit, term.ifOne, t)
    ensures BranchReaches(unit, term, t)
  {
    var n: nat :| ReachIn(unit, n, term.ifZero, t);
    var m: nat :| ReachIn(unit, m, term.ifOne, t);
    ReachMore(unit, n, n + m, term.ifZero, t);
    ReachMore(unit, m, n + m, term.ifOne, t);
    assert BranchIn(unit, n + m + 1, term, t);
  }

  lemma BlockReaches(unit: Unit, b: nat, t: nat)
    requires Empty(unit, b) && BranchReaches(unit, unit[b].term, t)
    ensures Reaches(unit, b, t)
  {
    var n: nat :| n > 0 && BranchIn(unit, n, unit[b].term, t);
    assert ReachIn(unit, n, b, t);
  }

  // ---------------------------------------------------------------- the memo tables

  /** Where a block can be jumped through to, if a branch may be retargeted at it at all. */
  ghost predicate BlocksOk(unit: Unit, blocks: map<nat, Option<nat>>) {
    forall b {:trigger blocks[b]} {:trigger b in blocks} :: b in blocks ==>
      b < |unit| && (blocks[b].Some? ==> Reaches(unit, b, blocks[b].value) && PhiFree(unit, blocks[b].value))
  }

  /** Where a block's terminator leads to, if there is only one such place. */
  ghost predicate BranchesOk(unit: Unit, branches: map<nat, Option<nat>>) {
    forall b {:trigger branches[b]} {:trigger b in branches} :: b in branches ==>
      b < |unit| && (branches[b].Some? ==>
        BranchReaches(unit, unit[b].term, branches[b].value) && PhiFree(unit, branches[b].value))
  }

  /** The block that a branch leads to for sure, if that one does more than branch. */
  predicate Plain(unit: Unit, b: nat, c: nat) {
    && b < |unit| && c < |unit| && unit[c].phis == [] && unit[c].body != []
    && (unit[b].term == Br(c) || (unit[b].term.BrCond? && unit[b].term.cond.Const?
      && c == if unit[b].term.cond.nonzero then unit[b].term.ifOne else unit[b].term.ifZero))
  }

  /** A branch that has been looked at leads to such a block. */
  ghost predicate Settled(unit: Unit, branches: map<nat, Option<nat>>, b: nat)
    requires b in branches
  {
    forall c: nat {:trigger Plain(unit, b, c)} :: Plain(unit, b, c) ==> branches[b] == Some(c)
  }

  /** What has been recorded stays, and what is recorded in addition is settled. */
  ghost predicate Grown(unit: Unit, was: map<nat, Option<nat>>, now: map<nat, Option<nat>>) {
    && (forall b {:trigger b in now} {:trigger b in was} :: b in was ==> b in now && now[b] == was[b])
    && (forall b {:trigger b in now} :: b in now && b !in was ==> Settled(unit, now, b))
  }

  lemma GrownOn(unit: Unit, a: map<nat, Option<nat>>, b: map<nat, Option<nat>>, c: map<nat, Option<nat>>)
    requires Grown(unit, a, b) && Grown(unit, b, c)
    ensures Grown(unit, a, c)
  {
    forall k | k in c && k !in a
      ensures Settled(unit, c, k)
    {
      if k in b {
        assert Settled(unit, b, k) && c[k] == b[k];
      }
    }
  }

  /** How many of the first n blocks have terminators that have not been looked at. */
  ghost function Left(n: nat, branches: map<nat, Option<nat>>): nat {
    if n == 0 then 0 else (if n - 1 in branches then 0 else 1) + Left(n - 1, branches)
  }

  lemma {:induction false} LeftShrinks(n: nat, a: map<nat, Option<nat>>, b: map<nat, Option<nat>>)
    requires a.Keys <= b.Keys
    ensures Left(n, b) <= Left(n, a)
    decreases n
  {
    if n > 0 {
      LeftShrinks(n - 1, a, b);
    }
  }

  lemma {:induction false} LeftDrops(n: nat, a: map<nat, Option<nat>>, b: map<nat, Option<nat>>, i: nat)
    requires i < n && i !in a && a.Keys + {i} <= b.Keys
    ensures Left(n, b) < Left(n, a)
    decreases n
  {
    if i == n - 1 {
      LeftShrinks(n - 1, a, b);
    } else {
      LeftDrops(n - 1, a, b, i);
    }
  }

  class Analysis {
    const unit: Unit
    var blocks: map<nat, Option<nat>>
    /** For the terminator of each block. */
    var branches: map<nat, Option<nat>>

    constructor (unit: Unit)
      ensures this.unit == unit && blocks == map[] && branches == map[]
    {
      this.unit, blocks, branches := unit, map[], map[];
    }

    ghost predicate Valid()
      reads this
    {
      UnitOk(unit) && BlocksOk(unit, blocks) && BranchesOk(unit, branches)
    }

    /** `check_branch_trivial`; the sentinel says that nothing is known while a branch is being looked at. */
    method CheckBranchTrivial(b: nat) returns (target: Option<nat>)
      requires Valid() && b < |unit|
      modifies this`blocks, this`branches
      ensures Valid() && old(branches).Keys + {b} <= branches.Keys && old(blocks).Keys <= blocks.Keys
      ensures Grown(unit, old(branches), branches) && target == branches[b]
      ensures target.Some? ==> BranchReaches(unit, unit[b].term, target.value) && PhiFree(unit, target.value)
      decreases Left(|unit|, branches), 0
    {
      if b in branches {
        return branches[b];
      }
      ghost var was := branches;
      branches := branches[b := None];
      LeftDrops(|unit|, was, branches, b);
      target := BranchTarget(b);
      ghost var mid := branches;
      branches := branches[b := target];
      forall k | k in branches && k !in was
        ensures Settled(unit, branches, k)
      {
        assert k != b ==> Settled(unit, mid, k);
      }
    }

    /** The only place that a terminator can lead to. */
    method BranchTarget(b: nat) returns (target: Option<nat>)
      requires Valid() && b < |unit|
      modifies this`blocks, this`branches
      ensures Valid() && old(branches).Keys <= branches.Keys && old(blocks).Keys <= blocks.Keys
      ensures Grown(unit, old(branches), branches)
        && forall c: nat {:trigger Plain(unit, b, c)} :: Plain(unit, b, c) ==> target == Some(c)
      ensures target.Some? ==> BranchReaches(unit, unit[b].term, target.value) && PhiFree(unit, target.value)
      ensures unit[b].term.Br? ==> (target.Some? <==> PhiFree(unit, unit[b].term.target))
      ensures unit[b].term.BrCond? && unit[b].term.cond.Const? ==>
        (target.Some? <==> PhiFree(unit, if unit[b].term.cond.nonzero then unit[b].term.ifOne else unit[b].term.ifZero))
      decreases Left(|unit|, branches), 2
    {
      target := None;
      var term := unit[b].term;
      if term.Br? {
        assert Succs(term)[0] == term.target;
        target := CheckBlockRetargetable(term.target);
        if target.Some? {
          BranchOne(unit, term, term.target, target.value);
        }
      } else if term.BrCond? {
        assert Succs(term)[0] == term.ifZero && Succs(term)[1] == term.ifOne;
        ghost var was := branches;
        var ifZero := CheckBlockRetargetable(term.ifZero);
        LeftShrinks(|unit|, was, branches);
        ghost var mid := branches;
        var ifOne := CheckBlockRetargetable(term.ifOne);
        GrownOn(unit, was, mid, branches);
        if term.cond.Const? {
          target := if term.cond.nonzero then ifOne else ifZero;
          if target.Some? {
            BranchOne(unit, term, if term.cond.nonzero then term.ifOne else term.ifZero, target.value);
          }
        } else if ifZero == ifOne {
          target := ifZero;
          if target.Some? {
            BranchBoth(unit, term, target.value);
          }
        }
      }
    }

    /** `check_block_retargetable`. */
    method CheckBlockRetargetable(b: nat) returns (target: Option<nat>)
      requires Valid() && b < |unit|
      modifies this`blocks, this`branches
      ensures Valid() && old(branches).Keys <= branches.Keys && old(blocks).Keys + {b} <= blocks.Keys
      ensures Grown(unit, old(branches), branches) && blocks[b] == target
      ensures Empty(unit, b) && PhiFree(unit, b) ==>
        b in branches && target == if branches[b].Some? then branches[b] else Some(b)
      ensures target.Some? ==> Reaches(unit, b, target.value) && PhiFree(unit, target.value)
      ensures target.Some? <==> PhiFree(unit, b)
      ensures !Empty(unit, b) && target.Some? ==> target.value == b
      decreases Left(|unit|, branches), 1
    {
      ReachesSelf(unit, b);
      if unit[b].phis != [] {
        blocks := blocks[b := None];
        return None;
      }
      if unit[b].body != [] {
        blocks := blocks[b := Some(b)];
        return Some(b);
      }
      var through := CheckBranchTrivial(b);
      if through.Some? {
        BlockReaches(unit, b, through.value);
        target := through;
      } else {
        target := Some(b);
      }
      blocks := blocks[b := target];
    }

    /** Look at all terminators, and at the entry. */
    method Run(entry: nat)
      requires Valid() && entry < |unit|
      modifies this`blocks, this`branches
      requires branches == map[]
      ensures Valid() && (forall b: nat :: b < |unit| ==> b in branches && Settled(unit, branches, b))
        && entry in blocks
      ensures Empty(unit, entry) && PhiFree(unit, entry) ==>
        blocks[entry] == if branches[entry].Some? then branches[entry] else Some(entry)
    {
      for b := 0 to |unit|
        invariant Valid() && (forall c: nat :: c < b ==> c in branches) && Grown(unit, map[], branches)
      {
        ghost var was := branches;
        var _ := CheckBranchTrivial(b);
        GrownOn(unit, map[], was, branches);
      }
      ghost var was := branches;
      var _ := CheckBlockRetargetable(entry);
      GrownOn(unit, map[], was, branches);
      forall b: nat | b < |unit|
        ensures b in branches && Settled(unit, branches, b)
      {
        assert b in was;
      }
    }
  }
}
