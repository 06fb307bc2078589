/** Drive conditions in disjunctive normal form (src/pass/deseq.rs): signals sampled before
    and after the wait, and what they mean. */
module Dnf {
  import opened Options

  /** A value of the process: an argument (a signal), or the result of an instruction. */
  datatype Value = Arg(index: nat) | Res(inst: nat)

  /** The temporal regions before and after the wait. */
  datatype Region = Before | Behind

  datatype Op = Const(value: nat) | Not | And | Or | Xor | Eq | Neq | Prb | Pure(code: nat)

  /** What an instruction computes; the width stands for its type. */
  datatype Data = Data(op: Op, args: seq<Value>, width: nat)

  datatype Node = Node(data: Data, region: Region)

  /** Values of type i1 are bits. */
  datatype Val = Bit(bit: bool) | Word(width: nat, value: nat)

  /** What the signals were sampled as in either region, and what pure operations compute. The normal form treats
      values that are not bits as if they were; `truth` is what it takes them for, and no value depends on it. */
  datatype Env = Env(
    bit: (Value, Region) -> bool,
    word: (Value, Region) -> nat,
    test: (Op, seq<Val>) -> bool,
    number: (Op, seq<Val>) -> nat,
    truth: Value -> bool)

  /** Sample signals in the instruction's own region, or all in the same one. */
  datatype When = Own | At(region: Region)

  function Sampled(when_: When, region: Region): Region {
    if when_.At? then when_.region else region
  }

  function AsBit(v: Val): bool {
    v == Bit(true)
  }

  /** What an instruction yields, given its arguments. */
  function Apply(env: Env, data: Data, region: Region, vals: seq<Val>): Val {
    if data.op.Prb? && |data.args| == 1 then
      if data.width == 1 then Bit(env.bit(data.args[0], region)) else Word(data.width, env.word(data.args[0], region))
    else if data.op.Const? then
      if data.width == 1 then Bit(data.op.value == 1) else Word(data.width, data.op.value)
    else if data.width != 1 then Word(data.width, env.number(data.op, vals))
    else Bit(
      match data.op
      case Not => if |vals| == 1 then !AsBit(vals[0]) else false
      case And => if |vals| == 2 then AsBit(vals[0]) && AsBit(vals[1]) else false
      case Or => if |vals| == 2 then AsBit(vals[0]) || AsBit(vals[1]) else false
      case Xor => if |vals| == 2 then AsBit(vals[0]) != AsBit(vals[1]) else false
      case Eq => if |vals| == 2 then vals[0] == vals[1] else false
      case Neq => if |vals| == 2 then vals[0] != vals[1] else false
      case _ => env.test(data.op, vals))
  }

  function Rank(v: Value): nat {
    if v.Arg? then 0 else v.inst + 1
  }

  /** The value of a value; signals themselves have none. */
  function Eval(nodes: seq<Node>, env: Env, when_: When, v: Value): Val
    decreases Rank(v), 0
  {
    if v.Arg? || v.inst >= |nodes| then Word(0, 0)
    else
      var node := nodes[v.inst];
      Apply(env, node.data, Sampled(when_, node.region), EvalArgs(nodes, env, when_, node.data.args, v.inst))
  }

  /** The values of arguments that come before some instruction. */
  function EvalArgs(nodes: seq<Node>, env: Env, when_: When, args: seq<Value>, bound: nat): (r: seq<Val>)
    ensures |r| == |args|
    decreases bound, 1 + |args|
  {
    if args == [] then []
    else
      [if Rank(args[0]) <= bound then Eval(nodes, env, when_, args[0])
        else Word(0, 0)] + EvalArgs(nodes, env, when_, args[1..], bound)
  }

  lemma {:induction false} EvalArgsAt(nodes: seq<Node>, env: Env, when_: When, args: seq<Value>, bound: nat, k: nat)
    requires k < |args| && Rank(args[k]) <= bound
    ensures EvalArgs(nodes, env, when_, args, bound)[k] == Eval(nodes, env, when_, args[k])
    decreases k
  {
    if k > 0 {
      EvalArgsAt(nodes, env, when_, args[1..], bound, k - 1);
    }
  }

  /** Values do not depend on what the normal form takes words for. */
  lemma {:induction false} EvalTruth(nodes: seq<Node>, env: Env, truth: Value -> bool, when_: When, v: Value)
    ensures Eval(nodes, env.(truth := truth), when_, v) == Eval(nodes, env, when_, v)
    decreases Rank(v), 0
  {
    if v.Res? && v.inst < |nodes| {
      ArgsTruth(nodes, env, truth, when_, nodes[v.inst].data.args, v.inst);
    }
  }

  lemma {:induction false} ArgsTruth(nodes: seq<Node>, env: Env, truth: Value -> bool, when_: When, args: seq<Value>,
      bound: nat)
    ensures EvalArgs(nodes, env.(truth := truth), when_, args, bound) == EvalArgs(nodes, env, when_, args, bound)
    decreases bound, 1 + |args|
  {
    if args == [] {
    } else {
      if Rank(args[0]) <= bound {
        EvalTruth(nodes, env, truth, when_, args[0]);
      }
      ArgsTruth(nodes, env, truth, when_, args[1..], bound);
    }
  }

  function WidthOf(nodes: seq<Node>, v: Value): nat {
    if v.Res? && v.inst < |nodes| then nodes[v.inst].data.width else 0
  }

  /** The types of the arguments fit the operation. */
  predicate NodeOk(nodes: seq<Node>, i: nat) {
    i < |nodes| &&
    var d := nodes[i].data;
    && (forall k :: 0 <= k < |d.args| ==> Rank(d.args[k]) <= i)
    && match d.op
       case Not => |d.args| == 1 && WidthOf(nodes, d.args[0]) == d.width
       case And | Or | Xor => |d.args| == 2 && WidthOf(nodes, d.args[0]) == d.width
         && WidthOf(nodes, d.args[1]) == d.width
       case Eq | Neq => |d.args| == 2 && d.width == 1 && WidthOf(nodes, d.args[0]) == WidthOf(nodes, d.args[1])
       case Prb => |d.args| == 1 && d.args[0].Arg?
       case _ => true
  }

  predicate NodesOk(nodes: seq<Node>) {
    forall i: nat {:trigger NodeOk(nodes, i)} :: i < |nodes| ==> NodeOk(nodes, i)
  }

  lemma {:induction false} EvalBit(nodes: seq<Node>, env: Env, when_: When, v: Value)
    ensures WidthOf(nodes, v) == 1 <==> Eval(nodes, env, when_, v).Bit?
  {
  }

  // ---------------------------------------------------------------- disjunctive normal form

  /** A signal sampled in a region, or some value that nothing is known about. */
  datatype Term = Signal(sig: Value, region: Region) | Invalid(value: Value)

  /** A conjunction of terms; those that are true here are negated. */
  type Conj = map<Term, bool>

  /** A disjunction of conjunctions. */
  type Dnf = set<Conj>

  function TermHolds(nodes: seq<Node>, env: Env, t: Term): bool {
    match t
    case Signal(sig, region) => env.bit(sig, region)
    case Invalid(v) => if WidthOf(nodes, v) == 1 then AsBit(Eval(nodes, env, Own, v)) else env.truth(v)
  }

  ghost predicate ConjHolds(nodes: seq<Node>, env: Env, c: Conj) {
    forall t :: t in c ==> TermHolds(nodes, env, t) != c[t]
  }

  ghost predicate Holds(nodes: seq<Node>, env: Env, dnf: Dnf) {
    exists c :: c in dnf && ConjHolds(nodes, env, c)
  }

  function Zero(): Dnf {
    {}
  }

  function One(): Dnf {
    {map[]}
  }

  function Single(t: Term, inv: bool): Dnf {
    {map[t := inv]}
  }

  /** Both conjunctions at once, unless they contradict each other. */
  function Both(a: Conj, b: Conj): Option<Conj> {
    if exists t :: t in a && t in b && a[t] != b[t] then None else Some(a + b)
  }

  function Disjunction(a: Dnf, b: Dnf): Dnf {
    a + b
  }

  function Conjunction(a: Dnf, b: Dnf): Dnf {
    set c, d | c in a && d in b && Both(c, d).Some? :: Both(c, d).value
  }

  lemma BothHolds(nodes: seq<Node>, env: Env, a: Conj, b: Conj)
    ensures ConjHolds(nodes, env, a) && ConjHolds(nodes, env, b) <==>
      Both(a, b).Some? && ConjHolds(nodes, env, Both(a, b).value)
  {
    if t :| t in a && t in b && a[t] != b[t] {
    } else {
      var c := a + b;
      forall t | t in a
        ensures t in c && c[t] == a[t]
      {
      }
      assert forall t :: t in b ==> c[t] == b[t];
    }
  }

  lemma ConjunctionHolds(nodes: seq<Node>, env: Env, a: Dnf, b: Dnf)
    ensures Holds(nodes, env, Conjunction(a, b)) <==> Holds(nodes, env, a) && Holds(nodes, env, b)
  {
    if Holds(nodes, env, a) && Holds(nodes, env, b) {
      var c :| c in a && ConjHolds(nodes, env, c);
      var d :| d in b && ConjHolds(nodes, env, d);
      BothHolds(nodes, env, c, d);
      assert Both(c, d).value in Conjunction(a, b);
    }
    if Holds(nodes, env, Conjunction(a, b)) {
      var e :| e in Conjunction(a, b) && ConjHolds(nodes, env, e);
      var c, d :| c in a && d in b && Both(c, d) == Some(e);
      BothHolds(nodes, env, c, d);
    }
  }

  lemma DisjunctionHolds(nodes: seq<Node>, env: Env, a: Dnf, b: Dnf)
    ensures Holds(nodes, env, Disjunction(a, b)) <==> Holds(nodes, env, a) || Holds(nodes, env, b)
  {
    if Holds(nodes, env, a) {
      var c :| c in a && ConjHolds(nodes, env, c);
      assert c in Disjunction(a, b);
    }
    if Holds(nodes, env, b) {
      var c :| c in b && ConjHolds(nodes, env, c);
      assert c in Disjunction(a, b);
    }
  }

  lemma SingleHolds(nodes: seq<Node>, env: Env, t: Term, inv: bool)
    ensures Holds(nodes, env, Single(t, inv)) <==> TermHolds(nodes, env, t) != inv
  {
    var c := map[t := inv];
    assert c in Single(t, inv);
    assert t in c && c[t] == inv;
  }

  lemma OneHolds(nodes: seq<Node>, env: Env)
    ensures Holds(nodes, env, One()) && !Holds(nodes, env, Zero())
  {
    var c: Conj := map[];
    assert c in One() && ConjHolds(nodes, env, c);
  }

  // ---------------------------------------------------------------- the loops behind it

  lemma Contradicts(a: Conj, b: Conj, t: Term)
    requires t in a && t in b && a[t] != b[t]
    ensures Both(a, b) == None
  {
  }

  /** The terms of one side, and those of the other side that have been inserted so far. */
  ghost predicate Inserted(a: Conj, b: Conj, terms: set<Term>, acc: Conj) {
    && acc.Keys == a.Keys + (b.Keys - terms)
    && (forall t {:trigger acc[t]} :: t in a ==> acc[t] == a[t])
    && (forall t {:trigger acc[t]} :: t in b && t !in terms ==> acc[t] == b[t])
  }

  lemma InsertStep(a: Conj, b: Conj, terms: set<Term>, acc: Conj, t: Term)
    requires Inserted(a, b, terms, acc) && t in terms && t in b && !(t in acc && acc[t] == !b[t])
    ensures Inserted(a, b, terms - {t}, acc[t := b[t]])
  {
  }

  lemma InsertDone(a: Conj, b: Conj, acc: Conj)
    requires Inserted(a, b, {}, acc)
    ensures Both(a, b) == Some(acc)
  {
    forall t | t in a && t in b
      ensures a[t] == b[t]
    {
      assert acc[t] == a[t];
    }
    assert acc == a + b;
  }

  /** `and_term`: insert the terms of both sides, and give up once the complement of a term is already there. */
  method AndTerm(a: Conj, b: Conj) returns (out: Option<Conj>)
    ensures out == Both(a, b)
  {
    var terms, acc := b.Keys, a;
    while terms != {}
      invariant terms <= b.Keys && Inserted(a, b, terms, acc)
      decreases |terms|
    {
      var t :| t in terms;
      if t in acc && acc[t] == !b[t] {
        Contradicts(a, b, t);
        return None;
      }
      InsertStep(a, b, terms, acc, t);
      terms, acc := terms - {t}, acc[t := b[t]];
    }
    InsertDone(a, b, acc);
    out := Some(acc);
  }

  function Pair(c: Conj, d: Conj): Dnf {
    if Both(c, d).Some? then {Both(c, d).value} else {}
  }

  lemma ConjunctionRight(c: Conj, done: Dnf, d: Conj)
    ensures Conjunction({c}, done + {d}) == Conjunction({c}, done) + Pair(c, d)
  {
  }

  lemma ConjunctionLeft(done: Dnf, c: Conj, b: Dnf)
    ensures Conjunction(done + {c}, b) == Conjunction(done, b) + Conjunction({c}, b)
  {
  }

  /** One conjunction with every one of the other side. */
  method AndEach(c: Conj, b: Dnf, start: Dnf) returns (out: Dnf)
    ensures out == start + Conjunction({c}, b)
  {
    out := start;
    var right := b;
    ghost var done: Dnf := {};
    while right != {}
      invariant right <= b && done == b - right && out == start + Conjunction({c}, done)
      decreases |right|
    {
      var d :| d in right;
      var both := AndTerm(c, d);
      ConjunctionRight(c, done, d);
      if both.Some? {
        out := out + {both.value};
      }
      right, done := right - {d}, done + {d};
    }
    assert done == b;
  }

  /** `and`: every conjunction of one side with every one of the other. */
  method AndDnf(a: Dnf, b: Dnf) returns (out: Dnf)
    ensures out == Conjunction(a, b)
  {
    out := {};
    var left := a;
    ghost var done: Dnf := {};
    while left != {}
      invariant left <= a && done == a - left && out == Conjunction(done, b)
      decreases |left|
    {
      var c :| c in left;
      out := AndEach(c, b, out);
      ConjunctionLeft(done, c, b);
      left, done := left - {c}, done + {c};
    }
    assert done == a;
  }
}
