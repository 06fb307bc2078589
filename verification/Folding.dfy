/** Constant folding of binary instructions: fold_binary_int in src/pass/cf.rs. */
module Folding {
  import opened IntArith
  import opened IntValues
  import opened Options

  datatype Opcode =
    | AddOp | SubOp | AndOp | OrOp | XorOp
    | SmulOp | SdivOp | SmodOp | SremOp | UmulOp | UdivOp | UmodOp | UremOp
    | EqOp | NeqOp | UltOp | UgtOp | UleOp | UgeOp | SltOp | SgtOp | SleOp | SgeOp

  predicate IsDivision(op: Opcode) {
    op.SdivOp? || op.SmodOp? || op.SremOp? || op.UdivOp? || op.UmodOp? || op.UremOp?
  }

  predicate IsCompare(op: Opcode) {
    op.EqOp? || op.NeqOp? || op.UltOp? || op.UgtOp? || op.UleOp? || op.UgeOp? || op.SltOp? || op.SgtOp? || op.SleOp?
      || op.SgeOp?
  }

  predicate Operands(a: IntValue, b: IntValue) {
    a.Valid() && b.Valid() && a.width == b.width >= 1
  }

  predicate Compare(op: Opcode, a: IntValue, b: IntValue)
    requires Operands(a, b) && IsCompare(op)
  {
    match op
    case EqOp => a.value == b.value
    case NeqOp => a.value != b.value
    case UltOp => a.value < b.value
    case UgtOp => a.value > b.value
    case UleOp => a.value <= b.value
    case UgeOp => a.value >= b.value
    case SltOp => ToSigned(a) < ToSigned(b)
    case SgtOp => ToSigned(a) > ToSigned(b)
    case SleOp => ToSigned(a) <= ToSigned(b)
    case SgeOp => ToSigned(a) >= ToSigned(b)
  }

  /** What an instruction yields; nothing when it divides by zero. */
  function Execute(op: Opcode, a: IntValue, b: IntValue): Option<IntValue>
    requires Operands(a, b)
  {
    if IsDivision(op) && b.value == 0 then None else
    match op
    case AddOp => Some(Add(a, b))
    case SubOp => Some(Subtract(a, b))
    case AndOp => Some(And(a, b))
    case OrOp => Some(Or(a, b))
    case XorOp => Some(Xor(a, b))
    case SmulOp => Some(Smul(a, b))
    case SdivOp => Some(Sdiv(a, b))
    case SmodOp => Some(Smod(a, b))
    case SremOp => Some(Srem(a, b))
    case UmulOp => Some(Umul(a, b))
    case UdivOp => Some(Udiv(a, b))
    case UmodOp => Some(Umod(a, b))
    case UremOp => Some(Umod(a, b))
    case _ => Some(FromUnsigned(1, if Compare(op, a, b) then 1 else 0))
  }

  // ---------------------------------------------------------------- folding

  /** An argument: a constant, or any other value. */
  datatype Operand = Const(num: IntValue) | Variable(id: nat)

  /** What replaces the instruction. */
  datatype Outcome = Unchanged | Panics | Constant(num: IntValue) | Same(arg: Operand) | Inverted(arg: Operand)

  function Zero(width: nat): IntValue {
    IntValue(width, 0)
  }

  function AllOnes(width: nat): IntValue {
    IntValue(width, Ones(width))
  }

  /** Rules for a constant on either side. */
  function FoldSymmetric(op: Opcode, width: nat, kon: IntValue, arg: Operand): Outcome {
    if (op.AndOp? || op.SmulOp? || op.UmulOp?) && kon.value == 0 then Constant(Zero(width))
    else if (op.OrOp? || op.XorOp? || op.AddOp? || op.SubOp?) && kon.value == 0 then Same(arg)
    else if (op.SmulOp? || op.UmulOp?) && kon.value == 1 then Same(arg)
    else if op.OrOp? && kon.value == Ones(kon.width) then Constant(AllOnes(width))
    else if op.AndOp? && kon.value == Ones(kon.width) then Same(arg)
    else if op.XorOp? && kon.value == Ones(kon.width) then Inverted(arg)
    else Unchanged
  }

  /** Rules for a constant on the right. */
  function FoldAsymmetric(op: Opcode, width: nat, arg: Operand, kon: IntValue): Outcome {
    if (op.SdivOp? || op.UdivOp?) && kon.value == 1 then Same(arg)
    else if (op.SmodOp? || op.UmodOp? || op.SremOp? || op.UremOp?) && kon.value == 1 then Constant(Zero(width))
    else Unchanged
  }

  function FoldBinary(op: Opcode, width: nat, lhs: Operand, rhs: Operand): Outcome
    requires lhs.Const? && rhs.Const? ==> Operands(lhs.num, rhs.num)
  {
    if lhs.Const? && rhs.Const? then
      match Execute(op, lhs.num, rhs.num)
      case Some(r) => Constant(r)
      case None => Panics
    else if rhs.Const? then
      var r := FoldSymmetric(op, width, rhs.num, lhs);
      if r.Unchanged? then FoldAsymmetric(op, width, lhs, rhs.num) else r
    else if lhs.Const? then FoldSymmetric(op, width, lhs.num, rhs)
    else Unchanged
  }

  // ---------------------------------------------------------------- meaning

  /** All values have the width of the instruction's arguments. */
  ghost predicate EnvOk(env: nat -> IntValue, width: nat) {
    forall id: nat {:trigger env(id)} :: env(id).Valid() && env(id).width == width
  }

  predicate ArgOk(arg: Operand, width: nat) {
    arg.Const? ==> arg.num.Valid() && arg.num.width == width
  }

  function Eval(arg: Operand, env: nat -> IntValue): IntValue {
    match arg
    case Const(n) => n
    case Variable(id) => env(id)
  }

  /** The outcome, if any, yields what the instruction yields. */
  predicate Agrees(op: Opcode, lhs: Operand, rhs: Operand, out: Outcome, env: nat -> IntValue)
    requires Operands(Eval(lhs, env), Eval(rhs, env))
  {
    var r := Execute(op, Eval(lhs, env), Eval(rhs, env));
    match out
    case Unchanged => true
    case Panics => r.None?
    case Constant(n) => r == Some(n)
    case Same(arg) => r == Some(Eval(arg, env))
    case Inverted(arg) => Eval(arg, env).Valid() && r == Some(Not(Eval(arg, env)))
  }

  // ---------------------------------------------------------------- the rules

  lemma AndZeroOnes(a: IntValue, k: IntValue)
    requires Operands(a, k)
    ensures k.value == 0 ==> And(a, k) == And(k, a) == Zero(a.width)
    ensures k.value == Ones(k.width) ==> And(a, k) == And(k, a) == a
  {
    var l, r, z := And(a, k), And(k, a), Zero(a.width);
    ZeroBits(a.width);
    OnesBits(a.width);
    forall i | 0 <= i < a.width
      ensures k.value == 0 ==> l.Bits()[i] == r.Bits()[i] == z.Bits()[i]
      ensures k.value == Ones(k.width) ==> l.Bits()[i] == r.Bits()[i] == a.Bits()[i]
    {
      BitwisePerBit(a, k, i);
      BitwisePerBit(k, a, i);
    }
    if k.value == 0 {
      ValueExtensional(l, z);
      ValueExtensional(r, z);
    } else if k.value == Ones(k.width) {
      ValueExtensional(l, a);
      ValueExtensional(r, a);
    }
  }

  lemma OrZeroOnes(a: IntValue, k: IntValue)
    requires Operands(a, k)
    ensures k.value == 0 ==> Or(a, k) == Or(k, a) == a
    ensures k.value == Ones(k.width) ==> Or(a, k) == Or(k, a) == AllOnes(a.width)
  {
    var l, r := Or(a, k), Or(k, a);
    ZeroBits(a.width);
    OnesBits(a.width);
    forall i | 0 <= i < a.width
      ensures k.value == 0 ==> l.Bits()[i] == r.Bits()[i] == a.Bits()[i]
      ensures k.value == Ones(k.width) ==> l.Bits()[i] == r.Bits()[i] == k.Bits()[i]
    {
      BitwisePerBit(a, k, i);
      BitwisePerBit(k, a, i);
    }
    if k.value == 0 {
      ValueExtensional(l, a);
      ValueExtensional(r, a);
    } else if k.value == Ones(k.width) {
      ValueExtensional(l, k);
      ValueExtensional(r, k);
    }
  }

  lemma XorZeroOnes(a: IntValue, k: IntValue)
    requires Operands(a, k)
    ensures k.value == 0 ==> Xor(a, k) == Xor(k, a) == a
    ensures k.value == Ones(k.width) ==> Xor(a, k) == Xor(k, a) == Not(a)
  {
    var l, r := Xor(a, k), Xor(k, a);
    ZeroBits(a.width);
    OnesBits(a.width);
    forall i | 0 <= i < a.width
      ensures k.value == 0 ==> l.Bits()[i] == r.Bits()[i] == a.Bits()[i]
      ensures k.value == Ones(k.width) ==> l.Bits()[i] == r.Bits()[i] == Not(a).Bits()[i]
    {
      BitwisePerBit(a, k, i);
      BitwisePerBit(k, a, i);
    }
    if k.value == 0 {
      ValueExtensional(l, a);
      ValueExtensional(r, a);
    } else if k.value == Ones(k.width) {
      ValueExtensional(l, Not(a));
      ValueExtensional(r, Not(a));
    }
  }

  lemma AddZero(a: IntValue, k: IntValue)
    requires Operands(a, k) && k.value == 0
    ensures Add(a, k) == Add(k, a) == Subtract(a, k) == a
  {
    SmallMod(a.value, Pow2(a.width));
    SignedNonzero(k);
    SignedRoundTrip(a);
  }

  lemma MulZeroOne(a: IntValue, k: IntValue)
    requires Operands(a, k)
    ensures k.value == 0 ==> Umul(a, k) == Umul(k, a) == Smul(a, k) == Smul(k, a) == Zero(a.width)
    ensures k.value == 1 ==> Umul(a, k) == Umul(k, a) == Smul(a, k) == Smul(k, a) == a
  {
    SmallMod(a.value, Pow2(a.width));
    SmallMod(0, Pow2(a.width));
    SmulIsUmul(a, k);
    SmulIsUmul(k, a);
    assert a.value * k.value == k.value * a.value;
    if k.value == 0 {
      assert a.value * k.value == 0;
    } else if k.value == 1 {
      assert a.value * k.value == a.value;
    }
  }

  /** The signed reading of one is -1 at width 1. */
  lemma DivOne(a: IntValue, k: IntValue)
    requires Operands(a, k) && k.value == 1
    ensures Udiv(a, k) == Sdiv(a, k) == a
    ensures Umod(a, k) == Smod(a, k) == Srem(a, k) == Zero(a.width)
  {
    UdivOne(a, k);
    SignedRange(a);
    SignedRange(k);
    SignedNonzero(k);
    var y := ToSigned(k);
    assert y == if a.width == 1 then -1 else 1;
    SmallMod(0, Pow2(a.width));
    DivUnique(Magnitude(ToSigned(a)), 1, Magnitude(ToSigned(a)), 0);
    assert TruncRem(ToSigned(a), y) == 0 && ModOf(ToSigned(a), y) == 0;
    SignedRoundTrip(a);
    if a.width == 1 {
      assert Pow2(0) == 1 && Pow2(1) == 2;
      assert TruncDiv(ToSigned(a), y) == -ToSigned(a) == a.value;
      SmallMod(a.value, 2);
    } else {
      assert TruncDiv(ToSigned(a), y) == ToSigned(a);
    }
  }

  lemma UdivOne(a: IntValue, k: IntValue)
    requires Operands(a, k) && k.value == 1
    ensures Udiv(a, k) == a && Umod(a, k) == Zero(a.width)
  {
    DivUnique(a.value, 1, a.value, 0);
    SmallMod(a.value, Pow2(a.width));
    SmallMod(0, Pow2(a.width));
  }

  /** Zero minus a value is that value only for 0 and for the least signed number. */
  lemma ZeroMinus(k: IntValue, a: IntValue)
    requires Operands(k, a) && k.value == 0
    ensures Subtract(k, a) == a <==> a.value == 0 || a.value == Pow2(a.width - 1)
  {
    SubIsAddNeg(k, a);
    var m := Pow2(a.width);
    if a.value == 0 {
      DivUnique(m, m, 1, 0);
      SmallMod(0, m);
    } else {
      SmallMod(m - a.value, m);
    }
  }

  // ---------------------------------------------------------------- correctness

  lemma BitwiseRight(op: Opcode, arg: Operand, kon: IntValue, env: nat -> IntValue)
    requires Operands(Eval(arg, env), kon) && (op.AndOp? || op.OrOp? || op.XorOp?)
    ensures Agrees(op, arg, Const(kon), FoldSymmetric(op, kon.width, kon, arg), env)
  {
    var a := Eval(arg, env);
    match op
    case AndOp => AndZeroOnes(a, kon);
    case OrOp => OrZeroOnes(a, kon);
    case XorOp => XorZeroOnes(a, kon);
  }

  lemma ExecuteAdd(a: IntValue, b: IntValue)
    requires Operands(a, b)
    ensures Execute(AddOp, a, b) == Some(Add(a, b))
  {
  }

  lemma ExecuteSub(a: IntValue, b: IntValue)
    requires Operands(a, b)
    ensures Execute(SubOp, a, b) == Some(Subtract(a, b))
  {
  }

  lemma ExecuteMul(a: IntValue, b: IntValue)
    requires Operands(a, b)
    ensures Execute(UmulOp, a, b) == Some(Umul(a, b)) && Execute(SmulOp, a, b) == Some(Smul(a, b))
  {
  }

  lemma AdditiveRules(a: IntValue, k: IntValue)
    requires Operands(a, k) && k.value == 0
    ensures Execute(AddOp, a, k) == Execute(AddOp, k, a) == Execute(SubOp, a, k) == Some(a)
  {
    ExecuteAdd(a, k);
    ExecuteAdd(k, a);
    ExecuteSub(a, k);
    AddZero(a, k);
  }

  lemma MultiplicativeRules(a: IntValue, k: IntValue)
    requires Operands(a, k) && k.value <= 1
    ensures var r := if k.value == 0 then Zero(a.width) else a;
      Execute(SmulOp, a, k) == Execute(SmulOp, k, a) == Execute(UmulOp, a, k) == Execute(UmulOp, k, a) == Some(r)
  {
    ExecuteMul(a, k);
    ExecuteMul(k, a);
    MulZeroOne(a, k);
  }

  lemma SymmetricRight(op: Opcode, arg: Operand, kon: IntValue, env: nat -> IntValue)
    requires Operands(Eval(arg, env), kon)
    ensures Agrees(op, arg, Const(kon), FoldSymmetric(op, kon.width, kon, arg), env)
  {
    if op.AndOp? || op.OrOp? || op.XorOp? {
      BitwiseRight(op, arg, kon, env);
    } else if (op.AddOp? || op.SubOp?) && kon.value == 0 {
      AdditiveRules(Eval(arg, env), kon);
      assert op == AddOp || op == SubOp;
    } else if (op.SmulOp? || op.UmulOp?) && kon.value <= 1 {
      MultiplicativeRules(Eval(arg, env), kon);
      assert op == SmulOp || op == UmulOp;
    }
  }

  lemma SymmetricLeft(op: Opcode, kon: IntValue, arg: Operand, env: nat -> IntValue)
    requires Operands(kon, Eval(arg, env)) && !(op.SubOp? && kon.value == 0)
    ensures Agrees(op, Const(kon), arg, FoldSymmetric(op, kon.width, kon, arg), env)
  {
    var a := Eval(arg, env);
    match op
    case AndOp => AndZeroOnes(a, kon);
    case OrOp => OrZeroOnes(a, kon);
    case XorOp => XorZeroOnes(a, kon);
    case AddOp => if kon.value == 0 { AddZero(a, kon); }
    case SmulOp => MulZeroOne(a, kon);
    case UmulOp => MulZeroOne(a, kon);
    case _ =>
  }

  lemma AsymmetricRight(op: Opcode, arg: Operand, kon: IntValue, env: nat -> IntValue)
    requires Operands(Eval(arg, env), kon)
    ensures Agrees(op, arg, Const(kon), FoldAsymmetric(op, kon.width, arg, kon), env)
  {
    var out := FoldAsymmetric(op, kon.width, arg, kon);
    if !out.Unchanged? {
      DivOne(Eval(arg, env), kon);
      match op
      case SdivOp => assert Agrees(op, arg, Const(kon), out, env);
      case UdivOp => assert Agrees(op, arg, Const(kon), out, env);
      case SmodOp => assert Agrees(op, arg, Const(kon), out, env);
      case SremOp => assert Agrees(op, arg, Const(kon), out, env);
      case UmodOp => assert Agrees(op, arg, Const(kon), out, env);
      case UremOp => assert Agrees(op, arg, Const(kon), out, env);
    }
  }

  /** A constant zero from which a variable is subtracted. */
  predicate SubtractsFromZero(op: Opcode, lhs: Operand, rhs: Operand) {
    op.SubOp? && lhs.Const? && lhs.num.value == 0 && rhs.Variable?
  }

  /** The result width that the folder is given. */
  predicate WidthOk(op: Opcode, width: nat, argWidth: nat) {
    width == if IsCompare(op) then 1 else argWidth
  }

  /** Folding agrees with the instruction for these values; a variable subtracted from
      zero is folded to itself, which is right for two values only. */
  lemma FoldBinaryValue(op: Opcode, width: nat, argWidth: nat, lhs: Operand, rhs: Operand, env: nat -> IntValue)
    requires argWidth >= 1 && EnvOk(env, argWidth) && ArgOk(lhs, argWidth) && ArgOk(rhs, argWidth)
      && WidthOk(op, width, argWidth)
    ensures Operands(Eval(lhs, env), Eval(rhs, env))
    ensures Agrees(op, lhs, rhs, FoldBinary(op, width, lhs, rhs), env) <==>
      !(SubtractsFromZero(op, lhs, rhs) && Eval(rhs, env).value != 0 && Eval(rhs, env).value != Pow2(argWidth - 1))
  {
    assert Operands(Eval(lhs, env), Eval(rhs, env));
    if SubtractsFromZero(op, lhs, rhs) {
      ZeroMinus(lhs.num, Eval(rhs, env));
    } else if lhs.Const? && rhs.Variable? {
      SymmetricLeft(op, lhs.num, rhs, env);
    } else if lhs.Variable? && rhs.Const? {
      SymmetricRight(op, lhs, rhs.num, env);
      AsymmetricRight(op, lhs, rhs.num, env);
    }
  }

  /** Folding is right for all values of the variables. */
  ghost predicate AlwaysAgrees(op: Opcode, argWidth: nat, lhs: Operand, rhs: Operand, out: Outcome)
    requires argWidth >= 1 && ArgOk(lhs, argWidth) && ArgOk(rhs, argWidth)
  {
    forall env: nat -> IntValue :: EnvOk(env, argWidth) ==>
      Operands(Eval(lhs, env), Eval(rhs, env)) && Agrees(op, lhs, rhs, out, env)
  }

  lemma ZeroMinusVariableFails(width: nat, lhs: Operand, rhs: Operand)
    requires width >= 2 && ArgOk(lhs, width) && SubtractsFromZero(SubOp, lhs, rhs)
    ensures !AlwaysAgrees(SubOp, width, lhs, rhs, FoldBinary(SubOp, width, lhs, rhs))
  {
    var v := if width == 2 then 3 else 1;
    assert Pow2(width) == 4 * Pow2(width - 2) && Pow2(width - 1) == 2 * Pow2(width - 2);
    var env := (n: nat) => IntValue(width, v);
    assert EnvOk(env, width);
    FoldBinaryValue(SubOp, width, width, lhs, rhs, env);
    assert !Agrees(SubOp, lhs, rhs, FoldBinary(SubOp, width, lhs, rhs), env);
  }

  /** Folding is right for every value of every variable, with one exception: a variable
      subtracted from a constant zero, unless it is one bit wide. */
  lemma FoldBinaryCorrect(op: Opcode, width: nat, argWidth: nat, lhs: Operand, rhs: Operand)
    requires argWidth >= 1 && ArgOk(lhs, argWidth) && ArgOk(rhs, argWidth) && WidthOk(op, width, argWidth)
    ensures lhs.Const? && rhs.Const? ==> Operands(lhs.num, rhs.num)
    ensures AlwaysAgrees(op, argWidth, lhs, rhs, FoldBinary(op, width, lhs, rhs)) <==>
      !(SubtractsFromZero(op, lhs, rhs) && argWidth >= 2)
  {
    if SubtractsFromZero(op, lhs, rhs) && argWidth >= 2 {
      ZeroMinusVariableFails(width, lhs, rhs);
    } else {
      var out := FoldBinary(op, width, lhs, rhs);
      forall env: nat -> IntValue | EnvOk(env, argWidth)
        ensures Operands(Eval(lhs, env), Eval(rhs, env)) && Agrees(op, lhs, rhs, out, env)
      {
        FoldBinaryValue(op, width, argWidth, lhs, rhs, env);
        if argWidth == 1 {
          OneBit(rhs, env);
        }
      }
    }
  }

  lemma OneBit(arg: Operand, env: nat -> IntValue)
    requires EnvOk(env, 1) && ArgOk(arg, 1)
    ensures Eval(arg, env).value == 0 || Eval(arg, env).value == Pow2(0)
  {
    assert Pow2(1) == 2 * Pow2(0);
  }

  /** The folder divides by zero exactly when the instruction would. */
  lemma PanicsOnlyOnZero(op: Opcode, width: nat, lhs: Operand, rhs: Operand)
    requires lhs.Const? && rhs.Const? ==> Operands(lhs.num, rhs.num)
    ensures FoldBinary(op, width, lhs, rhs).Panics? <==>
      lhs.Const? && rhs.Const? && IsDivision(op) && rhs.num.value == 0
  {
  }
}
