/** Constant folding of slices and shifts: fold_ins_slice, fold_ext_slice and
    fold_shift in src/pass/cf.rs, on integers and arrays. */
module SliceFolding {
  import opened IntValues
  import opened Options
  import Pointers
  import opened Values

  /** A value of the unit, as far as the folder looks at it. */
  datatype Expr =
    | ConstInt(num: IntValue)
    | ConstZero(ty: Type)
    | Other(id: nat, ty: Type)
    | ExtSlice(target: Expr, offset: nat, length: nat)
    | InsSlice(target: Expr, value: Expr, offset: nat, length: nat)

  /** A zero of integer type is an integer constant. */
  function MakeZero(ty: Type): Expr {
    if ty.IntType? then ConstInt(IntValue(ty.width, 0)) else ConstZero(ty)
  }

  function TypeOf(e: Expr): Type {
    match e
    case ConstInt(n) => IntType(n.width)
    case ConstZero(ty) => ty
    case Other(_, ty) => ty
    case ExtSlice(t, _, len) => Fragment(TypeOf(t), len)
    case InsSlice(t, _, _, _) => TypeOf(t)
  }

  predicate WellTyped(e: Expr) {
    match e
    case ConstInt(n) => n.Valid()
    case ConstZero(_) => true
    case Other(_, _) => true
    case ExtSlice(t, off, len) => WellTyped(t) && Sliceable(TypeOf(t)) && off + len <= WidthOf(TypeOf(t))
    case InsSlice(t, v, off, len) =>
      WellTyped(t) && WellTyped(v) && Sliceable(TypeOf(t)) && off + len <= WidthOf(TypeOf(t))
        && TypeOf(v) == Fragment(TypeOf(t), len)
  }

  lemma SliceStep(ty: Type, off: nat, len: nat)
    requires Sliceable(ty) && off + len <= WidthOf(ty)
    ensures StepType(ty, Slice(off, len)) == Some(Fragment(ty, len))
  {
  }

  // ---------------------------------------------------------------- meaning

  ghost predicate EnvOk(env: (nat, Type) -> Value) {
    forall id: nat, ty: Type {:trigger env(id, ty)} :: HasType(env(id, ty), ty)
  }

  ghost function Eval(e: Expr, env: (nat, Type) -> Value): (v: Value)
    requires EnvOk(env) && WellTyped(e)
    ensures HasType(v, TypeOf(e))
  {
    match e
    case ConstInt(n) => Int(n)
    case ConstZero(ty) => ZeroValue(ty)
    case Other(id, ty) => env(id, ty)
    case ExtSlice(t, off, len) =>
      SliceStep(TypeOf(t), off, len);
      Sub(Eval(t, env), TypeOf(t), Slice(off, len))
    case InsSlice(t, x, off, len) =>
      SliceStep(TypeOf(t), off, len);
      Put(Eval(t, env), TypeOf(t), Slice(off, len), Eval(x, env))
  }

  /** The replacement has the same type and the same value, whatever the variables are. */
  ghost predicate Same(e: Expr, r: Expr) {
    && WellTyped(e)
    && WellTyped(r)
    && TypeOf(r) == TypeOf(e)
    && forall env {:trigger Eval(r, env)} :: EnvOk(env) ==> Eval(r, env) == Eval(e, env)
  }

  // ---------------------------------------------------------------- folding

  function FoldExt(e: Expr): Option<Expr>
    requires e.ExtSlice? && WellTyped(e)
  {
    if e.length == 0 then Some(MakeZero(TypeOf(e)))
    else if e.length == WidthOf(TypeOf(e.target)) then Some(e.target)
    else if e.target.ConstInt? then
      assert WellTyped(e.target) && TypeOf(e.target) == IntType(e.target.num.width);
      Some(ConstInt(e.target.num.ExtractSlice(e.offset, e.length)))
    else None
  }

  function FoldIns(e: Expr): Option<Expr>
    requires e.InsSlice? && WellTyped(e)
  {
    if e.length == 0 then Some(e.target)
    else if e.length == WidthOf(TypeOf(e.target)) then Some(e.value)
    else if e.target.ConstInt? && e.value.ConstInt? then
      assert WellTyped(e.target) && TypeOf(e.target) == IntType(e.target.num.width);
      assert WellTyped(e.value) && TypeOf(e.value) == IntType(e.value.num.width);
      Some(ConstInt(e.target.num.InsertSlice(e.offset, e.length, e.value.num)))
    else None
  }

  function OrElse(r: Option<Expr>, e: Expr): Expr {
    match r
    case Some(f) => f
    case None => e
  }

  /** Run the folder on the instruction behind a value, and use the result in its place. */
  function Fold(e: Expr): Expr {
    if !WellTyped(e) then e else
    match e
    case ExtSlice(_, _, _) => OrElse(FoldExt(e), e)
    case InsSlice(_, _, _, _) => OrElse(FoldIns(e), e)
    case _ => e
  }

  // ---------------------------------------------------------------- slices fold to their value

  lemma PartsLength(v: Value, ty: Type)
    requires HasType(v, ty) && Sliceable(ty)
    ensures |Parts(v)| == WidthOf(ty)
  {
  }

  lemma AlikeByType(a: Value, b: Value, ty: Type)
    requires Sliceable(ty) && HasType(a, ty) && HasType(b, ty) && Parts(a) == Parts(b)
    ensures a == b
  {
    PartsExtensional(a, b);
  }

  lemma {:induction false} FoldExtValue(e: Expr, r: Expr, env: (nat, Type) -> Value)
    requires e.ExtSlice? && WellTyped(e) && FoldExt(e) == Some(r) && EnvOk(env)
    ensures WellTyped(r) && TypeOf(r) == TypeOf(e) && Eval(r, env) == Eval(e, env)
  {
    var v, ty := Eval(e.target, env), TypeOf(e.target);
    SliceStep(ty, e.offset, e.length);
    SubChunk(v, ty, Slice(e.offset, e.length));
    PartsLength(v, ty);
    assert Eval(e, env) == Sub(v, ty, Slice(e.offset, e.length));
    if e.length == 0 || e.length == WidthOf(ty) {
      assert HasType(Eval(r, env), TypeOf(e));
      PartsLength(Eval(r, env), TypeOf(e));
      AlikeByType(Eval(r, env), Eval(e, env), TypeOf(e));
    }
  }

  lemma {:induction false} EvalIns(e: Expr, env: (nat, Type) -> Value)
    requires e.InsSlice? && WellTyped(e) && EnvOk(env)
    ensures |Parts(Eval(e.target, env))| == WidthOf(TypeOf(e.target)) && |Parts(Eval(e.value, env))| == e.length
    ensures Parts(Eval(e, env)) == Splice(Parts(Eval(e.target, env)), e.offset, Parts(Eval(e.value, env)))
  {
    var v, x, ty := Eval(e.target, env), Eval(e.value, env), TypeOf(e.target);
    SliceStep(ty, e.offset, e.length);
    PutParts(v, ty, Slice(e.offset, e.length), x);
    PartsLength(v, ty);
    PartsLength(x, Fragment(ty, e.length));
  }

  lemma SpliceNone<T>(v: seq<T>, off: nat, x: seq<T>)
    requires off <= |v| && |x| == 0
    ensures Splice(v, off, x) == v
  {
  }

  lemma SpliceAll<T>(v: seq<T>, off: nat, x: seq<T>)
    requires off + |x| <= |v| && |x| == |v|
    ensures Splice(v, off, x) == x
  {
  }

  lemma {:induction false} TrivialIns(e: Expr, env: (nat, Type) -> Value)
    requires e.InsSlice? && WellTyped(e) && EnvOk(env)
    ensures WellTyped(e.target) && WellTyped(e.value) && Sliceable(TypeOf(e))
    ensures e.length == 0 ==> Eval(e.target, env) == Eval(e, env)
    ensures e.length == WidthOf(TypeOf(e)) ==> TypeOf(e.value) == TypeOf(e) && Eval(e.value, env) == Eval(e, env)
  {
    EvalIns(e, env);
    var v, x := Parts(Eval(e.target, env)), Parts(Eval(e.value, env));
    if e.length == 0 {
      SpliceNone(v, e.offset, x);
      AlikeByType(Eval(e.target, env), Eval(e, env), TypeOf(e));
    }
    if e.length == WidthOf(TypeOf(e)) {
      SpliceAll(v, e.offset, x);
      AlikeByType(Eval(e.value, env), Eval(e, env), TypeOf(e));
    }
  }

  lemma {:induction false} FoldInsValue(e: Expr, r: Expr, env: (nat, Type) -> Value)
    requires e.InsSlice? && WellTyped(e) && FoldIns(e) == Some(r) && EnvOk(env)
    ensures WellTyped(r) && TypeOf(r) == TypeOf(e) && Eval(r, env) == Eval(e, env)
  {
    TrivialIns(e, env);
    if 0 < e.length != WidthOf(TypeOf(e.target)) {
      InsConstParts(e, env);
    }
  }

  lemma {:induction false} InsConstParts(e: Expr, env: (nat, Type) -> Value)
    requires e.InsSlice? && WellTyped(e) && e.target.ConstInt? && e.value.ConstInt? && EnvOk(env)
    requires 0 < e.length != WidthOf(TypeOf(e.target))
    ensures FoldIns(e).Some? && WellTyped(FoldIns(e).value)
    ensures TypeOf(FoldIns(e).value) == TypeOf(e)
    ensures Eval(FoldIns(e).value, env) == Eval(e, env)
  {
    var t, x := e.target.num, e.value.num;
    assert Eval(e.target, env) == Int(t) && Eval(e.value, env) == Int(x);
    SliceStep(IntType(t.width), e.offset, e.length);
    assert Eval(e, env) == Put(Int(t), IntType(t.width), Slice(e.offset, e.length), Int(x));
  }

  lemma {:induction false} FoldedSame(e: Expr)
    requires WellTyped(e)
    ensures Same(e, Fold(e))
  {
    var r := Fold(e);
    forall env | EnvOk(env)
      ensures WellTyped(r) && TypeOf(r) == TypeOf(e) && Eval(r, env) == Eval(e, env)
    {
      if e.ExtSlice? && FoldExt(e).Some? {
        FoldExtValue(e, r, env);
      } else if e.InsSlice? && FoldIns(e).Some? {
        FoldInsValue(e, r, env);
      }
    }
    var env := (id: nat, ty: Type) => ZeroValue(ty);
    assert EnvOk(env);
  }

  /** A way to fold that keeps types and values. */
  ghost predicate Sound(fold: Expr -> Expr) {
    forall e {:trigger Same(e, fold(e))} :: WellTyped(e) ==> Same(e, fold(e))
  }

  /** Folding slices leaves types and values as they were. */
  lemma FoldSound()
    ensures Sound(Fold)
  {
    forall e: Expr | WellTyped(e)
      ensures Same(e, Fold(e))
    {
      FoldedSame(e);
    }
  }

  // ---------------------------------------------------------------- shifts

  /** Two expressions as the base and hidden operand of a shift. */
  predicate ShiftOk(base: Expr, hidden: Expr) {
    && WellTyped(base)
    && WellTyped(hidden)
    && Sliceable(TypeOf(base))
    && TypeOf(hidden) == Fragment(TypeOf(base), WidthOf(TypeOf(hidden)))
  }

  /** Insert one piece and then another into a zero value; each instruction is folded in turn. */
  function Assemble(fold: Expr -> Expr, ty: Type, first: Expr, firstAt: nat, firstLen: nat, second: Expr, secondAt: nat,
      secondLen: nat): Expr
  {
    fold(InsSlice(fold(InsSlice(MakeZero(ty), first, firstAt, firstLen)), second, secondAt, secondLen))
  }

  /** A shift by a constant; `fold` folds the new instructions. */
  function FoldShift(fold: Expr -> Expr, left: bool, base: Expr, hidden: Expr, amount: nat): Expr
    requires ShiftOk(base, hidden)
  {
    var ty, bw, hw := TypeOf(base), WidthOf(TypeOf(base)), WidthOf(TypeOf(hidden));
    var a := Pointers.Min(hw, amount);
    if amount == 0 then base
    else if a >= bw then fold(ExtSlice(hidden, if left then hw - a else a - bw, bw))
    else if left then
      Assemble(fold, ty, fold(ExtSlice(base, 0, bw - a)), a, bw - a, fold(ExtSlice(hidden, hw - a, a)), 0, a)
    else
      Assemble(fold, ty, fold(ExtSlice(hidden, 0, a)), bw - a, a, fold(ExtSlice(base, a, bw - a)), 0, bw - a)
  }

  // ---------------------------------------------------------------- shifts fold to the documented window

  lemma {:induction false} AssembleParts(fold: Expr -> Expr, ty: Type, first: Expr, second: Expr, at: nat,
      firstLen: nat, env: (nat, Type) -> Value)
    requires Sound(fold) && WellTyped(first) && WellTyped(second) && Sliceable(ty) && EnvOk(env)
    requires TypeOf(first) == Fragment(ty, firstLen) && TypeOf(second) == Fragment(ty, at)
      && at + firstLen == WidthOf(ty)
    ensures var r := Assemble(fold, ty, first, at, firstLen, second, 0, at);
      && WellTyped(r) && TypeOf(r) == ty
      && Parts(Eval(r, env)) == Parts(Eval(second, env)) + Parts(Eval(first, env))
  {
    var zero := MakeZero(ty);
    var z1 := InsSlice(zero, first, at, firstLen);
    assert WellTyped(zero) && TypeOf(zero) == ty;
    assert Same(z1, fold(z1));
    var z2 := InsSlice(fold(z1), second, 0, at);
    assert Same(z2, fold(z2));
    EvalIns(z1, env);
    EvalIns(z2, env);
    SpliceTwice(Parts(Eval(zero, env)), Parts(Eval(first, env)), Parts(Eval(second, env)), at);
  }

  lemma SpliceTwice<T>(z: seq<T>, f: seq<T>, s: seq<T>, at: nat)
    requires |s| == at && at + |f| == |z|
    ensures Splice(Splice(z, at, f), 0, s) == s + f
  {
  }

  lemma {:induction false} EvalExt(e: Expr, off: nat, len: nat, env: (nat, Type) -> Value)
    requires WellTyped(e) && Sliceable(TypeOf(e)) && off + len <= WidthOf(TypeOf(e)) && EnvOk(env)
    ensures |Parts(Eval(e, env))| == WidthOf(TypeOf(e))
    ensures Parts(Eval(ExtSlice(e, off, len), env)) == Parts(Eval(e, env))[off..off + len]
  {
    SliceStep(TypeOf(e), off, len);
    SubChunk(Eval(e, env), TypeOf(e), Slice(off, len));
    PartsLength(Eval(e, env), TypeOf(e));
  }

  lemma {:induction false} ExtParts(fold: Expr -> Expr, e: Expr, off: nat, len: nat, env: (nat, Type) -> Value)
    requires Sound(fold) && WellTyped(e) && Sliceable(TypeOf(e)) && off + len <= WidthOf(TypeOf(e)) && EnvOk(env)
    ensures var r := fold(ExtSlice(e, off, len));
      && WellTyped(r) && TypeOf(r) == Fragment(TypeOf(e), len)
      && |Parts(Eval(e, env))| == WidthOf(TypeOf(e))
      && Parts(Eval(r, env)) == Parts(Eval(e, env))[off..off + len]
  {
    assert Same(ExtSlice(e, off, len), fold(ExtSlice(e, off, len)));
    EvalExt(e, off, len, env);
  }

  lemma LeftMixed<T>(b: seq<T>, h: seq<T>, a: nat, p: seq<T>, q: seq<T>)
    requires a <= |h| && a < |b| && p == h[|h| - a..|h| - a + a] && q == b[0..0 + (|b| - a)]
    ensures p + q == Pointers.ShiftWindow(true, b, h, a)
  {
  }

  lemma RightMixed<T>(b: seq<T>, h: seq<T>, a: nat, p: seq<T>, q: seq<T>)
    requires a <= |h| && a < |b| && p == b[a..a + (|b| - a)] && q == h[0..0 + a]
    ensures p + q == Pointers.ShiftWindow(false, b, h, a)
  {
  }

  lemma AllHidden<T>(left: bool, b: seq<T>, h: seq<T>, a: nat, off: nat, p: seq<T>)
    requires |b| <= a <= |h| && off == (if left then |h| - a else a - |b|) && p == h[off..off + |b|]
    ensures p == Pointers.ShiftWindow(left, b, h, a)
  {
  }

  /** The expression has this type and these parts. */
  ghost predicate HasParts(e: Expr, ty: Type, env: (nat, Type) -> Value, p: seq<Part>)
    requires EnvOk(env)
  {
    WellTyped(e) && TypeOf(e) == ty && Parts(Eval(e, env)) == p
  }

  lemma {:induction false} MixedLeftParts(fold: Expr -> Expr, base: Expr, hidden: Expr, a: nat, rest: nat, at: nat,
      env: (nat, Type) -> Value, b: seq<Part>, h: seq<Part>)
    requires Sound(fold) && ShiftOk(base, hidden) && EnvOk(env) && a < WidthOf(TypeOf(base))
      && a <= WidthOf(TypeOf(hidden))
    requires rest == WidthOf(TypeOf(base)) - a && at == WidthOf(TypeOf(hidden)) - a
    requires b == Parts(Eval(base, env)) && h == Parts(Eval(hidden, env))
    ensures HasParts(Assemble(fold, TypeOf(base), fold(ExtSlice(base, 0, rest)), a, rest, fold(ExtSlice(hidden, at, a)),
      0, a),
                     TypeOf(base), env, Pointers.ShiftWindow(true, b, h, Pointers.Min(|h|, a)))
  {
    ExtParts(fold, base, 0, rest, env);
    ExtParts(fold, hidden, at, a, env);
    var be, he := fold(ExtSlice(base, 0, rest)), fold(ExtSlice(hidden, at, a));
    AssembleParts(fold, TypeOf(base), be, he, a, rest, env);
    LeftMixed(b, h, a, Parts(Eval(he, env)), Parts(Eval(be, env)));
  }

  lemma {:induction false} MixedRightParts(fold: Expr -> Expr, base: Expr, hidden: Expr, a: nat, rest: nat,
      env: (nat, Type) -> Value, b: seq<Part>, h: seq<Part>)
    requires Sound(fold) && ShiftOk(base, hidden) && EnvOk(env) && a < WidthOf(TypeOf(base))
      && a <= WidthOf(TypeOf(hidden))
    requires rest == WidthOf(TypeOf(base)) - a
    requires b == Parts(Eval(base, env)) && h == Parts(Eval(hidden, env))
    ensures HasParts(Assemble(fold, TypeOf(base), fold(ExtSlice(hidden, 0, a)), rest, a, fold(ExtSlice(base, a, rest)),
      0, rest),
                     TypeOf(base), env, Pointers.ShiftWindow(false, b, h, Pointers.Min(|h|, a)))
  {
    ExtParts(fold, hidden, 0, a, env);
    ExtParts(fold, base, a, rest, env);
    var be, he := fold(ExtSlice(base, a, rest)), fold(ExtSlice(hidden, 0, a));
    AssembleParts(fold, TypeOf(base), he, be, rest, a, env);
    RightMixed(b, h, a, Parts(Eval(be, env)), Parts(Eval(he, env)));
  }

  lemma {:induction false} HiddenParts(fold: Expr -> Expr, left: bool, base: Expr, hidden: Expr, a: nat, off: nat,
      env: (nat, Type) -> Value, b: seq<Part>, h: seq<Part>)
    requires Sound(fold) && ShiftOk(base, hidden) && EnvOk(env) && WidthOf(TypeOf(base)) <= a <= WidthOf(TypeOf(hidden))
    requires off == if left then WidthOf(TypeOf(hidden)) - a else a - WidthOf(TypeOf(base))
    requires b == Parts(Eval(base, env)) && h == Parts(Eval(hidden, env))
    ensures HasParts(fold(ExtSlice(hidden, off, WidthOf(TypeOf(base)))), TypeOf(base), env,
      Pointers.ShiftWindow(left, b, h, Pointers.Min(|h|, a)))
  {
    PartsLength(Eval(base, env), TypeOf(base));
    ExtParts(fold, hidden, off, WidthOf(TypeOf(base)), env);
    AllHidden(left, b, h, a, off, Parts(Eval(fold(ExtSlice(hidden, off, WidthOf(TypeOf(base)))), env)));
  }

  /** For every amount, the folded shift yields the documented window onto the
      concatenated operands, the amount being limited by the hidden one. */
  lemma {:induction false} FoldShiftIsWindow(fold: Expr -> Expr, left: bool, base: Expr, hidden: Expr, amount: nat,
      env: (nat, Type) -> Value)
    requires Sound(fold) && ShiftOk(base, hidden) && EnvOk(env)
    ensures var b, h := Parts(Eval(base, env)), Parts(Eval(hidden, env));
      HasParts(FoldShift(fold, left, base, hidden, amount), TypeOf(base), env,
        Pointers.ShiftWindow(left, b, h, Pointers.Min(|h|, amount)))
  {
    var b, h := Parts(Eval(base, env)), Parts(Eval(hidden, env));
    PartsLength(Eval(base, env), TypeOf(base));
    PartsLength(Eval(hidden, env), TypeOf(hidden));
    var bw, hw, a := |b|, |h|, Pointers.Min(|h|, amount);
    if amount == 0 {
      NoShift(left, b, h);
    } else if a >= bw {
      HiddenParts(fold, left, base, hidden, a, if left then hw - a else a - bw, env, b, h);
    } else if left {
      MixedLeftParts(fold, base, hidden, a, bw - a, hw - a, env, b, h);
    } else {
      MixedRightParts(fold, base, hidden, a, bw - a, env, b, h);
    }
  }

  lemma NoShift<T>(left: bool, b: seq<T>, h: seq<T>)
    ensures Pointers.ShiftWindow(left, b, h, 0) == b
  {
  }

  /** The folder agrees with the shift of the simulator if and only if that one keeps the width of its base. */
  lemma {:induction false} FolderMatchesSimulator(
      ok: Pointers.ValueSlice -> bool, read: Pointers.ValueSlice -> seq<Part>, basePtr: Pointers.Pointer,
        hiddenPtr: Pointers.Pointer,
      left: bool, base: Expr, hidden: Expr, amount: nat, env: (nat, Type) -> Value)
    requires Pointers.Lawful(ok, read) && Pointers.AllOk(ok, basePtr) && Pointers.AllOk(ok, hiddenPtr)
    requires ShiftOk(base, hidden) && EnvOk(env)
    requires Pointers.Contents(read, basePtr) == Parts(Eval(base, env))
      && Pointers.Contents(read, hiddenPtr) == Parts(Eval(hidden, env))
    ensures WellTyped(FoldShift(Fold, left, base, hidden, amount))
    ensures Pointers.Contents(read, Pointers.ExecShift(left, basePtr, hiddenPtr, amount)) ==
      Parts(Eval(FoldShift(Fold, left, base, hidden, amount), env))
      <==> Pointers.Min(Pointers.Width(hiddenPtr), amount) <= Pointers.Width(basePtr)
  {
    FoldSound();
    FoldShiftIsWindow(Fold, left, base, hidden, amount, env);
    Pointers.ShiftExactly(ok, read, left, basePtr, hiddenPtr, amount);
  }
}
