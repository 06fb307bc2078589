/** The pointer operations and the probe of the simulator (src/bin/llhd-sim/engine.rs)
    are well-behaved in the sense that the evaluation of entities relies on. */
module EntityPointers {
  import opened EntityEval
  import opened IntValues
  import opened Options
  import opened PointerAccess
  import opened PointerFields
  import opened PointerOps
  import opened Pointers
  import opened Values

  // ---------------------------------------------------------------- pointer operations

  /** `exec_insext` and `exec_shift` on signals; what they panic on yields no slices here. */
  function Point(op: PointOp, slots: seq<Slot>): Pointer {
    match op
    case ExtField(ty, field) =>
      var fieldTy := StepType(ty, Field(field));
      if |slots| == 1 && fieldTy.Some? then FieldIn(PtrOf(slots[0]), fieldTy.value, field) else []
    case ExtSlice(off, len) =>
      if |slots| == 1 then Window(PtrOf(slots[0]), 0, off, off + len) else []
    case Shift(left) =>
      if |slots| == 3 && slots[2].Const? && slots[2].value.Int? then
        ExecShift(left, PtrOf(slots[0]), PtrOf(slots[1]), slots[2].value.num.value)
      else []
  }

  lemma {:induction false} TargetsAppend(p: Pointer, q: Pointer)
    ensures Targets(p + q) == Targets(p) + Targets(q)
    decreases |p|
  {
    if p == [] {
      assert p + q == q;
    } else {
      assert (p + q)[1..] == p[1..] + q;
      TargetsAppend(p[1..], q);
    }
  }

  lemma {:induction false} CutTargets(s: ValueSlice, at: nat, lo: int, hi: int)
    ensures Targets(Cut(s, at, lo, hi)) <= {s.target}
  {
    var cut := Cut(s, at, lo, hi);
    assert cut == [] || (|cut| == 1 && cut[1..] == [] && cut[0].target == s.target && Targets(cut[1..]) == {});
  }

  /** Extracting a slice introduces no new targets. */
  lemma {:induction false} WindowTargets(ptr: Pointer, at: nat, lo: int, hi: int)
    ensures Targets(Window(ptr, at, lo, hi)) <= Targets(ptr)
    decreases |ptr|
  {
    if ptr == [] {
    } else {
      CutTargets(ptr[0], at, lo, hi);
      WindowTargets(ptr[1..], at + ptr[0].width, lo, hi);
      TargetsAppend(Cut(ptr[0], at, lo, hi), Window(ptr[1..], at + ptr[0].width, lo, hi));
    }
  }

  lemma {:induction false} FuseTargets(p: Pointer, lo: int, hi: int, q: Pointer, lo': int, hi': int)
    ensures Targets(Fuse(p, lo, hi, q, lo', hi')) <= Targets(p) + Targets(q)
  {
    WindowTargets(p, 0, lo, hi);
    WindowTargets(q, 0, lo', hi');
    TargetsAppend(Window(p, 0, lo, hi), Window(q, 0, lo', hi'));
  }

  /** A shift introduces no targets beyond those of base and hidden. */
  lemma {:induction false} ShiftTargets(left: bool, base: Pointer, hidden: Pointer, amount: nat)
    ensures Targets(ExecShift(left, base, hidden, amount)) <= Targets(base) + Targets(hidden)
  {
    var a: int, bw: int, hw: int := Min(Width(hidden), amount), Width(base), Width(hidden);
    if left {
      FuseTargets(hidden, hw - a, hw, base, 0, bw - a);
    } else {
      FuseTargets(base, a, bw, hidden, 0, a);
    }
  }

  lemma {:induction false} FieldTargets(ptr: Pointer, fieldTy: Type, field: nat)
    ensures Targets(FieldIn(ptr, fieldTy, field)) <= Targets(ptr)
    decreases |ptr|
  {
    if ptr == [] {
    } else {
      if ptr[0].width == 0 || field < ptr[0].width {
        var f := FieldSlice(ptr[0], fieldTy, field);
        assert [f][1..] == [] && Targets([f]) == {f.target} + Targets([f][1..]);
      } else {
        FieldTargets(ptr[1..], fieldTy, field - ptr[0].width);
      }
    }
  }

  lemma {:induction false} SlotOf(slots: seq<Slot>, k: nat)
    requires k < |slots|
    ensures Targets(PtrOf(slots[k])) <= AllTargets(slots)
    decreases k
  {
    if k > 0 {
      SlotOf(slots[1..], k - 1);
    } else if !slots[0].Const? {
      PtrTargets(slots[0]);
    }
  }

  /** No pointer operation introduces a target. */
  lemma {:induction false} PointTargets(op: PointOp, slots: seq<Slot>)
    ensures Targets(Point(op, slots)) <= AllTargets(slots)
  {
    match op
    case ExtField(ty, field) =>
      if |slots| == 1 && StepType(ty, Field(field)).Some? {
        FieldTargets(PtrOf(slots[0]), StepType(ty, Field(field)).value, field);
        SlotOf(slots, 0);
      }
    case ExtSlice(off, len) =>
      if |slots| == 1 {
        WindowTargets(PtrOf(slots[0]), 0, off, off + len);
        SlotOf(slots, 0);
      }
    case Shift(left) =>
      if |slots| == 3 && slots[2].Const? && slots[2].value.Int? {
        ShiftTargets(left, PtrOf(slots[0]), PtrOf(slots[1]), slots[2].value.num.value);
        SlotOf(slots, 0);
        SlotOf(slots, 1);
      }
  }

  // ---------------------------------------------------------------- probes

  /** What a selection selects; the simulator panics where it does not fit, which leaves the value as it is here. */
  function Pick(v: Value, s: Select): Value {
    match s
    case Field(i) =>
      if v.Array? && i < |v.items| then v.items[i]
      else if v.Struct? && i < |v.fields| then v.fields[i]
      else v
    case Slice(off, len) =>
      if v.Int? && v.num.Valid() && off + len <= v.num.width then Int(v.num.ExtractSlice(off, len))
      else if v.Array? && off + len <= |v.items| then Array(v.items[off..off + len])
      else v
  }

  function PickAll(v: Value, path: seq<Select>): Value
    decreases |path|
  {
    if path == [] then v else PickAll(Pick(v, path[0]), path[1..])
  }

  /** `read_pointer_slice` on signals. */
  function ReadSlice(signals: Signals, s: ValueSlice): Value {
    if s.target in signals then PickAll(signals[s.target], s.select) else Array([])
  }

  /** The integer that results from inserting one slice behind the other. */
  function ReadBits(signals: Signals, ptr: Pointer, value: IntValue, offset: nat): IntValue {
    if ptr == [] then value
    else
      var x := ReadSlice(signals, ptr[0]);
      if x.Int? && x.num.Valid() && value.Valid() && offset + x.num.width <= value.width then
        ReadBits(signals, ptr[1..], value.InsertSlice(offset, x.num.width, x.num), offset + x.num.width)
      else value
  }

  /** The elements of all slices. */
  function ReadItems(signals: Signals, ptr: Pointer): seq<Value> {
    if ptr == [] then []
    else
      var x := ReadSlice(signals, ptr[0]);
      (if x.Array? then x.items else []) + ReadItems(signals, ptr[1..])
  }

  /** `read_pointer` on signals. */
  function ReadThrough(ty: Type, signals: Signals, ptr: Pointer): Value {
    match ty
    case IntType(w) => Int(ReadBits(signals, ptr, IntValue(w, 0), 0))
    case ArrayType(_, _) => Array(ReadItems(signals, ptr))
    case _ => if ptr == [] then Array([]) else ReadSlice(signals, ptr[0])
  }

  /** Reading depends on the targets of a pointer only. */
  lemma {:induction false} ReadThroughLocal(ty: Type, a: Signals, b: Signals, ptr: Pointer)
    requires Agree(a, b, Targets(ptr))
    ensures ReadThrough(ty, a, ptr) == ReadThrough(ty, b, ptr)
  {
    match ty
    case IntType(w) => ReadBitsLocal(a, b, ptr, IntValue(w, 0), 0);
    case ArrayType(_, _) => ReadItemsLocal(a, b, ptr);
    case _ =>
      if ptr != [] {
        assert ptr[0].target in Targets(ptr);
      }
  }

  lemma {:induction false} ReadBitsLocal(a: Signals, b: Signals, ptr: Pointer, value: IntValue, offset: nat)
    requires Agree(a, b, Targets(ptr))
    ensures ReadBits(a, ptr, value, offset) == ReadBits(b, ptr, value, offset)
    decreases |ptr|
  {
    if ptr == [] {
    } else {
      assert ptr[0].target in Targets(ptr);
      var x := ReadSlice(a, ptr[0]);
      if x.Int? && x.num.Valid() && value.Valid() && offset + x.num.width <= value.width {
        ReadBitsLocal(a, b, ptr[1..], value.InsertSlice(offset, x.num.width, x.num), offset + x.num.width);
      }
    }
  }

  lemma {:induction false} ReadItemsLocal(a: Signals, b: Signals, ptr: Pointer)
    requires Agree(a, b, Targets(ptr))
    ensures ReadItems(a, ptr) == ReadItems(b, ptr)
    decreases |ptr|
  {
    if ptr == [] {
    } else {
      assert ptr[0].target in Targets(ptr);
      ReadItemsLocal(a, b, ptr[1..]);
    }
  }

  lemma {:induction false} PickAllReads(v: Value, ty: Type, path: seq<Select>)
    requires FitsPath(v, ty, path)
    ensures PickAll(v, path) == Read(v, ty, path)
    decreases |path|
  {
    if path == [] {
    } else {
      assert Pick(v, path[0]) == Sub(v, ty, path[0]);
      PickAllReads(Sub(v, ty, path[0]), StepType(ty, path[0]).value, path[1..]);
    }
  }

  lemma {:induction false} ReadSliceLoads(store: Store, types: Types, s: ValueSlice)
    requires StoreTyped(store, types) && SliceType(types, s).Some?
    ensures ReadSlice(store, s) == Load(store, types, s)
  {
    PickAllReads(store[s.target], types[s.target], s.select);
  }

  lemma {:induction false} PieceLoads(store: Store, types: Types, ptr: Pointer, width: nat)
    requires StoreTyped(store, types) && PiecesOk(types, ptr, IntType(width)) && ptr != []
    ensures ReadSlice(store, ptr[0]).Int? && ReadSlice(store, ptr[0]).num.Valid()
    ensures Reader(store, types)(ptr[0]) == BitParts(ReadSlice(store, ptr[0]).num.Bits())
  {
    ReadSliceLoads(store, types, ptr[0]);
  }

  lemma {:induction false} ReadBitsGathers(store: Store, types: Types, ptr: Pointer, value: IntValue, offset: nat,
      read: ValueSlice -> seq<Part>, whole: seq<Part>, width: nat)
    requires StoreTyped(store, types) && PiecesOk(types, ptr, IntType(width)) && read == Reader(store, types)
    requires IntSoFar(read, ptr, whole, value, offset, width)
    ensures ReadBits(store, ptr, value, offset).Valid() && ReadBits(store, ptr, value, offset).width == width
    ensures BitParts(ReadBits(store, ptr, value, offset).Bits()) == whole
    decreases |ptr|
  {
    if ptr == [] {
      IntDone(read, whole, value, offset, width);
    } else {
      PieceLoads(store, types, ptr, width);
      var x := ReadSlice(store, ptr[0]).num;
      InsertedNext(value, offset, x, read, ptr, whole, width);
      ReadBitsGathers(store, types, ptr[1..], value.InsertSlice(offset, x.width, x), offset + x.width, read, whole,
        width);
    }
  }

  lemma {:induction false} ReadItemsGathers(store: Store, types: Types, ptr: Pointer, length: nat, elem: Type)
    requires StoreTyped(store, types) && PiecesOk(types, ptr, ArrayType(length, elem))
    ensures HasType(Array(ReadItems(store, ptr)), ArrayType(Width(ptr), elem))
    ensures ItemParts(ReadItems(store, ptr)) == Contents(Reader(store, types), ptr)
    decreases |ptr|
  {
    if ptr == [] {
    } else {
      ReadSliceLoads(store, types, ptr[0]);
      var items := Load(store, types, ptr[0]).items;
      ReadItemsGathers(store, types, ptr[1..], length, elem);
      ItemsAppend(items, ReadItems(store, ptr[1..]));
    }
  }

  /** On signals and pointers that have types, a probe reads what the pointer points to. */
  lemma {:induction false} ReadThroughReads(store: Store, types: Types, ptr: Pointer, ty: Type)
    requires StoreTyped(store, types) && Typed(types, ptr, ty)
    ensures IsRead(store, types, ptr, ty, ReadThrough(ty, store, ptr))
  {
    match ty
    case IntType(w) =>
      var read := Reader(store, types);
      IntStart(read, ptr, Contents(read, ptr), IntValue(w, 0), w);
      ReadBitsGathers(store, types, ptr, IntValue(w, 0), 0, read, Contents(read, ptr), w);
    case ArrayType(n, e) => ReadItemsGathers(store, types, ptr, n, e);
    case _ => ReadSliceLoads(store, types, ptr[0]);
  }

  /** The loops of `read_pointer` compute it. */
  method Probe(store: Store, ghost types: Types, ty: Type, ptr: Pointer) returns (value: Value)
    requires StoreTyped(store, types) && Typed(types, ptr, ty)
    ensures value == ReadThrough(ty, store, ptr)
  {
    value := ReadPointer(store, types, ty, ptr);
    ReadThroughReads(store, types, ptr, ty);
    IsReadUnique(store, types, ptr, ty, value, ReadThrough(ty, store, ptr));
  }

  // ---------------------------------------------------------------- the simulator

  /** The simulator's pointer operations and probes, with some pure operations. */
  function Simulator(pure: (nat, seq<Slot>) -> Value): Semantics {
    Semantics(pure, Point, ReadThrough)
  }

  /** What the evaluation of entities relies on is so. */
  lemma {:induction false} SimulatorWellBehaved(pure: (nat, seq<Slot>) -> Value)
    ensures WellBehaved(Simulator(pure))
  {
    var sem := Simulator(pure);
    forall op, slots
      ensures Targets(sem.point(op, slots)) <= AllTargets(slots)
    {
      PointTargets(op, slots);
    }
    forall ty, a, b, ptr | Agree(a, b, Targets(ptr))
      ensures sem.probe(ty, a, ptr) == sem.probe(ty, b, ptr)
    {
      ReadThroughLocal(ty, a, b, ptr);
    }
  }

  /** Once an entity has been evaluated, each probe holds what its signal holds. */
  lemma {:induction false} ProbesHoldSignals(unit: Unit, pure: (nat, seq<Slot>) -> Value, values: Table,
      signals: Signals, types: Types, i: nat)
    requires UnitOk(unit) && AllSettled(unit, Simulator(pure), values, signals) && i < |unit| && unit[i].op.Prb?
    requires Result(i) in values && |unit[i].args| == 1 && unit[i].args[0] in values
    requires StoreTyped(signals, types) && Typed(types, PtrOf(values[unit[i].args[0]]), unit[i].op.ty)
    ensures values[Result(i)].Const? && IsRead(signals, types, PtrOf(values[unit[i].args[0]]), unit[i].op.ty,
      values[Result(i)].value)
  {
    assert InstOk(unit, i) && Valued(unit, i);
    assert Settled(unit, Simulator(pure), values, signals, i);
    assert ArgSlots(unit[i].args, values)[0] == values[unit[i].args[0]];
    ReadThroughReads(signals, types, PtrOf(values[unit[i].args[0]]), unit[i].op.ty);
  }
}
