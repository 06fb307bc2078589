/** The loops that read and write through pointers (src/bin/llhd-sim/engine.rs). */
module PointerOps {
  import opened IntValues
  import L = Lenses
  import opened Options
  import opened PointerAccess
  import opened Pointers
  import opened Values

  // ---------------------------------------------------------------- reading

  /** Apply the first selection of a path. */
  method Extract(value: Value, ghost ty: Type, ghost path: seq<Select>, step: Select)
      returns (r: Value, ghost next: Type)
    requires FitsPath(value, ty, path) && path != [] && step == path[0]
    ensures FitsPath(r, next, path[1..]) && PathType(next, path[1..]) == PathType(ty, path)
    ensures Read(r, next, path[1..]) == Read(value, ty, path)
  {
    next := StepType(ty, step).value;
    match step {
      case Field(index) => r := if value.Array? then value.items[index] else value.fields[index];
      case Slice(off, len) => r := if value.Int? then Int(value.num.ExtractSlice(off, len))
        else Array(value.items[off..off + len]);
    }
    assert r == Sub(value, ty, step);
  }

  /** `read_pointer_slice`: apply one selection after the other. */
  method ReadPointerSlice(store: Store, ghost types: Types, s: ValueSlice) returns (value: Value)
    requires StoreTyped(store, types) && SliceType(types, s).Some?
    ensures value == Load(store, types, s)
  {
    value := store[s.target];
    ghost var ty := types[s.target];
    ghost var whole := Load(store, types, s);
    assert s.select[0..] == s.select;
    for i := 0 to |s.select|
      invariant FitsPath(value, ty, s.select[i..]) && Read(value, ty, s.select[i..]) == whole
    {
      assert s.select[i..][1..] == s.select[i + 1..];
      value, ty := Extract(value, ty, s.select[i..], s.select[i]);
    }
  }

  lemma {:induction false} PiecesTail(types: Types, ptr: Pointer, ty: Type, i: nat)
    requires i < |ptr| && PiecesOk(types, ptr[i..], ty)
    ensures ptr[i..][1..] == ptr[i + 1..] && ptr[i..][0] == ptr[i]
    ensures SliceType(types, ptr[i]) == Some(Fragment(ty, ptr[i].width)) && PiecesOk(types, ptr[i + 1..], ty)
    ensures Width(ptr[i..]) == ptr[i].width + Width(ptr[i + 1..])
  {
    assert ptr[i..][1..] == ptr[i + 1..];
  }

  lemma {:induction false} ContentsTail(read: ValueSlice -> seq<Part>, ptr: Pointer, i: nat, done: seq<Part>)
    requires i < |ptr|
    ensures done + Contents(read, ptr[i..]) == (done + read(ptr[i])) + Contents(read, ptr[i + 1..])
  {
    assert ptr[i..][1..] == ptr[i + 1..];
  }

  lemma {:induction false} SpliceChop<T>(s: seq<T>, off: nat, mid: seq<T>, end: nat)
    requires end == off + |mid| && end <= |s|
    ensures Chop(Splice(s, off, mid), 0, end) == Chop(s, 0, off) + mid
  {
    var l, r := Chop(Splice(s, off, mid), 0, end), Chop(s, 0, off) + mid;
    forall k | 0 <= k < end
      ensures l[k] == r[k]
    {
      SpliceAt(s, off, mid, k);
    }
  }

  lemma {:induction false} InsertBehind(v: IntValue, off: nat, width: nat, x: IntValue, end: nat)
    requires v.Valid() && x.Valid() && x.width == width && end == off + width && end <= v.width
    ensures v.InsertSlice(off, width, x).Valid() && v.InsertSlice(off, width, x).width == v.width
    ensures Chop(BitParts(v.InsertSlice(off, width, x).Bits()), 0, end)
      == Chop(BitParts(v.Bits()), 0, off) + BitParts(x.Bits())
  {
    var r := PutBits(v, off, width, x);
    SpliceChop(BitParts(v.Bits()), off, BitParts(x.Bits()), end);
  }

  /** The low bits and the contents of the remaining slices make up everything. */
  ghost predicate IntSoFar(read: ValueSlice -> seq<Part>, rest: Pointer, whole: seq<Part>, value: IntValue, offset: nat,
      width: nat)
  {
    && value.Valid() && value.width == width && offset + Width(rest) == width
    && Chop(BitParts(value.Bits()), 0, offset) + Contents(read, rest) == whole
  }

  lemma {:induction false} InsertedNext(value: IntValue, offset: nat, x: IntValue, read: ValueSlice -> seq<Part>,
      rest: Pointer, whole: seq<Part>, width: nat)
    requires IntSoFar(read, rest, whole, value, offset, width) && rest != []
    requires x.Valid() && x.width == rest[0].width && BitParts(x.Bits()) == read(rest[0])
    ensures offset + x.width <= value.width
    ensures IntSoFar(read, rest[1..], whole, value.InsertSlice(offset, x.width, x), offset + x.width, width)
  {
    InsertBehind(value, offset, x.width, x, offset + x.width);
    AppendAssoc(Chop(BitParts(value.Bits()), 0, offset), BitParts(x.Bits()), Contents(read, rest[1..]));
  }

  lemma {:induction false} LoadedInt(store: Store, types: Types, s: ValueSlice, x: Value)
    requires StoreTyped(store, types) && SliceType(types, s) == Some(IntType(s.width)) && x == Load(store, types, s)
    ensures x.Int? && x.num.Valid() && x.num.width == s.width && BitParts(x.num.Bits()) == Reader(store, types)(s)
  {
  }

  /** Insert what the next slice yields behind what has been gathered so far. */
  method InsertNext(store: Store, ghost types: Types, value: IntValue, offset: nat, s: ValueSlice,
      ghost read: ValueSlice -> seq<Part>, ghost rest: Pointer, ghost whole: seq<Part>, ghost width: nat)
      returns (r: IntValue, end: nat)
    requires StoreTyped(store, types) && SliceType(types, s) == Some(IntType(s.width)) && read == Reader(store, types)
    requires IntSoFar(read, rest, whole, value, offset, width) && rest != [] && rest[0] == s
    ensures IntSoFar(read, rest[1..], whole, r, end, width)
  {
    var result := ReadPointerSlice(store, types, s);
    LoadedInt(store, types, s, result);
    var x := result.num;
    InsertedNext(value, offset, x, read, rest, whole, width);
    r, end := value.InsertSlice(offset, x.width, x), offset + x.width;
  }

  /** The integer case of `read_pointer`. */
  method ReadInt(store: Store, ghost types: Types, width: nat, ptr: Pointer, ghost read: ValueSlice -> seq<Part>,
      ghost whole: seq<Part>) returns (value: IntValue)
    requires StoreTyped(store, types) && PiecesOk(types, ptr, IntType(width)) && Width(ptr) == width
    requires read == Reader(store, types) && whole == Contents(read, ptr)
    ensures value.Valid() && value.width == width && BitParts(value.Bits()) == whole
  {
    value := IntValue(width, 0);
    var offset: nat := 0;
    assert ptr[0..] == ptr;
    IntStart(read, ptr, whole, value, width);
    for i := 0 to |ptr|
      invariant PiecesOk(types, ptr[i..], IntType(width))
      invariant IntSoFar(read, ptr[i..], whole, value, offset, width)
    {
      PiecesTail(types, ptr, IntType(width), i);
      value, offset := InsertNext(store, types, value, offset, ptr[i], read, ptr[i..], whole, width);
    }
    IntDone(read, whole, value, offset, width);
  }

  lemma {:induction false} IntStart(read: ValueSlice -> seq<Part>, ptr: Pointer, whole: seq<Part>, value: IntValue,
      width: nat)
    requires value.Valid() && value.width == width == Width(ptr) && whole == Contents(read, ptr)
    ensures IntSoFar(read, ptr, whole, value, 0, width)
  {
    assert Chop(BitParts(value.Bits()), 0, 0) == [];
  }

  lemma {:induction false} IntDone(read: ValueSlice -> seq<Part>, whole: seq<Part>, value: IntValue, offset: nat,
      width: nat)
    requires IntSoFar(read, [], whole, value, offset, width)
    ensures BitParts(value.Bits()) == whole
  {
  }

  lemma {:induction false} ItemsAppend(a: seq<Value>, b: seq<Value>)
    ensures ItemParts(a) + ItemParts(b) == ItemParts(a + b)
  {
  }

  /** The array case of `read_pointer`. */
  method ReadArray(store: Store, ghost types: Types, length: nat, ghost elem: Type, ptr: Pointer)
      returns (items: seq<Value>)
    requires StoreTyped(store, types) && Typed(types, ptr, ArrayType(length, elem))
    ensures IsRead(store, types, ptr, ArrayType(length, elem), Array(items))
  {
    items := [];
    ghost var read, ty := Reader(store, types), ArrayType(length, elem);
    assert ptr[0..] == ptr;
    assert ItemParts(items) + Contents(read, ptr) == Contents(read, ptr);
    for i := 0 to |ptr|
      invariant PiecesOk(types, ptr[i..], ty) && |items| + Width(ptr[i..]) == length
      invariant HasType(Array(items), ArrayType(|items|, elem))
      invariant ItemParts(items) + Contents(read, ptr[i..]) == Contents(read, ptr)
    {
      PiecesTail(types, ptr, ty, i);
      ContentsTail(read, ptr, i, ItemParts(items));
      var result := ReadPointerSlice(store, types, ptr[i]);
      ItemsAppend(items, result.items);
      items := items + result.items;
    }
  }

  /** `read_pointer`: concatenate what the slices yield. */
  method ReadPointer(store: Store, ghost types: Types, ty: Type, ptr: Pointer) returns (value: Value)
    requires StoreTyped(store, types) && Typed(types, ptr, ty)
    ensures IsRead(store, types, ptr, ty, value)
  {
    match ty {
      case IntType(w) =>
        var num := ReadInt(store, types, w, ptr, Reader(store, types), Contents(Reader(store, types), ptr));
        value := Int(num);
      case ArrayType(n, e) =>
        var items := ReadArray(store, types, n, e, ptr);
        value := Array(items);
      case _ =>
        value := ReadPointerSlice(store, types, ptr[0]);
    }
  }

  // ---------------------------------------------------------------- slices and shifts of typed pointers

  lemma {:induction false} PathTypeAppend(ty: Type, p: seq<Select>, s: Select)
    requires PathType(ty, p).Some?
    ensures PathType(ty, p + [s]) == StepType(PathType(ty, p).value, s)
    decreases |p|
  {
    if p == [] {
      assert (p + [s])[1..] == [];
    } else {
      assert (p + [s])[1..] == p[1..] + [s];
      PathTypeAppend(StepType(ty, p[0]).value, p[1..], s);
    }
  }

  lemma {:induction false} CutOk(types: Types, s: ValueSlice, ty: Type, at: nat, lo: int, hi: int)
    requires SliceType(types, s) == Some(Fragment(ty, s.width)) && Sliceable(ty)
    ensures PiecesOk(types, Cut(s, at, lo, hi), ty)
  {
    var off, end := Clamp(s.width, lo - at), Clamp(s.width, hi - at);
    if off < end {
      PathTypeAppend(types[s.target], s.select, Slice(off, end - off));
      assert SliceType(types, Narrow(s, off, end - off)) == Some(Fragment(ty, end - off));
    }
  }

  lemma {:induction false} PiecesOkAppend(types: Types, p: Pointer, q: Pointer, ty: Type)
    requires PiecesOk(types, p, ty) && PiecesOk(types, q, ty)
    ensures PiecesOk(types, p + q, ty)
    decreases |p|
  {
    if p == [] {
      assert p + q == q;
    } else {
      assert (p + q)[1..] == p[1..] + q;
      PiecesOkAppend(types, p[1..], q, ty);
    }
  }

  lemma {:induction false} WindowOk(types: Types, ptr: Pointer, ty: Type, at: nat, lo: int, hi: int)
    requires PiecesOk(types, ptr, ty) && Sliceable(ty)
    ensures PiecesOk(types, Window(ptr, at, lo, hi), ty)
    decreases |ptr|
  {
    if ptr == [] {
    } else {
      CutOk(types, ptr[0], ty, at, lo, hi);
      WindowOk(types, ptr[1..], ty, at + ptr[0].width, lo, hi);
      PiecesOkAppend(types, Cut(ptr[0], at, lo, hi), Window(ptr[1..], at + ptr[0].width, lo, hi), ty);
    }
  }

  lemma {:induction false} PiecesOkFragment(types: Types, ptr: Pointer, ty: Type, width: nat)
    requires PiecesOk(types, ptr, ty)
    ensures PiecesOk(types, ptr, Fragment(ty, width))
    decreases |ptr|
  {
    if ptr == [] {
    } else {
      PiecesOkFragment(types, ptr[1..], ty, width);
    }
  }

  lemma {:induction false} SliceIsChop<T>(s: seq<T>, off: nat, len: nat, r: seq<T>)
    requires off + len <= |s| && r == s[off..off + len]
    ensures r == Chop(s, off, len)
  {
    assert forall k :: 0 <= k < len ==> r[k] == s[off + k];
  }

  lemma {:induction false} SubIsChop(v: Value, ty: Type, off: nat, len: nat, sub: Value)
    requires HasType(v, ty) && Sliceable(ty) && off + len <= WidthOf(ty) && sub == Sub(v, ty, Slice(off, len))
    ensures HasType(sub, Fragment(ty, len)) && off + len <= |Parts(v)| && Parts(sub) == Chop(Parts(v), off, len)
  {
    SubChunk(v, ty, Slice(off, len));
    SliceIsChop(Parts(v), off, len, Parts(sub));
  }

  lemma {:induction false} WindowTyped(types: Types, ptr: Pointer, ty: Type, off: nat, len: nat)
    requires Typed(types, ptr, ty) && Sliceable(ty) && off + len <= WidthOf(ty)
    ensures Typed(types, Window(ptr, 0, off, off + len), Fragment(ty, len)) && Sliceable(Fragment(ty, len))
  {
    WindowOk(types, ptr, ty, 0, off, off + len);
    WindowWidth(ptr, 0, off, off + len);
    PiecesOkFragment(types, Window(ptr, 0, off, off + len), ty, len);
  }

  /** Extracting a slice through a pointer and then reading it is reading and then extracting. */
  lemma {:induction false} ExtSliceReads(store: Store, types: Types, ptr: Pointer, ty: Type, off: nat, len: nat,
      v: Value)
    requires StoreTyped(store, types) && Typed(types, ptr, ty) && Sliceable(ty) && off + len <= WidthOf(ty)
    requires IsRead(store, types, ptr, ty, v)
    ensures Typed(types, Window(ptr, 0, off, off + len), Fragment(ty, len))
    ensures IsRead(store, types, Window(ptr, 0, off, off + len), Fragment(ty, len), Sub(v, ty, Slice(off, len)))
  {
    WindowTyped(types, ptr, ty, off, len);
    ReaderLawful(store, types);
    PiecesReadable(store, types, ptr, ty);
    ExtSliceContents(ReaderOk(types), Reader(store, types), ptr, off, len);
    SubIsChop(v, ty, off, len, Sub(v, ty, Slice(off, len)));
  }

  /** Two pointers that may be shifted into each other. */
  predicate SameShape(a: Type, b: Type) {
    (a.IntType? && b.IntType?) || (a.ArrayType? && b.ArrayType? && a.elem == b.elem)
  }

  lemma {:induction false} SameShapePieces(types: Types, ptr: Pointer, a: Type, b: Type)
    requires SameShape(a, b) && PiecesOk(types, ptr, a)
    ensures PiecesOk(types, ptr, b)
    decreases |ptr|
  {
    if ptr == [] {
    } else {
      SameShapePieces(types, ptr[1..], a, b);
    }
  }

  lemma {:induction false} FuseOk(types: Types, p: Pointer, lo: int, hi: int, q: Pointer, lo': int, hi': int, ty: Type)
    requires PiecesOk(types, p, ty) && PiecesOk(types, q, ty) && Sliceable(ty)
    ensures PiecesOk(types, Fuse(p, lo, hi, q, lo', hi'), ty)
  {
    WindowOk(types, p, ty, 0, lo, hi);
    WindowOk(types, q, ty, 0, lo', hi');
    PiecesOkAppend(types, Window(p, 0, lo, hi), Window(q, 0, lo', hi'), ty);
  }

  lemma {:induction false} ShiftOk(types: Types, left: bool, base: Pointer, hidden: Pointer, amount: nat, ty: Type)
    requires PiecesOk(types, base, ty) && PiecesOk(types, hidden, ty) && Sliceable(ty)
    ensures PiecesOk(types, ExecShift(left, base, hidden, amount), ty)
  {
    var a: int, bw: int, hw: int := Min(Width(hidden), amount), Width(base), Width(hidden);
    if left {
      FuseOk(types, hidden, hw - a, hw, base, 0, bw - a, ty);
    } else {
      FuseOk(types, base, a, bw, hidden, 0, a, ty);
    }
  }

  /** Shifted pointers have the type of the base if and only if the clamped amount does not exceed its width; and then
      reading yields the documented window of what the two hold. */
  lemma {:induction false} ShiftReads(store: Store, types: Types, left: bool, base: Pointer, ty: Type, b: Value,
      hidden: Pointer, hty: Type, h: Value, amount: nat, r: Value)
    requires StoreTyped(store, types) && Typed(types, base, ty) && Typed(types, hidden, hty) && SameShape(ty, hty)
    requires IsRead(store, types, base, ty, b) && IsRead(store, types, hidden, hty, h) && HasType(r, ty)
    ensures Typed(types, ExecShift(left, base, hidden, amount), ty) <==> Min(WidthOf(hty), amount) <= WidthOf(ty)
    ensures |Parts(h)| == WidthOf(hty)
    ensures Typed(types, ExecShift(left, base, hidden, amount), ty) ==>
      (IsRead(store, types, ExecShift(left, base, hidden, amount), ty, r) <==>
       Parts(r) == ShiftWindow(left, Parts(b), Parts(h), Min(WidthOf(hty), amount)))
  {
    ReaderLawful(store, types);
    PiecesReadable(store, types, base, ty);
    PiecesReadable(store, types, hidden, hty);
    SameShapePieces(types, hidden, hty, ty);
    ShiftOk(types, left, base, hidden, amount, ty);
    ShiftWidth(left, base, hidden, amount);
    if Min(WidthOf(hty), amount) <= WidthOf(ty) {
      ShiftContents(ReaderOk(types), Reader(store, types), left, base, hidden, amount);
    }
  }
}
