/** When writes through two pointers commute: exactly if no cell is reached by both
    (src/bin/llhd-sim/engine.rs). */
module Overlap {
  import opened Cells
  import L = Lenses
  import opened Options
  import opened PointerAccess
  import opened Pointers
  import PW = PointerWrites
  import opened Values

  // ---------------------------------------------------------------- slices without a common cell

  /** Both slices reach this cell of their target. */
  predicate SharedCell(types: Types, l: ValueSlice, r: ValueSlice, a: Address) {
    l.target == r.target && l.target in types && Shared(types[l.target], l.select, r.select, a)
  }

  ghost predicate Unshared(types: Types, l: ValueSlice, r: ValueSlice) {
    forall a {:trigger SharedCell(types, l, r, a)} :: !SharedCell(types, l, r, a)
  }

  ghost function UnsharedSlices(types: Types): (ValueSlice, ValueSlice) -> bool {
    (l: ValueSlice, r: ValueSlice) => Unshared(types, l, r)
  }

  lemma {:induction false} UnsharedPaths(types: Types, l: ValueSlice, r: ValueSlice)
    requires Unshared(types, l, r) && l.target == r.target && l.target in types
    ensures NothingShared(types[l.target], l.select, r.select)
  {
    forall a
      ensures !Shared(types[l.target], l.select, r.select, a)
    {
      assert !SharedCell(types, l, r, a);
    }
  }

  lemma {:induction false} StoredUnshared(store: Store, types: Types, l: ValueSlice, x: Value, r: ValueSlice, y: Value)
    requires Fitting(types, store, l, x) && Fitting(types, store, r, y) && Unshared(types, l, r)
    ensures Load(Stored(store, types, l, x), types, r) == Load(store, types, r)
    ensures Stored(Stored(store, types, l, x), types, r, y) == Stored(Stored(store, types, r, y), types, l, x)
  {
    if l.target == r.target {
      UnsharedPaths(types, l, r);
      ReadWriteUnshared(store[l.target], types[l.target], l.select, r.select, x);
      WriteWriteUnshared(store[l.target], types[l.target], l.select, x, r.select, y);
    }
  }

  /** The laws of slices hold with cells as the measure of what is apart. */
  lemma {:induction false} UnsharedLaws(types: Types)
    ensures L.Laws(FitsSlice(types), GetSlice(types), PutSlice(types), UnsharedSlices(types))
  {
    SliceLaws(types);
    var fits, get, put, apart := FitsSlice(types), GetSlice(types), PutSlice(types), UnsharedSlices(types);
    forall s, l, x, r, y {:trigger fits(s, l, x), fits(s, r, y)} | fits(s, l, x) && fits(s, r, y) && apart(l, r)
      ensures get(put(s, l, x), r) == get(s, r) && put(put(s, l, x), r, y) == put(put(s, r, y), l, x)
    {
      StoredUnshared(s, types, l, x, r, y);
    }
  }

  // ---------------------------------------------------------------- pointers without a common cell

  ghost predicate PointersUnshared(types: Types, p: Pointer, q: Pointer) {
    forall j, k {:trigger p[j], q[k]} :: 0 <= j < |p| && 0 <= k < |q| ==> Unshared(types, p[j], q[k])
  }

  lemma {:induction false} UnsharedSymmetric(types: Types, l: ValueSlice, r: ValueSlice)
    requires Unshared(types, l, r)
    ensures Unshared(types, r, l)
  {
    forall a
      ensures !SharedCell(types, r, l, a)
    {
      assert !SharedCell(types, l, r, a);
    }
  }

  lemma {:induction false} UnsharedFrom(types: Types, p: Pointer, r: ValueSlice)
    requires forall j {:trigger p[j]} :: 0 <= j < |p| ==> Unshared(types, p[j], r)
    ensures L.ApartFrom(UnsharedSlices(types), p, r)
    decreases |p|
  {
    if p == [] {
    } else {
      UnsharedSymmetric(types, p[0], r);
      assert forall j {:trigger p[1..][j]} :: 0 <= j < |p[1..]| ==> p[1..][j] == p[j + 1];
      UnsharedFrom(types, p[1..], r);
    }
  }

  lemma {:induction false} UnsharedAll(types: Types, p: Pointer, q: Pointer)
    requires PointersUnshared(types, p, q)
    ensures L.AllApart(UnsharedSlices(types), p, q)
    decreases |q|
  {
    if q == [] {
    } else {
      assert forall j {:trigger p[j]} :: 0 <= j < |p| ==> Unshared(types, p[j], q[0]);
      UnsharedFrom(types, p, q[0]);
      assert forall k {:trigger q[1..][k]} :: 0 <= k < |q[1..]| ==> q[1..][k] == q[k + 1];
      UnsharedAll(types, p, q[1..]);
    }
  }

  // ---------------------------------------------------------------- what happens to one cell

  /** What an event leaves in a cell that a lasting slice of its pointer reaches. */
  lemma {:induction false} CellAfter(types: Types, s: Store, p: Pointer, ty: Type, v: Value, k: nat, a: Address)
    requires StoreTyped(s, types) && Writable(types, p, ty) && HasType(v, ty) && Lasting(p, k)
    requires p[k].target in types && IsCell(types[p[k].target], a) && Locate(p[k].select, a).Some?
    ensures var t, b, x := p[k].target, Locate(p[k].select, a).value, SubValues(v, ty, p, 0)[k];
      && SliceType(types, p[k]).Some? && HasType(x, SliceType(types, p[k]).value)
        && IsCell(SliceType(types, p[k]).value, b)
      && StoreTyped(WritePtr(s, types, p, ty, v), types)
      && LeafAt(WritePtr(s, types, p, ty, v)[t], types[t], a) == LeafAt(x, SliceType(types, p[k]).value, b)
  {
    var xs, t := SubValues(v, ty, p, 0), p[k].target;
    SubValuesFit(s, types, p, ty, v);
    KeptHold(s, types, p, ty, v);
    LastingWritten(types, s, p, xs, k);
    LeafWrite(s[t], types[t], p[k].select, xs[k], a);
  }

  // ---------------------------------------------------------------- any slice can be given any value

  lemma {:induction false} PieceOk(types: Types, ptr: Pointer, ty: Type, at: nat, k: nat)
    requires PiecesOk(types, ptr, ty) && k < |ptr|
    ensures SliceType(types, ptr[k]) == Some(Fragment(ty, ptr[k].width))
    decreases k
  {
    if k > 0 {
      PieceOk(types, ptr[1..], ty, at, k - 1);
    }
  }

  lemma {:induction false} NoCellsIn(ty: Type, a: Address)
    requires Sliceable(ty) && WidthOf(ty) == 0
    ensures !IsCell(ty, a)
  {
  }

  /** There is a value with a given piece. */
  lemma {:induction false} WithPiece(ty: Type, off: nat, width: nat, x: Value) returns (v: Value)
    requires HasType(x, Fragment(ty, width)) && off + width <= WidthOf(ty) && (width != 0 || !Sliceable(ty))
    ensures HasType(v, ty) && SubValue(v, ty, off, width) == x
  {
    if Sliceable(ty) {
      v := Put(ZeroValue(ty), ty, Slice(off, width), x);
      SubPut(ZeroValue(ty), ty, Slice(off, width), x);
    } else {
      v := x;
    }
  }

  /** There is a value that has a given content in a given cell of a given slice. */
  lemma {:induction false} Choose(types: Types, ptr: Pointer, ty: Type, k: nat, b: Address, hi: bool) returns (v: Value)
    requires Writable(types, ptr, ty) && k < |ptr| && SliceType(types, ptr[k]).Some?
      && IsCell(SliceType(types, ptr[k]).value, b)
    ensures HasType(v, ty) && HasType(SubValues(v, ty, ptr, 0)[k], SliceType(types, ptr[k]).value)
    ensures var leaf := LeafAt(SubValues(v, ty, ptr, 0)[k], SliceType(types, ptr[k]).value, b);
      leaf == BitLeaf(hi) || leaf == TimeLeaf(if hi then 1.0 else 0.0, 0, 0)
  {
    PieceOk(types, ptr, ty, 0, k);
    WidthSnoc(ptr, k);
    var off, width := Width(ptr[..k]), ptr[k].width;
    if width == 0 && Sliceable(ty) {
      NoCellsIn(Fragment(ty, 0), b);
    }
    var x := Vary(SliceType(types, ptr[k]).value, b, hi);
    v := WithPiece(ty, off, width, x);
    PieceIs(ptr, ty, v, k, off);
  }

  lemma {:induction false} PieceIs(ptr: Pointer, ty: Type, v: Value, k: nat, off: nat)
    requires k < |ptr| && off == Width(ptr[..k])
    ensures SubValues(v, ty, ptr, 0)[k] == SubValue(v, ty, off, ptr[k].width)
  {
    PW.SplitAt(Pieces(v, ty), ptr, 0, k, off);
  }

  // ---------------------------------------------------------------- the theorem

  /** Two writes commute, whatever is written. */
  ghost predicate Commute(s: Store, types: Types, p: Pointer, pt: Type, q: Pointer, qt: Type) {
    forall v, w {:trigger HasType(v, pt), HasType(w, qt)} :: HasType(v, pt) && HasType(w, qt) ==>
      WritePtr(WritePtr(s, types, p, pt, v), types, q, qt, w) == WritePtr(WritePtr(s, types, q, qt, w), types, p, pt, v)
  }

  lemma {:induction false} UnsharedCommute(s: Store, types: Types, p: Pointer, pt: Type, v: Value, q: Pointer, qt: Type,
      w: Value)
    requires StoreTyped(s, types) && Writable(types, p, pt) && Writable(types, q, qt)
    requires PointersUnshared(types, Kept(p), Kept(q)) && HasType(v, pt) && HasType(w, qt)
    ensures WritePtr(WritePtr(s, types, p, pt, v), types, q, qt, w)
      == WritePtr(WritePtr(s, types, q, qt, w), types, p, pt, v)
  {
    UnsharedLaws(types);
    UnsharedAll(types, Kept(p), Kept(q));
    WritesCommute(s, types, p, pt, v, q, qt, w, UnsharedSlices(types));
  }

  lemma {:induction false} SharedClash(s: Store, types: Types, p: Pointer, pt: Type, j: nat, q: Pointer, qt: Type,
      k: nat, a: Address)
    requires StoreTyped(s, types) && Writable(types, p, pt) && Writable(types, q, qt)
    requires Lasting(p, j) && Lasting(q, k) && SharedCell(types, p[j], q[k], a)
    ensures !Commute(s, types, p, pt, q, qt)
  {
    PieceOk(types, p, pt, 0, j);
    PieceOk(types, q, qt, 0, k);
    var t := p[j].target;
    LocateCell(types[t], p[j].select, a);
    LocateCell(types[t], q[k].select, a);
    var v := Choose(types, p, pt, j, Locate(p[j].select, a).value, true);
    var w := Choose(types, q, qt, k, Locate(q[k].select, a).value, false);
    CellAfter(types, s, p, pt, v, j, a);
    CellAfter(types, s, q, qt, w, k, a);
    CellAfter(types, WritePtr(s, types, p, pt, v), q, qt, w, k, a);
    CellAfter(types, WritePtr(s, types, q, qt, w), p, pt, v, j, a);
    assert WritePtr(WritePtr(s, types, p, pt, v), types, q, qt, w)[t] != WritePtr(WritePtr(s, types, q, qt, w), types,
      p, pt, v)[t];
  }

  /** Two writes commute for all values if and only if the slices that last reach no common cell. */
  lemma {:induction false} CommuteExactly(s: Store, types: Types, p: Pointer, pt: Type, q: Pointer, qt: Type)
    requires StoreTyped(s, types) && Writable(types, p, pt) && Writable(types, q, qt)
    ensures Commute(s, types, p, pt, q, qt) <==> PointersUnshared(types, Kept(p), Kept(q))
  {
    if PointersUnshared(types, Kept(p), Kept(q)) {
      forall v, w | HasType(v, pt) && HasType(w, qt)
        ensures WritePtr(WritePtr(s, types, p, pt, v), types, q, qt, w)
          == WritePtr(WritePtr(s, types, q, qt, w), types, p, pt, v)
      {
        UnsharedCommute(s, types, p, pt, v, q, qt, w);
      }
    } else {
      var j, k :| 0 <= j < |Kept(p)| && 0 <= k < |Kept(q)| && !Unshared(types, Kept(p)[j], Kept(q)[k]);
      var a :| SharedCell(types, Kept(p)[j], Kept(q)[k], a);
      var i := KeptLasting(p, SubValues(ZeroValue(pt), pt, p, 0), j);
      var n := KeptLasting(q, SubValues(ZeroValue(qt), qt, q, 0), k);
      SharedClash(s, types, p, pt, i, q, qt, n, a);
    }
  }

  // ---------------------------------------------------------------- reading back

  /** There is nothing in what the slice selects. */
  ghost predicate Bare(types: Types, l: ValueSlice) {
    SliceType(types, l).Some? ==> forall a :: !IsCell(SliceType(types, l).value, a)
  }

  /** No slice whose copy is replaced by a later one reaches any cell. */
  ghost predicate NothingLost(types: Types, ptr: Pointer) {
    forall k {:trigger ptr[k]} :: 0 <= k < |ptr| && !Lasting(ptr, k) ==> Bare(types, ptr[k])
  }

  /** Whatever is written is read back. */
  ghost predicate ReadsBack(s: Store, types: Types, ptr: Pointer, ty: Type)
    requires Typed(types, ptr, ty)
  {
    forall v {:trigger HasType(v, ty)} :: HasType(v, ty) ==>
      StoreTyped(WritePtr(s, types, ptr, ty, v), types) && IsRead(WritePtr(s, types, ptr, ty, v), types, ptr, ty, v)
  }

  lemma {:induction false} BareSame(l: Value, r: Value, ty: Type)
    requires HasType(l, ty) && HasType(r, ty) && forall a :: !IsCell(ty, a)
    ensures l == r
  {
    CellsExtensional(l, r, ty);
  }

  lemma {:induction false} SliceReadsBack(s: Store, types: Types, ptr: Pointer, ty: Type, v: Value, k: nat)
    requires StoreTyped(s, types) && Writable(types, ptr, ty) && HasType(v, ty) && k < |ptr|
    requires Lasting(ptr, k) || Bare(types, ptr[k])
    ensures GetSlice(types)(WritePtr(s, types, ptr, ty, v), ptr[k]) == SubValues(v, ty, ptr, 0)[k]
  {
    var xs, s' := SubValues(v, ty, ptr, 0), WritePtr(s, types, ptr, ty, v);
    SubValuesFit(s, types, ptr, ty, v);
    KeptHold(s, types, ptr, ty, v);
    PW.FitParts(types, s, ptr, xs);
    PW.PartTyped(types, ptr, xs, k);
    if Lasting(ptr, k) {
      LastingWritten(types, s, ptr, xs, k);
      LoadStored(s, types, ptr[k], xs[k]);
    } else {
      BareSame(Load(s', types, ptr[k]), xs[k], SliceType(types, ptr[k]).value);
    }
  }

  lemma {:induction false} PieceOrder(ptr: Pointer, j: nat, k: nat)
    requires j < k < |ptr|
    ensures Width(ptr[..j]) + ptr[j].width <= Width(ptr[..k])
  {
    WidthSnoc(ptr[..k], j);
    assert ptr[..k][..j] == ptr[..j];
  }

  lemma {:induction false} WidePiece(ptr: Pointer, k: nat)
    requires AllWide(ptr) && k < |ptr|
    ensures ptr[k].width > 0
    decreases k
  {
    if k > 0 {
      WidePiece(ptr[1..], k - 1);
    }
  }

  /** Giving one piece a value leaves the others alone. */
  lemma {:induction false} OtherPiece(ptr: Pointer, ty: Type, k: nat, x: Value, j: nat)
    requires Sliceable(ty) && AllWide(ptr) && Width(ptr) == WidthOf(ty) && j < |ptr| && k < |ptr| && j != k
    requires HasType(x, Fragment(ty, ptr[k].width)) && Width(ptr[..k]) + ptr[k].width <= WidthOf(ty)
    ensures var v := Put(ZeroValue(ty), ty, Slice(Width(ptr[..k]), ptr[k].width), x);
      HasType(v, ty) && SubValues(v, ty, ptr, 0)[j] == SubValues(ZeroValue(ty), ty, ptr, 0)[j]
  {
    var v := Put(ZeroValue(ty), ty, Slice(Width(ptr[..k]), ptr[k].width), x);
    WidthSnoc(ptr, j);
    WidePiece(ptr, j);
    if j < k {
      PieceOrder(ptr, j, k);
    } else {
      PieceOrder(ptr, k, j);
    }
    PieceIs(ptr, ty, v, j, Width(ptr[..j]));
    PieceIs(ptr, ty, ZeroValue(ty), j, Width(ptr[..j]));
    SubPutApart(ZeroValue(ty), ty, Slice(Width(ptr[..k]), ptr[k].width), Slice(Width(ptr[..j]), ptr[j].width), x);
  }

  lemma {:induction false} KeptSame(ptr: Pointer, xs: seq<Value>, ys: seq<Value>)
    requires |xs| == |ys| == |ptr| && forall k: nat :: Lasting(ptr, k) ==> xs[k] == ys[k]
    ensures KeptParts(ptr, xs) == KeptParts(ptr, ys)
    decreases |ptr|
  {
    if ptr == [] {
    } else {
      LastingTail(ptr, 0);
      forall k: nat | Lasting(ptr[1..], k)
        ensures xs[1..][k] == ys[1..][k]
      {
        LastingTail(ptr, k);
      }
      KeptSame(ptr[1..], xs[1..], ys[1..]);
    }
  }

  /** The value with one piece other than zero. */
  function OnePiece(ptr: Pointer, ty: Type, k: nat, x: Value): (v: Value)
    requires Sliceable(ty) && Width(ptr) == WidthOf(ty) && k < |ptr| && HasType(x, Fragment(ty, ptr[k].width))
    ensures HasType(v, ty)
  {
    WidthSnoc(ptr, k);
    Put(ZeroValue(ty), ty, Slice(Width(ptr[..k]), ptr[k].width), x)
  }

  lemma {:induction false} OnePieceIs(ptr: Pointer, ty: Type, k: nat, x: Value)
    requires Sliceable(ty) && AllWide(ptr) && Width(ptr) == WidthOf(ty) && k < |ptr|
    requires HasType(x, Fragment(ty, ptr[k].width))
    ensures SubValues(OnePiece(ptr, ty, k, x), ty, ptr, 0)[k] == x
  {
    WidthSnoc(ptr, k);
    WidePiece(ptr, k);
    PieceIs(ptr, ty, OnePiece(ptr, ty, k, x), k, Width(ptr[..k]));
    SubPut(ZeroValue(ty), ty, Slice(Width(ptr[..k]), ptr[k].width), x);
  }

  lemma {:induction false} OnePieceKept(ptr: Pointer, ty: Type, k: nat, x: Value, y: Value)
    requires Sliceable(ty) && AllWide(ptr) && Width(ptr) == WidthOf(ty) && k < |ptr| && !Lasting(ptr, k)
    requires HasType(x, Fragment(ty, ptr[k].width)) && HasType(y, Fragment(ty, ptr[k].width))
    ensures KeptParts(ptr, SubValues(OnePiece(ptr, ty, k, x), ty, ptr, 0))
      == KeptParts(ptr, SubValues(OnePiece(ptr, ty, k, y), ty, ptr, 0))
  {
    WidthSnoc(ptr, k);
    var xs, ys := SubValues(OnePiece(ptr, ty, k, x), ty, ptr, 0), SubValues(OnePiece(ptr, ty, k, y), ty, ptr, 0);
    forall j: nat | Lasting(ptr, j)
      ensures xs[j] == ys[j]
    {
      OtherPiece(ptr, ty, k, x, j);
      OtherPiece(ptr, ty, k, y, j);
    }
    KeptSame(ptr, xs, ys);
  }

  lemma {:induction false} LostWide(types: Types, ptr: Pointer, ty: Type, k: nat, b: Address)
    requires Writable(types, ptr, ty) && k < |ptr| && !Lasting(ptr, k) && IsCell(Fragment(ty, ptr[k].width), b)
    ensures Sliceable(ty) && AllWide(ptr)
  {
    WidthSnoc(ptr, k);
    if Sliceable(ty) && WidthOf(ty) == 0 {
      NoCellsIn(Fragment(ty, 0), b);
    }
  }

  /** Two values that differ only in a piece whose copy is replaced leave the same behind. */
  lemma {:induction false} LostPiece(s: Store, types: Types, ptr: Pointer, ty: Type, k: nat, b: Address)
    requires StoreTyped(s, types) && Writable(types, ptr, ty) && k < |ptr| && !Lasting(ptr, k)
    requires SliceType(types, ptr[k]).Some? && IsCell(SliceType(types, ptr[k]).value, b)
    ensures !ReadsBack(s, types, ptr, ty)
  {
    PieceOk(types, ptr, ty, 0, k);
    LostWide(types, ptr, ty, k, b);
    var x := Vary(Fragment(ty, ptr[k].width), b, true);
    var y := Vary(Fragment(ty, ptr[k].width), b, false);
    OnePieceIs(ptr, ty, k, x);
    OnePieceIs(ptr, ty, k, y);
    OnePieceKept(ptr, ty, k, x, y);
    if ReadsBack(s, types, ptr, ty) {
      SameLeft(s, types, ptr, ty, OnePiece(ptr, ty, k, x), OnePiece(ptr, ty, k, y));
    }
  }

  lemma {:induction false} SameLeft(s: Store, types: Types, ptr: Pointer, ty: Type, v: Value, w: Value)
    requires Typed(types, ptr, ty) && HasType(v, ty) && HasType(w, ty) && ReadsBack(s, types, ptr, ty)
    requires KeptParts(ptr, SubValues(v, ty, ptr, 0)) == KeptParts(ptr, SubValues(w, ty, ptr, 0))
    ensures v == w
  {
    assert WritePtr(s, types, ptr, ty, v) == WritePtr(s, types, ptr, ty, w);
    IsReadUnique(WritePtr(s, types, ptr, ty, v), types, ptr, ty, v, w);
  }

  lemma {:induction false} AllReadBack(s: Store, types: Types, ptr: Pointer, ty: Type, v: Value)
    requires StoreTyped(s, types) && Writable(types, ptr, ty) && HasType(v, ty) && NothingLost(types, ptr)
    ensures StoreTyped(WritePtr(s, types, ptr, ty, v), types)
    ensures IsRead(WritePtr(s, types, ptr, ty, v), types, ptr, ty, v)
  {
    forall k | 0 <= k < |ptr|
      ensures GetSlice(types)(WritePtr(s, types, ptr, ty, v), ptr[k]) == SubValues(v, ty, ptr, 0)[k]
    {
      SliceReadsBack(s, types, ptr, ty, v, k);
    }
    L.GetsAre(GetSlice(types), WritePtr(s, types, ptr, ty, v), ptr, SubValues(v, ty, ptr, 0));
    KeptHold(s, types, ptr, ty, v);
    IsReadPieces(WritePtr(s, types, ptr, ty, v), types, ptr, ty, v);
  }

  /** Whatever is written through a pointer is read back from it if and only if nothing goes to a slice whose target
      comes again. */
  lemma {:induction false} ReadsBackExactly(s: Store, types: Types, ptr: Pointer, ty: Type)
    requires StoreTyped(s, types) && Writable(types, ptr, ty)
    ensures ReadsBack(s, types, ptr, ty) <==> NothingLost(types, ptr)
  {
    if NothingLost(types, ptr) {
      forall v | HasType(v, ty)
        ensures StoreTyped(WritePtr(s, types, ptr, ty, v), types)
        ensures IsRead(WritePtr(s, types, ptr, ty, v), types, ptr, ty, v)
      {
        AllReadBack(s, types, ptr, ty, v);
      }
    } else {
      var k :| 0 <= k < |ptr| && !Lasting(ptr, k) && !Bare(types, ptr[k]);
      var b :| IsCell(SliceType(types, ptr[k]).value, b);
      LostPiece(s, types, ptr, ty, k, b);
    }
  }

  // ---------------------------------------------------------------- paths that part ways

  /** Pointers whose paths part ways reach no common cell. */
  lemma {:induction false} ApartUnshared(s: Store, types: Types, l: ValueSlice, r: ValueSlice)
    requires StoreTyped(s, types) && SliceType(types, l).Some? && SliceType(types, r).Some? && SlicesApart(l, r)
    ensures Unshared(types, l, r)
  {
    if l.target == r.target {
      DisjointUnshared(s[l.target], types[l.target], l.select, r.select);
      forall a
        ensures !SharedCell(types, l, r, a)
      {
        assert !Shared(types[l.target], l.select, r.select, a);
      }
    }
  }

  lemma {:induction false} PointersApartUnshared(s: Store, types: Types, p: Pointer, pt: Type, q: Pointer, qt: Type)
    requires StoreTyped(s, types) && PiecesOk(types, p, pt) && PiecesOk(types, q, qt) && PointersApart(p, q)
    ensures PointersUnshared(types, p, q)
  {
    forall j, k {:trigger p[j], q[k]} | 0 <= j < |p| && 0 <= k < |q|
      ensures Unshared(types, p[j], q[k])
    {
      PiecesAtIndex(types, p, pt, j);
      PiecesAtIndex(types, q, qt, k);
      ApartUnshared(s, types, p[j], q[k]);
    }
  }

  lemma {:induction false} Alone(types: Types, l: ValueSlice)
    requires SliceType(types, l) == Some(IntType(l.width)) && l.width > 0
    ensures Writable(types, [l], IntType(l.width))
  {
    var p := [l];
    assert p[0] == l && p[1..] == [];
    assert PiecesOk(types, p[1..], IntType(l.width)) && Width(p[1..]) == 0 && AllWide(p[1..]);
  }

  /** An integer and a proper part of it do not commute: a drive to a signal and a drive to some
      of its bits. */
  lemma {:induction false} PartClashes(s: Store, types: Types, l: ValueSlice, off: nat, len: nat)
    requires StoreTyped(s, types) && SliceType(types, l) == Some(IntType(l.width)) && l.select == []
    requires 0 < len < l.width && off + len <= l.width
    ensures Writable(types, [l], IntType(l.width)) && Writable(types, [Narrow(l, off, len)], IntType(len))
    ensures !Commute(s, types, [l], IntType(l.width), [Narrow(l, off, len)], IntType(len))
  {
    var n := Narrow(l, off, len);
    assert n.select == [Slice(off, len)] && n.select[1..] == [];
    assert [l][1..] == [] && [n][1..] == [];
    assert types[l.target] == IntType(l.width) && IsCell(types[l.target], [off]);
    assert PathType(IntType(l.width), n.select) == Some(IntType(len));
    Alone(types, l);
    Alone(types, n);
    assert Reaches(n.select[0], [off]) && Locate(n.select[1..], Inner(n.select[0], [off])).Some?;
    assert SharedCell(types, l, n, [off]);
    SharedClash(s, types, [l], IntType(l.width), 0, [n], IntType(len), 0, [off]);
  }
}
