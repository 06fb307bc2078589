/** Reading and writing through value pointers (src/bin/llhd-sim/engine.rs). */
module PointerAccess {
  import opened IntValues
  import L = Lenses
  import opened Options
  import opened Pointers
  import opened Values

  /** The values of all targets, and their types. */
  type Store = map<Target, Value>
  type Types = map<Target, Type>

  predicate StoreTyped(store: Store, types: Types) {
    forall t {:trigger t in types} :: t in types ==> t in store && HasType(store[t], types[t])
  }

  /** The type of what a slice of a pointer selects. */
  function SliceType(types: Types, s: ValueSlice): Option<Type> {
    if s.target in types then PathType(types[s.target], s.select) else None
  }

  /** Read a slice of a pointer. */
  function Load(store: Store, types: Types, s: ValueSlice): (r: Value)
    requires StoreTyped(store, types) && SliceType(types, s).Some?
    ensures HasType(r, SliceType(types, s).value)
  {
    Read(store[s.target], types[s.target], s.select)
  }

  /** Write to a slice of a pointer. */
  function Stored(store: Store, types: Types, s: ValueSlice, x: Value): (r: Store)
    requires StoreTyped(store, types) && SliceType(types, s).Some? && HasType(x, SliceType(types, s).value)
    ensures StoreTyped(r, types) && r.Keys == store.Keys
  {
    store[s.target := Write(store[s.target], types[s.target], s.select, x)]
  }

  // ---------------------------------------------------------------- laws of a single slice

  /** Two slices that have nothing in common. */
  predicate SlicesApart(s: ValueSlice, r: ValueSlice) {
    s.target != r.target || Disjoint(s.select, r.select)
  }

  lemma {:induction false} LoadStored(store: Store, types: Types, s: ValueSlice, x: Value)
    requires StoreTyped(store, types) && SliceType(types, s).Some? && HasType(x, SliceType(types, s).value)
    ensures Load(Stored(store, types, s, x), types, s) == x
  {
    ReadWrite(store[s.target], types[s.target], s.select, x);
  }

  lemma {:induction false} StoredLoad(store: Store, types: Types, s: ValueSlice)
    requires StoreTyped(store, types) && SliceType(types, s).Some?
    ensures Stored(store, types, s, Load(store, types, s)) == store
  {
    WriteRead(store[s.target], types[s.target], s.select);
  }

  lemma {:induction false} StoredStored(store: Store, types: Types, s: ValueSlice, x: Value, y: Value)
    requires StoreTyped(store, types) && SliceType(types, s).Some?
    requires HasType(x, SliceType(types, s).value) && HasType(y, SliceType(types, s).value)
    ensures Stored(Stored(store, types, s, x), types, s, y) == Stored(store, types, s, y)
  {
    WriteWrite(store[s.target], types[s.target], s.select, x, y);
  }

  lemma {:induction false} LoadStoredApart(store: Store, types: Types, s: ValueSlice, x: Value, r: ValueSlice)
    requires StoreTyped(store, types) && SliceType(types, s).Some? && HasType(x, SliceType(types, s).value)
    requires SliceType(types, r).Some? && SlicesApart(s, r)
    ensures Load(Stored(store, types, s, x), types, r) == Load(store, types, r)
  {
    if s.target == r.target {
      ReadWriteDisjoint(store[s.target], types[s.target], s.select, r.select, x);
    }
  }

  lemma {:induction false} StoredStoredApart(store: Store, types: Types, s: ValueSlice, x: Value, r: ValueSlice,
      y: Value)
    requires StoreTyped(store, types) && SliceType(types, s).Some? && HasType(x, SliceType(types, s).value)
    requires SliceType(types, r).Some? && HasType(y, SliceType(types, r).value) && SlicesApart(s, r)
    ensures Stored(Stored(store, types, s, x), types, r, y) == Stored(Stored(store, types, r, y), types, s, x)
  {
    if s.target == r.target {
      WriteWriteDisjoint(store[s.target], types[s.target], s.select, x, r.select, y);
    }
  }

  // ---------------------------------------------------------------- slices as lenses

  predicate Fitting(types: Types, store: Store, s: ValueSlice, x: Value) {
    StoreTyped(store, types) && SliceType(types, s).Some? && HasType(x, SliceType(types, s).value)
  }

  function FitsSlice(types: Types): (Store, ValueSlice, Value) -> bool {
    (store: Store, s: ValueSlice, x: Value) => Fitting(types, store, s, x)
  }

  function Getting(types: Types, store: Store, s: ValueSlice): Value {
    if StoreTyped(store, types) && SliceType(types, s).Some? then Load(store, types, s) else Struct([])
  }

  function GetSlice(types: Types): (Store, ValueSlice) -> Value {
    (store: Store, s: ValueSlice) => Getting(types, store, s)
  }

  function Putting(types: Types, store: Store, s: ValueSlice, x: Value): Store {
    if Fitting(types, store, s, x) then Stored(store, types, s, x) else store
  }

  function PutSlice(types: Types): (Store, ValueSlice, Value) -> Store {
    (store: Store, s: ValueSlice, x: Value) => Putting(types, store, s, x)
  }

  function ApartSlices(): (ValueSlice, ValueSlice) -> bool {
    (s: ValueSlice, r: ValueSlice) => SlicesApart(s, r)
  }

  lemma {:induction false} SliceLaws(types: Types)
    ensures L.Laws(FitsSlice(types), GetSlice(types), PutSlice(types), ApartSlices())
  {
    var fits, get, put, apart := FitsSlice(types), GetSlice(types), PutSlice(types), ApartSlices();
    forall s, l, x | fits(s, l, x)
      ensures get(put(s, l, x), l) == x
    {
      LoadStored(s, types, l, x);
    }
    forall s, l | fits(s, l, get(s, l))
      ensures put(s, l, get(s, l)) == s
    {
      StoredLoad(s, types, l);
    }
    forall s, l, x, y | fits(s, l, x) && fits(s, l, y)
      ensures put(put(s, l, x), l, y) == put(s, l, y)
    {
      StoredStored(s, types, l, x, y);
    }
    forall s, l, x, r, y {:trigger fits(s, l, x), fits(s, r, y)} | fits(s, l, x) && fits(s, r, y) && apart(l, r)
      ensures get(put(s, l, x), r) == get(s, r) && put(put(s, l, x), r, y) == put(put(s, r, y), l, x)
    {
      LoadStoredApart(s, types, l, x, r);
      StoredStoredApart(s, types, l, x, r, y);
    }
  }

  // ---------------------------------------------------------------- typed pointers

  predicate PiecesOk(types: Types, ptr: Pointer, ty: Type) {
    ptr == [] || (SliceType(types, ptr[0]) == Some(Fragment(ty, ptr[0].width)) && PiecesOk(types, ptr[1..], ty))
  }

  lemma {:induction false} PiecesAtIndex(types: Types, ptr: Pointer, ty: Type, i: nat)
    requires PiecesOk(types, ptr, ty) && i < |ptr|
    ensures SliceType(types, ptr[i]) == Some(Fragment(ty, ptr[i].width)) && PiecesOk(types, ptr[..i], ty)
    decreases |ptr|
  {
    if i > 0 {
      PiecesAtIndex(types, ptr[1..], ty, i - 1);
      assert ptr[..i][1..] == ptr[1..][..i - 1];
    }
  }

  /** The slices of a pointer make up a value of the type. */
  predicate Typed(types: Types, ptr: Pointer, ty: Type) {
    PiecesOk(types, ptr, ty) && Width(ptr) == WidthOf(ty) && (Sliceable(ty) || |ptr| == 1)
  }

  predicate AllWide(ptr: Pointer) {
    ptr == [] || (ptr[0].width > 0 && AllWide(ptr[1..]))
  }

  /** A slice of width 0 is given the whole value, so there must not be one beside others. */
  predicate Writable(types: Types, ptr: Pointer, ty: Type) {
    Typed(types, ptr, ty) && (WidthOf(ty) == 0 || AllWide(ptr))
  }

  /** The part of a value that goes to a slice at offset `at`. */
  function SubValue(v: Value, ty: Type, at: nat, width: nat): Value {
    if width != 0 && HasType(v, ty) && at + width <= WidthOf(ty) then Sub(v, ty, Slice(at, width)) else v
  }

  /** What goes to the slices of a pointer, if `sub` yields the part at an offset. */
  function Split(sub: (nat, nat) -> Value, ptr: Pointer, at: nat): (r: seq<Value>)
    ensures |r| == |ptr|
    decreases |ptr|
  {
    if ptr == [] then [] else [sub(at, ptr[0].width)] + Split(sub, ptr[1..], at + ptr[0].width)
  }

  function Pieces(v: Value, ty: Type): (nat, nat) -> Value {
    (at: nat, width: nat) => SubValue(v, ty, at, width)
  }

  /** The parts that go to the slices of a pointer. */
  function SubValues(v: Value, ty: Type, ptr: Pointer, at: nat): (r: seq<Value>)
    ensures |r| == |ptr|
  {
    Split(Pieces(v, ty), ptr, at)
  }

  /** A slice takes a piece of a value at an offset. */
  predicate PieceAt(types: Types, l: ValueSlice, ty: Type, at: nat) {
    SliceType(types, l) == Some(Fragment(ty, l.width)) && at + l.width <= WidthOf(ty)
      && (l.width != 0 || WidthOf(ty) == 0)
  }

  predicate PiecesAt(types: Types, ptr: Pointer, ty: Type, at: nat) {
    ptr == [] || (PieceAt(types, ptr[0], ty, at) && PiecesAt(types, ptr[1..], ty, at + ptr[0].width))
  }

  lemma {:induction false} WritablePieces(types: Types, ptr: Pointer, ty: Type, at: nat)
    requires PiecesOk(types, ptr, ty) && at + Width(ptr) <= WidthOf(ty) && (WidthOf(ty) == 0 || AllWide(ptr))
    ensures PiecesAt(types, ptr, ty, at)
    decreases |ptr|
  {
    if ptr == [] {
    } else {
      WritablePieces(types, ptr[1..], ty, at + ptr[0].width);
    }
  }

  lemma {:induction false} SubValueType(v: Value, ty: Type, at: nat, width: nat)
    requires HasType(v, ty) && at + width <= WidthOf(ty) && (width != 0 || WidthOf(ty) == 0)
    ensures HasType(SubValue(v, ty, at, width), Fragment(ty, width))
  {
  }

  lemma {:induction false} SplitFits(fits: (Store, ValueSlice, Value) -> bool, store: Store, types: Types, ptr: Pointer,
      ty: Type, at: nat, sub: (nat, nat) -> Value)
    requires PiecesAt(types, ptr, ty, at)
    requires forall l, k: nat :: PieceAt(types, l, ty, k) ==> fits(store, l, sub(k, l.width))
    ensures L.FitAll(fits, store, ptr, Split(sub, ptr, at))
    decreases |ptr|
  {
    if ptr == [] {
    } else {
      assert PieceAt(types, ptr[0], ty, at);
      SplitFits(fits, store, types, ptr[1..], ty, at + ptr[0].width, sub);
      L.FitCons(fits, store, ptr, sub(at, ptr[0].width), Split(sub, ptr[1..], at + ptr[0].width));
    }
  }

  lemma {:induction false} SubValuesFit(store: Store, types: Types, ptr: Pointer, ty: Type, v: Value)
    requires StoreTyped(store, types) && Writable(types, ptr, ty) && HasType(v, ty)
    ensures L.FitAll(FitsSlice(types), store, ptr, SubValues(v, ty, ptr, 0))
  {
    var sub := Pieces(v, ty);
    forall l, k: nat | PieceAt(types, l, ty, k)
      ensures FitsSlice(types)(store, l, sub(k, l.width))
    {
      SubValueType(v, ty, k, l.width);
    }
    WritablePieces(types, ptr, ty, 0);
    SplitFits(FitsSlice(types), store, types, ptr, ty, 0, sub);
  }

  // ---------------------------------------------------------------- slices on the same target

  predicate Targeted(ptr: Pointer, t: Target) {
    exists k :: 0 <= k < |ptr| && ptr[k].target == t
  }

  /** No later slice has the same target.  Every slice is written to a copy of its own, and the last copy remains. */
  predicate Lasting(ptr: Pointer, k: nat) {
    k < |ptr| && forall j :: k < j < |ptr| ==> ptr[j].target != ptr[k].target
  }

  /** The slices whose copies remain. */
  function Kept(ptr: Pointer): Pointer {
    if ptr == [] then [] else if Targeted(ptr[1..], ptr[0].target) then Kept(ptr[1..]) else [ptr[0]] + Kept(ptr[1..])
  }

  /** Their parts. */
  function KeptParts(ptr: Pointer, xs: seq<Value>): (r: seq<Value>)
    requires |xs| == |ptr|
    ensures |r| == |Kept(ptr)|
  {
    if ptr == [] then []
    else if Targeted(ptr[1..], ptr[0].target) then KeptParts(ptr[1..], xs[1..])
    else [xs[0]] + KeptParts(ptr[1..], xs[1..])
  }

  /** What writing through a pointer does to the targets. */
  function WritePtr(store: Store, types: Types, ptr: Pointer, ty: Type, v: Value): Store {
    L.PutAll(PutSlice(types), store, Kept(ptr), KeptParts(ptr, SubValues(v, ty, ptr, 0)))
  }

  lemma {:induction false} LastingTail(ptr: Pointer, k: nat)
    requires ptr != []
    ensures Lasting(ptr[1..], k) <==> Lasting(ptr, k + 1)
    ensures Lasting(ptr, 0) <==> !Targeted(ptr[1..], ptr[0].target)
  {
    assert forall j :: 1 <= j < |ptr| ==> ptr[1..][j - 1] == ptr[j];
  }

  /** A lasting slice is kept. */
  lemma {:induction false} LastingKept(ptr: Pointer, xs: seq<Value>, k: nat) returns (i: nat)
    requires |xs| == |ptr| && Lasting(ptr, k)
    ensures i < |Kept(ptr)| && Kept(ptr)[i] == ptr[k] && KeptParts(ptr, xs)[i] == xs[k]
    decreases |ptr|
  {
    LastingTail(ptr, if k == 0 then 0 else k - 1);
    if k == 0 {
      i := 0;
    } else {
      i := LastingKept(ptr[1..], xs[1..], k - 1);
      if !Targeted(ptr[1..], ptr[0].target) {
        i := i + 1;
      }
    }
  }

  /** What is kept is a lasting slice. */
  lemma {:induction false} KeptLasting(ptr: Pointer, xs: seq<Value>, i: nat) returns (k: nat)
    requires |xs| == |ptr| && i < |Kept(ptr)|
    ensures Lasting(ptr, k) && Kept(ptr)[i] == ptr[k] && KeptParts(ptr, xs)[i] == xs[k]
    decreases |ptr|
  {
    var again := Targeted(ptr[1..], ptr[0].target);
    if !again && i == 0 {
      k := 0;
      LastingTail(ptr, 0);
    } else {
      k := KeptLasting(ptr[1..], xs[1..], if again then i else i - 1);
      LastingTail(ptr, k);
      k := k + 1;
    }
  }

  lemma {:induction false} KeptApart(apart: (ValueSlice, ValueSlice) -> bool, ptr: Pointer, r: ValueSlice)
    requires L.ApartFrom(apart, ptr, r)
    ensures L.ApartFrom(apart, Kept(ptr), r)
    decreases |ptr|
  {
    if ptr == [] {
    } else {
      KeptApart(apart, ptr[1..], r);
      if !Targeted(ptr[1..], ptr[0].target) {
        assert ([ptr[0]] + Kept(ptr[1..]))[1..] == Kept(ptr[1..]);
      }
    }
  }

  lemma {:induction false} KeptAllApart(apart: (ValueSlice, ValueSlice) -> bool, p: Pointer, q: Pointer)
    requires L.AllApart(apart, p, q)
    ensures L.AllApart(apart, Kept(p), Kept(q))
    decreases |q|
  {
    if q == [] {
    } else {
      KeptApart(apart, p, q[0]);
      KeptAllApart(apart, p, q[1..]);
      if !Targeted(q[1..], q[0].target) {
        assert ([q[0]] + Kept(q[1..]))[1..] == Kept(q[1..]);
      }
    }
  }

  lemma {:induction false} KeptFit(fits: (Store, ValueSlice, Value) -> bool, store: Store, ptr: Pointer,
      xs: seq<Value>)
    requires L.FitAll(fits, store, ptr, xs)
    ensures L.FitAll(fits, store, Kept(ptr), KeptParts(ptr, xs))
    decreases |ptr|
  {
    if ptr == [] {
    } else {
      KeptFit(fits, store, ptr[1..], xs[1..]);
      if !Targeted(ptr[1..], ptr[0].target) {
        assert ([ptr[0]] + Kept(ptr[1..]))[1..] == Kept(ptr[1..]);
        L.FitCons(fits, store, Kept(ptr), xs[0], KeptParts(ptr[1..], xs[1..]));
      }
    }
  }

  lemma {:induction false} KeptGets(get: (Store, ValueSlice) -> Value, store: Store, ptr: Pointer)
    ensures KeptParts(ptr, L.GetAll(get, store, ptr)) == L.GetAll(get, store, Kept(ptr))
    decreases |ptr|
  {
    if ptr == [] {
    } else {
      KeptGets(get, store, ptr[1..]);
      assert L.GetAll(get, store, ptr)[1..] == L.GetAll(get, store, ptr[1..]);
      if !Targeted(ptr[1..], ptr[0].target) {
        assert ([ptr[0]] + Kept(ptr[1..]))[1..] == Kept(ptr[1..]);
      }
    }
  }

  lemma {:induction false} KeptFresh(ptr: Pointer, r: ValueSlice)
    requires !Targeted(ptr, r.target)
    ensures L.ApartFrom(ApartSlices(), Kept(ptr), r)
  {
    DistinctApart(ptr, r);
    KeptApart(ApartSlices(), ptr, r);
  }

  lemma {:induction false} KeptPairwise(ptr: Pointer)
    ensures L.PairwiseApart(ApartSlices(), Kept(ptr))
    decreases |ptr|
  {
    if ptr == [] {
    } else {
      KeptPairwise(ptr[1..]);
      if !Targeted(ptr[1..], ptr[0].target) {
        KeptFresh(ptr[1..], ptr[0]);
        assert ([ptr[0]] + Kept(ptr[1..]))[1..] == Kept(ptr[1..]);
      }
    }
  }

  lemma {:induction false} KeptDistinct(ptr: Pointer)
    ensures DistinctTargets(Kept(ptr))
    decreases |ptr|
  {
    if ptr == [] {
    } else {
      KeptDistinct(ptr[1..]);
      if !Targeted(ptr[1..], ptr[0].target) {
        forall j | 0 <= j < |Kept(ptr[1..])|
          ensures Kept(ptr[1..])[j].target != ptr[0].target
        {
          var k := KeptLasting(ptr[1..], seq(|ptr[1..]|, _ => Struct([])), j);
        }
      }
    }
  }

  /** With distinct targets, every slice is kept. */
  lemma {:induction false} DistinctKept(ptr: Pointer, xs: seq<Value>)
    requires DistinctTargets(ptr) && |xs| == |ptr|
    ensures Kept(ptr) == ptr && KeptParts(ptr, xs) == xs
    decreases |ptr|
  {
    if ptr == [] {
    } else {
      DistinctKept(ptr[1..], xs[1..]);
      assert ptr == [ptr[0]] + ptr[1..] && xs == [xs[0]] + xs[1..];
    }
  }

  /** All slices of a pointer have different targets. */
  predicate DistinctTargets(ptr: Pointer) {
    forall j, k :: 0 <= j < k < |ptr| ==> ptr[j].target != ptr[k].target
  }

  lemma {:induction false} DistinctApart(ptr: Pointer, r: ValueSlice)
    requires !Targeted(ptr, r.target)
    ensures L.ApartFrom(ApartSlices(), ptr, r)
    decreases |ptr|
  {
    if ptr == [] {
    } else {
      assert forall k :: 1 <= k < |ptr| ==> ptr[1..][k - 1] == ptr[k];
      DistinctApart(ptr[1..], r);
    }
  }

  // ---------------------------------------------------------------- the reader of a store

  /** A slice that selects bits or elements, as many as it says. */
  predicate Readable(types: Types, s: ValueSlice) {
    match SliceType(types, s)
    case Some(IntType(w)) => w == s.width
    case Some(ArrayType(n, _)) => n == s.width
    case _ => false
  }

  function ReadParts(store: Store, types: Types, s: ValueSlice): seq<Part> {
    if StoreTyped(store, types) && SliceType(types, s).Some? then Parts(Load(store, types, s)) else []
  }

  function Reader(store: Store, types: Types): ValueSlice -> seq<Part> {
    s => ReadParts(store, types, s)
  }

  function ReaderOk(types: Types): ValueSlice -> bool {
    s => Readable(types, s)
  }

  lemma {:induction false} PathAppend(v: Value, ty: Type, p: seq<Select>, s: Select)
    requires FitsPath(v, ty, p) && StepType(PathType(ty, p).value, s).Some?
    ensures FitsPath(v, ty, p + [s]) && PathType(ty, p + [s]) == StepType(PathType(ty, p).value, s)
    ensures Read(v, ty, p + [s]) == Sub(Read(v, ty, p), PathType(ty, p).value, s)
    decreases |p|
  {
    if p == [] {
      assert (p + [s])[1..] == [];
    } else {
      assert (p + [s])[1..] == p[1..] + [s];
      PathAppend(Sub(v, ty, p[0]), StepType(ty, p[0]).value, p[1..], s);
    }
  }

  lemma {:induction false} NarrowReader(store: Store, types: Types, s: ValueSlice, off: nat, len: nat)
    requires StoreTyped(store, types) && Readable(types, s) && off + len <= s.width
    requires |ReadParts(store, types, s)| == s.width
    ensures Readable(types, Narrow(s, off, len))
    ensures ReadParts(store, types, Narrow(s, off, len)) == Chop(ReadParts(store, types, s), off, len)
  {
    var ty := SliceType(types, s).value;
    PathAppend(store[s.target], types[s.target], s.select, Slice(off, len));
    SubChunk(Load(store, types, s), ty, Slice(off, len));
  }

  lemma {:induction false} ReadableWidth(store: Store, types: Types, s: ValueSlice)
    requires StoreTyped(store, types) && Readable(types, s)
    ensures |ReadParts(store, types, s)| == s.width
  {
    var v := Load(store, types, s);
    assert v.Int? || v.Array?;
  }

  /** What the slices of a store yield respects narrowing. */
  lemma {:induction false} ReaderLawful(store: Store, types: Types)
    requires StoreTyped(store, types)
    ensures Lawful(ReaderOk(types), Reader(store, types))
  {
    var ok, read := ReaderOk(types), Reader(store, types);
    forall s {:trigger read(s)} | ok(s)
      ensures |read(s)| == s.width
    {
      ReadableWidth(store, types, s);
    }
    forall s, off: nat, len: nat {:trigger Narrow(s, off, len)} | ok(s) && off + len <= s.width
      ensures ok(Narrow(s, off, len)) && read(Narrow(s, off, len)) == Chop(read(s), off, len)
    {
      ReadableWidth(store, types, s);
      NarrowReader(store, types, s, off, len);
    }
  }

  // ---------------------------------------------------------------- reading a pointer

  /** What `read_pointer` returns: the value that is made of the contents of the slices. */
  predicate IsRead(store: Store, types: Types, ptr: Pointer, ty: Type, v: Value)
    requires StoreTyped(store, types) && Typed(types, ptr, ty)
  {
    && HasType(v, ty)
    && (if Sliceable(ty) then Parts(v) == Contents(Reader(store, types), ptr) else v == Load(store, types, ptr[0]))
  }

  lemma {:induction false} HasTypeSameKind(a: Value, b: Value, ty: Type)
    requires HasType(a, ty) && HasType(b, ty) && Sliceable(ty)
    ensures SameKind(a, b)
  {
  }

  lemma {:induction false} IsReadUnique(store: Store, types: Types, ptr: Pointer, ty: Type, v: Value, w: Value)
    requires StoreTyped(store, types) && Typed(types, ptr, ty)
    requires IsRead(store, types, ptr, ty, v) && IsRead(store, types, ptr, ty, w)
    ensures v == w
  {
    if Sliceable(ty) {
      HasTypeSameKind(v, w, ty);
      PartsExtensional(v, w);
    }
  }

  lemma {:induction false} SubValueParts(v: Value, ty: Type, at: nat, width: nat)
    requires HasType(v, ty) && Sliceable(ty) && at + width <= WidthOf(ty) && (width != 0 || WidthOf(ty) == 0)
    ensures |Parts(v)| == WidthOf(ty) && Parts(SubValue(v, ty, at, width)) == Chop(Parts(v), at, width)
  {
    if width != 0 {
      SubChunk(v, ty, Slice(at, width));
    }
  }

  lemma {:induction false} SliceHolds(store: Store, types: Types, s: ValueSlice, v: Value, ty: Type, at: nat)
    requires StoreTyped(store, types) && SliceType(types, s) == Some(Fragment(ty, s.width))
    requires HasType(v, ty) && Sliceable(ty) && at + s.width <= WidthOf(ty) && (s.width != 0 || WidthOf(ty) == 0)
    requires |Parts(v)| == WidthOf(ty)
    ensures ReadParts(store, types, s) == Chop(Parts(v), at, s.width) <==>
      Load(store, types, s) == SubValue(v, ty, at, s.width)
  {
    var a, b := Load(store, types, s), SubValue(v, ty, at, s.width);
    SubValueParts(v, ty, at, s.width);
    SubValueType(v, ty, at, s.width);
    HasTypeSameKind(a, b, Fragment(ty, s.width));
    if Parts(a) == Parts(b) {
      PartsExtensional(a, b);
    }
  }

  lemma {:induction false} ChopApart<T>(s: seq<T>, at: nat, a: nat, mid: nat, b: nat, x: seq<T>, y: seq<T>)
    requires mid == at + a && mid + b <= |s| && |x| == a && |y| == b
    ensures x + y == Chop(s, at, a + b) <==> x == Chop(s, at, a) && y == Chop(s, mid, b)
  {
    var l, r := x + y, Chop(s, at, a + b);
    if x == Chop(s, at, a) && y == Chop(s, mid, b) {
      assert forall k :: 0 <= k < a + b ==> l[k] == r[k];
    }
    if l == r {
      assert forall k :: 0 <= k < a ==> x[k] == l[k] == r[k];
      assert forall k :: 0 <= k < b ==> y[k] == l[a + k] == r[a + k];
    }
  }

  lemma {:induction false} PieceWidth(store: Store, types: Types, s: ValueSlice, ty: Type)
    requires StoreTyped(store, types) && SliceType(types, s) == Some(Fragment(ty, s.width)) && Sliceable(ty)
    ensures |ReadParts(store, types, s)| == s.width && Readable(types, s)
  {
    ReadableWidth(store, types, s);
  }

  lemma {:induction false} PiecesReadable(store: Store, types: Types, ptr: Pointer, ty: Type)
    requires StoreTyped(store, types) && PiecesOk(types, ptr, ty) && Sliceable(ty)
    ensures AllOk(ReaderOk(types), ptr) && |Contents(Reader(store, types), ptr)| == Width(ptr)
    decreases |ptr|
  {
    if ptr == [] {
    } else {
      PieceWidth(store, types, ptr[0], ty);
      PiecesReadable(store, types, ptr[1..], ty);
    }
  }

  /** A slice reads its window of some parts exactly if it yields its value. */
  ghost predicate HoldsAt<S, X>(read: ValueSlice -> seq<Part>, get: (S, ValueSlice) -> X, s: S, l: ValueSlice,
      parts: seq<Part>, at: nat, x: X)
  {
    |read(l)| == l.width && at + l.width <= |parts| && (read(l) == Chop(parts, at, l.width) <==> get(s, l) == x)
  }

  ghost predicate EachHolds<S, X>(read: ValueSlice -> seq<Part>, get: (S, ValueSlice) -> X, s: S, ptr: Pointer,
      parts: seq<Part>, at: nat, xs: seq<X>)
  {
    |xs| == |ptr| && (ptr == [] ||
      (HoldsAt(read, get, s, ptr[0], parts, at, xs[0])
        && EachHolds(read, get, s, ptr[1..], parts, at + ptr[0].width, xs[1..])))
  }

  lemma {:induction false} EachHoldsWidth<S, X>(read: ValueSlice -> seq<Part>, get: (S, ValueSlice) -> X, s: S,
      ptr: Pointer, parts: seq<Part>, at: nat, xs: seq<X>)
    requires EachHolds(read, get, s, ptr, parts, at, xs) && at <= |parts|
    ensures |Contents(read, ptr)| == Width(ptr) && at + Width(ptr) <= |parts|
    decreases |ptr|
  {
    if ptr == [] {
    } else {
      EachHoldsWidth(read, get, s, ptr[1..], parts, at + ptr[0].width, xs[1..]);
    }
  }

  /** The contents are a window of some parts exactly if every slice holds its window. */
  lemma {:induction false} EachHoldsAll<S, X>(read: ValueSlice -> seq<Part>, get: (S, ValueSlice) -> X, s: S,
      ptr: Pointer, parts: seq<Part>, at: nat, xs: seq<X>)
    requires EachHolds(read, get, s, ptr, parts, at, xs) && at + Width(ptr) <= |parts|
    ensures Contents(read, ptr) == Chop(parts, at, Width(ptr)) <==> L.GetAll(get, s, ptr) == xs
    decreases |ptr|
  {
    if ptr == [] {
    } else {
      var l, rest, mid := ptr[0], ptr[1..], at + ptr[0].width;
      EachHoldsAll(read, get, s, rest, parts, mid, xs[1..]);
      EachHoldsWidth(read, get, s, rest, parts, mid, xs[1..]);
      ChopApart(parts, at, l.width, mid, Width(rest), read(l), Contents(read, rest));
      L.ConsEqual(get(s, l), L.GetAll(get, s, rest), xs[0], xs[1..]);
      assert xs == [xs[0]] + xs[1..];
    }
  }

  lemma {:induction false} PieceHolds(store: Store, types: Types, l: ValueSlice, ty: Type, at: nat, v: Value)
    requires StoreTyped(store, types) && PieceAt(types, l, ty, at) && Sliceable(ty) && HasType(v, ty)
    requires |Parts(v)| == WidthOf(ty)
    ensures HoldsAt(Reader(store, types), GetSlice(types), store, l, Parts(v), at, SubValue(v, ty, at, l.width))
  {
    SliceHolds(store, types, l, v, ty, at);
    PieceWidth(store, types, l, ty);
  }

  lemma {:induction false} SplitHolds<S>(read: ValueSlice -> seq<Part>, get: (S, ValueSlice) -> Value, s: S,
      types: Types, ptr: Pointer, ty: Type, at: nat,
      parts: seq<Part>, sub: (nat, nat) -> Value)
    requires PiecesAt(types, ptr, ty, at)
    requires forall l, k: nat :: PieceAt(types, l, ty, k) ==> HoldsAt(read, get, s, l, parts, k, sub(k, l.width))
    ensures EachHolds(read, get, s, ptr, parts, at, Split(sub, ptr, at))
    decreases |ptr|
  {
    if ptr == [] {
    } else {
      assert PieceAt(types, ptr[0], ty, at);
      SplitHolds(read, get, s, types, ptr[1..], ty, at + ptr[0].width, parts, sub);
      EachHoldsCons(read, get, s, ptr, parts, at, sub(at, ptr[0].width), Split(sub, ptr[1..], at + ptr[0].width));
    }
  }

  lemma {:induction false} PiecesEach(store: Store, types: Types, ptr: Pointer, ty: Type, v: Value)
    requires StoreTyped(store, types) && Writable(types, ptr, ty) && Sliceable(ty) && HasType(v, ty)
    ensures EachHolds(Reader(store, types), GetSlice(types), store, ptr, Parts(v), 0, SubValues(v, ty, ptr, 0))
  {
    var sub := Pieces(v, ty);
    PartsWidth(v, ty);
    forall l, k: nat | PieceAt(types, l, ty, k)
      ensures HoldsAt(Reader(store, types), GetSlice(types), store, l, Parts(v), k, sub(k, l.width))
    {
      PieceHolds(store, types, l, ty, k, v);
    }
    WritablePieces(types, ptr, ty, 0);
    SplitHolds(Reader(store, types), GetSlice(types), store, types, ptr, ty, 0, Parts(v), sub);
  }

  lemma {:induction false} EachHoldsCons<S, X>(read: ValueSlice -> seq<Part>, get: (S, ValueSlice) -> X, s: S,
      ptr: Pointer, parts: seq<Part>, at: nat, x: X, xs: seq<X>)
    requires ptr != [] && HoldsAt(read, get, s, ptr[0], parts, at, x)
    requires EachHolds(read, get, s, ptr[1..], parts, at + ptr[0].width, xs)
    ensures EachHolds(read, get, s, ptr, parts, at, [x] + xs)
  {
    assert ([x] + xs)[1..] == xs;
  }

  lemma {:induction false} PartsWidth(v: Value, ty: Type)
    requires HasType(v, ty) && Sliceable(ty)
    ensures |Parts(v)| == WidthOf(ty) && Chop(Parts(v), 0, WidthOf(ty)) == Parts(v)
  {
  }

  /** A value is read from a pointer exactly if every slice holds its part. */
  lemma {:induction false} IsReadPieces(store: Store, types: Types, ptr: Pointer, ty: Type, v: Value)
    requires StoreTyped(store, types) && Writable(types, ptr, ty) && HasType(v, ty)
    ensures IsRead(store, types, ptr, ty, v) <==> L.GetAll(GetSlice(types), store, ptr) == SubValues(v, ty, ptr, 0)
  {
    if Sliceable(ty) {
      PartsWidth(v, ty);
      PiecesEach(store, types, ptr, ty, v);
      EachHoldsAll(Reader(store, types), GetSlice(types), store, ptr, Parts(v), 0, SubValues(v, ty, ptr, 0));
    } else {
      assert ptr[1..] == [];
      assert L.GetAll(GetSlice(types), store, ptr) == [Load(store, types, ptr[0])];
      assert SubValues(v, ty, ptr, 0) == [v];
    }
  }

  // ---------------------------------------------------------------- laws of pointers

  /** What the kept slices hold after a write. */
  lemma {:induction false} KeptHold(store: Store, types: Types, ptr: Pointer, ty: Type, v: Value)
    requires StoreTyped(store, types) && Writable(types, ptr, ty) && HasType(v, ty)
    ensures StoreTyped(WritePtr(store, types, ptr, ty, v), types)
    ensures L.GetAll(GetSlice(types), WritePtr(store, types, ptr, ty, v), Kept(ptr))
      == KeptParts(ptr, SubValues(v, ty, ptr, 0))
  {
    SliceLaws(types);
    SubValuesFit(store, types, ptr, ty, v);
    KeptFit(FitsSlice(types), store, ptr, SubValues(v, ty, ptr, 0));
    KeptPairwise(ptr);
    L.GetPutAll(FitsSlice(types), GetSlice(types), PutSlice(types), ApartSlices(), store, Kept(ptr),
      KeptParts(ptr, SubValues(v, ty, ptr, 0)));
    WriteTyped(store, types, Kept(ptr), KeptParts(ptr, SubValues(v, ty, ptr, 0)));
  }

  /** Reading after writing returns the written value. */
  lemma {:induction false} ReadAfterWrite(store: Store, types: Types, ptr: Pointer, ty: Type, v: Value)
    requires StoreTyped(store, types) && Writable(types, ptr, ty) && DistinctTargets(ptr) && HasType(v, ty)
    ensures StoreTyped(WritePtr(store, types, ptr, ty, v), types)
    ensures IsRead(WritePtr(store, types, ptr, ty, v), types, ptr, ty, v)
  {
    KeptHold(store, types, ptr, ty, v);
    DistinctKept(ptr, SubValues(v, ty, ptr, 0));
    IsReadPieces(WritePtr(store, types, ptr, ty, v), types, ptr, ty, v);
  }

  lemma {:induction false} WriteTyped(store: Store, types: Types, ptr: Pointer, xs: seq<Value>)
    requires StoreTyped(store, types) && |xs| == |ptr|
    ensures StoreTyped(L.PutAll(PutSlice(types), store, ptr, xs), types)
    ensures L.PutAll(PutSlice(types), store, ptr, xs).Keys == store.Keys
    decreases |ptr|
  {
    if ptr == [] {
    } else {
      WriteTyped(PutSlice(types)(store, ptr[0], xs[0]), types, ptr[1..], xs[1..]);
    }
  }

  /** Writing back what was read changes nothing. */
  lemma {:induction false} WriteBack(store: Store, types: Types, ptr: Pointer, ty: Type, v: Value)
    requires StoreTyped(store, types) && Writable(types, ptr, ty) && IsRead(store, types, ptr, ty, v)
    ensures WritePtr(store, types, ptr, ty, v) == store
  {
    SliceLaws(types);
    IsReadPieces(store, types, ptr, ty, v);
    SubValuesFit(store, types, ptr, ty, v);
    KeptFit(FitsSlice(types), store, ptr, SubValues(v, ty, ptr, 0));
    KeptGets(GetSlice(types), store, ptr);
    L.PutGetAll(FitsSlice(types), GetSlice(types), PutSlice(types), ApartSlices(), store, Kept(ptr));
  }

  /** A second write wins. */
  lemma {:induction false} SecondWriteWins(store: Store, types: Types, ptr: Pointer, ty: Type, v: Value, w: Value)
    requires StoreTyped(store, types) && Writable(types, ptr, ty) && HasType(v, ty) && HasType(w, ty)
    ensures WritePtr(WritePtr(store, types, ptr, ty, v), types, ptr, ty, w) == WritePtr(store, types, ptr, ty, w)
  {
    var fits := FitsSlice(types);
    SliceLaws(types);
    SubValuesFit(store, types, ptr, ty, v);
    SubValuesFit(store, types, ptr, ty, w);
    KeptFit(fits, store, ptr, SubValues(v, ty, ptr, 0));
    KeptFit(fits, store, ptr, SubValues(w, ty, ptr, 0));
    KeptPairwise(ptr);
    L.PutPutAll(fits, GetSlice(types), PutSlice(types), ApartSlices(), store, Kept(ptr),
      KeptParts(ptr, SubValues(v, ty, ptr, 0)), KeptParts(ptr, SubValues(w, ty, ptr, 0)));
  }

  /** No slice of one pointer has anything in common with a slice of the other. */
  predicate PointersApart(p: Pointer, q: Pointer) {
    forall i, j :: 0 <= i < |p| && 0 <= j < |q| ==> SlicesApart(p[i], q[j]) && SlicesApart(q[j], p[i])
  }

  lemma {:induction false} ApartFromSlice(p: Pointer, r: ValueSlice)
    requires forall i :: 0 <= i < |p| ==> SlicesApart(p[i], r) && SlicesApart(r, p[i])
    ensures L.ApartFrom(ApartSlices(), p, r)
    decreases |p|
  {
    if p == [] {
    } else {
      ApartFromSlice(p[1..], r);
    }
  }

  lemma {:induction false} PointersAllApart(p: Pointer, q: Pointer)
    requires PointersApart(p, q)
    ensures L.AllApart(ApartSlices(), p, q)
    decreases |q|
  {
    if q == [] {
    } else {
      ApartFromSlice(p, q[0]);
      PointersAllApart(p, q[1..]);
    }
  }

  lemma {:induction false} GetFits(store: Store, types: Types, ptr: Pointer, ty: Type)
    requires StoreTyped(store, types) && PiecesOk(types, ptr, ty)
    ensures L.FitAll(FitsSlice(types), store, ptr, L.GetAll(GetSlice(types), store, ptr))
    decreases |ptr|
  {
    if ptr == [] {
    } else {
      GetFits(store, types, ptr[1..], ty);
      L.FitCons(FitsSlice(types), store, ptr, Getting(types, store, ptr[0]),
        L.GetAll(GetSlice(types), store, ptr[1..]));
    }
  }

  lemma {:induction false} SameGets(a: Store, b: Store, types: Types, ptr: Pointer, ty: Type)
    requires StoreTyped(a, types) && StoreTyped(b, types) && PiecesOk(types, ptr, ty)
    requires L.GetAll(GetSlice(types), a, ptr) == L.GetAll(GetSlice(types), b, ptr)
    ensures Contents(Reader(a, types), ptr) == Contents(Reader(b, types), ptr)
    ensures ptr != [] ==> Load(a, types, ptr[0]) == Load(b, types, ptr[0])
    decreases |ptr|
  {
    if ptr == [] {
    } else {
      L.ConsEqual(Getting(types, a, ptr[0]), L.GetAll(GetSlice(types), a, ptr[1..]), Getting(types, b, ptr[0]),
        L.GetAll(GetSlice(types), b, ptr[1..]));
      SameGets(a, b, types, ptr[1..], ty);
    }
  }

  /** What a write does not share anything with keeps its contents. */
  lemma {:induction false} GetsKept(store: Store, types: Types, p: Pointer, pt: Type, v: Value, q: Pointer,
      xs: seq<Value>, apart: (ValueSlice, ValueSlice) -> bool)
    requires StoreTyped(store, types) && Writable(types, p, pt) && HasType(v, pt)
    requires L.Laws(FitsSlice(types), GetSlice(types), PutSlice(types), apart)
    requires L.FitAll(FitsSlice(types), store, q, xs) && L.AllApart(apart, Kept(p), q)
    ensures L.GetAll(GetSlice(types), WritePtr(store, types, p, pt, v), q) == L.GetAll(GetSlice(types), store, q)
  {
    SubValuesFit(store, types, p, pt, v);
    KeptFit(FitsSlice(types), store, p, SubValues(v, pt, p, 0));
    L.GetPutAllApart(FitsSlice(types), GetSlice(types), PutSlice(types), apart, store, Kept(p),
      KeptParts(p, SubValues(v, pt, p, 0)), q, xs);
  }

  lemma {:induction false} WritesCommute(store: Store, types: Types, p: Pointer, pt: Type, v: Value, q: Pointer,
      qt: Type, w: Value, apart: (ValueSlice, ValueSlice) -> bool)
    requires StoreTyped(store, types) && Writable(types, p, pt) && HasType(v, pt)
    requires Writable(types, q, qt) && HasType(w, qt)
    requires L.Laws(FitsSlice(types), GetSlice(types), PutSlice(types), apart) && L.AllApart(apart, Kept(p), Kept(q))
    ensures WritePtr(WritePtr(store, types, p, pt, v), types, q, qt, w)
      == WritePtr(WritePtr(store, types, q, qt, w), types, p, pt, v)
  {
    var xs, ys := SubValues(v, pt, p, 0), SubValues(w, qt, q, 0);
    SubValuesFit(store, types, p, pt, v);
    SubValuesFit(store, types, q, qt, w);
    KeptFit(FitsSlice(types), store, p, xs);
    KeptFit(FitsSlice(types), store, q, ys);
    L.PutAllCommute(FitsSlice(types), GetSlice(types), PutSlice(types), apart, store, Kept(p), KeptParts(p, xs),
      Kept(q), KeptParts(q, ys));
  }

  /** A write leaves everything alone that has nothing in common with it. */
  lemma {:induction false} DisjointUntouched(store: Store, types: Types, p: Pointer, pt: Type, v: Value, q: Pointer,
      qt: Type, w: Value)
    requires StoreTyped(store, types) && Writable(types, p, pt) && HasType(v, pt)
    requires Typed(types, q, qt) && PointersApart(p, q)
    ensures StoreTyped(WritePtr(store, types, p, pt, v), types)
    ensures IsRead(WritePtr(store, types, p, pt, v), types, q, qt, w) <==> IsRead(store, types, q, qt, w)
  {
    SliceLaws(types);
    GetFits(store, types, q, qt);
    PointersAllApart(p, q);
    KeptFirstApart(ApartSlices(), p, q);
    KeptHold(store, types, p, pt, v);
    GetsKept(store, types, p, pt, v, q, L.GetAll(GetSlice(types), store, q), ApartSlices());
    SameGets(WritePtr(store, types, p, pt, v), store, types, q, qt);
  }

  lemma {:induction false} KeptFirstApart(apart: (ValueSlice, ValueSlice) -> bool, p: Pointer, q: Pointer)
    requires L.AllApart(apart, p, q)
    ensures L.AllApart(apart, Kept(p), q)
    decreases |q|
  {
    if q == [] {
    } else {
      KeptApart(apart, p, q[0]);
      KeptFirstApart(apart, p, q[1..]);
    }
  }

  /** Writes that have nothing in common commute. */
  lemma {:induction false} DisjointWritesCommute(store: Store, types: Types, p: Pointer, pt: Type, v: Value, q: Pointer,
      qt: Type, w: Value)
    requires StoreTyped(store, types) && Writable(types, p, pt) && HasType(v, pt)
    requires Writable(types, q, qt) && HasType(w, qt) && PointersApart(p, q)
    ensures WritePtr(WritePtr(store, types, p, pt, v), types, q, qt, w)
      == WritePtr(WritePtr(store, types, q, qt, w), types, p, pt, v)
  {
    SliceLaws(types);
    PointersAllApart(p, q);
    KeptAllApart(ApartSlices(), p, q);
    WritesCommute(store, types, p, pt, v, q, qt, w, ApartSlices());
  }

  // ---------------------------------------------------------------- what happens to one target

  lemma {:induction false} OtherTargets(types: Types, s: Store, ls: Pointer, xs: seq<Value>, t: Target)
    requires |ls| == |xs| && forall k :: 0 <= k < |ls| ==> ls[k].target != t
    ensures t in L.PutAll(PutSlice(types), s, ls, xs) <==> t in s
    ensures t in s ==> L.PutAll(PutSlice(types), s, ls, xs)[t] == s[t]
    decreases |ls|
  {
    if ls == [] {
    } else {
      OtherTargets(types, PutSlice(types)(s, ls[0], xs[0]), ls[1..], xs[1..], t);
    }
  }

  /** With distinct targets, a target is written by its slice alone. */
  lemma {:induction false} OneTarget(types: Types, s: Store, ls: Pointer, xs: seq<Value>, k: nat)
    requires L.FitAll(FitsSlice(types), s, ls, xs) && DistinctTargets(ls) && k < |ls| && StoreTyped(s, types)
    ensures Fitting(types, s, ls[k], xs[k]) && ls[k].target in L.PutAll(PutSlice(types), s, ls, xs)
    ensures L.PutAll(PutSlice(types), s, ls, xs)[ls[k].target] == Stored(s, types, ls[k], xs[k])[ls[k].target]
    decreases |ls|
  {
    var s' := PutSlice(types)(s, ls[0], xs[0]);
    assert FitsSlice(types)(s, ls[0], xs[0]) == Fitting(types, s, ls[0], xs[0]);
    assert s' == Stored(s, types, ls[0], xs[0]);
    assert forall j {:trigger ls[1..][j]} :: 0 <= j < |ls[1..]| ==> ls[1..][j] == ls[j + 1];
    if k == 0 {
      OtherTargets(types, s', ls[1..], xs[1..], ls[0].target);
    } else {
      SliceLaws(types);
      L.FitAfterPut(FitsSlice(types), GetSlice(types), PutSlice(types), ApartSlices(), s, ls[0], xs[0], ls[1..],
        xs[1..]);
      OneTarget(types, s', ls[1..], xs[1..], k - 1);
      assert ls[1..][k - 1] == ls[k] && xs[1..][k - 1] == xs[k];
      assert s'[ls[k].target] == s[ls[k].target];
    }
  }

  /** A target has the value that its lasting slice left. */
  lemma {:induction false} LastingWritten(types: Types, s: Store, ptr: Pointer, xs: seq<Value>, k: nat)
    requires L.FitAll(FitsSlice(types), s, ptr, xs) && Lasting(ptr, k) && StoreTyped(s, types)
    ensures var s' := L.PutAll(PutSlice(types), s, Kept(ptr), KeptParts(ptr, xs));
      Fitting(types, s, ptr[k], xs[k]) && ptr[k].target in s'
      && s'[ptr[k].target] == Stored(s, types, ptr[k], xs[k])[ptr[k].target]
  {
    var i := LastingKept(ptr, xs, k);
    KeptFit(FitsSlice(types), s, ptr, xs);
    KeptDistinct(ptr);
    OneTarget(types, s, Kept(ptr), KeptParts(ptr, xs), i);
  }

  lemma {:induction false} TargetedTail(ptr: Pointer, t: Target)
    requires ptr != []
    ensures Targeted(ptr, t) <==> ptr[0].target == t || Targeted(ptr[1..], t)
  {
    if Targeted(ptr[1..], t) {
      var k :| 0 <= k < |ptr[1..]| && ptr[1..][k].target == t;
      assert ptr[k + 1].target == t;
    }
    if Targeted(ptr, t) && ptr[0].target != t {
      var k :| 0 <= k < |ptr| && ptr[k].target == t;
      assert ptr[1..][k - 1].target == t;
    }
  }

  /** The last slice on a target. */
  lemma {:induction false} LastOn(ptr: Pointer, t: Target) returns (k: nat)
    requires Targeted(ptr, t)
    ensures Lasting(ptr, k) && ptr[k].target == t
    decreases |ptr|
  {
    TargetedTail(ptr, t);
    if Targeted(ptr[1..], t) {
      k := LastOn(ptr[1..], t);
      LastingTail(ptr, k);
      k := k + 1;
    } else {
      LastingTail(ptr, 0);
      k := 0;
    }
  }

  lemma {:induction false} Untargeted(types: Types, s: Store, ptr: Pointer, xs: seq<Value>, t: Target)
    requires |xs| == |ptr| && !Targeted(ptr, t)
    ensures t in L.PutAll(PutSlice(types), s, Kept(ptr), KeptParts(ptr, xs)) <==> t in s
    ensures t in s ==> L.PutAll(PutSlice(types), s, Kept(ptr), KeptParts(ptr, xs))[t] == s[t]
  {
    forall i | 0 <= i < |Kept(ptr)|
      ensures Kept(ptr)[i].target != t
    {
      var k := KeptLasting(ptr, xs, i);
    }
    OtherTargets(types, s, Kept(ptr), KeptParts(ptr, xs), t);
  }
}
