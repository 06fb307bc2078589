/** Field accesses through pointers, and the loops that write through a pointer
    (src/bin/llhd-sim/engine.rs). */
module PointerFields {
  import opened IntValues
  import L = Lenses
  import opened Options
  import opened PointerAccess
  import opened PointerOps
  import opened Pointers
  import opened Values

  // ---------------------------------------------------------------- fields

  /** A field of what a slice selects. */
  function FieldSlice(s: ValueSlice, fieldTy: Type, index: nat): ValueSlice {
    s.(width := WidthOf(fieldTy), select := s.select + [Field(index)])
  }

  /** The slice that holds a field, narrowed down to that field. */
  function FieldIn(ptr: Pointer, fieldTy: Type, field: nat): Pointer {
    if ptr == [] then []
    else if ptr[0].width == 0 || field < ptr[0].width then [FieldSlice(ptr[0], fieldTy, field)]
    else FieldIn(ptr[1..], fieldTy, field - ptr[0].width)
  }

  lemma {:induction false} ContentsAt(read: ValueSlice -> seq<Part>, ptr: Pointer, i: nat, offset: nat, k: nat)
    requires i < |ptr| && k < |read(ptr[i])| && offset == |Contents(read, ptr[..i])|
    ensures offset + k < |Contents(read, ptr)| && Contents(read, ptr)[offset + k] == read(ptr[i])[k]
  {
    assert ptr == ptr[..i] + ptr[i..];
    ContentsAppend(read, ptr[..i], ptr[i..]);
  }

  lemma {:induction false} FieldTyped(types: Types, s: ValueSlice, ty: Type, fieldTy: Type, k: nat)
    requires SliceType(types, s) == Some(ty) && StepType(ty, Field(k)) == Some(fieldTy)
    ensures SliceType(types, FieldSlice(s, fieldTy, k)) == Some(fieldTy)
      && Typed(types, [FieldSlice(s, fieldTy, k)], fieldTy)
  {
    PathTypeAppend(types[s.target], s.select, Field(k));
    assert Fragment(fieldTy, WidthOf(fieldTy)) == fieldTy;
  }

  lemma {:induction false} FieldLoads(store: Store, types: Types, s: ValueSlice, ty: Type, fieldTy: Type, k: nat)
    requires StoreTyped(store, types) && SliceType(types, s) == Some(ty) && StepType(ty, Field(k)) == Some(fieldTy)
    ensures Typed(types, [FieldSlice(s, fieldTy, k)], fieldTy)
    ensures IsRead(store, types, [FieldSlice(s, fieldTy, k)], fieldTy, Sub(Load(store, types, s), ty, Field(k)))
  {
    FieldTyped(types, s, ty, fieldTy, k);
    PathAppend(store[s.target], types[s.target], s.select, Field(k));
    var f := FieldSlice(s, fieldTy, k);
    assert [f][1..] == [];
    assert Contents(Reader(store, types), [f]) == ReadParts(store, types, f);
  }

  lemma {:induction false} SameItem(v: Value, ty: Type, i: nat, u: Value, uty: Type, k: nat)
    requires HasType(v, ty) && ty.ArrayType? && i < ty.length && HasType(u, uty) && uty.ArrayType? && k < uty.length
    requires Parts(v)[i] == Parts(u)[k]
    ensures Sub(v, ty, Field(i)) == Sub(u, uty, Field(k))
  {
  }

  lemma {:induction false} FieldOfPiece(store: Store, types: Types, ptr: Pointer, ty: Type, field: nat, i: nat,
      offset: nat, v: Value)
    requires StoreTyped(store, types) && Typed(types, ptr, ty) && ty.ArrayType? && field < ty.length
    requires i < |ptr| && offset == Width(ptr[..i]) && offset <= field < offset + ptr[i].width
    requires IsRead(store, types, ptr, ty, v)
    ensures SliceType(types, ptr[i]) == Some(Fragment(ty, ptr[i].width))
    ensures Sub(Load(store, types, ptr[i]), Fragment(ty, ptr[i].width), Field(field - offset))
      == Sub(v, ty, Field(field))
  {
    PiecesAtIndex(types, ptr, ty, i);
    PiecesReadable(store, types, ptr[..i], ty);
    PieceWidth(store, types, ptr[i], ty);
    ContentsAt(Reader(store, types), ptr, i, offset, field - offset);
    SameItem(v, ty, field, Load(store, types, ptr[i]), Fragment(ty, ptr[i].width), field - offset);
  }

  /** The slice that holds a field, and its offset. */
  predicate HoldsField(ptr: Pointer, field: nat, i: nat, offset: nat) {
    i < |ptr| && offset == Width(ptr[..i]) && (if ptr[i].width == 0 then i == 0
      else offset <= field < offset + ptr[i].width)
  }

  lemma {:induction false} FieldReads(store: Store, types: Types, ptr: Pointer, ty: Type, fieldTy: Type, field: nat,
      i: nat, offset: nat, v: Value)
    requires StoreTyped(store, types) && Typed(types, ptr, ty) && StepType(ty, Field(field)) == Some(fieldTy)
    requires HoldsField(ptr, field, i, offset) && (ptr[i].width == 0 <==> ty.StructType?)
    requires IsRead(store, types, ptr, ty, v)
    ensures field >= offset && Typed(types, [FieldSlice(ptr[i], fieldTy, field - offset)], fieldTy)
    ensures IsRead(store, types, [FieldSlice(ptr[i], fieldTy, field - offset)], fieldTy, Sub(v, ty, Field(field)))
  {
    if ty.ArrayType? {
      FieldOfPiece(store, types, ptr, ty, field, i, offset, v);
      FieldLoads(store, types, ptr[i], Fragment(ty, ptr[i].width), fieldTy, field - offset);
    } else {
      FieldLoads(store, types, ptr[0], ty, fieldTy, field);
    }
  }

  /** No slice is empty, up to the one that holds the field. */
  predicate NoneEmpty(ptr: Pointer, field: nat) {
    ptr != [] && ptr[0].width > 0 && (field < ptr[0].width || NoneEmpty(ptr[1..], field - ptr[0].width))
  }

  /** A field of an empty array is nothing. */
  lemma {:induction false} EmptyHasNoFields(types: Types, ptr: Pointer, ty: Type, fieldTy: Type, i: nat, k: nat)
    requires PiecesOk(types, ptr, ty) && ty.ArrayType? && i < |ptr| && ptr[i].width == 0
    ensures !Typed(types, [FieldSlice(ptr[i], fieldTy, k)], fieldTy)
  {
    PiecesAtIndex(types, ptr, ty, i);
    PathTypeAppend(types[ptr[i].target], ptr[i].select, Field(k));
    assert SliceType(types, FieldSlice(ptr[i], fieldTy, k)) == None;
  }

  /** The field extraction of `exec_insext`: find the slice that holds the field.  An empty slice of an array is taken
      to be a struct, and then the result points nowhere. */
  method ExtField(target: Pointer, ty: Type, field: nat, ghost types: Types) returns (r: Pointer)
    requires Typed(types, target, ty) && StepType(ty, Field(field)).Some?
    ensures r == FieldIn(target, StepType(ty, Field(field)).value, field)
    ensures Typed(types, r, StepType(ty, Field(field)).value) <==> (ty.ArrayType? ==> NoneEmpty(target, field))
    ensures (ty.ArrayType? ==> NoneEmpty(target, field)) ==>
      forall store, v :: StoreTyped(store, types) && IsRead(store, types, target, ty, v) ==>
        IsRead(store, types, r, StepType(ty, Field(field)).value, Sub(v, ty, Field(field)))
  {
    var fieldTy := if ty.ArrayType? then ty.elem else ty.fields[field];
    var offset: nat := 0;
    var i := 0;
    assert target[..|target|] == target && target[0..] == target;
    while i < |target|
      invariant i <= |target| && offset == Width(target[..i]) && offset <= field
      invariant ty.StructType? ==> i == 0
      invariant FieldIn(target[i..], fieldTy, field - offset) == FieldIn(target, fieldTy, field)
      invariant NoneEmpty(target[i..], field - offset) == NoneEmpty(target, field)
    {
      assert target[i..][1..] == target[i + 1..] && target[i..][0] == target[i];
      WidthSnoc(target, i);
      if target[i].width == 0 || (field >= offset && field < offset + target[i].width) {
        r := [FieldSlice(target[i], fieldTy, field - offset)];
        if ty.ArrayType? && target[i].width == 0 {
          EmptyHasNoFields(types, target, ty, fieldTy, i, field - offset);
        } else {
          FieldFound(types, target, ty, fieldTy, field, i, offset);
        }
        return;
      }
      offset := offset + target[i].width;
      i := i + 1;
    }
    assert false;
  }

  lemma {:induction false} FieldFound(types: Types, ptr: Pointer, ty: Type, fieldTy: Type, field: nat, i: nat,
      offset: nat)
    requires Typed(types, ptr, ty) && StepType(ty, Field(field)) == Some(fieldTy)
    requires HoldsField(ptr, field, i, offset) && (ptr[i].width == 0 <==> ty.StructType?)
    ensures field >= offset && Typed(types, [FieldSlice(ptr[i], fieldTy, field - offset)], fieldTy)
    ensures forall store, v :: StoreTyped(store, types) && IsRead(store, types, ptr, ty, v) ==>
      IsRead(store, types, [FieldSlice(ptr[i], fieldTy, field - offset)], fieldTy, Sub(v, ty, Field(field)))
  {
    PiecesAtIndex(types, ptr, ty, i);
    FieldTyped(types, ptr[i], Fragment(ty, ptr[i].width), fieldTy, field - offset);
    forall store, v | StoreTyped(store, types) && IsRead(store, types, ptr, ty, v)
      ensures IsRead(store, types, [FieldSlice(ptr[i], fieldTy, field - offset)], fieldTy, Sub(v, ty, Field(field)))
    {
      FieldReads(store, types, ptr, ty, fieldTy, field, i, offset, v);
    }
  }
}
