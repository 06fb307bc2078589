/** The single cells of a value, and which of them a path of selections reaches.

    A cell is a bit of an integer, or a time.  A value is determined by its cells,
    and a write through a path changes exactly the cells that the path reaches. */
module Cells {
  import opened IntValues
  import opened Options
  import opened Values

  /** Where a cell is: the indices into arrays and structs on the way to it, and the bit. */
  type Address = seq<nat>

  datatype Leaf = BitLeaf(bit: bool) | TimeLeaf(time: real, delta: nat, epsilon: nat)

  predicate IsCell(ty: Type, a: Address)
    decreases |a|
  {
    match ty
    case TimeType => a == []
    case IntType(w) => |a| == 1 && a[0] < w
    case ArrayType(n, e) => a != [] && a[0] < n && IsCell(e, a[1..])
    case StructType(fs) => a != [] && a[0] < |fs| && IsCell(fs[a[0]], a[1..])
  }

  /** The type of an element or a field. */
  function ItemType(ty: Type, k: nat): Type {
    match ty
    case ArrayType(_, e) => e
    case StructType(fs) => if k < |fs| then fs[k] else ty
    case _ => ty
  }

  /** What is in a cell. */
  function LeafAt(v: Value, ty: Type, a: Address): Leaf
    requires HasType(v, ty) && IsCell(ty, a)
    decreases |a|
  {
    match v
    case Time(t, d, e) => TimeLeaf(t, d, e)
    case Int(i) => BitLeaf(i.Bits()[a[0]])
    case Array(items) => LeafAt(items[a[0]], ItemType(ty, a[0]), a[1..])
    case Struct(fields) => LeafAt(fields[a[0]], ItemType(ty, a[0]), a[1..])
  }

  /** The same, looked at as a sequence of parts. */
  predicate PartFits(part: Part, ty: Type, a: Address) {
    && a != [] && IsCell(ty, a)
    && if ty.IntType? then part.Bit? else part.Item? && HasType(part.item, ItemType(ty, a[0]))
  }

  function PartLeaf(part: Part, ty: Type, a: Address): Leaf
    requires PartFits(part, ty, a)
  {
    if ty.IntType? then BitLeaf(part.bit) else LeafAt(part.item, ItemType(ty, a[0]), a[1..])
  }

  lemma LeafOfPart(v: Value, ty: Type, a: Address)
    requires HasType(v, ty) && IsCell(ty, a) && !ty.TimeType?
    ensures a[0] < |Parts(v)| && PartFits(Parts(v)[a[0]], ty, a) && LeafAt(v, ty, a) == PartLeaf(Parts(v)[a[0]], ty, a)
  {
  }

  // ---------------------------------------------------------------- one step

  predicate Reaches(s: Select, a: Address) {
    a != [] && s.Lo() <= a[0] < s.Lo() + s.Len()
  }

  /** The address of a cell within what a step selects. */
  function Inner(s: Select, a: Address): Address
    requires Reaches(s, a)
  {
    match s
    case Field(_) => a[1..]
    case Slice(off, _) => a[0 := a[0] - off]
  }

  lemma InnerCell(ty: Type, s: Select, a: Address)
    requires StepType(ty, s).Some? && IsCell(ty, a) && Reaches(s, a)
    ensures IsCell(StepType(ty, s).value, Inner(s, a))
  {
    assert s.Slice? ==> Inner(s, a)[1..] == a[1..];
  }

  lemma LeafField(v: Value, ty: Type, s: Select, a: Address)
    requires s.Field? && Fits(v, ty, s) && IsCell(ty, a) && Reaches(s, a)
    ensures IsCell(StepType(ty, s).value, Inner(s, a))
    ensures LeafAt(Sub(v, ty, s), StepType(ty, s).value, Inner(s, a)) == LeafAt(v, ty, a)
  {
    InnerCell(ty, s, a);
    SubChunk(v, ty, s);
  }

  lemma SubPart(v: Value, ty: Type, s: Select, r: Value, i: nat, j: nat)
    requires s.Slice? && Fits(v, ty, s) && r == Sub(v, ty, s) && s.Lo() <= i < s.Lo() + s.Len() && j == i - s.Lo()
    ensures i < |Parts(v)| && j < |Parts(r)| && Parts(r)[j] == Parts(v)[i]
  {
    SubChunk(v, ty, s);
  }

  lemma LeafSlice(v: Value, ty: Type, s: Select, a: Address)
    requires s.Slice? && Fits(v, ty, s) && IsCell(ty, a) && Reaches(s, a)
    ensures IsCell(StepType(ty, s).value, Inner(s, a))
    ensures LeafAt(Sub(v, ty, s), StepType(ty, s).value, Inner(s, a)) == LeafAt(v, ty, a)
  {
    var r, t, b := Sub(v, ty, s), StepType(ty, s).value, Inner(s, a);
    InnerCell(ty, s, a);
    LeafOfPart(v, ty, a);
    LeafOfPart(r, t, b);
    SubPart(v, ty, s, r, a[0], b[0]);
    PartLeafSame(Parts(v)[a[0]], ty, a, t, b);
  }

  lemma PartLeafSame(part: Part, ty: Type, a: Address, t: Type, b: Address)
    requires PartFits(part, ty, a) && PartFits(part, t, b) && (ty.IntType? <==> t.IntType?)
    requires ItemType(t, b[0]) == ItemType(ty, a[0]) || ty.IntType?
    requires b[1..] == a[1..]
    ensures PartLeaf(part, ty, a) == PartLeaf(part, t, b)
  {
  }

  lemma LeafSub(v: Value, ty: Type, s: Select, a: Address)
    requires Fits(v, ty, s) && IsCell(ty, a) && Reaches(s, a)
    ensures IsCell(StepType(ty, s).value, Inner(s, a))
    ensures LeafAt(Sub(v, ty, s), StepType(ty, s).value, Inner(s, a)) == LeafAt(v, ty, a)
  {
    match s
    case Field(_) => LeafField(v, ty, s, a);
    case Slice(_, _) => LeafSlice(v, ty, s, a);
  }

  lemma LeafPut(v: Value, ty: Type, s: Select, x: Value, a: Address)
    requires Fits(v, ty, s) && HasType(x, StepType(ty, s).value) && IsCell(ty, a)
    ensures Reaches(s, a) ==> IsCell(StepType(ty, s).value, Inner(s, a))
    ensures LeafAt(Put(v, ty, s, x), ty, a) ==
      if Reaches(s, a) then LeafAt(x, StepType(ty, s).value, Inner(s, a)) else LeafAt(v, ty, a)
  {
    var r := Put(v, ty, s, x);
    PutParts(v, ty, s, x);
    LeafOfPart(v, ty, a);
    LeafOfPart(r, ty, a);
    SpliceAt(Parts(v), s.Lo(), s.Chunk(x), a[0]);
    if Reaches(s, a) {
      LeafSub(r, ty, s, a);
      SubPut(v, ty, s, x);
    }
  }

  // ---------------------------------------------------------------- paths

  /** The address of a cell within what a path selects, if the path reaches it. */
  function Locate(p: seq<Select>, a: Address): Option<Address>
    decreases |p|
  {
    if p == [] then Some(a)
    else if Reaches(p[0], a) then Locate(p[1..], Inner(p[0], a))
    else None
  }

  lemma {:induction false} LocateCell(ty: Type, p: seq<Select>, a: Address)
    requires PathType(ty, p).Some? && IsCell(ty, a) && Locate(p, a).Some?
    ensures IsCell(PathType(ty, p).value, Locate(p, a).value)
    decreases |p|
  {
    if p == [] {
    } else {
      InnerCell(ty, p[0], a);
      LocateCell(StepType(ty, p[0]).value, p[1..], Inner(p[0], a));
    }
  }

  lemma {:induction false} LeafRead(v: Value, ty: Type, p: seq<Select>, a: Address)
    requires FitsPath(v, ty, p) && IsCell(ty, a) && Locate(p, a).Some?
    ensures IsCell(PathType(ty, p).value, Locate(p, a).value)
    ensures LeafAt(Read(v, ty, p), PathType(ty, p).value, Locate(p, a).value) == LeafAt(v, ty, a)
    decreases |p|
  {
    if p == [] {
    } else {
      LeafSub(v, ty, p[0], a);
      LeafRead(Sub(v, ty, p[0]), StepType(ty, p[0]).value, p[1..], Inner(p[0], a));
    }
  }

  /** A write changes the cells that the path reaches, and no others. */
  lemma {:induction false} LeafWrite(v: Value, ty: Type, p: seq<Select>, x: Value, a: Address)
    requires FitsPath(v, ty, p) && HasType(x, PathType(ty, p).value) && IsCell(ty, a)
    ensures Locate(p, a).Some? ==> IsCell(PathType(ty, p).value, Locate(p, a).value)
    ensures LeafAt(Write(v, ty, p, x), ty, a) ==
      if Locate(p, a).Some? then LeafAt(x, PathType(ty, p).value, Locate(p, a).value) else LeafAt(v, ty, a)
    decreases |p|
  {
    if p == [] {
    } else {
      var t, sub := StepType(ty, p[0]).value, Sub(v, ty, p[0]);
      var w := Write(sub, t, p[1..], x);
      LeafPut(v, ty, p[0], w, a);
      if Reaches(p[0], a) {
        LeafSub(v, ty, p[0], a);
        LeafWrite(sub, t, p[1..], x, Inner(p[0], a));
      }
    }
  }

  // ---------------------------------------------------------------- values are their cells

  /** All cells agree. */
  ghost predicate SameCells(v: Value, w: Value, ty: Type)
    requires HasType(v, ty) && HasType(w, ty)
  {
    forall a {:trigger LeafAt(v, ty, a)} {:trigger LeafAt(w, ty, a)} :: IsCell(ty, a) ==>
      LeafAt(v, ty, a) == LeafAt(w, ty, a)
  }

  lemma {:induction false} SameItems(v: Value, w: Value, ty: Type, x: Value, y: Value, k: nat)
    requires HasType(v, ty) && HasType(w, ty) && SameCells(v, w, ty)
    requires (ty.ArrayType? && k < |v.items| && x == v.items[k] && y == w.items[k])
      || (ty.StructType? && k < |v.fields| && x == v.fields[k] && y == w.fields[k])
    ensures HasType(x, ItemType(ty, k)) && HasType(y, ItemType(ty, k)) && SameCells(x, y, ItemType(ty, k))
  {
    forall a | IsCell(ItemType(ty, k), a)
      ensures LeafAt(x, ItemType(ty, k), a) == LeafAt(y, ItemType(ty, k), a)
    {
      assert ([k] + a)[1..] == a;
      assert IsCell(ty, [k] + a);
      assert LeafAt(v, ty, [k] + a) == LeafAt(w, ty, [k] + a);
    }
  }

  /** A value is determined by its cells. */
  lemma {:induction false} CellsExtensional(v: Value, w: Value, ty: Type)
    requires HasType(v, ty) && HasType(w, ty) && SameCells(v, w, ty)
    ensures v == w
    decreases ty
  {
    match ty
    case TimeType =>
      assert LeafAt(v, ty, []) == LeafAt(w, ty, []);
    case IntType(n) =>
      forall i | 0 <= i < n
        ensures v.num.Bits()[i] == w.num.Bits()[i]
      {
        assert IsCell(ty, [i]);
        assert LeafAt(v, ty, [i]) == LeafAt(w, ty, [i]);
      }
      ValueExtensional(v.num, w.num);
    case ArrayType(n, e) =>
      forall k | 0 <= k < n
        ensures v.items[k] == w.items[k]
      {
        SameItems(v, w, ty, v.items[k], w.items[k], k);
        CellsExtensional(v.items[k], w.items[k], e);
      }
    case StructType(fs) =>
      forall k | 0 <= k < |fs|
        ensures v.fields[k] == w.fields[k]
      {
        SameItems(v, w, ty, v.fields[k], w.fields[k], k);
        CellsExtensional(v.fields[k], w.fields[k], fs[k]);
      }
  }

  // ---------------------------------------------------------------- every cell can vary

  /** The path to a cell. */
  function PathTo(ty: Type, a: Address): (p: seq<Select>)
    requires IsCell(ty, a)
    decreases |a|
  {
    match ty
    case TimeType => []
    case IntType(_) => [Slice(a[0], 1)]
    case _ => [Field(a[0])] + PathTo(ItemType(ty, a[0]), a[1..])
  }

  /** A value that tells two cell contents apart. */
  function LeafValue(time: bool, hi: bool): Value {
    if time then Time(if hi then 1.0 else 0.0, 0, 0) else Int(FromUnsigned(1, if hi then 1 else 0))
  }

  lemma LeafValueOk(time: bool, hi: bool)
    ensures HasType(LeafValue(time, hi), if time then TimeType else IntType(1))
    ensures time ==> LeafAt(LeafValue(time, hi), TimeType, []) == TimeLeaf(if hi then 1.0 else 0.0, 0, 0)
    ensures !time ==> LeafAt(LeafValue(time, hi), IntType(1), [0]) == BitLeaf(hi)
  {
    assert Pow2(1) == 2;
  }

  lemma {:induction false} PathToCell(ty: Type, a: Address)
    requires IsCell(ty, a)
    ensures PathType(ty, PathTo(ty, a)) == Some(TimeType) || PathType(ty, PathTo(ty, a)) == Some(IntType(1))
    ensures Locate(PathTo(ty, a), a) == Some(if PathType(ty, PathTo(ty, a)) == Some(TimeType) then [] else [0])
    decreases |a|
  {
    if ty.ArrayType? || ty.StructType? {
      PathToCell(ItemType(ty, a[0]), a[1..]);
      assert PathTo(ty, a)[1..] == PathTo(ItemType(ty, a[0]), a[1..]);
    } else if ty.IntType? {
      assert PathTo(ty, a)[1..] == [];
      assert a[0 := 0] == [0];
    }
  }

  /** There are two values that differ in a given cell. */
  lemma {:induction false} Vary(ty: Type, a: Address, hi: bool) returns (v: Value)
    requires IsCell(ty, a)
    ensures HasType(v, ty)
    ensures LeafAt(v, ty, a) == BitLeaf(hi) || LeafAt(v, ty, a) == TimeLeaf(if hi then 1.0 else 0.0, 0, 0)
  {
    var p := PathTo(ty, a);
    PathToCell(ty, a);
    var time := PathType(ty, p) == Some(TimeType);
    var x := LeafValue(time, hi);
    LeafValueOk(time, hi);
    v := Write(ZeroValue(ty), ty, p, x);
    LeafWrite(ZeroValue(ty), ty, p, x, a);
  }

  // ---------------------------------------------------------------- paths that share a cell

  /** Both paths reach the cell. */
  predicate Shared(ty: Type, p: seq<Select>, q: seq<Select>, a: Address) {
    IsCell(ty, a) && Locate(p, a).Some? && Locate(q, a).Some?
  }

  ghost predicate NothingShared(ty: Type, p: seq<Select>, q: seq<Select>) {
    forall a {:trigger Shared(ty, p, q, a)} :: !Shared(ty, p, q, a)
  }

  /** A write does not touch what shares no cell with it. */
  lemma ReadWriteUnshared(v: Value, ty: Type, p: seq<Select>, q: seq<Select>, x: Value)
    requires FitsPath(v, ty, p) && FitsPath(v, ty, q) && NothingShared(ty, p, q) && HasType(x, PathType(ty, p).value)
    ensures Read(Write(v, ty, p, x), ty, q) == Read(v, ty, q)
  {
    // Writing back what was there before, in the other order, shows that nothing has changed.
    WriteWriteUnshared(v, ty, p, x, q, Read(v, ty, q));
    WriteRead(v, ty, q);
    ReadWrite(Write(v, ty, p, x), ty, q, Read(v, ty, q));
  }

  /** Writes that share no cell commute. */
  lemma WriteWriteUnshared(v: Value, ty: Type, p: seq<Select>, x: Value, q: seq<Select>, y: Value)
    requires FitsPath(v, ty, p) && FitsPath(v, ty, q) && NothingShared(ty, p, q)
    requires HasType(x, PathType(ty, p).value) && HasType(y, PathType(ty, q).value)
    ensures Write(Write(v, ty, p, x), ty, q, y) == Write(Write(v, ty, q, y), ty, p, x)
  {
    var l, r := Write(Write(v, ty, p, x), ty, q, y), Write(Write(v, ty, q, y), ty, p, x);
    forall a | IsCell(ty, a)
      ensures LeafAt(l, ty, a) == LeafAt(r, ty, a)
    {
      assert !Shared(ty, p, q, a);
      LeafWrite(v, ty, p, x, a);
      LeafWrite(v, ty, q, y, a);
      LeafWrite(Write(v, ty, p, x), ty, q, y, a);
      LeafWrite(Write(v, ty, q, y), ty, p, x, a);
    }
    CellsExtensional(l, r, ty);
  }

  /** Paths that part ways share nothing. */
  lemma DisjointUnshared(v: Value, ty: Type, p: seq<Select>, q: seq<Select>)
    requires FitsPath(v, ty, p) && FitsPath(v, ty, q) && Disjoint(p, q)
    ensures NothingShared(ty, p, q)
  {
    forall a | Shared(ty, p, q, a)
      ensures false
    {
      LocateCell(ty, p, a);
      LocateCell(ty, q, a);
      var x := Vary(PathType(ty, p).value, Locate(p, a).value, true);
      var y := Vary(PathType(ty, q).value, Locate(q, a).value, false);
      WriteWriteDisjoint(v, ty, p, x, q, y);
      LeafWrite(v, ty, p, x, a);
      LeafWrite(v, ty, q, y, a);
      LeafWrite(Write(v, ty, p, x), ty, q, y, a);
      LeafWrite(Write(v, ty, q, y), ty, p, x, a);
    }
  }
}
