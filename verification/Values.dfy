/** Simulator values (src/bin/llhd-sim/value.rs) and selections into them
    (src/bin/llhd-sim/engine.rs): an integer, array or struct is looked at as the
    sequence of its parts, and a selection as a window onto these. */
module Values {
  import opened IntValues
  import opened Options

  datatype Type =
    | TimeType
    | IntType(width: nat)
    | ArrayType(length: nat, elem: Type)
    | StructType(fields: seq<Type>)

  datatype Value =
    | Time(time: real, delta: nat, epsilon: nat)
    | Int(num: IntValue)
    | Array(items: seq<Value>)
    | Struct(fields: seq<Value>)

  predicate HasType(v: Value, ty: Type) {
    match ty
    case TimeType => v.Time?
    case IntType(w) => v.Int? && v.num.Valid() && v.num.width == w
    case ArrayType(n, e) => v.Array? && |v.items| == n && forall k :: 0 <= k < n ==> HasType(v.items[k], e)
    case StructType(fs) => v.Struct? && |v.fields| == |fs| && forall k :: 0 <= k < |fs| ==> HasType(v.fields[k], fs[k])
  }

  /** The number of bits or elements. */
  function WidthOf(ty: Type): nat {
    match ty
    case IntType(w) => w
    case ArrayType(n, _) => n
    case _ => 0
  }

  /** The integer or array type with another number of bits or elements. */
  function Fragment(ty: Type, width: nat): Type {
    match ty
    case IntType(_) => IntType(width)
    case ArrayType(_, e) => ArrayType(width, e)
    case _ => ty
  }

  predicate Sliceable(ty: Type) {
    ty.IntType? || ty.ArrayType?
  }

  /** The value that is all zeros. */
  function ZeroValue(ty: Type): (v: Value)
    ensures HasType(v, ty)
    decreases ty
  {
    match ty
    case TimeType => Time(0.0, 0, 0)
    case IntType(w) => Int(IntValue(w, 0))
    case ArrayType(n, e) => var z := ZeroValue(e); Array(seq(n, _ => z))
    case StructType(fs) => Struct(seq(|fs|, k requires 0 <= k < |fs| => ZeroValue(fs[k])))
  }

  // ---------------------------------------------------------------- parts

  datatype Part = Bit(bit: bool) | Item(item: Value)

  function BitParts(s: seq<bool>): (r: seq<Part>)
    ensures |r| == |s| && forall k :: 0 <= k < |s| ==> r[k] == Bit(s[k])
  {
    seq(|s|, k requires 0 <= k < |s| => Bit(s[k]))
  }

  function ItemParts(s: seq<Value>): (r: seq<Part>)
    ensures |r| == |s| && forall k :: 0 <= k < |s| ==> r[k] == Item(s[k])
  {
    seq(|s|, k requires 0 <= k < |s| => Item(s[k]))
  }

  /** The bits of an integer, the elements of an array, the fields of a struct. */
  function Parts(v: Value): seq<Part> {
    match v
    case Time(_, _, _) => []
    case Int(i) => BitParts(i.Bits())
    case Array(items) => ItemParts(items)
    case Struct(fields) => ItemParts(fields)
  }

  predicate SameKind(a: Value, b: Value) {
    (a.Int? && b.Int? && a.num.Valid() && b.num.Valid()) || (a.Array? && b.Array?) || (a.Struct? && b.Struct?)
  }

  /** A value is determined by its kind and its parts. */
  lemma PartsExtensional(a: Value, b: Value)
    requires SameKind(a, b) && Parts(a) == Parts(b)
    ensures a == b
  {
    match a
    case Int(i) =>
      forall k | 0 <= k < |i.Bits()|
        ensures i.Bits()[k] == b.num.Bits()[k]
      {
        assert Parts(a)[k] == Parts(b)[k];
      }
      assert |Parts(a)| == |Parts(b)|;
      ValueExtensional(i, b.num);
    case Array(items) =>
      assert |Parts(a)| == |Parts(b)|;
      forall k | 0 <= k < |items|
        ensures items[k] == b.items[k]
      {
        assert Parts(a)[k] == Parts(b)[k];
      }
    case Struct(fields) =>
      assert |Parts(a)| == |Parts(b)|;
      forall k | 0 <= k < |fields|
        ensures fields[k] == b.fields[k]
      {
        assert Parts(a)[k] == Parts(b)[k];
      }
  }

  /** Replace a window of a sequence by something of the same length. */
  function Splice<T>(s: seq<T>, lo: nat, mid: seq<T>): (r: seq<T>)
    requires lo + |mid| <= |s|
    ensures |r| == |s|
  {
    s[..lo] + mid + s[lo + |mid|..]
  }

  lemma SpliceAt<T>(s: seq<T>, lo: nat, mid: seq<T>, k: nat)
    requires lo + |mid| <= |s| && k < |s|
    ensures Splice(s, lo, mid)[k] == if lo <= k < lo + |mid| then mid[k - lo] else s[k]
  {
  }

  lemma SpliceSame<T>(s: seq<T>, lo: nat, a: seq<T>, b: seq<T>)
    requires lo + |a| <= |s| && |a| == |b|
    ensures Splice(Splice(s, lo, a), lo, b) == Splice(s, lo, b)
  {
  }

  lemma SpliceBack<T>(s: seq<T>, lo: nat, n: nat)
    requires lo + n <= |s|
    ensures Splice(s, lo, s[lo..lo + n]) == s
  {
  }

  lemma SpliceRead<T>(s: seq<T>, lo: nat, mid: seq<T>)
    requires lo + |mid| <= |s|
    ensures Splice(s, lo, mid)[lo..lo + |mid|] == mid
  {
  }

  lemma SpliceReadApart<T>(s: seq<T>, lo: nat, mid: seq<T>, j: nat, n: nat)
    requires lo + |mid| <= |s| && j + n <= |s|
    requires |mid| == 0 || n == 0 || lo + |mid| <= j || j + n <= lo
    ensures Splice(s, lo, mid)[j..j + n] == s[j..j + n]
  {
    var t := Splice(s, lo, mid);
    var l, r := t[j..j + n], s[j..j + n];
    forall k | 0 <= k < n
      ensures l[k] == r[k]
    {
      SpliceAt(s, lo, mid, j + k);
    }
  }

  lemma SpliceApart<T>(s: seq<T>, i: nat, a: seq<T>, j: nat, b: seq<T>)
    requires i + |a| <= |s| && j + |b| <= |s|
    requires |a| == 0 || |b| == 0 || i + |a| <= j || j + |b| <= i
    ensures Splice(Splice(s, i, a), j, b) == Splice(Splice(s, j, b), i, a)
  {
    var l, r := Splice(Splice(s, i, a), j, b), Splice(Splice(s, j, b), i, a);
    forall k | 0 <= k < |s|
      ensures l[k] == r[k]
    {
      SpliceAt(s, i, a, k);
      SpliceAt(s, j, b, k);
      SpliceAt(Splice(s, i, a), j, b, k);
      SpliceAt(Splice(s, j, b), i, a, k);
    }
  }

  lemma SliceOfSlice<T>(s: seq<T>, lo: nat, n: nat, i: nat, m: nat)
    requires lo + n <= |s| && i + m <= n
    ensures s[lo..lo + n][i..i + m] == s[lo + i..lo + i + m]
  {
    var l, r := s[lo..lo + n][i..i + m], s[lo + i..lo + i + m];
    assert |l| == |r|;
    forall k | 0 <= k < m
      ensures l[k] == r[k]
    {
      assert l[k] == s[lo..lo + n][i + k] == s[lo + i + k];
    }
  }

  lemma SpliceWithin<T>(s: seq<T>, lo: nat, n: nat, i: nat, a: seq<T>)
    requires lo + n <= |s| && i + |a| <= n
    ensures Splice(s, lo, Splice(s[lo..lo + n], i, a)) == Splice(s, lo + i, a)
  {
    var l, r := Splice(s, lo, Splice(s[lo..lo + n], i, a)), Splice(s, lo + i, a);
    forall k | 0 <= k < |s|
      ensures l[k] == r[k]
    {
      SpliceAt(s, lo, Splice(s[lo..lo + n], i, a), k);
      SpliceAt(s, lo + i, a, k);
      if lo <= k < lo + n {
        SpliceAt(s[lo..lo + n], i, a, k - lo);
      }
    }
  }

  // ---------------------------------------------------------------- one selection step

  /** A selection of a part of a value. */
  datatype Select = Field(index: nat) | Slice(offset: nat, length: nat) {
    function Lo(): nat {
      if Field? then index else offset
    }

    function Len(): nat {
      if Field? then 1 else length
    }

    /** The parts that stand for the selected value. */
    function Chunk(v: Value): seq<Part> {
      if Field? then [Item(v)] else Parts(v)
    }
  }

  /** The type of what a selection selects. */
  function StepType(ty: Type, s: Select): Option<Type> {
    match s
    case Field(i) => (
      match ty
      case ArrayType(n, e) => if i < n then Some(e) else None
      case StructType(fs) => if i < |fs| then Some(fs[i]) else None
      case _ => None)
    case Slice(off, len) => (
      match ty
      case IntType(w) => if off + len <= w then Some(IntType(len)) else None
      case ArrayType(n, e) => if off + len <= n then Some(ArrayType(len, e)) else None
      case _ => None)
  }

  predicate Fits(v: Value, ty: Type, s: Select) {
    HasType(v, ty) && StepType(ty, s).Some?
  }

  /** Extract a field or a slice. */
  function Sub(v: Value, ty: Type, s: Select): (r: Value)
    requires Fits(v, ty, s)
    ensures HasType(r, StepType(ty, s).value)
    ensures s.Lo() + s.Len() <= |Parts(v)|
    ensures s.Chunk(r) == Parts(v)[s.Lo()..s.Lo() + s.Len()]
  {
    match s
    case Field(i) => if v.Array? then v.items[i] else v.fields[i]
    case Slice(off, len) =>
      if v.Int? then
        Int(v.num.ExtractSlice(off, len))
      else
        Array(v.items[off..off + len])
  }

  /** Insert a single element or field. */
  function PutField(v: Value, ty: Type, i: nat, x: Value): (r: Value)
    requires Fits(v, ty, Field(i)) && HasType(x, StepType(ty, Field(i)).value)
    ensures HasType(r, ty) && SameKind(v, r) && i < |Parts(v)| && Parts(r) == Splice(Parts(v), i, [Item(x)])
  {
    if v.Array? then Array(v.items[i := x]) else Struct(v.fields[i := x])
  }

  /** Insert a slice of bits. */
  function PutBits(v: IntValue, off: nat, len: nat, x: IntValue): (r: IntValue)
    requires v.Valid() && x.Valid() && x.width == len && off + len <= v.width
    ensures r.Valid() && r.width == v.width && BitParts(r.Bits()) == Splice(BitParts(v.Bits()), off, BitParts(x.Bits()))
  {
    v.InsertSlice(off, len, x)
  }

  /** Insert a slice of elements. */
  function PutItems(items: seq<Value>, off: nat, len: nat, x: seq<Value>): (r: seq<Value>)
    requires |x| == len && off + len <= |items|
    ensures |r| == |items| && ItemParts(r) == Splice(ItemParts(items), off, ItemParts(x))
    ensures forall k :: 0 <= k < |r| ==> r[k] == if off <= k < off + len then x[k - off] else items[k]
  {
    items[..off] + x + items[off + len..]
  }

  /** Insert a field or a slice. */
  function Put(v: Value, ty: Type, s: Select, x: Value): (r: Value)
    requires Fits(v, ty, s) && HasType(x, StepType(ty, s).value)
    ensures HasType(r, ty) && (SameKind(v, r))
    ensures |s.Chunk(x)| == s.Len() && s.Lo() + s.Len() <= |Parts(v)|
    ensures Parts(r) == Splice(Parts(v), s.Lo(), s.Chunk(x))
  {
    match s
    case Field(i) => PutField(v, ty, i, x)
    case Slice(off, len) =>
      if v.Int? then Int(PutBits(v.num, off, len, x.num)) else Array(PutItems(v.items, off, len, x.items))
  }

  lemma ChunkExtensional(s: Select, ty: Type, a: Value, b: Value)
    requires StepType(ty, s).Some? && HasType(a, StepType(ty, s).value) && HasType(b, StepType(ty, s).value)
    requires s.Chunk(a) == s.Chunk(b)
    ensures a == b
  {
    match s
    case Field(_) => assert s.Chunk(a)[0] == s.Chunk(b)[0];
    case Slice(_, _) => PartsExtensional(a, b);
  }

  lemma SubChunk(v: Value, ty: Type, s: Select)
    requires Fits(v, ty, s)
    ensures s.Lo() + s.Len() <= |Parts(v)| && s.Chunk(Sub(v, ty, s)) == Parts(v)[s.Lo()..s.Lo() + s.Len()]
  {
    var _ := Sub(v, ty, s);
  }

  lemma PutParts(v: Value, ty: Type, s: Select, x: Value)
    requires Fits(v, ty, s) && HasType(x, StepType(ty, s).value)
    ensures |s.Chunk(x)| == s.Len() && s.Lo() + s.Len() <= |Parts(v)|
    ensures Parts(Put(v, ty, s, x)) == Splice(Parts(v), s.Lo(), s.Chunk(x)) && SameKind(v, Put(v, ty, s, x))
  {
    var _ := Put(v, ty, s, x);
  }

  /** Reading back what was put in. */
  lemma SubPut(v: Value, ty: Type, s: Select, x: Value)
    requires Fits(v, ty, s) && HasType(x, StepType(ty, s).value)
    ensures Sub(Put(v, ty, s, x), ty, s) == x
  {
    var r := Put(v, ty, s, x);
    SpliceRead(Parts(v), s.Lo(), s.Chunk(x));
    ChunkExtensional(s, ty, Sub(r, ty, s), x);
  }

  /** Putting back what was read. */
  lemma PutSub(v: Value, ty: Type, s: Select)
    requires Fits(v, ty, s)
    ensures Put(v, ty, s, Sub(v, ty, s)) == v
  {
    var r := Put(v, ty, s, Sub(v, ty, s));
    SpliceBack(Parts(v), s.Lo(), s.Len());
    PartsExtensional(r, v);
  }

  /** The last one to put something in wins. */
  lemma PutPut(v: Value, ty: Type, s: Select, x: Value, y: Value)
    requires Fits(v, ty, s) && HasType(x, StepType(ty, s).value) && HasType(y, StepType(ty, s).value)
    ensures Put(Put(v, ty, s, x), ty, s, y) == Put(v, ty, s, y)
  {
    var a, b := Put(Put(v, ty, s, x), ty, s, y), Put(v, ty, s, y);
    SpliceSame(Parts(v), s.Lo(), s.Chunk(x), s.Chunk(y));
    PartsExtensional(a, b);
  }

  /** Two windows without a common part. */
  predicate Apart(s: Select, r: Select) {
    s.Len() == 0 || r.Len() == 0 || s.Lo() + s.Len() <= r.Lo() || r.Lo() + r.Len() <= s.Lo()
  }

  lemma ApartChunks(p: seq<Part>, w: seq<Part>, mid: seq<Part>, s: Select, r: Select, a: Value, b: Value)
    requires Apart(s, r) && |mid| == s.Len() && s.Lo() + s.Len() <= |p| && r.Lo() + r.Len() <= |p|
    requires w == Splice(p, s.Lo(), mid)
    requires r.Chunk(a) == w[r.Lo()..r.Lo() + r.Len()] && r.Chunk(b) == p[r.Lo()..r.Lo() + r.Len()]
    ensures r.Chunk(a) == r.Chunk(b)
  {
    SpliceReadApart(p, s.Lo(), mid, r.Lo(), r.Len());
  }

  lemma SubPutApart(v: Value, ty: Type, s: Select, r: Select, x: Value)
    requires Fits(v, ty, s) && Fits(v, ty, r) && Apart(s, r) && HasType(x, StepType(ty, s).value)
    ensures Sub(Put(v, ty, s, x), ty, r) == Sub(v, ty, r)
  {
    var w := Put(v, ty, s, x);
    var a, b := Sub(w, ty, r), Sub(v, ty, r);
    PutParts(v, ty, s, x);
    SubChunk(v, ty, r);
    SubChunk(w, ty, r);
    ApartChunks(Parts(v), Parts(w), s.Chunk(x), s, r, a, b);
    ChunkExtensional(r, ty, a, b);
  }

  lemma PutPutApart(v: Value, ty: Type, s: Select, x: Value, r: Select, y: Value)
    requires Fits(v, ty, s) && Fits(v, ty, r) && Apart(s, r)
    requires HasType(x, StepType(ty, s).value) && HasType(y, StepType(ty, r).value)
    ensures Put(Put(v, ty, s, x), ty, r, y) == Put(Put(v, ty, r, y), ty, s, x)
  {
    var a, b := Put(Put(v, ty, s, x), ty, r, y), Put(Put(v, ty, r, y), ty, s, x);
    PutParts(v, ty, s, x);
    PutParts(v, ty, r, y);
    SpliceApart(Parts(v), s.Lo(), s.Chunk(x), r.Lo(), r.Chunk(y));
    PartsExtensional(a, b);
  }

  // ---------------------------------------------------------------- selection paths

  function PathType(ty: Type, p: seq<Select>): Option<Type>
    decreases |p|
  {
    if p == [] then Some(ty)
    else match StepType(ty, p[0])
      case Some(t) => PathType(t, p[1..])
      case None => None
  }

  predicate FitsPath(v: Value, ty: Type, p: seq<Select>) {
    HasType(v, ty) && PathType(ty, p).Some?
  }

  /** Read through a path of selections. */
  function Read(v: Value, ty: Type, p: seq<Select>): (r: Value)
    requires FitsPath(v, ty, p)
    ensures HasType(r, PathType(ty, p).value)
    decreases |p|
  {
    if p == [] then v
    else Read(Sub(v, ty, p[0]), StepType(ty, p[0]).value, p[1..])
  }

  /** Write through a path of selections: what is left in the value afterwards. */
  function Write(v: Value, ty: Type, p: seq<Select>, x: Value): (r: Value)
    requires FitsPath(v, ty, p) && HasType(x, PathType(ty, p).value)
    ensures HasType(r, ty)
    decreases |p|
  {
    if p == [] then x
    else Put(v, ty, p[0], Write(Sub(v, ty, p[0]), StepType(ty, p[0]).value, p[1..], x))
  }

  /** Reading after writing yields the written value. */
  lemma {:induction false} ReadWrite(v: Value, ty: Type, p: seq<Select>, x: Value)
    requires FitsPath(v, ty, p) && HasType(x, PathType(ty, p).value)
    ensures Read(Write(v, ty, p, x), ty, p) == x
    decreases |p|
  {
    if p == [] {
    } else {
      var t := StepType(ty, p[0]).value;
      var sub := Sub(v, ty, p[0]);
      ReadWrite(sub, t, p[1..], x);
      SubPut(v, ty, p[0], Write(sub, t, p[1..], x));
    }
  }

  /** Writing back what was read changes nothing. */
  lemma {:induction false} WriteRead(v: Value, ty: Type, p: seq<Select>)
    requires FitsPath(v, ty, p)
    ensures Write(v, ty, p, Read(v, ty, p)) == v
    decreases |p|
  {
    if p == [] {
    } else {
      WriteRead(Sub(v, ty, p[0]), StepType(ty, p[0]).value, p[1..]);
      PutSub(v, ty, p[0]);
    }
  }

  /** A second write wins. */
  lemma {:induction false} WriteWrite(v: Value, ty: Type, p: seq<Select>, x: Value, y: Value)
    requires FitsPath(v, ty, p) && HasType(x, PathType(ty, p).value) && HasType(y, PathType(ty, p).value)
    ensures Write(Write(v, ty, p, x), ty, p, y) == Write(v, ty, p, y)
    decreases |p|
  {
    if p == [] {
    } else {
      var t := StepType(ty, p[0]).value;
      var sub := Sub(v, ty, p[0]);
      WriteWrite(sub, t, p[1..], x, y);
      var wx := Write(sub, t, p[1..], x);
      SubPut(v, ty, p[0], wx);
      PutPut(v, ty, p[0], wx, Write(sub, t, p[1..], y));
    }
  }

  // ---------------------------------------------------------------- normal form

  /** Merge slices into what follows them: fields first, then at most one slice. */
  function Norm(p: seq<Select>): seq<Select> {
    if p == [] then []
    else NormStep(p[0], Norm(p[1..]))
  }

  /** A slice followed by a step, as one step. */
  function Merge(off: nat, s: Select): Select {
    if s.Field? then Field(off + s.index) else Slice(off + s.offset, s.length)
  }

  lemma MergeType(ty: Type, off: nat, len: nat, s: Select)
    requires StepType(ty, Slice(off, len)).Some? && StepType(StepType(ty, Slice(off, len)).value, s).Some?
    ensures StepType(ty, Merge(off, s)) == StepType(StepType(ty, Slice(off, len)).value, s)
    ensures s.Lo() + s.Len() <= len
  {
  }

  lemma MergeChunk(off: nat, s: Select, v: Value)
    ensures Merge(off, s).Lo() == off + s.Lo() && Merge(off, s).Len() == s.Len() && Merge(off, s).Chunk(v) == s.Chunk(v)
  {
  }

  lemma MergeChunks<T>(p: seq<T>, a: seq<T>, b: seq<T>, c: seq<T>, off: nat, len: nat, lo: nat, n: nat)
    requires off + len <= |p| && lo + n <= len
    requires a == p[off..off + len] && b == a[lo..lo + n] && c == p[off + lo..off + lo + n]
    ensures b == c
  {
    SliceOfSlice(p, off, len, lo, n);
  }

  /** The same chunk, whether it is looked for at once or in two steps. */
  lemma MergedChunk(v: seq<Part>, a: seq<Part>, off: nat, len: nat, s: Select, b: Value, c: Value)
    requires off + len <= |v| && s.Lo() + s.Len() <= len && a == v[off..off + len]
    requires s.Chunk(b) == a[s.Lo()..s.Lo() + s.Len()]
    requires Merge(off, s).Chunk(c) == v[Merge(off, s).Lo()..Merge(off, s).Lo() + Merge(off, s).Len()]
    ensures s.Chunk(b) == s.Chunk(c)
  {
    MergeChunk(off, s, c);
    MergeChunks(v, a, s.Chunk(b), s.Chunk(c), off, len, s.Lo(), s.Len());
  }

  lemma SubTwice(v: Value, ty: Type, off: nat, len: nat, s: Select, t: Type, a: Value)
    requires Fits(v, ty, Slice(off, len)) && StepType(ty, Slice(off, len)) == Some(t) && StepType(t, s).Some?
    requires a == Sub(v, ty, Slice(off, len)) && Fits(v, ty, Merge(off, s)) && s.Lo() + s.Len() <= len
    ensures s.Chunk(Sub(a, t, s)) == s.Chunk(Sub(v, ty, Merge(off, s)))
  {
    MergedChunk(Parts(v), Parts(a), off, len, s, Sub(a, t, s), Sub(v, ty, Merge(off, s)));
  }

  lemma MergeSteps(v: Value, ty: Type, off: nat, len: nat, s: Select)
    requires Fits(v, ty, Slice(off, len)) && StepType(StepType(ty, Slice(off, len)).value, s).Some?
    ensures Fits(v, ty, Merge(off, s))
    ensures Sub(Sub(v, ty, Slice(off, len)), StepType(ty, Slice(off, len)).value, s) == Sub(v, ty, Merge(off, s))
  {
    MergeType(ty, off, len, s);
    var t := StepType(ty, Slice(off, len)).value;
    var a := Sub(v, ty, Slice(off, len));
    SubTwice(v, ty, off, len, s, t, a);
    ChunkExtensional(s, t, Sub(a, t, s), Sub(v, ty, Merge(off, s)));
  }

  lemma MergePutParts(p: seq<Part>, a: Value, b: Value, l: Value, r: Value, off: nat, len: nat, s: Select, x: Value)
    requires off + len <= |p| && s.Lo() + s.Len() <= len && |s.Chunk(x)| == s.Len()
    requires Parts(a) == p[off..off + len] && Parts(b) == Splice(Parts(a), s.Lo(), s.Chunk(x))
    requires Parts(l) == Splice(p, off, Parts(b))
    requires Parts(r) == Splice(p, Merge(off, s).Lo(), Merge(off, s).Chunk(x))
    ensures Parts(l) == Parts(r)
  {
    SpliceWithin(p, off, len, s.Lo(), s.Chunk(x));
  }

  lemma MergePuts(v: Value, ty: Type, off: nat, len: nat, s: Select, x: Value)
    requires Fits(v, ty, Slice(off, len)) && StepType(StepType(ty, Slice(off, len)).value, s).Some?
    requires HasType(x, StepType(StepType(ty, Slice(off, len)).value, s).value)
    ensures Fits(v, ty, Merge(off, s)) && HasType(x, StepType(ty, Merge(off, s)).value)
    ensures Put(v, ty, Slice(off, len), Put(Sub(v, ty, Slice(off, len)), StepType(ty, Slice(off, len)).value, s, x))
      == Put(v, ty, Merge(off, s), x)
  {
    MergeType(ty, off, len, s);
    var t := StepType(ty, Slice(off, len)).value;
    var a := Sub(v, ty, Slice(off, len));
    var b := Put(a, t, s, x);
    var l, r := Put(v, ty, Slice(off, len), b), Put(v, ty, Merge(off, s), x);
    SubChunk(v, ty, Slice(off, len));
    PutParts(a, t, s, x);
    PutParts(v, ty, Slice(off, len), b);
    PutParts(v, ty, Merge(off, s), x);
    MergePutParts(Parts(v), a, b, l, r, off, len, s, x);
    PartsExtensional(l, r);
  }

  /** Prepending a step to a path and merging it into the path. */
  function NormStep(s: Select, t: seq<Select>): seq<Select> {
    if s.Field? || t == [] then [s] + t else [Merge(s.offset, t[0])] + t[1..]
  }

  lemma NormStepType(ty: Type, s: Select, t: seq<Select>)
    requires StepType(ty, s).Some? && PathType(StepType(ty, s).value, t).Some?
    ensures PathType(ty, NormStep(s, t)) == PathType(StepType(ty, s).value, t)
  {
    assert ([s] + t)[1..] == t;
    if s.Slice? && t != [] {
      MergeType(ty, s.offset, s.length, t[0]);
      assert NormStep(s, t)[1..] == t[1..];
    }
  }

  lemma NormStepRead(v: Value, ty: Type, s: Select, t: seq<Select>)
    requires Fits(v, ty, s) && PathType(StepType(ty, s).value, t).Some?
    ensures FitsPath(v, ty, NormStep(s, t))
    ensures Read(v, ty, NormStep(s, t)) == Read(Sub(v, ty, s), StepType(ty, s).value, t)
  {
    NormStepType(ty, s, t);
    if s.Slice? && t != [] {
      MergeType(ty, s.offset, s.length, t[0]);
      MergeSteps(v, ty, s.offset, s.length, t[0]);
      assert NormStep(s, t)[1..] == t[1..];
    } else {
      assert ([s] + t)[1..] == t;
    }
  }

  lemma NormStepWrite(v: Value, ty: Type, s: Select, t: seq<Select>, x: Value)
    requires Fits(v, ty, s) && PathType(StepType(ty, s).value, t).Some?
      && HasType(x, PathType(StepType(ty, s).value, t).value)
    ensures FitsPath(v, ty, NormStep(s, t)) && HasType(x, PathType(ty, NormStep(s, t)).value)
    ensures Write(v, ty, NormStep(s, t), x) == Put(v, ty, s, Write(Sub(v, ty, s), StepType(ty, s).value, t, x))
  {
    NormStepType(ty, s, t);
    if s.Slice? && t != [] {
      var ty' := StepType(ty, s).value;
      var sub := Sub(v, ty, s);
      MergeType(ty, s.offset, s.length, t[0]);
      MergeSteps(v, ty, s.offset, s.length, t[0]);
      MergePuts(v, ty, s.offset, s.length, t[0], Write(Sub(sub, ty', t[0]), StepType(ty', t[0]).value, t[1..], x));
      assert NormStep(s, t)[1..] == t[1..];
    } else {
      assert ([s] + t)[1..] == t;
    }
  }

  lemma {:induction false} NormType(ty: Type, p: seq<Select>)
    requires PathType(ty, p).Some?
    ensures PathType(ty, Norm(p)) == PathType(ty, p)
    decreases |p|
  {
    if p == [] {
    } else {
      NormType(StepType(ty, p[0]).value, p[1..]);
      NormStepType(ty, p[0], Norm(p[1..]));
    }
  }

  /** Normalising a path does not change what it reads. */
  lemma {:induction false} NormRead(v: Value, ty: Type, p: seq<Select>)
    requires FitsPath(v, ty, p)
    ensures FitsPath(v, ty, Norm(p)) && Read(v, ty, Norm(p)) == Read(v, ty, p)
    decreases |p|
  {
    if p == [] {
    } else {
      NormRead(Sub(v, ty, p[0]), StepType(ty, p[0]).value, p[1..]);
      NormStepRead(v, ty, p[0], Norm(p[1..]));
    }
  }

  /** Normalising a path does not change what it writes. */
  lemma {:induction false} NormWrite(v: Value, ty: Type, p: seq<Select>, x: Value)
    requires FitsPath(v, ty, p) && HasType(x, PathType(ty, p).value)
    ensures PathType(ty, Norm(p)) == PathType(ty, p) && Write(v, ty, Norm(p), x) == Write(v, ty, p, x)
    decreases |p|
  {
    NormType(ty, p);
    if p == [] {
    } else {
      NormType(StepType(ty, p[0]).value, p[1..]);
      NormWrite(Sub(v, ty, p[0]), StepType(ty, p[0]).value, p[1..], x);
      NormStepWrite(v, ty, p[0], Norm(p[1..]), x);
    }
  }

  // ---------------------------------------------------------------- disjoint paths

  /** Two normalised paths part ways at some step. */
  predicate Diverge(p: seq<Select>, q: seq<Select>) {
    p != [] && q != [] && (Apart(p[0], q[0]) || (p[0] == q[0] && Diverge(p[1..], q[1..])))
  }

  /** Two paths select parts that have nothing in common. */
  predicate Disjoint(p: seq<Select>, q: seq<Select>) {
    Diverge(Norm(p), Norm(q))
  }

  lemma {:induction false} DivergeSymmetric(p: seq<Select>, q: seq<Select>)
    requires Diverge(p, q)
    ensures Diverge(q, p)
    decreases |p|
  {
    if !Apart(p[0], q[0]) {
      DivergeSymmetric(p[1..], q[1..]);
    }
  }

  lemma {:induction false} ReadWriteDiverge(v: Value, ty: Type, p: seq<Select>, q: seq<Select>, x: Value)
    requires FitsPath(v, ty, p) && FitsPath(v, ty, q) && Diverge(p, q) && HasType(x, PathType(ty, p).value)
    ensures Read(Write(v, ty, p, x), ty, q) == Read(v, ty, q)
    decreases |p|
  {
    var t := StepType(ty, p[0]).value;
    var sub := Sub(v, ty, p[0]);
    var w := Write(sub, t, p[1..], x);
    if Apart(p[0], q[0]) {
      SubPutApart(v, ty, p[0], q[0], w);
    } else {
      SubPut(v, ty, p[0], w);
      ReadWriteDiverge(sub, t, p[1..], q[1..], x);
    }
  }

  lemma WriteWriteApart(v: Value, ty: Type, p: seq<Select>, x: Value, q: seq<Select>, y: Value)
    requires FitsPath(v, ty, p) && FitsPath(v, ty, q) && p != [] && q != [] && Apart(p[0], q[0])
    requires HasType(x, PathType(ty, p).value) && HasType(y, PathType(ty, q).value)
    ensures Write(Write(v, ty, p, x), ty, q, y) == Write(Write(v, ty, q, y), ty, p, x)
  {
    var wp := Write(Sub(v, ty, p[0]), StepType(ty, p[0]).value, p[1..], x);
    var wq := Write(Sub(v, ty, q[0]), StepType(ty, q[0]).value, q[1..], y);
    SubPutApart(v, ty, p[0], q[0], wp);
    SubPutApart(v, ty, q[0], p[0], wq);
    PutPutApart(v, ty, p[0], wp, q[0], wq);
  }

  lemma {:induction false} WriteWriteDiverge(v: Value, ty: Type, p: seq<Select>, x: Value, q: seq<Select>, y: Value)
    requires FitsPath(v, ty, p) && FitsPath(v, ty, q) && Diverge(p, q)
    requires HasType(x, PathType(ty, p).value) && HasType(y, PathType(ty, q).value)
    ensures Write(Write(v, ty, p, x), ty, q, y) == Write(Write(v, ty, q, y), ty, p, x)
    decreases |p|
  {
    if Apart(p[0], q[0]) {
      WriteWriteApart(v, ty, p, x, q, y);
    } else {
      var s, t, sub := p[0], StepType(ty, p[0]).value, Sub(v, ty, p[0]);
      var wp, wq := Write(sub, t, p[1..], x), Write(sub, t, q[1..], y);
      WriteWriteDiverge(sub, t, p[1..], x, q[1..], y);
      SubPut(v, ty, s, wp);
      SubPut(v, ty, s, wq);
      PutPut(v, ty, s, wp, Write(wp, t, q[1..], y));
      PutPut(v, ty, s, wq, Write(wq, t, p[1..], x));
    }
  }

  /** A write does not touch a disjoint selection. */
  lemma ReadWriteDisjoint(v: Value, ty: Type, p: seq<Select>, q: seq<Select>, x: Value)
    requires FitsPath(v, ty, p) && FitsPath(v, ty, q) && Disjoint(p, q) && HasType(x, PathType(ty, p).value)
    ensures Read(Write(v, ty, p, x), ty, q) == Read(v, ty, q)
  {
    NormWrite(v, ty, p, x);
    NormRead(v, ty, q);
    NormRead(Write(v, ty, p, x), ty, q);
    ReadWriteDiverge(v, ty, Norm(p), Norm(q), x);
  }

  /** Writes to disjoint selections commute. */
  lemma WriteWriteDisjoint(v: Value, ty: Type, p: seq<Select>, x: Value, q: seq<Select>, y: Value)
    requires FitsPath(v, ty, p) && FitsPath(v, ty, q) && Disjoint(p, q)
    requires HasType(x, PathType(ty, p).value) && HasType(y, PathType(ty, q).value)
    ensures Write(Write(v, ty, p, x), ty, q, y) == Write(Write(v, ty, q, y), ty, p, x)
  {
    NormWrite(v, ty, p, x);
    NormWrite(v, ty, q, y);
    NormWrite(Write(v, ty, p, x), ty, q, y);
    NormWrite(Write(v, ty, q, y), ty, p, x);
    WriteWriteDiverge(v, ty, Norm(p), x, Norm(q), y);
  }

  /** A write changes the value exactly if it changes what the path reads. */
  lemma WriteChanges(v: Value, ty: Type, p: seq<Select>, x: Value)
    requires FitsPath(v, ty, p) && HasType(x, PathType(ty, p).value)
    ensures Write(v, ty, p, x) == v <==> Read(v, ty, p) == x
  {
    ReadWrite(v, ty, p, x);
    WriteRead(v, ty, p);
  }
}
