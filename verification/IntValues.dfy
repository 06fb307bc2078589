/** Integers of arbitrary width: src/value/int.rs.

    A value is a natural number below 2^width.  `Bits` reads it as a sequence of
    bits, least significant first; the shift-and-mask arithmetic of the source is
    proved to act on that sequence. */
module IntValues {

  // ---------------------------------------------------------------- powers of two

  function Pow2(n: nat): (p: nat)
    ensures p >= 1
  {
    if n == 0 then 1 else 2 * Pow2(n - 1)
  }

  lemma MulAtLeast(m: int, k: int)
    requires m > 0 && k >= 1
    ensures m * k >= m
  {
    assert m * k == m * (k - 1) + m;
  }

  lemma DivUnique(v: int, m: int, q: int, r: int)
    requires m > 0 && v == m * q + r && 0 <= r < m
    ensures v / m == q && v % m == r
  {
    var q', r' := v / m, v % m;
    assert v == m * q' + r';
    assert m * (q' - q) == m * q' - m * q == r - r';
    if q' > q {
      MulAtLeast(m, q' - q);
    } else if q' < q {
      MulAtLeast(m, q - q');
    }
  }

  lemma ModTwice(v: nat, p: nat)
    requires p >= 1
    ensures v % (2 * p) == v % 2 + 2 * ((v / 2) % p)
  {
    var q, r := (v / 2) / p, (v / 2) % p;
    assert v / 2 == p * q + r;
    assert (2 * p) * q == 2 * (p * q);
    DivUnique(v, 2 * p, q, 2 * r + v % 2);
  }

  /** v shifted left by n bits. */
  function Shl(v: nat, n: nat): nat {
    if n == 0 then v else 2 * Shl(v, n - 1)
  }

  /** v shifted right by n bits. */
  function Shr(v: nat, n: nat): nat {
    if n == 0 then v else Shr(v / 2, n - 1)
  }

  // ---------------------------------------------------------------- naturals as bits

  function ToBits(v: nat, w: nat): (s: seq<bool>)
    ensures |s| == w
    decreases w
  {
    if w == 0 then [] else [v % 2 == 1] + ToBits(v / 2, w - 1)
  }

  function FromBits(s: seq<bool>): nat {
    if s == [] then 0 else (if s[0] then 1 else 0) + 2 * FromBits(s[1..])
  }

  lemma {:induction false} FromToBits(v: nat, w: nat)
    requires v < Pow2(w)
    ensures FromBits(ToBits(v, w)) == v
    decreases w
  {
    if w > 0 {
      FromToBits(v / 2, w - 1);
      assert ToBits(v, w)[1..] == ToBits(v / 2, w - 1);
    }
  }

  lemma {:induction false} ToFromBits(s: seq<bool>)
    ensures FromBits(s) < Pow2(|s|) && ToBits(FromBits(s), |s|) == s
  {
    if s == [] {
    } else {
      ToFromBits(s[1..]);
      assert s == [s[0]] + s[1..];
    }
  }

  lemma BitsInjective(a: nat, b: nat, w: nat)
    requires a < Pow2(w) && b < Pow2(w) && ToBits(a, w) == ToBits(b, w)
    ensures a == b
  {
    FromToBits(a, w);
    FromToBits(b, w);
  }

  /** Shifting left. */
  lemma {:induction false} ShlBits(v: nat, n: nat, w: nat)
    requires n <= w
    ensures ToBits(Shl(v, n), w) == seq(n, _ => false) + ToBits(v, w - n)
    decreases n
  {
    if n > 0 {
      ShlBits(v, n - 1, w - 1);
      assert seq(n, _ => false) == [false] + seq(n - 1, _ => false);
    }
  }

  /** Shifting right. */
  lemma {:induction false} ShrBits(v: nat, n: nat, w: nat)
    ensures ToBits(Shr(v, n), w) == ToBits(v, n + w)[n..]
    decreases n
  {
    if n > 0 {
      ShrBits(v / 2, n - 1, w);
    }
  }

  /** Truncating. */
  lemma {:induction false} ModBits(v: nat, w: nat)
    ensures v % Pow2(w) < Pow2(w) && ToBits(v % Pow2(w), w) == ToBits(v, w)
    decreases w
  {
    if w > 0 {
      ModTwice(v, Pow2(w - 1));
      ModBits(v / 2, w - 1);
    }
  }

  lemma {:induction false} BitsPrefix(v: nat, m: nat, n: nat)
    requires m <= n
    ensures ToBits(v, n)[..m] == ToBits(v, m)
    decreases m
  {
    if m > 0 {
      BitsPrefix(v / 2, m - 1, n - 1);
      assert ToBits(v, n)[..m] == [v % 2 == 1] + ToBits(v / 2, n - 1)[..m - 1];
    }
  }

  /** The number with the lowest w bits set. */
  function Ones(w: nat): nat {
    Pow2(w) - 1
  }

  lemma {:induction false} OnesBits(w: nat)
    ensures forall i :: 0 <= i < w ==> ToBits(Ones(w), w)[i]
  {
    if w > 0 {
      OnesBits(w - 1);
      assert Ones(w) / 2 == Ones(w - 1);
    }
  }

  lemma {:induction false} ZeroBits(w: nat)
    ensures ToBits(0, w) == seq(w, _ => false)
  {
    if w > 0 {
      ZeroBits(w - 1);
      assert seq(w, _ => false) == [false] + seq(w - 1, _ => false);
    }
  }

  // ---------------------------------------------------------------- bitwise operations

  function BitAnd(a: nat, b: nat): nat {
    if a == 0 || b == 0 then 0 else (if a % 2 == 1 && b % 2 == 1 then 1 else 0) + 2 * BitAnd(a / 2, b / 2)
  }

  function BitOr(a: nat, b: nat): nat
    decreases a + b
  {
    if a == 0 then b else if b == 0 then a
    else (if a % 2 == 1 || b % 2 == 1 then 1 else 0) + 2 * BitOr(a / 2, b / 2)
  }

  function BitXor(a: nat, b: nat): nat
    decreases a + b
  {
    if a == 0 then b else if b == 0 then a
    else (if (a % 2 == 1) != (b % 2 == 1) then 1 else 0) + 2 * BitXor(a / 2, b / 2)
  }

  lemma {:induction false} AndBits(a: nat, b: nat, w: nat)
    ensures |ToBits(BitAnd(a, b), w)| == w
    ensures forall i :: 0 <= i < w ==> ToBits(BitAnd(a, b), w)[i] == (ToBits(a, w)[i] && ToBits(b, w)[i])
    decreases w
  {
    if w > 0 {
      AndBits(a / 2, b / 2, w - 1);
      assert BitAnd(a, b) / 2 == BitAnd(a / 2, b / 2);
    }
  }

  lemma {:induction false} OrBits(a: nat, b: nat, w: nat)
    ensures forall i :: 0 <= i < w ==> ToBits(BitOr(a, b), w)[i] == (ToBits(a, w)[i] || ToBits(b, w)[i])
    decreases w
  {
    if w > 0 {
      OrBits(a / 2, b / 2, w - 1);
      assert BitOr(a, b) / 2 == BitOr(a / 2, b / 2);
    }
  }

  lemma {:induction false} XorBits(a: nat, b: nat, w: nat)
    ensures forall i :: 0 <= i < w ==> ToBits(BitXor(a, b), w)[i] == (ToBits(a, w)[i] != ToBits(b, w)[i])
    decreases w
  {
    if w > 0 {
      XorBits(a / 2, b / 2, w - 1);
      assert BitXor(a, b) / 2 == BitXor(a / 2, b / 2);
    }
  }

  lemma {:induction false} BitOpBounds(a: nat, b: nat, w: nat)
    requires a < Pow2(w) && b < Pow2(w)
    ensures BitAnd(a, b) < Pow2(w) && BitOr(a, b) < Pow2(w) && BitXor(a, b) < Pow2(w)
    decreases w
  {
    if w > 0 {
      BitOpBounds(a / 2, b / 2, w - 1);
    }
  }

  // ---------------------------------------------------------------- values

  /** An integer value. */
  datatype IntValue = IntValue(width: nat, value: nat) {
    predicate Valid() {
      value < Pow2(width)
    }

    /** The bits, least significant first. */
    function Bits(): (s: seq<bool>)
      ensures |s| == width
    {
      ToBits(value, width)
    }

    /** Extract a slice of bits from the value. */
    function ExtractSlice(off: nat, len: nat): (r: IntValue)
      requires Valid() && off + len <= width
      ensures r.Valid() && r.width == len && r.Bits() == Bits()[off..off + len]
    {
      ExtractBits(value, off, len, width);
      FromUnsigned(len, Shr(value, off) % Pow2(len))
    }

    /** The value after inserting a slice of bits. */
    function InsertSlice(off: nat, len: nat, v: IntValue): (r: IntValue)
      requires Valid() && v.Valid() && len == v.width && off + len <= width
      ensures r.Valid() && r.width == width && r.Bits() == Bits()[..off] + v.Bits() + Bits()[off + len..]
    {
      var mask := Shl(Ones(len), off);
      var maskInv := BitXor(Ones(width), mask);
      InsertBits(value, v.value, off, len, width);
      IntValue(width, BitOr(BitAnd(value, maskInv), Shl(v.value, off)))
    }
  }

  lemma ValueExtensional(a: IntValue, b: IntValue)
    requires a.Valid() && b.Valid() && a.Bits() == b.Bits()
    ensures a == b
  {
    assert a.width == |a.Bits()| == b.width;
    BitsInjective(a.value, b.value, a.width);
  }

  /** Create a new integer value from an unsigned number. */
  function FromUnsigned(width: nat, value: nat): (r: IntValue)
    ensures r.Valid() && r.width == width && r.Bits() == ToBits(value, width)
  {
    ModBits(value, width);
    IntValue(width, value % Pow2(width))
  }

  lemma ExtractBits(v: nat, off: nat, len: nat, width: nat)
    requires off + len <= width
    ensures ToBits(Shr(v, off) % Pow2(len), len) == ToBits(v, width)[off..off + len]
  {
    ModBits(Shr(v, off), len);
    ShrBits(v, off, len);
    BitsPrefix(v, off + len, width);
    assert ToBits(v, width)[off..off + len] == ToBits(v, width)[..off + len][off..];
  }

  /** The mask has ones exactly in the slice. */
  lemma MaskBits(off: nat, len: nat, width: nat)
    requires off + len <= width
    ensures Shl(Ones(len), off) < Pow2(width)
    ensures var m := ToBits(Shl(Ones(len), off), width);
      forall i :: 0 <= i < width ==> m[i] == (off <= i < off + len)
  {
    ScaledBound(Ones(len), off, len, width);
    ShlBits(Ones(len), off, width);
    PadBits(Ones(len), len, width - off);
    OnesBits(len);
  }

  lemma {:induction false} ScaledBound(v: nat, off: nat, len: nat, width: nat)
    requires off + len <= width && v < Pow2(len)
    ensures Shl(v, off) < Pow2(width)
    decreases width
  {
    if off > 0 {
      ScaledBound(v, off - 1, len, width - 1);
    } else if len < width {
      ScaledBound(v, 0, len, width - 1);
    }
  }

  /** Above its width a value has only zeros. */
  lemma {:induction false} PadBits(v: nat, len: nat, width: nat)
    requires len <= width && v < Pow2(len)
    ensures ToBits(v, width) == ToBits(v, len) + seq(width - len, _ => false)
    decreases len
  {
    if len == 0 {
      ZeroBits(width);
    } else {
      PadBits(v / 2, len - 1, width - 1);
    }
  }

  /** The arithmetic of a slice insertion. */
  function Masked(t: nat, v: nat, off: nat, len: nat, width: nat): nat {
    BitOr(BitAnd(t, BitXor(Ones(width), Shl(Ones(len), off))), Shl(v, off))
  }

  lemma InsertBounds(t: nat, v: nat, off: nat, len: nat, width: nat)
    requires off + len <= width && t < Pow2(width) && v < Pow2(len)
    ensures Masked(t, v, off, len, width) < Pow2(width)
  {
    var mask := Shl(Ones(len), off);
    MaskBits(off, len, width);
    ScaledBound(v, off, len, width);
    BitOpBounds(Ones(width), mask, width);
    var inv := BitXor(Ones(width), mask);
    BitOpBounds(t, inv, width);
    BitOpBounds(BitAnd(t, inv), Shl(v, off), width);
  }

  lemma InsertBitAt(t: nat, v: nat, off: nat, len: nat, width: nat, i: nat)
    requires off + len <= width && t < Pow2(width) && v < Pow2(len) && i < width
    ensures ToBits(Masked(t, v, off, len, width), width)[i] ==
      if off <= i < off + len then ToBits(v, len)[i - off] else ToBits(t, width)[i]
  {
    var mask := Shl(Ones(len), off);
    var inv := BitXor(Ones(width), mask);
    MaskBits(off, len, width);
    OnesBits(width);
    XorBits(Ones(width), mask, width);
    AndBits(t, inv, width);
    OrBits(BitAnd(t, inv), Shl(v, off), width);
    ShlBits(v, off, width);
    PadBits(v, len, width - off);
    assert ToBits(Shl(v, off), width)[i] == (off <= i < off + len && ToBits(v, len)[i - off]);
    assert ToBits(mask, width)[i] == (off <= i < off + len);
    assert ToBits(Ones(width), width)[i];
    assert ToBits(inv, width)[i] == (ToBits(Ones(width), width)[i] != ToBits(mask, width)[i]);
  }

  lemma InsertBits(t: nat, v: nat, off: nat, len: nat, width: nat)
    requires off + len <= width && t < Pow2(width) && v < Pow2(len)
    ensures var r := Masked(t, v, off, len, width);
      r < Pow2(width) && ToBits(r, width) == ToBits(t, width)[..off] + ToBits(v, len) + ToBits(t, width)[off + len..]
  {
    InsertBounds(t, v, off, len, width);
    forall i | 0 <= i < width
      ensures ToBits(Masked(t, v, off, len, width), width)[i] ==
        if off <= i < off + len then ToBits(v, len)[i - off] else ToBits(t, width)[i]
    {
      InsertBitAt(t, v, off, len, width, i);
    }
  }
}
