/** Arithmetic on integers of arbitrary width: src/value/int.rs.

    `FromSigned` is a ring homomorphism from the integers; every law below is
    an identity on unbounded integers carried over by it. */
module IntArith {
  import opened IntValues

  // ---------------------------------------------------------------- division of signed numbers

  function Magnitude(a: int): (r: nat)
    ensures r == a || r == -a
  {
    if a >= 0 then a else -a
  }

  /** Division that rounds towards zero, as the source's big integers do. */
  function TruncDiv(a: int, b: int): int
    requires b != 0
  {
    Signed(a, b, Magnitude(a) / Magnitude(b))
  }

  /** The quotient of the magnitudes with its sign. */
  function Signed(a: int, b: int, q: int): int {
    if (a >= 0) == (b > 0) then q else -q
  }

  /** The remainder that goes with it has the sign of the dividend. */
  function TruncRem(a: int, b: int): int
    requires b != 0
  {
    var r := Magnitude(a) % Magnitude(b);
    if a >= 0 then r else -r
  }

  lemma DivParts(n: nat, m: int)
    requires m > 0
    ensures n == m * (n / m) + n % m && 0 <= n / m <= n && 0 <= n % m <= n
  {
    if n / m > 0 {
      MulAtLeast(m, n / m);
      MulAtLeast(n / m, m);
    }
  }

  lemma MulSigns(q: int, m: int)
    ensures -q * -m == q * m && -q * m == -(q * m) && q * -m == -(q * m)
  {
  }

  lemma TruncDivRem(a: int, b: int)
    requires b != 0
    ensures a == TruncDiv(a, b) * b + TruncRem(a, b)
    ensures a >= 0 ==> 0 <= TruncRem(a, b) <= a
    ensures a < 0 ==> a <= TruncRem(a, b) <= 0
    ensures if b > 0 then -b < TruncRem(a, b) < b else b < TruncRem(a, b) < -b
  {
    DivParts(Magnitude(a), Magnitude(b));
    SignedParts(a, b, Magnitude(a) / Magnitude(b), Magnitude(a) % Magnitude(b));
  }

  lemma SignedParts(a: int, b: int, q: int, r: int)
    requires Magnitude(a) == Magnitude(b) * q + r
    ensures a == Signed(a, b, q) * b + (if a >= 0 then r else -r)
  {
    MulSigns(q, b);
  }

  /** Division that rounds towards negative infinity. */
  function FloorDiv(a: int, b: int): int
    requires b != 0
  {
    if b > 0 then a / b else -a / -b
  }

  lemma FloorUnique(a: int, b: int, q: int, r: int)
    requires b != 0 && a == q * b + r && (0 <= r < b || b < r <= 0)
    ensures q == FloorDiv(a, b)
  {
    if b > 0 {
      DivUnique(a, b, q, r);
    } else {
      DivUnique(-a, -b, q, -r);
    }
  }

  // ---------------------------------------------------------------- conversions

  /** Create a new integer value from a signed number. */
  function FromSigned(width: nat, value: int): (r: IntValue)
    ensures r.Valid() && r.width == width && r.value == value % Pow2(width)
  {
    var modulus: int := Pow2(width);
    TruncModulus(value, modulus);
    var v := TruncRem(value, modulus);
    var u := if v < 0 then v + modulus else v;
    SmallMod(u, modulus);
    FromUnsigned(width, u)
  }

  lemma SmallMod(u: int, m: int)
    requires 0 <= u < m
    ensures u % m == u
  {
    DivUnique(u, m, 0, u);
  }

  lemma TruncModulus(v: int, m: int)
    requires m >= 1
    ensures (if TruncRem(v, m) < 0 then TruncRem(v, m) + m else TruncRem(v, m)) == v % m
  {
    if v < 0 {
      NegMod(-v, m, -v / m, -v % m);
    }
  }

  lemma NegMod(n: int, m: int, q: int, r: int)
    requires m >= 1 && n == m * q + r && 0 <= r < m
    ensures -n % m == if r > 0 then m - r else 0
  {
    MulSigns(q, m);
    if r > 0 {
      assert m * (-q - 1) == -(m * q) - m;
      DivUnique(-n, m, -q - 1, m - r);
    } else {
      DivUnique(-n, m, -q, 0);
    }
  }

  /** Convert the value to a signed number. */
  function ToSigned(a: IntValue): int
    requires a.width >= 1
  {
    if BitAnd(a.value, Shl(1, a.width - 1)) == 0 then a.value else a.value - Pow2(a.width)
  }

  lemma {:induction false} SignBit(v: nat, w: nat)
    requires w >= 1 && v < Pow2(w)
    ensures BitAnd(v, Shl(1, w - 1)) == 0 <==> v < Pow2(w - 1)
  {
    if w > 1 {
      SignBit(v / 2, w - 1);
      assert BitAnd(v, Shl(1, w - 1)) == 2 * BitAnd(v / 2, Shl(1, w - 2)) || v == 0;
    }
  }

  predicate InRange(width: nat, v: int)
    requires width >= 1
  {
    0 <= v + Pow2(width - 1) && v < Pow2(width - 1)
  }

  lemma SignedRange(a: IntValue)
    requires a.Valid() && a.width >= 1
    ensures InRange(a.width, ToSigned(a))
    ensures ToSigned(a) == if a.value < Pow2(a.width - 1) then a.value else a.value - Pow2(a.width)
  {
    SignBit(a.value, a.width);
  }

  lemma ModShift(v: int, m: nat, k: int)
    requires m >= 1
    ensures (v + m * k) % m == v % m
  {
    DivUnique(v + m * k, m, v / m + k, v % m);
  }

  lemma FromSignedShift(width: nat, v: int, k: int)
    ensures FromSigned(width, v + Pow2(width) * k) == FromSigned(width, v)
  {
    ModShift(v, Pow2(width), k);
  }

  lemma FromSignedWrap(width: nat, v: int)
    ensures FromSigned(width, v + Pow2(width)) == FromSigned(width, v)
  {
    var m := Pow2(width);
    assert m * 1 == m;
    ModShift(v, m, 1);
  }

  /** Every value is its signed reading, reduced. */
  lemma SignedRoundTrip(a: IntValue)
    requires a.Valid() && a.width >= 1
    ensures FromSigned(a.width, ToSigned(a)) == a
  {
    SignedRange(a);
    FromSignedWrap(a.width, a.value - Pow2(a.width));
    SmallMod(a.value, Pow2(a.width));
  }

  /** A number survives the conversion exactly when it is in range. */
  lemma ToFromSigned(width: nat, v: int)
    requires width >= 1
    ensures ToSigned(FromSigned(width, v)) == v <==> InRange(width, v)
  {
    var r := FromSigned(width, v);
    SignedRange(r);
    if InRange(width, v) {
      if v >= 0 {
        DivUnique(v, Pow2(width), 0, v);
      } else {
        DivUnique(v, Pow2(width), -1, v + Pow2(width));
      }
    }
  }

  /** The signed reading of a reduced number differs from it by a multiple of the modulus. */
  lemma ToSignedShift(width: nat, v: int) returns (k: int)
    requires width >= 1
    ensures ToSigned(FromSigned(width, v)) == v + Pow2(width) * k
  {
    var m := Pow2(width);
    SignedRange(FromSigned(width, v));
    k := ModSplit(v, m);
    if v % m >= Pow2(width - 1) {
      assert m * (k - 1) == m * k - m;
      k := k - 1;
    }
  }

  // ---------------------------------------------------------------- operators

  function Not(a: IntValue): (r: IntValue)
    requires a.Valid()
    ensures r.Valid() && r.width == a.width
  {
    FromUnsigned(a.width, Ones(a.width) - a.value)
  }

  function Neg(a: IntValue): (r: IntValue)
    requires a.Valid()
    ensures r.Valid() && r.width == a.width
  {
    FromUnsigned(a.width, Pow2(a.width) - a.value)
  }

  function Add(a: IntValue, b: IntValue): (r: IntValue)
    ensures r.Valid() && r.width == a.width
  {
    FromUnsigned(a.width, a.value + b.value)
  }

  function Subtract(a: IntValue, b: IntValue): (r: IntValue)
    requires a.width >= 1 && b.width >= 1
    ensures r.Valid() && r.width == a.width
  {
    FromSigned(a.width, ToSigned(a) - ToSigned(b))
  }

  function And(a: IntValue, b: IntValue): (r: IntValue)
    ensures r.Valid() && r.width == a.width
  {
    FromUnsigned(a.width, BitAnd(a.value, b.value))
  }

  function Or(a: IntValue, b: IntValue): (r: IntValue)
    ensures r.Valid() && r.width == a.width
  {
    FromUnsigned(a.width, BitOr(a.value, b.value))
  }

  function Xor(a: IntValue, b: IntValue): (r: IntValue)
    ensures r.Valid() && r.width == a.width
  {
    FromUnsigned(a.width, BitXor(a.value, b.value))
  }

  function Umul(a: IntValue, b: IntValue): (r: IntValue)
    ensures r.Valid() && r.width == a.width
  {
    FromUnsigned(a.width, a.value * b.value)
  }

  function Udiv(a: IntValue, b: IntValue): (r: IntValue)
    requires b.value != 0
    ensures r.Valid() && r.width == a.width
  {
    FromUnsigned(a.width, a.value / b.value)
  }

  function Umod(a: IntValue, b: IntValue): (r: IntValue)
    requires b.value != 0
    ensures r.Valid() && r.width == a.width
  {
    FromUnsigned(a.width, a.value % b.value)
  }

  function Smul(a: IntValue, b: IntValue): (r: IntValue)
    requires a.width >= 1 && b.width >= 1
    ensures r.Valid() && r.width == a.width
  {
    FromSigned(a.width, ToSigned(a) * ToSigned(b))
  }

  lemma SignedNonzero(b: IntValue)
    requires b.Valid() && b.width >= 1
    ensures ToSigned(b) == 0 <==> b.value == 0
  {
    SignedRange(b);
  }

  function Sdiv(a: IntValue, b: IntValue): (r: IntValue)
    requires a.width >= 1 && b.width >= 1 && b.Valid() && b.value != 0
    ensures r.Valid() && r.width == a.width
  {
    SignedNonzero(b);
    FromSigned(a.width, TruncDiv(ToSigned(a), ToSigned(b)))
  }

  /** The modulus: the remainder, moved to the sign of the divisor. */
  function ModOf(a: int, b: int): int
    requires b != 0
  {
    var r := TruncRem(a, b);
    if r != 0 && (a < 0) != (b < 0) then r + b else r
  }

  function Smod(a: IntValue, b: IntValue): (r: IntValue)
    requires a.width >= 1 && b.width >= 1 && b.Valid() && b.value != 0
    ensures r.Valid() && r.width == a.width
  {
    SignedNonzero(b);
    FromSigned(a.width, ModOf(ToSigned(a), ToSigned(b)))
  }

  function Srem(a: IntValue, b: IntValue): (r: IntValue)
    requires a.width >= 1 && b.width >= 1 && b.Valid() && b.value != 0
    ensures r.Valid() && r.width == a.width
  {
    SignedNonzero(b);
    FromSigned(a.width, TruncRem(ToSigned(a), ToSigned(b)))
  }

  // ---------------------------------------------------------------- arithmetic modulo 2^width

  lemma ModSplit(v: int, m: nat) returns (k: int)
    requires m >= 1
    ensures v % m == v + m * k
  {
    k := -(v / m);
    assert m * k == -(m * (v / m));
  }

  lemma AddHom(width: nat, x: int, y: int)
    ensures FromSigned(width, x + y) == Add(FromSigned(width, x), FromSigned(width, y))
  {
    var m := Pow2(width);
    var i := ModSplit(x, m);
    var j := ModSplit(y, m);
    assert x % m + y % m == (x + y) + m * (i + j);
    ModShift(x + y, m, i + j);
  }

  lemma MulHom(width: nat, x: int, y: int)
    ensures FromSigned(width, x * y) == Umul(FromSigned(width, x), FromSigned(width, y))
  {
    var m := Pow2(width);
    var i := ModSplit(x, m);
    var j := ModSplit(y, m);
    MulShift(x, y, m, i, j);
    ModShift(x * y, m, x * j + i * (y + m * j));
  }

  lemma MulShift(x: int, y: int, m: int, i: int, j: int)
    ensures (x + m * i) * (y + m * j) == x * y + m * (x * j + i * (y + m * j))
  {
    var z := y + m * j;
    assert (x + m * i) * z == x * z + m * (i * z);
    assert x * z == x * y + m * (x * j);
  }

  lemma SubHom(width: nat, x: int, y: int)
    requires width >= 1
    ensures FromSigned(width, x - y) == Subtract(FromSigned(width, x), FromSigned(width, y))
  {
    var i := ToSignedShift(width, x);
    var j := ToSignedShift(width, y);
    assert Pow2(width) * (i - j) == Pow2(width) * i - Pow2(width) * j;
    FromSignedShift(width, x - y, i - j);
  }

  /** Signed and unsigned multiplication yield the same bits. */
  lemma SmulIsUmul(a: IntValue, b: IntValue)
    requires a.Valid() && b.Valid() && a.width == b.width >= 1
    ensures Smul(a, b) == Umul(a, b)
  {
    SignedRoundTrip(a);
    SignedRoundTrip(b);
    MulHom(a.width, ToSigned(a), ToSigned(b));
  }

  /** Subtraction undoes addition, and adds the negation. */
  lemma SubUndoesAdd(a: IntValue, b: IntValue)
    requires a.Valid() && b.Valid() && a.width == b.width >= 1
    ensures Subtract(Add(a, b), b) == a && Subtract(a, b) == Add(a, Neg(b))
      && Neg(b) == Add(Not(b), FromUnsigned(b.width, 1))
  {
    var w, x, y := a.width, a.value, b.value;
    ReducedIsSelf(a);
    ReducedIsSelf(b);
    AddHom(w, x, y);
    SubHom(w, x + y, y);
    assert (x + y) - y == x;
    SubIsAddNeg(a, b);
    NegIsNotPlusOne(b);
  }

  lemma SubIsAddNeg(a: IntValue, b: IntValue)
    requires a.Valid() && b.Valid() && a.width == b.width >= 1
    ensures Subtract(a, b) == Add(a, Neg(b))
  {
    var w, x, y := a.width, a.value, b.value;
    ReducedIsSelf(a);
    ReducedIsSelf(b);
    SubHom(w, x, y);
    NaturalSigned(w, Pow2(w) - y);
    AddHom(w, x, Pow2(w) - y);
    FromSignedWrap(w, x - y);
    assert x - y + Pow2(w) == x + (Pow2(w) - y);
  }

  lemma NegIsNotPlusOne(b: IntValue)
    requires b.Valid()
    ensures Neg(b) == Add(Not(b), FromUnsigned(b.width, 1))
  {
    var w, y := b.width, b.value;
    NaturalSigned(w, Pow2(w) - y);
    NaturalSigned(w, Ones(w) - y);
    NaturalSigned(w, 1);
    AddHom(w, Ones(w) - y, 1);
  }

  lemma NaturalSigned(width: nat, v: nat)
    ensures FromSigned(width, v) == FromUnsigned(width, v)
  {
  }

  lemma ReducedIsSelf(a: IntValue)
    requires a.Valid()
    ensures FromSigned(a.width, a.value) == a
  {
    DivUnique(a.value, Pow2(a.width), 0, a.value);
  }

  // ---------------------------------------------------------------- division

  /** x = (x udiv y) * y + (x umod y), with a modulus below y. */
  lemma UnsignedDivision(a: IntValue, b: IntValue)
    requires a.Valid() && b.Valid() && a.width == b.width && b.value != 0
    ensures a.value == Udiv(a, b).value * b.value + Umod(a, b).value && Umod(a, b).value < b.value
  {
    var x, y, m := a.value, b.value, Pow2(a.width);
    DivParts(x, y);
    SmallMod(x / y, m);
    SmallMod(x % y, m);
  }

  /** x = (x srem y) + (x sdiv y) * y, modulo 2^width. */
  lemma SignedDivision(a: IntValue, b: IntValue)
    requires a.Valid() && b.Valid() && a.width == b.width >= 1 && b.value != 0
    ensures Add(Smul(Sdiv(a, b), b), Srem(a, b)) == a
  {
    var w, x, y := a.width, ToSigned(a), ToSigned(b);
    SignedNonzero(b);
    SmulIsUmul(Sdiv(a, b), b);
    SignedRoundTrip(a);
    SignedRoundTrip(b);
    TruncDivRem(x, y);
    MulHom(w, TruncDiv(x, y), y);
    AddHom(w, TruncDiv(x, y) * y, TruncRem(x, y));
  }

  /** The remainder is never reduced; the quotient is, only for the least number over -1. */
  lemma SignedDivisionExact(a: IntValue, b: IntValue)
    requires a.Valid() && b.Valid() && a.width == b.width >= 1 && b.value != 0
    ensures ToSigned(b) != 0 && ToSigned(Srem(a, b)) == TruncRem(ToSigned(a), ToSigned(b))
    ensures (ToSigned(Sdiv(a, b)) == TruncDiv(ToSigned(a), ToSigned(b))
            <==> !(ToSigned(a) + Pow2(a.width - 1) == 0 && ToSigned(b) == -1))
  {
    var w, x, y := a.width, ToSigned(a), ToSigned(b);
    SignedNonzero(b);
    SignedRange(a);
    SignedRange(b);
    RemainderFits(w, x, y);
    QuotientFits(w, x, y);
    ToFromSigned(w, TruncRem(x, y));
    ToFromSigned(w, TruncDiv(x, y));
  }

  lemma RemainderFits(w: nat, x: int, y: int)
    requires w >= 1 && y != 0 && InRange(w, x)
    ensures InRange(w, TruncRem(x, y))
  {
    TruncDivRem(x, y);
  }

  lemma QuotientFits(w: nat, x: int, y: int)
    requires w >= 1 && y != 0 && InRange(w, x)
    ensures InRange(w, TruncDiv(x, y)) <==> !(x + Pow2(w - 1) == 0 && y == -1)
  {
    var q := SmallQuotient(x, y);
    QuotientRange(x, y, Pow2(w - 1), q);
  }

  lemma QuotientRange(x: int, y: int, h: int, q: int)
    requires y != 0 && h >= 1 && 0 <= x + h && x < h && IsSmall(x, y, q)
    ensures 0 <= Signed(x, y, q) + h && Signed(x, y, q) < h <==> !(x + h == 0 && y == -1)
  {
  }

  predicate IsSmall(x: int, y: int, q: int) {
    0 <= q <= Magnitude(x) && (Magnitude(y) == 1 ==> q == Magnitude(x)) && (Magnitude(y) > 1 ==> 2 * q <= Magnitude(x))
  }

  lemma SmallQuotient(x: int, y: int) returns (q: int)
    requires y != 0
    ensures IsSmall(x, y, q) && TruncDiv(x, y) == Signed(x, y, q)
  {
    QuotientBound(Magnitude(x), Magnitude(y));
    q := Magnitude(x) / Magnitude(y);
  }

  lemma QuotientBound(n: nat, m: int)
    requires m > 0
    ensures n / m <= n && (m == 1 ==> n / m == n) && (m > 1 ==> 2 * (n / m) <= n)
  {
    DivParts(n, m);
    if m > 1 && n / m > 0 {
      MulAtLeast(n / m, m - 1);
      assert m * (n / m) == (n / m) * (m - 1) + n / m;
    }
  }

  /** The signed modulus is that of the division that rounds towards negative infinity. */
  lemma SmodIsFloor(a: IntValue, b: IntValue)
    requires a.Valid() && b.Valid() && a.width == b.width >= 1 && b.value != 0
    ensures ToSigned(b) != 0
    ensures var x, y, m := ToSigned(a), ToSigned(b), ToSigned(Smod(a, b));
      x == m + FloorDiv(x, y) * y && (0 <= m < y || y < m <= 0)
  {
    var w, x, y := a.width, ToSigned(a), ToSigned(b);
    SignedNonzero(b);
    SignedRange(a);
    SignedRange(b);
    TruncDivRem(x, y);
    ToFromSigned(w, ModOf(x, y));
    ModIsFloor(x, y);
  }

  lemma ModIsFloor(x: int, y: int)
    requires y != 0
    ensures x == ModOf(x, y) + FloorDiv(x, y) * y && (0 <= ModOf(x, y) < y || y < ModOf(x, y) <= 0)
  {
    TruncDivRem(x, y);
    MovedRemainder(x, y, TruncDiv(x, y), TruncRem(x, y), ModOf(x, y));
  }

  lemma MovedRemainder(x: int, y: int, q: int, r: int, m: int)
    requires y != 0 && x == q * y + r && (if y > 0 then -y < r < y else y < r < -y)
    requires (x >= 0 ==> 0 <= r) && (x < 0 ==> r <= 0)
    requires m == if r != 0 && (x < 0) != (y < 0) then r + y else r
    ensures x == m + FloorDiv(x, y) * y && (0 <= m < y || y < m <= 0)
  {
    if m == r {
      FloorUnique(x, y, q, m);
    } else {
      assert (q - 1) * y == q * y - y;
      FloorUnique(x, y, q - 1, m);
    }
  }

  // ---------------------------------------------------------------- bitwise operators

  /** The bitwise operators act on each bit alone. */
  lemma BitwisePerBit(a: IntValue, b: IntValue, i: nat)
    requires a.Valid() && b.Valid() && a.width == b.width && i < a.width
    ensures And(a, b).Bits()[i] == (a.Bits()[i] && b.Bits()[i])
    ensures Or(a, b).Bits()[i] == (a.Bits()[i] || b.Bits()[i])
    ensures Xor(a, b).Bits()[i] == (a.Bits()[i] != b.Bits()[i])
    ensures Not(a).Bits()[i] == !a.Bits()[i]
  {
    AndBits(a.value, b.value, a.width);
    OrBits(a.value, b.value, a.width);
    XorBits(a.value, b.value, a.width);
    ComplementBit(a.value, a.width, i);
  }

  lemma {:induction false} ComplementBit(v: nat, w: nat, i: nat)
    requires v < Pow2(w) && i < w
    ensures ToBits(Ones(w) - v, w)[i] == !ToBits(v, w)[i]
    decreases w
  {
    assert (Ones(w) - v) / 2 == Ones(w - 1) - v / 2;
    if i > 0 {
      ComplementBit(v / 2, w - 1, i - 1);
    }
  }
}
