/** Value pointers (src/bin/llhd-sim/state.rs) and the operations that only
    rewrite them (src/bin/llhd-sim/engine.rs).

    A pointer is a list of slices, each a selection into some target.  What a
    slice reads is given by a reader; all that is asked of it is that a narrowed
    slice reads the corresponding window. */
module Pointers {
  import opened Values

  /** A pointer target. */
  datatype Target = ValueTarget(id: nat) | VariableTarget(id: nat) | SignalTarget(id: nat)

  /** A slice of a pointer: its width is 0 for a struct. */
  datatype ValueSlice = ValueSlice(target: Target, select: seq<Select>, width: nat)

  type Pointer = seq<ValueSlice>

  /** The width of the value that is pointed at. */
  function Width(ptr: Pointer): nat {
    if ptr == [] then 0 else ptr[0].width + Width(ptr[1..])
  }

  lemma {:induction false} WidthAppend(p: Pointer, q: Pointer)
    ensures Width(p + q) == Width(p) + Width(q)
    decreases |p|
  {
    if p == [] {
      assert p + q == q;
    } else {
      assert (p + q)[1..] == p[1..] + q;
      WidthAppend(p[1..], q);
    }
  }

  lemma {:induction false} WidthSnoc(ptr: Pointer, i: nat)
    requires i < |ptr|
    ensures Width(ptr[..i + 1]) == Width(ptr[..i]) + ptr[i].width
    ensures Width(ptr[..i]) + ptr[i].width <= Width(ptr)
  {
    assert ptr[..i + 1] == ptr[..i] + [ptr[i]];
    WidthAppend(ptr[..i], [ptr[i]]);
    assert ptr == ptr[..i + 1] + ptr[i + 1..];
    WidthAppend(ptr[..i + 1], ptr[i + 1..]);
    assert [ptr[i]][1..] == [];
  }

  // ---------------------------------------------------------------- windows

  function Clamp(width: nat, x: int): (r: nat)
    ensures r <= width
  {
    if x < 0 then 0 else if x > width then width else x
  }

  /** A slice that is narrowed to a part of itself. */
  function Narrow(s: ValueSlice, off: nat, len: nat): ValueSlice {
    s.(width := len, select := s.select + [Slice(off, len)])
  }

  /** The part of a slice, at offset `at` in its pointer, that lies between lo and hi. */
  function Cut(s: ValueSlice, at: nat, lo: int, hi: int): Pointer {
    var off, end := Clamp(s.width, lo - at), Clamp(s.width, hi - at);
    if off == 0 && end - off == s.width then [s]
    else if end <= off then []
    else [Narrow(s, off, end - off)]
  }

  /** All parts of a pointer between lo and hi. */
  function Window(ptr: Pointer, at: nat, lo: int, hi: int): Pointer {
    if ptr == [] then [] else Cut(ptr[0], at, lo, hi) + Window(ptr[1..], at + ptr[0].width, lo, hi)
  }

  /** The bounds are in order, or the window starts before or ends behind everything. */
  predicate OrderedCut(width: nat, at: nat, lo: int, hi: int) {
    lo <= hi || lo <= at || at + width <= hi
  }

  lemma {:induction false} WindowWidth(ptr: Pointer, at: nat, lo: int, hi: int)
    requires OrderedCut(Width(ptr), at, lo, hi)
    ensures Width(Window(ptr, at, lo, hi)) == Clamp(Width(ptr), hi - at) - Clamp(Width(ptr), lo - at)
    decreases |ptr|
  {
    if ptr != [] {
      WindowWidth(ptr[1..], at + ptr[0].width, lo, hi);
      var cut := Cut(ptr[0], at, lo, hi);
      WidthAppend(cut, Window(ptr[1..], at + ptr[0].width, lo, hi));
      assert cut == [] || (|cut| == 1 && cut[1..] == []);
    }
  }

  // ---------------------------------------------------------------- readers

  /** `len` elements from position `off` on. */
  function Chop<T>(s: seq<T>, off: nat, len: nat): (r: seq<T>)
    requires off + len <= |s|
    ensures |r| == len && forall k {:trigger r[k]} :: 0 <= k < len ==> r[k] == s[off + k]
  {
    seq(len, k requires 0 <= k < len => s[off + k])
  }

  /** A reader yields as many parts as a slice is wide, and respects narrowing. */
  ghost predicate Lawful(ok: ValueSlice -> bool, read: ValueSlice -> seq<Part>) {
    && (forall s {:trigger read(s)} :: ok(s) ==> |read(s)| == s.width)
    && (forall s, off: nat, len: nat {:trigger Narrow(s, off, len)} :: ok(s) && off + len <= s.width ==>
         ok(Narrow(s, off, len)) && read(Narrow(s, off, len)) == Chop(read(s), off, len))
  }

  ghost predicate AllOk(ok: ValueSlice -> bool, ptr: Pointer) {
    ptr == [] || (ok(ptr[0]) && AllOk(ok, ptr[1..]))
  }

  lemma {:induction false} AllOkAppend(ok: ValueSlice -> bool, p: Pointer, q: Pointer)
    requires AllOk(ok, p) && AllOk(ok, q)
    ensures AllOk(ok, p + q)
    decreases |p|
  {
    if p == [] {
      assert p + q == q;
    } else {
      assert (p + q)[1..] == p[1..] + q;
      AllOkAppend(ok, p[1..], q);
    }
  }

  /** The concatenated contents of all slices. */
  function Contents(read: ValueSlice -> seq<Part>, ptr: Pointer): seq<Part> {
    if ptr == [] then [] else read(ptr[0]) + Contents(read, ptr[1..])
  }

  lemma {:induction false} ContentsWidth(ok: ValueSlice -> bool, read: ValueSlice -> seq<Part>, ptr: Pointer)
    requires Lawful(ok, read) && AllOk(ok, ptr)
    ensures |Contents(read, ptr)| == Width(ptr)
    decreases |ptr|
  {
    if ptr == [] {
    } else {
      ContentsWidth(ok, read, ptr[1..]);
    }
  }

  lemma {:induction false} ContentsAppend(read: ValueSlice -> seq<Part>, p: Pointer, q: Pointer)
    ensures Contents(read, p + q) == Contents(read, p) + Contents(read, q)
    decreases |p|
  {
    if p == [] {
      assert p + q == q;
    } else {
      assert (p + q)[1..] == p[1..] + q;
      ContentsAppend(read, p[1..], q);
    }
  }

  /** The window onto a sequence that starts at position `at`. */
  function Between<T>(s: seq<T>, at: nat, lo: int, hi: int): seq<T> {
    var off, end := Clamp(|s|, lo - at), Clamp(|s|, hi - at);
    if end <= off then [] else Chop(s, off, end - off)
  }

  lemma {:induction false} BetweenAt<T>(s: seq<T>, at: nat, lo: int, hi: int, k: nat)
    requires k < |Between(s, at, lo, hi)|
    ensures Clamp(|s|, lo - at) + k < |s| && Between(s, at, lo, hi)[k] == s[Clamp(|s|, lo - at) + k]
  {
    var off, end := Clamp(|s|, lo - at), Clamp(|s|, hi - at);
    assert Between(s, at, lo, hi) == Chop(s, off, end - off);
    assert Chop(s, off, end - off)[k] == s[off + k];
  }

  lemma {:induction false} BetweenConcat<T>(a: seq<T>, b: seq<T>, at: nat, mid: nat, lo: int, hi: int)
    requires OrderedCut(|a| + |b|, at, lo, hi) && mid == at + |a|
    ensures Between(a + b, at, lo, hi) == Between(a, at, lo, hi) + Between(b, mid, lo, hi)
  {
    var l, p, q := Between(a + b, at, lo, hi), Between(a, at, lo, hi), Between(b, mid, lo, hi);
    assert |l| == |p| + |q|;
    forall k | 0 <= k < |l|
      ensures l[k] == (p + q)[k]
    {
      BetweenAt(a + b, at, lo, hi, k);
      if k < |p| {
        BetweenAt(a, at, lo, hi, k);
      } else {
        BetweenAt(b, mid, lo, hi, k - |p|);
      }
    }
  }

  lemma {:induction false} CutContents(ok: ValueSlice -> bool, read: ValueSlice -> seq<Part>, s: ValueSlice, at: nat,
      lo: int, hi: int)
    requires Lawful(ok, read) && ok(s)
    ensures AllOk(ok, Cut(s, at, lo, hi))
    ensures Contents(read, Cut(s, at, lo, hi)) == Between(read(s), at, lo, hi)
  {
    var cut := Cut(s, at, lo, hi);
    assert |read(s)| == s.width;
    assert cut == [] || (|cut| == 1 && cut[1..] == [] && Contents(read, cut) == read(cut[0]));
  }

  /** Cutting a window out of a pointer cuts it out of the contents. */
  lemma {:induction false} WindowContents(ok: ValueSlice -> bool, read: ValueSlice -> seq<Part>, ptr: Pointer, at: nat,
      lo: int, hi: int)
    requires Lawful(ok, read) && AllOk(ok, ptr) && OrderedCut(Width(ptr), at, lo, hi)
    ensures AllOk(ok, Window(ptr, at, lo, hi))
    ensures Contents(read, Window(ptr, at, lo, hi)) == Between(Contents(read, ptr), at, lo, hi)
    decreases |ptr|
  {
    if ptr == [] {
    } else {
      var s, rest := ptr[0], ptr[1..];
      CutContents(ok, read, s, at, lo, hi);
      WindowContents(ok, read, rest, at + s.width, lo, hi);
      ContentsAppend(read, Cut(s, at, lo, hi), Window(rest, at + s.width, lo, hi));
      AllOkAppend(ok, Cut(s, at, lo, hi), Window(rest, at + s.width, lo, hi));
      ContentsWidth(ok, read, rest);
      BetweenConcat(read(s), Contents(read, rest), at, at + s.width, lo, hi);
      assert Contents(read, ptr) == read(s) + Contents(read, rest);
      assert Window(ptr, at, lo, hi) == Cut(s, at, lo, hi) + Window(rest, at + s.width, lo, hi);
    }
  }

  // ---------------------------------------------------------------- slice extraction

  lemma {:induction false} AppendAssoc<T>(a: seq<T>, b: seq<T>, c: seq<T>)
    ensures a + (b + c) == a + b + c
  {
  }

  /** The slice extraction of `exec_insext`: keep what `Cut` leaves of each slice. */
  method ExtSlice(target: Pointer, offset: nat, length: nat) returns (slices: Pointer)
    ensures slices == Window(target, 0, offset, offset + length)
  {
    slices := [];
    var sliceOffset: nat := 0;
    assert target[0..] == target;
    for i := 0 to |target|
      invariant slices + Window(target[i..], sliceOffset, offset, offset + length)
        == Window(target, 0, offset, offset + length)
    {
      var kept := Cut(target[i], sliceOffset, offset, offset + length);
      assert target[i..][1..] == target[i + 1..];
      AppendAssoc(slices, kept, Window(target[i + 1..], sliceOffset + target[i].width, offset, offset + length));
      slices := slices + kept;
      sliceOffset := sliceOffset + target[i].width;
    }
    assert Window(target[|target|..], sliceOffset, offset, offset + length) == [];
  }

  lemma {:induction false} BetweenChop<T>(s: seq<T>, lo: nat, hi: nat, len: nat)
    requires hi <= |s| && hi == lo + len
    ensures Between(s, 0, lo, hi) == Chop(s, lo, len)
  {
    assert len == 0 ==> Chop(s, lo, len) == [];
  }

  /** Extracting a slice yields the requested window of the contents. */
  lemma {:induction false} ExtSliceContents(ok: ValueSlice -> bool, read: ValueSlice -> seq<Part>, ptr: Pointer,
      off: nat, len: nat)
    requires Lawful(ok, read) && AllOk(ok, ptr) && off + len <= Width(ptr)
    ensures AllOk(ok, Window(ptr, 0, off, off + len)) && Width(Window(ptr, 0, off, off + len)) == len
    ensures |Contents(read, ptr)| == Width(ptr)
    ensures Contents(read, Window(ptr, 0, off, off + len)) == Chop(Contents(read, ptr), off, len)
  {
    ContentsWidth(ok, read, ptr);
    WindowContents(ok, read, ptr, 0, off, off + len);
    WindowWidth(ptr, 0, off, off + len);
    BetweenChop(Contents(read, ptr), off, off + len, len);
  }

  // ---------------------------------------------------------------- shifts

  function Min(a: nat, b: nat): nat {
    if a < b then a else b
  }

  /** Windows onto two pointers, one behind the other. */
  function Fuse(p: Pointer, lo: int, hi: int, q: Pointer, lo': int, hi': int): Pointer {
    Window(p, 0, lo, hi) + Window(q, 0, lo', hi')
  }

  /** The top `a` of hidden below the bottom of base. */
  function ShiftIn(base: Pointer, hidden: Pointer, a: nat): Pointer {
    Fuse(hidden, Width(hidden) - a, Width(hidden), base, 0, Width(base) - a)
  }

  /** The bottom `a` of hidden above the top of base. */
  function ShiftOut(base: Pointer, hidden: Pointer, a: nat): Pointer {
    Fuse(base, a, Width(base), hidden, 0, a)
  }

  /** `exec_shift`: base and hidden are fused, hidden at the bottom for a left shift. */
  function ExecShift(left: bool, base: Pointer, hidden: Pointer, amount: nat): Pointer {
    var a := Min(Width(hidden), amount);
    if left then ShiftIn(base, hidden, a) else ShiftOut(base, hidden, a)
  }

  /** The documented meaning of a shift: concatenate the two and select a window. */
  function ShiftWindow<T>(left: bool, base: seq<T>, hidden: seq<T>, amount: nat): (r: seq<T>)
    requires amount <= |hidden|
    ensures |r| == |base|
  {
    var whole, off := if left then hidden + base else base + hidden, if left then |hidden| - amount else amount;
    seq(|base|, k requires 0 <= k < |base| => whole[off + k])
  }

  lemma {:induction false} LeftIsWindow<T>(b: seq<T>, bw: nat, h: seq<T>, hw: nat, a: nat)
    requires |b| == bw && |h| == hw && a <= hw && a <= bw
    ensures ShiftWindow(true, b, h, a) == Between(h, 0, hw - a, hw) + Between(b, 0, 0, bw - a)
  {
    var l, r := ShiftWindow(true, b, h, a), Between(h, 0, hw - a, hw) + Between(b, 0, 0, bw - a);
    forall k | 0 <= k < bw
      ensures l[k] == r[k]
    {
    }
  }

  lemma {:induction false} RightIsWindow<T>(b: seq<T>, bw: nat, h: seq<T>, hw: nat, a: nat)
    requires |b| == bw && |h| == hw && a <= hw && a <= bw
    ensures ShiftWindow(false, b, h, a) == Between(b, 0, a, bw) + Between(h, 0, 0, a)
  {
    var l, r := ShiftWindow(false, b, h, a), Between(b, 0, a, bw) + Between(h, 0, 0, a);
    forall k | 0 <= k < bw
      ensures l[k] == r[k]
    {
    }
  }

  lemma {:induction false} FuseContents(ok: ValueSlice -> bool, read: ValueSlice -> seq<Part>, p: Pointer, lo: int,
      hi: int, q: Pointer, lo': int, hi': int)
    requires Lawful(ok, read) && AllOk(ok, p) && AllOk(ok, q)
    requires OrderedCut(Width(p), 0, lo, hi) && OrderedCut(Width(q), 0, lo', hi')
    ensures AllOk(ok, Fuse(p, lo, hi, q, lo', hi'))
    ensures Contents(read, Fuse(p, lo, hi, q, lo', hi'))
      == Between(Contents(read, p), 0, lo, hi) + Between(Contents(read, q), 0, lo', hi')
  {
    WindowContents(ok, read, p, 0, lo, hi);
    WindowContents(ok, read, q, 0, lo', hi');
    ContentsAppend(read, Window(p, 0, lo, hi), Window(q, 0, lo', hi'));
    AllOkAppend(ok, Window(p, 0, lo, hi), Window(q, 0, lo', hi'));
  }

  lemma {:induction false} LeftContents(ok: ValueSlice -> bool, read: ValueSlice -> seq<Part>, base: Pointer,
      hidden: Pointer, a: nat)
    requires Lawful(ok, read) && AllOk(ok, base) && AllOk(ok, hidden)
    requires a <= Width(hidden) && a <= Width(base) && |Contents(read, hidden)| == Width(hidden)
    ensures AllOk(ok, ShiftIn(base, hidden, a))
    ensures Contents(read, ShiftIn(base, hidden, a)) ==
      ShiftWindow(true, Contents(read, base), Contents(read, hidden), a)
  {
    ContentsWidth(ok, read, base);
    LeftIsWindow(Contents(read, base), Width(base), Contents(read, hidden), Width(hidden), a);
    FuseContents(ok, read, hidden, Width(hidden) - a, Width(hidden), base, 0, Width(base) - a);
  }

  lemma {:induction false} RightContents(ok: ValueSlice -> bool, read: ValueSlice -> seq<Part>, base: Pointer,
      hidden: Pointer, a: nat)
    requires Lawful(ok, read) && AllOk(ok, base) && AllOk(ok, hidden)
    requires a <= Width(hidden) && a <= Width(base) && |Contents(read, hidden)| == Width(hidden)
    ensures AllOk(ok, ShiftOut(base, hidden, a))
    ensures Contents(read, ShiftOut(base, hidden, a)) ==
      ShiftWindow(false, Contents(read, base), Contents(read, hidden), a)
  {
    ContentsWidth(ok, read, base);
    RightIsWindow(Contents(read, base), Width(base), Contents(read, hidden), Width(hidden), a);
    FuseContents(ok, read, base, a, Width(base), hidden, 0, a);
  }

  /** A shift by up to the width of the base yields the documented window. */
  lemma {:induction false} ShiftContents(ok: ValueSlice -> bool, read: ValueSlice -> seq<Part>, left: bool,
      base: Pointer, hidden: Pointer, amount: nat)
    requires Lawful(ok, read) && AllOk(ok, base) && AllOk(ok, hidden)
    requires Min(Width(hidden), amount) <= Width(base)
    ensures AllOk(ok, ExecShift(left, base, hidden, amount))
    ensures |Contents(read, hidden)| == Width(hidden)
    ensures Contents(read, ExecShift(left, base, hidden, amount)) ==
      ShiftWindow(left, Contents(read, base), Contents(read, hidden), Min(Width(hidden), amount))
  {
    ContentsWidth(ok, read, hidden);
    if left {
      LeftContents(ok, read, base, hidden, Min(Width(hidden), amount));
    } else {
      RightContents(ok, read, base, hidden, Min(Width(hidden), amount));
    }
  }

  lemma {:induction false} FuseWidth(p: Pointer, lo: int, hi: int, q: Pointer, lo': int, hi': int)
    requires OrderedCut(Width(p), 0, lo, hi) && OrderedCut(Width(q), 0, lo', hi')
    ensures Width(Fuse(p, lo, hi, q, lo', hi')) ==
      Clamp(Width(p), hi) - Clamp(Width(p), lo) + Clamp(Width(q), hi') - Clamp(Width(q), lo')
  {
    WindowWidth(p, 0, lo, hi);
    WindowWidth(q, 0, lo', hi');
    WidthAppend(Window(p, 0, lo, hi), Window(q, 0, lo', hi'));
  }

  /** The result has the width of the base exactly if the amount does not exceed it. */
  lemma {:induction false} ShiftWidth(left: bool, base: Pointer, hidden: Pointer, amount: nat)
    ensures Width(ExecShift(left, base, hidden, amount)) == Width(base) <==> Min(Width(hidden), amount) <= Width(base)
  {
    var bw: int, hw: int, a := Width(base), Width(hidden), Min(Width(hidden), amount);
    if left {
      FuseWidth(hidden, hw - a, hw, base, 0, bw - a);
    } else {
      FuseWidth(base, a, bw, hidden, 0, a);
    }
  }

  lemma {:induction false} ShiftAllOk(ok: ValueSlice -> bool, read: ValueSlice -> seq<Part>, left: bool, base: Pointer,
      hidden: Pointer, amount: nat)
    requires Lawful(ok, read) && AllOk(ok, base) && AllOk(ok, hidden)
    ensures AllOk(ok, ExecShift(left, base, hidden, amount))
  {
    var bw: int, hw: int, a := Width(base), Width(hidden), Min(Width(hidden), amount);
    if left {
      FuseContents(ok, read, hidden, hw - a, hw, base, 0, bw - a);
    } else {
      FuseContents(ok, read, base, a, bw, hidden, 0, a);
    }
  }

  /** A shift yields the documented window if and only if the clamped amount does not exceed the width of the base. */
  lemma {:induction false} ShiftExactly(ok: ValueSlice -> bool, read: ValueSlice -> seq<Part>, left: bool,
      base: Pointer, hidden: Pointer, amount: nat)
    requires Lawful(ok, read) && AllOk(ok, base) && AllOk(ok, hidden)
    ensures |Contents(read, base)| == Width(base) && |Contents(read, hidden)| == Width(hidden)
    ensures Contents(read, ExecShift(left, base, hidden, amount)) ==
      ShiftWindow(left, Contents(read, base), Contents(read, hidden), Min(Width(hidden), amount))
      <==> Min(Width(hidden), amount) <= Width(base)
  {
    ContentsWidth(ok, read, base);
    ContentsWidth(ok, read, hidden);
    if Min(Width(hidden), amount) <= Width(base) {
      ShiftContents(ok, read, left, base, hidden, amount);
    } else {
      ShiftAllOk(ok, read, left, base, hidden, amount);
      ContentsWidth(ok, read, ExecShift(left, base, hidden, amount));
      ShiftWidth(left, base, hidden, amount);
    }
  }
}
