/** Reading and writing many places at once, given that every single place obeys
    the usual laws: reading back, writing back, and a second write wins. */
module Lenses {

  /** The laws of a single place; `fits` says that a value may be written there. */
  ghost predicate Laws<S(!new), L(!new), X(!new)>(fits: (S, L, X) -> bool, get: (S, L) -> X, put: (S, L, X) -> S,
      apart: (L, L) -> bool)
  {
    && (forall s, l, x :: fits(s, l, x) ==> get(put(s, l, x), l) == x)
    && (forall s, l :: fits(s, l, get(s, l)) ==> put(s, l, get(s, l)) == s)
    && (forall s, l, x, y :: fits(s, l, x) && fits(s, l, y) ==> put(put(s, l, x), l, y) == put(s, l, y))
    && (forall s, l, x, r, y :: fits(s, l, x) ==> fits(put(s, l, x), r, y) == fits(s, r, y))
    && (forall s, l, x, r, y {:trigger fits(s, l, x), fits(s, r, y)} ::
      fits(s, l, x) && fits(s, r, y) && apart(l, r) ==>
         get(put(s, l, x), r) == get(s, r) && put(put(s, l, x), r, y) == put(put(s, r, y), l, x))
  }

  ghost predicate FitAll<S, L, X>(fits: (S, L, X) -> bool, s: S, ls: seq<L>, xs: seq<X>) {
    |ls| == |xs| && (ls == [] || (fits(s, ls[0], xs[0]) && FitAll(fits, s, ls[1..], xs[1..])))
  }

  /** Write all places, one after the other. */
  function PutAll<S, L, X>(put: (S, L, X) -> S, s: S, ls: seq<L>, xs: seq<X>): S
    requires |ls| == |xs|
    decreases |ls|
  {
    if ls == [] then s else PutAll(put, put(s, ls[0], xs[0]), ls[1..], xs[1..])
  }

  /** Read all places. */
  function GetAll<S, L, X>(get: (S, L) -> X, s: S, ls: seq<L>): (r: seq<X>)
    ensures |r| == |ls|
    decreases |ls|
  {
    if ls == [] then [] else [get(s, ls[0])] + GetAll(get, s, ls[1..])
  }

  lemma {:induction false} GetsAre<S, L, X>(get: (S, L) -> X, s: S, ls: seq<L>, xs: seq<X>)
    requires |xs| == |ls| && forall k :: 0 <= k < |ls| ==> get(s, ls[k]) == xs[k]
    ensures GetAll(get, s, ls) == xs
    decreases |ls|
  {
    if ls == [] {
    } else {
      GetsAre(get, s, ls[1..], xs[1..]);
      assert xs == [xs[0]] + xs[1..];
    }
  }

  /** A place is apart from all others, in both directions. */
  ghost predicate ApartFrom<L>(apart: (L, L) -> bool, ls: seq<L>, r: L) {
    ls == [] || (apart(ls[0], r) && apart(r, ls[0]) && ApartFrom(apart, ls[1..], r))
  }

  /** All places are pairwise apart. */
  ghost predicate PairwiseApart<L>(apart: (L, L) -> bool, ls: seq<L>) {
    ls == [] || (ApartFrom(apart, ls[1..], ls[0]) && PairwiseApart(apart, ls[1..]))
  }

  /** Every place of one list is apart from every place of the other. */
  ghost predicate AllApart<L>(apart: (L, L) -> bool, ls: seq<L>, rs: seq<L>) {
    rs == [] || (ApartFrom(apart, ls, rs[0]) && AllApart(apart, ls, rs[1..]))
  }

  lemma {:induction false} ConsEqual<X>(x: X, xs: seq<X>, y: X, ys: seq<X>)
    requires |xs| == |ys|
    ensures [x] + xs == [y] + ys <==> x == y && xs == ys
  {
    if [x] + xs == [y] + ys {
      assert ([x] + xs)[0] == ([y] + ys)[0];
      assert ([x] + xs)[1..] == xs && ([y] + ys)[1..] == ys;
    }
  }

  lemma {:induction false} FitCons<S, L, X>(fits: (S, L, X) -> bool, s: S, ls: seq<L>, x: X, xs: seq<X>)
    requires ls != [] && fits(s, ls[0], x) && FitAll(fits, s, ls[1..], xs)
    ensures FitAll(fits, s, ls, [x] + xs)
  {
    assert ([x] + xs)[1..] == xs;
  }

  lemma {:induction false} FitAfterPut<S(!new), L(!new), X(!new)>(fits: (S, L, X) -> bool, get: (S, L) -> X,
      put: (S, L, X) -> S, apart: (L, L) -> bool,
      s: S, l: L, x: X, ls: seq<L>, xs: seq<X>)
    requires Laws(fits, get, put, apart) && fits(s, l, x) && FitAll(fits, s, ls, xs)
    ensures FitAll(fits, put(s, l, x), ls, xs)
    decreases |ls|
  {
    if ls == [] {
    } else {
      FitAfterPut(fits, get, put, apart, s, l, x, ls[1..], xs[1..]);
    }
  }

  lemma {:induction false} FitAfterPutAll<S(!new), L(!new), X(!new)>(fits: (S, L, X) -> bool, get: (S, L) -> X,
      put: (S, L, X) -> S, apart: (L, L) -> bool,
      s: S, ls: seq<L>, xs: seq<X>, r: L, y: X)
    requires Laws(fits, get, put, apart) && FitAll(fits, s, ls, xs) && fits(s, r, y)
    ensures fits(PutAll(put, s, ls, xs), r, y)
    decreases |ls|
  {
    if ls == [] {
    } else {
      FitAfterPut(fits, get, put, apart, s, ls[0], xs[0], ls[1..], xs[1..]);
      FitAfterPutAll(fits, get, put, apart, put(s, ls[0], xs[0]), ls[1..], xs[1..], r, y);
    }
  }

  /** Writing many places neither disturbs a place apart from them nor does the order matter. */
  lemma {:induction false} PutAllApart<S(!new), L(!new), X(!new)>(fits: (S, L, X) -> bool, get: (S, L) -> X,
      put: (S, L, X) -> S, apart: (L, L) -> bool,
      s: S, ls: seq<L>, xs: seq<X>, r: L, y: X)
    requires Laws(fits, get, put, apart) && FitAll(fits, s, ls, xs) && fits(s, r, y) && ApartFrom(apart, ls, r)
    ensures get(PutAll(put, s, ls, xs), r) == get(s, r)
    ensures put(PutAll(put, s, ls, xs), r, y) == PutAll(put, put(s, r, y), ls, xs)
    decreases |ls|
  {
    if ls == [] {
    } else {
      var l, x := ls[0], xs[0];
      assert fits(put(s, l, x), r, y) == fits(s, r, y);
      FitAfterPut(fits, get, put, apart, s, l, x, ls[1..], xs[1..]);
      PutAllApart(fits, get, put, apart, put(s, l, x), ls[1..], xs[1..], r, y);
    }
  }

  /** Reading back what was written. */
  lemma {:induction false} GetPutAll<S(!new), L(!new), X(!new)>(fits: (S, L, X) -> bool, get: (S, L) -> X,
      put: (S, L, X) -> S, apart: (L, L) -> bool,
      s: S, ls: seq<L>, xs: seq<X>)
    requires Laws(fits, get, put, apart) && FitAll(fits, s, ls, xs) && PairwiseApart(apart, ls)
    ensures GetAll(get, PutAll(put, s, ls, xs), ls) == xs
    decreases |ls|
  {
    if ls == [] {
    } else {
      var s' := put(s, ls[0], xs[0]);
      FitAfterPut(fits, get, put, apart, s, ls[0], xs[0], ls[1..], xs[1..]);
      assert fits(s', ls[0], xs[0]) == fits(s, ls[0], xs[0]);
      PutAllApart(fits, get, put, apart, s', ls[1..], xs[1..], ls[0], xs[0]);
      GetPutAll(fits, get, put, apart, s', ls[1..], xs[1..]);
    }
  }

  /** Writing back what was read. */
  lemma {:induction false} PutGetAll<S(!new), L(!new), X(!new)>(fits: (S, L, X) -> bool, get: (S, L) -> X,
      put: (S, L, X) -> S, apart: (L, L) -> bool,
      s: S, ls: seq<L>)
    requires Laws(fits, get, put, apart) && FitAll(fits, s, ls, GetAll(get, s, ls))
    ensures PutAll(put, s, ls, GetAll(get, s, ls)) == s
    decreases |ls|
  {
    if ls == [] {
    } else {
      assert GetAll(get, s, ls)[1..] == GetAll(get, s, ls[1..]);
      PutGetAll(fits, get, put, apart, s, ls[1..]);
    }
  }

  /** A second write wins. */
  lemma {:induction false} PutPutAll<S(!new), L(!new), X(!new)>(fits: (S, L, X) -> bool, get: (S, L) -> X,
      put: (S, L, X) -> S, apart: (L, L) -> bool,
      s: S, ls: seq<L>, xs: seq<X>, ys: seq<X>)
    requires Laws(fits, get, put, apart) && FitAll(fits, s, ls, xs) && FitAll(fits, s, ls, ys)
      && PairwiseApart(apart, ls)
    ensures PutAll(put, PutAll(put, s, ls, xs), ls, ys) == PutAll(put, s, ls, ys)
    decreases |ls|
  {
    if ls == [] {
    } else {
      var l, x, y := ls[0], xs[0], ys[0];
      FitAfterPut(fits, get, put, apart, s, l, x, ls[1..], xs[1..]);
      FitAfterPut(fits, get, put, apart, s, l, y, ls[1..], xs[1..]);
      FitAfterPut(fits, get, put, apart, s, l, y, ls[1..], ys[1..]);
      assert fits(put(s, l, x), l, y) == fits(s, l, y);
      PutAllApart(fits, get, put, apart, put(s, l, x), ls[1..], xs[1..], l, y);
      PutPutAll(fits, get, put, apart, put(s, l, y), ls[1..], xs[1..], ys[1..]);
    }
  }

  /** Reading places that are apart from all written ones. */
  lemma {:induction false} GetPutAllApart<S(!new), L(!new), X(!new)>(fits: (S, L, X) -> bool, get: (S, L) -> X,
      put: (S, L, X) -> S, apart: (L, L) -> bool,
      s: S, ls: seq<L>, xs: seq<X>, rs: seq<L>, ys: seq<X>)
    requires Laws(fits, get, put, apart) && FitAll(fits, s, ls, xs) && FitAll(fits, s, rs, ys)
      && AllApart(apart, ls, rs)
    ensures GetAll(get, PutAll(put, s, ls, xs), rs) == GetAll(get, s, rs)
    decreases |rs|
  {
    if rs == [] {
    } else {
      PutAllApart(fits, get, put, apart, s, ls, xs, rs[0], ys[0]);
      GetPutAllApart(fits, get, put, apart, s, ls, xs, rs[1..], ys[1..]);
    }
  }

  /** Writes to places that are apart commute. */
  lemma {:induction false} PutAllCommute<S(!new), L(!new), X(!new)>(fits: (S, L, X) -> bool, get: (S, L) -> X,
      put: (S, L, X) -> S, apart: (L, L) -> bool,
      s: S, ls: seq<L>, xs: seq<X>, rs: seq<L>, ys: seq<X>)
    requires Laws(fits, get, put, apart) && FitAll(fits, s, ls, xs) && FitAll(fits, s, rs, ys)
      && AllApart(apart, ls, rs)
    ensures PutAll(put, PutAll(put, s, ls, xs), rs, ys) == PutAll(put, PutAll(put, s, rs, ys), ls, xs)
    decreases |rs|
  {
    if rs == [] {
    } else {
      PutAllApart(fits, get, put, apart, s, ls, xs, rs[0], ys[0]);
      FitAfterPut(fits, get, put, apart, s, rs[0], ys[0], ls, xs);
      FitAfterPut(fits, get, put, apart, s, rs[0], ys[0], rs[1..], ys[1..]);
      PutAllCommute(fits, get, put, apart, put(s, rs[0], ys[0]), ls, xs, rs[1..], ys[1..]);
    }
  }
}
