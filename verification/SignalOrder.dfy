/** Events whose pointers reach no common cell do not interfere, so that a step's effect
    on the signals is determined (src/bin/llhd-sim/engine.rs). */
module SignalOrder {
  import K = Kernel
  import L = Lenses
  import O = StepOrder
  import opened Options
  import opened Overlap
  import opened PointerAccess
  import opened PointerWrites
  import opened Pointers
  import opened Values

  /** The signals among the targets of a pointer some slice of which does not hold its part already. */
  function Touched(types: Types, s: Store, ptr: Pointer, xs: seq<Value>): set<nat>
    requires |xs| == |ptr|
  {
    if ptr == [] then {}
    else
      (if ptr[0].target.SignalTarget? && GetSlice(types)(s, ptr[0]) != xs[0] then {ptr[0].target.id} else {})
      + Touched(types, s, ptr[1..], xs[1..])
  }

  lemma {:induction false} TouchedIn(types: Types, s: Store, ptr: Pointer, xs: seq<Value>, i: nat)
    requires |xs| == |ptr|
    ensures i in Touched(types, s, ptr, xs) <==> Stale(types, s, ptr, xs, SignalTarget(i))
    decreases |ptr|
  {
    if ptr == [] {
    } else {
      TouchedIn(types, s, ptr[1..], xs[1..], i);
      StaleHead(types, s, ptr, xs, SignalTarget(i));
    }
  }

  /** What an event does to the signals of a simulation. */
  function SignalMachine<D>(types: Types, typeOf: Pointer -> Type,
      run: (nat, D, Store, K.SimTime.TimeValue, set<nat>, bool) -> K.Outcome<D, Pointer, Value>): K.Machine<Store, D,
      Pointer, Value>
  {
    K.Machine(
      (s: Store, p: Pointer, v: Value) => WritePtr(s, types, p, typeOf(p), v),
      (s: Store, p: Pointer, v: Value) => Touched(types, s, p, SubValues(v, typeOf(p), p, 0)),
      run)
  }

  // ---------------------------------------------------------------- which targets change

  lemma {:induction false} StaleHead(types: Types, s: Store, ls: Pointer, xs: seq<Value>, t: Target)
    requires ls != [] && |xs| == |ls|
    ensures Stale(types, s, ls, xs, t) <==>
      (ls[0].target == t && GetSlice(types)(s, ls[0]) != xs[0]) || Stale(types, s, ls[1..], xs[1..], t)
  {
    if Stale(types, s, ls[1..], xs[1..], t) {
      var k :| 0 <= k < |ls[1..]| && ls[1..][k].target == t && GetSlice(types)(s, ls[1..][k]) != xs[1..][k];
      assert ls[k + 1].target == t && GetSlice(types)(s, ls[k + 1]) != xs[k + 1];
    }
    if Stale(types, s, ls, xs, t) {
      var k :| 0 <= k < |ls| && ls[k].target == t && GetSlice(types)(s, ls[k]) != xs[k];
      if k > 0 {
        assert ls[1..][k - 1].target == t && GetSlice(types)(s, ls[1..][k - 1]) != xs[1..][k - 1];
      }
    }
  }

  lemma {:induction false} StaleOther(types: Types, a: Store, b: Store, ls: Pointer, xs: seq<Value>, t: Target)
    requires t in a && t in b && a[t] == b[t] && StoreTyped(a, types) && StoreTyped(b, types)
    ensures Stale(types, a, ls, xs, t) <==> Stale(types, b, ls, xs, t)
  {
    forall k | 0 <= k < |ls| && ls[k].target == t
      ensures GetSlice(types)(a, ls[k]) == GetSlice(types)(b, ls[k])
    {
    }
  }

  /** With distinct targets, a pointer changes a target exactly if the slice on it did not hold its value already. */
  lemma {:induction false} PutChanges(types: Types, s: Store, ls: Pointer, xs: seq<Value>, t: Target)
    requires L.FitAll(FitsSlice(types), s, ls, xs) && DistinctTargets(ls) && t in s && StoreTyped(s, types)
    ensures t in L.PutAll(PutSlice(types), s, ls, xs)
    ensures L.PutAll(PutSlice(types), s, ls, xs)[t] != s[t] <==> Stale(types, s, ls, xs, t)
    decreases |ls|
  {
    if ls == [] {
    } else {
      var l, x, s' := ls[0], xs[0], PutSlice(types)(s, ls[0], xs[0]);
      StaleHead(types, s, ls, xs, t);
      SliceChanges(types, s, l, x);
      assert forall k :: 0 <= k < |ls[1..]| ==> ls[1..][k] == ls[k + 1];
      if l.target == t {
        OtherTargets(types, s', ls[1..], xs[1..], t);
        assert !Stale(types, s, ls[1..], xs[1..], t);
      } else {
        SliceLaws(types);
        L.FitAfterPut(FitsSlice(types), GetSlice(types), PutSlice(types), ApartSlices(), s, l, x, ls[1..], xs[1..]);
        PutChanges(types, s', ls[1..], xs[1..], t);
        StaleOther(types, s, s', ls[1..], xs[1..], t);
      }
    }
  }

  lemma {:induction false} StaleSame(types: Types, a: Store, b: Store, ls: Pointer, xs: seq<Value>, t: Target)
    requires L.GetAll(GetSlice(types), a, ls) == L.GetAll(GetSlice(types), b, ls) && |ls| == |xs|
    ensures Stale(types, a, ls, xs, t) <==> Stale(types, b, ls, xs, t)
    decreases |ls|
  {
    if ls == [] {
    } else {
      L.ConsEqual(GetSlice(types)(a, ls[0]), L.GetAll(GetSlice(types), a, ls[1..]), GetSlice(types)(b, ls[0]),
        L.GetAll(GetSlice(types), b, ls[1..]));
      StaleSame(types, a, b, ls[1..], xs[1..], t);
      StaleHead(types, a, ls, xs, t);
      StaleHead(types, b, ls, xs, t);
    }
  }

  // ---------------------------------------------------------------- independence

  /** An event that fits the signals. */
  ghost predicate EventOk(types: Types, p: Pointer, ty: Type, v: Value) {
    Writable(types, p, ty) && HasType(v, ty)
  }

  lemma {:induction false} KeepsTyped(types: Types, s: Store, p: Pointer, ty: Type, v: Value)
    requires StoreTyped(s, types)
    ensures StoreTyped(WritePtr(s, types, p, ty, v), types) && WritePtr(s, types, p, ty, v).Keys == s.Keys
  {
    WriteTyped(s, types, Kept(p), KeptParts(p, SubValues(v, ty, p, 0)));
  }

  /** What changes is touched. */
  lemma {:induction false} ChangesTouch(types: Types, s: Store, p: Pointer, ty: Type, v: Value, t: Target)
    requires StoreTyped(s, types) && EventOk(types, p, ty, v) && t in s
    ensures t in WritePtr(s, types, p, ty, v)
    ensures WritePtr(s, types, p, ty, v)[t] != s[t] ==> Stale(types, s, p, SubValues(v, ty, p, 0), t)
  {
    var xs := SubValues(v, ty, p, 0);
    SubValuesFit(s, types, p, ty, v);
    KeptFit(FitsSlice(types), s, p, xs);
    KeptDistinct(p);
    PutChanges(types, s, Kept(p), KeptParts(p, xs), t);
    if Stale(types, s, Kept(p), KeptParts(p, xs), t) {
      var i :| 0 <= i < |Kept(p)| && Kept(p)[i].target == t && GetSlice(types)(s, Kept(p)[i]) != KeptParts(p, xs)[i];
      var k := KeptLasting(p, xs, i);
    }
  }

  /** An event touches the same signals whether or not one that shares no cell with it came first. */
  lemma {:induction false} SameChanges(types: Types, s: Store, p: Pointer, pt: Type, v: Value, q: Pointer, qt: Type,
      w: Value)
    requires StoreTyped(s, types) && EventOk(types, p, pt, v) && EventOk(types, q, qt, w)
      && PointersUnshared(types, p, q)
    ensures Touched(types, WritePtr(s, types, p, pt, v), q, SubValues(w, qt, q, 0))
      == Touched(types, s, q, SubValues(w, qt, q, 0))
  {
    var s', xs := WritePtr(s, types, p, pt, v), SubValues(w, qt, q, 0);
    UnsharedLaws(types);
    SubValuesFit(s, types, q, qt, w);
    UnsharedAll(types, p, q);
    KeptFirstApart(UnsharedSlices(types), p, q);
    GetsKept(s, types, p, pt, v, q, xs, UnsharedSlices(types));
    forall i
      ensures i in Touched(types, s', q, xs) <==> i in Touched(types, s, q, xs)
    {
      TouchedIn(types, s, q, xs, i);
      TouchedIn(types, s', q, xs, i);
      StaleSame(types, s, s', q, xs, SignalTarget(i));
    }
  }

  lemma {:induction false} KeptUnshared(types: Types, p: Pointer, q: Pointer)
    requires PointersUnshared(types, p, q)
    ensures PointersUnshared(types, Kept(p), Kept(q))
  {
    forall j, k {:trigger Kept(p)[j], Kept(q)[k]} | 0 <= j < |Kept(p)| && 0 <= k < |Kept(q)|
      ensures Unshared(types, Kept(p)[j], Kept(q)[k])
    {
      var i := KeptLasting(p, seq(|p|, _ => Struct([])), j);
      var n := KeptLasting(q, seq(|q|, _ => Struct([])), k);
    }
  }

  /** The signals have values of their types. */
  function Good(types: Types): Store -> bool {
    s => StoreTyped(s, types)
  }

  /** Due events whose pointers pairwise reach no common cell do not interfere with each other. */
  lemma {:induction false} UnsharedIndependent<D>(types: Types, typeOf: Pointer -> Type,
      run: (nat, D, Store, K.SimTime.TimeValue, set<nat>, bool) -> K.Outcome<D, Pointer, Value>,
      due: map<Pointer, Value>)
    requires forall p :: p in due ==> EventOk(types, p, typeOf(p), due[p])
    requires forall p, q :: p in due && q in due && p != q ==> PointersUnshared(types, p, q)
    ensures O.Independent(SignalMachine(types, typeOf, run), Good(types), due)
  {
    var m, good := SignalMachine(types, typeOf, run), Good(types);
    forall s, p | good(s) && p in due
      ensures good(m.apply(s, p, due[p]))
    {
      KeepsTyped(types, s, p, typeOf(p), due[p]);
    }
    forall s, p, q {:trigger m.apply(m.apply(s, p, due[p]), q, due[q])} | good(s) && p in due && q in due && p != q
      ensures m.apply(m.apply(s, p, due[p]), q, due[q]) == m.apply(m.apply(s, q, due[q]), p, due[p])
    {
      KeptUnshared(types, p, q);
      UnsharedCommute(s, types, p, typeOf(p), due[p], q, typeOf(q), due[q]);
    }
    forall s, p, q {:trigger m.changed(m.apply(s, p, due[p]), q, due[q])} | good(s) && p in due && q in due && p != q
      ensures m.changed(m.apply(s, p, due[p]), q, due[q]) == m.changed(s, q, due[q])
    {
      SameChanges(types, s, p, typeOf(p), due[p], q, typeOf(q), due[q]);
    }
  }

  /** Due events whose pointers pairwise reach no common cell may be applied in any order: the
      signals and the set of changed signals are the same.  For two events whose pointers do reach
      one, some values make the order matter (Overlap.CommuteExactly). */
  lemma {:induction false} DisjointEventsInAnyOrder<D>(types: Types, typeOf: Pointer -> Type,
      run: (nat, D, Store, K.SimTime.TimeValue, set<nat>, bool) -> K.Outcome<D, Pointer, Value>,
      due: map<Pointer, Value>, s: Store, a: seq<(Pointer, Value)>, b: seq<(Pointer, Value)>)
    requires StoreTyped(s, types) && forall p :: p in due ==> EventOk(types, p, typeOf(p), due[p])
    requires forall p, q :: p in due && q in due && p != q ==> PointersUnshared(types, p, q)
    requires K.Lists(due, a) && K.Lists(due, b)
    ensures K.ApplyAll(SignalMachine(types, typeOf, run), s, a) == K.ApplyAll(SignalMachine(types, typeOf, run), s, b)
    ensures K.ChangedAll(SignalMachine(types, typeOf, run), s, a)
      == K.ChangedAll(SignalMachine(types, typeOf, run), s, b)
  {
    UnsharedIndependent(types, typeOf, run, due);
    O.EventOrderIrrelevant(SignalMachine(types, typeOf, run), Good(types), due, s, a, b);
  }

  /** Events whose pointers part ways, slice by slice, do not interfere with each other. */
  lemma {:induction false} ApartIndependent<D>(types: Types, typeOf: Pointer -> Type,
      run: (nat, D, Store, K.SimTime.TimeValue, set<nat>, bool) -> K.Outcome<D, Pointer, Value>,
      due: map<Pointer, Value>, s: Store)
    requires StoreTyped(s, types) && forall p :: p in due ==> EventOk(types, p, typeOf(p), due[p])
    requires forall p, q :: p in due && q in due && p != q ==> PointersApart(p, q)
    ensures O.Independent(SignalMachine(types, typeOf, run), Good(types), due)
  {
    forall p, q | p in due && q in due && p != q
      ensures PointersUnshared(types, p, q)
    {
      PointersApartUnshared(s, types, p, typeOf(p), q, typeOf(q));
    }
    UnsharedIndependent(types, typeOf, run, due);
  }
}
