/** The loops that write through a pointer (src/bin/llhd-sim/engine.rs). */
module PointerWrites {
  import opened IntValues
  import L = Lenses
  import opened Options
  import opened PointerAccess
  import opened Pointers
  import opened Values

  /** Every target has a value of its type. */
  predicate TargetsTyped(types: Types, ptr: Pointer, into: seq<Value>) {
    |into| == |ptr| && (ptr == [] ||
      (ptr[0].target in types && HasType(into[0], types[ptr[0].target]) && TargetsTyped(types, ptr[1..], into[1..])))
  }

  /** Every part has the type that its slice selects. */
  predicate PartsTyped(types: Types, ptr: Pointer, xs: seq<Value>) {
    |xs| == |ptr| && (ptr == [] ||
      (SliceType(types, ptr[0]).Some? && HasType(xs[0], SliceType(types, ptr[0]).value)
        && PartsTyped(types, ptr[1..], xs[1..])))
  }

  lemma {:induction false} PartTyped(types: Types, ptr: Pointer, xs: seq<Value>, i: nat)
    requires PartsTyped(types, ptr, xs) && i < |ptr|
    ensures SliceType(types, ptr[i]).Some? && HasType(xs[i], SliceType(types, ptr[i]).value)
    decreases i
  {
    if i > 0 {
      PartTyped(types, ptr[1..], xs[1..], i - 1);
    }
  }

  lemma {:induction false} FitParts(types: Types, store: Store, ptr: Pointer, xs: seq<Value>)
    requires L.FitAll(FitsSlice(types), store, ptr, xs)
    ensures PartsTyped(types, ptr, xs)
    decreases |ptr|
  {
    if ptr == [] {
    } else {
      FitParts(types, store, ptr[1..], xs[1..]);
      assert FitsSlice(types)(store, ptr[0], xs[0]);
    }
  }

  /** What is left of the value of one target. */
  function Written(types: Types, s: ValueSlice, into: Value, x: Value): Value {
    if s.target in types && HasType(into, types[s.target]) && SliceType(types, s).Some?
      && HasType(x, SliceType(types, s).value) then
      Write(into, types[s.target], s.select, x)
    else
      into
  }

  function Writer(types: Types): (ValueSlice, Value, Value) -> Value {
    (s: ValueSlice, into: Value, x: Value) => Written(types, s, into, x)
  }

  /** What is left of the values of the first n targets. */
  function WrittenAll(w: (ValueSlice, Value, Value) -> Value, ptr: Pointer, into: seq<Value>, xs: seq<Value>,
      n: nat): (r: seq<Value>)
    requires |into| == |xs| == |ptr| && n <= |ptr|
    ensures |r| == n
  {
    if n == 0 then []
    else WrittenAll(w, ptr, into, xs, n - 1) + [w(ptr[n - 1], into[n - 1], xs[n - 1])]
  }

  lemma {:induction false} WrittenAt(w: (ValueSlice, Value, Value) -> Value, ptr: Pointer, into: seq<Value>,
      xs: seq<Value>, n: nat, k: nat)
    requires |into| == |xs| == |ptr| && k < n <= |ptr|
    ensures WrittenAll(w, ptr, into, xs, n)[k] == w(ptr[k], into[k], xs[k])
    decreases n
  {
    if k < n - 1 {
      WrittenAt(w, ptr, into, xs, n - 1, k);
    }
  }

  lemma {:induction false} SplitAt(sub: (nat, nat) -> Value, ptr: Pointer, at: nat, i: nat, off: nat)
    requires i < |ptr| && off == at + Width(ptr[..i])
    ensures Split(sub, ptr, at)[i] == sub(off, ptr[i].width)
    decreases i
  {
    if i > 0 {
      assert ptr[..i][1..] == ptr[1..][..i - 1];
      SplitAt(sub, ptr[1..], at + ptr[0].width, i - 1, off);
    }
  }

  /** The slice of the value that goes to the i-th slice of a pointer. */
  method PartFor(ptr: Pointer, ty: Type, value: Value, i: nat, off: nat) returns (x: Value)
    requires i < |ptr| && off == Width(ptr[..i])
    ensures x == SubValues(value, ty, ptr, 0)[i]
  {
    SplitAt(Pieces(value, ty), ptr, 0, i, off);
    x := SubValue(value, ty, off, ptr[i].width);
  }

  /** `write_pointer`: write every slice of the value to its own copy of a target. */
  method WritePointer(ptr: Pointer, into: array<Value>, write: (ValueSlice, Value, Value) -> Value, ty: Type,
      value: Value)
    requires into.Length == |ptr|
    modifies into
    ensures into[..] == WrittenAll(write, ptr, old(into[..]), SubValues(value, ty, ptr, 0), |ptr|)
  {
    ghost var xs := SubValues(value, ty, ptr, 0);
    ghost var was := into[..];
    ghost var goal := WrittenAll(write, ptr, was, xs, |ptr|);
    var off: nat := 0;
    for i := 0 to |ptr|
      invariant off == Width(ptr[..i])
      invariant forall k :: 0 <= k < i ==> into[k] == goal[k]
      invariant forall k :: i <= k < |ptr| ==> into[k] == was[k]
    {
      WidthSnoc(ptr, i);
      WrittenAt(write, ptr, was, xs, |ptr|, i);
      var subvalue := PartFor(ptr, ty, value, i, off);
      into[i] := write(ptr[i], into[i], subvalue);
      off := off + ptr[i].width;
    }
  }

  /** The store with the first n targets replaced. */
  function Assigned(store: Store, ptr: Pointer, modified: seq<Value>, n: nat): Store
    requires |modified| == |ptr| && n <= |ptr|
  {
    if n == 0 then store else Assigned(store, ptr, modified, n - 1)[ptr[n - 1].target := modified[n - 1]]
  }

  /** Some copy of the target was modified. */
  predicate Modified(ptr: Pointer, was: seq<Value>, modified: seq<Value>, n: nat, t: Target)
    requires |was| == |modified| == |ptr|
  {
    exists k :: 0 <= k < n <= |ptr| && ptr[k].target == t && modified[k] != was[k]
  }

  /** Store the modified targets back, and note which of them changed. */
  method StoreBack(store: Store, ptr: Pointer, was: seq<Value>, modified: seq<Value>)
      returns (result: Store, changed: set<Target>)
    requires |was| == |modified| == |ptr|
    requires forall k :: 0 <= k < |ptr| ==> ptr[k].target in store && was[k] == store[ptr[k].target]
    ensures result == Assigned(store, ptr, modified, |ptr|) && result.Keys == store.Keys
    ensures forall t {:trigger t in changed} :: t in changed <==> Modified(ptr, was, modified, |ptr|, t)
    ensures forall t {:trigger t in changed} :: t in store && result[t] != store[t] ==> t in changed
  {
    result, changed := store, {};
    for i := 0 to |ptr|
      invariant result == Assigned(store, ptr, modified, i) && result.Keys == store.Keys
      invariant forall t {:trigger t in changed} :: t in changed <==> Modified(ptr, was, modified, i, t)
      invariant forall t {:trigger t in changed} :: t in store && result[t] != store[t] ==> t in changed
    {
      var t := ptr[i].target;
      ModifiedNext(ptr, was, modified, i);
      if result[t] != modified[i] {
        result := result[t := modified[i]];
        if modified[i] != was[i] {
          changed := changed + {t};
        }
      } else {
        assert result[t := modified[i]] == result;
      }
    }
  }

  lemma ModifiedNext(ptr: Pointer, was: seq<Value>, modified: seq<Value>, i: nat)
    requires |was| == |modified| == |ptr| && i < |ptr|
    ensures forall t :: Modified(ptr, was, modified, i + 1, t) <==>
      Modified(ptr, was, modified, i, t) || (t == ptr[i].target && modified[i] != was[i])
  {
    forall t
      ensures Modified(ptr, was, modified, i + 1, t) <==>
        Modified(ptr, was, modified, i, t) || (t == ptr[i].target && modified[i] != was[i])
    {
      if Modified(ptr, was, modified, i, t) {
        var k :| 0 <= k < i && ptr[k].target == t && modified[k] != was[k];
        assert Modified(ptr, was, modified, i + 1, t);
      }
    }
  }

  /** A target has the value of its last copy. */
  lemma {:induction false} AssignedLast(store: Store, ptr: Pointer, modified: seq<Value>, n: nat, t: Target, k: nat)
    requires |modified| == |ptr| && k < n <= |ptr| && ptr[k].target == t
    requires forall j :: k < j < n ==> ptr[j].target != t
    ensures t in Assigned(store, ptr, modified, n) && Assigned(store, ptr, modified, n)[t] == modified[k]
    decreases n
  {
    if k < n - 1 {
      AssignedLast(store, ptr, modified, n - 1, t, k);
    }
  }

  lemma {:induction false} AssignedOther(store: Store, ptr: Pointer, modified: seq<Value>, n: nat, t: Target)
    requires |modified| == |ptr| && n <= |ptr| && forall k :: 0 <= k < n ==> ptr[k].target != t
    ensures t in Assigned(store, ptr, modified, n) <==> t in store
    ensures t in store ==> Assigned(store, ptr, modified, n)[t] == store[t]
    decreases n
  {
    if n > 0 {
      AssignedOther(store, ptr, modified, n - 1, t);
    }
  }

  /** Replacing the targets by what is written to their copies is to write the slices that last. */
  lemma {:induction false} AssignedIsPut(store: Store, types: Types, ptr: Pointer, was: seq<Value>, xs: seq<Value>)
    requires StoreTyped(store, types) && L.FitAll(FitsSlice(types), store, ptr, xs) && |was| == |ptr|
    requires forall k :: 0 <= k < |ptr| ==> ptr[k].target in store && was[k] == store[ptr[k].target]
    ensures Assigned(store, ptr, WrittenAll(Writer(types), ptr, was, xs, |ptr|), |ptr|)
      == L.PutAll(PutSlice(types), store, Kept(ptr), KeptParts(ptr, xs))
  {
    var modified := WrittenAll(Writer(types), ptr, was, xs, |ptr|);
    var a := Assigned(store, ptr, modified, |ptr|);
    var b := L.PutAll(PutSlice(types), store, Kept(ptr), KeptParts(ptr, xs));
    forall t
      ensures (t in a <==> t in b) && (t in a ==> a[t] == b[t])
    {
      if Targeted(ptr, t) {
        var k := LastOn(ptr, t);
        AssignedLast(store, ptr, modified, |ptr|, t, k);
        LastingWritten(types, store, ptr, xs, k);
        WrittenAt(Writer(types), ptr, was, xs, |ptr|, k);
      } else {
        AssignedOther(store, ptr, modified, |ptr|, t);
        Untargeted(types, store, ptr, xs, t);
      }
    }
  }

  /** Some slice on the target did not hold its part already. */
  ghost predicate Stale(types: Types, s: Store, ls: Pointer, xs: seq<Value>, t: Target) {
    |xs| == |ls| && exists k :: 0 <= k < |ls| && ls[k].target == t && GetSlice(types)(s, ls[k]) != xs[k]
  }

  /** A slice changes its target exactly if it did not hold the value already. */
  lemma {:induction false} SliceChanges(types: Types, s: Store, l: ValueSlice, x: Value)
    requires FitsSlice(types)(s, l, x)
    ensures l.target in PutSlice(types)(s, l, x) && l.target in s
    ensures PutSlice(types)(s, l, x)[l.target] != s[l.target] <==> GetSlice(types)(s, l) != x
  {
    WriteChanges(s[l.target], types[l.target], l.select, x);
  }

  lemma {:induction false} ModifiedStale(store: Store, types: Types, ptr: Pointer, was: seq<Value>, xs: seq<Value>,
      t: Target)
    requires StoreTyped(store, types) && PartsTyped(types, ptr, xs) && |was| == |ptr|
    requires forall k :: 0 <= k < |ptr| ==> ptr[k].target in store && was[k] == store[ptr[k].target]
    ensures Modified(ptr, was, WrittenAll(Writer(types), ptr, was, xs, |ptr|), |ptr|, t) <==>
      Stale(types, store, ptr, xs, t)
  {
    forall k | 0 <= k < |ptr|
      ensures WrittenAll(Writer(types), ptr, was, xs, |ptr|)[k] != was[k] <==> GetSlice(types)(store, ptr[k]) != xs[k]
    {
      PartTyped(types, ptr, xs, k);
      WrittenAt(Writer(types), ptr, was, xs, |ptr|, k);
      SliceChanges(types, store, ptr[k], xs[k]);
    }
  }

  /** What an event or a store does: gather the targets, write, and store them back in turn. */
  method ApplyWrite(store: Store, types: Types, ptr: Pointer, ty: Type, value: Value)
      returns (result: Store, changed: set<Target>)
    requires StoreTyped(store, types) && Writable(types, ptr, ty) && HasType(value, ty)
    ensures result == WritePtr(store, types, ptr, ty, value) && result.Keys == store.Keys
    ensures forall t {:trigger t in changed} :: t in changed <==>
      Stale(types, store, ptr, SubValues(value, ty, ptr, 0), t)
    ensures forall t {:trigger t in changed} :: t in store && result[t] != store[t] ==> t in changed
    ensures DistinctTargets(ptr) ==> forall t {:trigger t in changed} :: t in changed ==>
      t in store && result[t] != store[t]
  {
    ghost var xs := SubValues(value, ty, ptr, 0);
    SubValuesFit(store, types, ptr, ty, value);
    FitParts(types, store, ptr, xs);
    var was := Gather(store, types, ptr, xs);
    var modified := new Value[|ptr|](i requires 0 <= i < |was| => was[i]);
    assert modified[..] == was;
    WritePointer(ptr, modified, Writer(types), ty, value);
    result, changed := StoreBack(store, ptr, was, modified[..]);
    AssignedIsPut(store, types, ptr, was, xs);
    ChangedStale(store, types, ptr, was, xs, changed);
    if DistinctTargets(ptr) {
      DistinctChanged(store, types, ptr, was, xs, changed);
    }
  }

  lemma {:induction false} ChangedStale(store: Store, types: Types, ptr: Pointer, was: seq<Value>, xs: seq<Value>,
      changed: set<Target>)
    requires StoreTyped(store, types) && PartsTyped(types, ptr, xs) && |was| == |ptr|
    requires forall k :: 0 <= k < |ptr| ==> ptr[k].target in store && was[k] == store[ptr[k].target]
    requires forall t {:trigger t in changed} :: t in changed <==>
      Modified(ptr, was, WrittenAll(Writer(types), ptr, was, xs, |ptr|), |ptr|, t)
    ensures forall t {:trigger t in changed} :: t in changed <==> Stale(types, store, ptr, xs, t)
  {
    forall t
      ensures t in changed <==> Stale(types, store, ptr, xs, t)
    {
      ModifiedStale(store, types, ptr, was, xs, t);
    }
  }

  /** With distinct targets, what is modified stays so. */
  lemma {:induction false} DistinctChanged(store: Store, types: Types, ptr: Pointer, was: seq<Value>, xs: seq<Value>,
      changed: set<Target>)
    requires StoreTyped(store, types) && L.FitAll(FitsSlice(types), store, ptr, xs) && |was| == |ptr|
    requires DistinctTargets(ptr) && forall k :: 0 <= k < |ptr| ==>
      ptr[k].target in store && was[k] == store[ptr[k].target]
    requires forall t {:trigger t in changed} :: t in changed <==>
      Modified(ptr, was, WrittenAll(Writer(types), ptr, was, xs, |ptr|), |ptr|, t)
    ensures var r := L.PutAll(PutSlice(types), store, Kept(ptr), KeptParts(ptr, xs));
      forall t {:trigger t in changed} :: t in changed ==> t in store && t in r && r[t] != store[t]
  {
    var modified := WrittenAll(Writer(types), ptr, was, xs, |ptr|);
    AssignedIsPut(store, types, ptr, was, xs);
    forall t | t in changed
      ensures t in store && t in Assigned(store, ptr, modified, |ptr|)
        && Assigned(store, ptr, modified, |ptr|)[t] != store[t]
    {
      var k :| 0 <= k < |ptr| && ptr[k].target == t && modified[k] != was[k];
      AssignedLast(store, ptr, modified, |ptr|, t, k);
    }
  }

  /** The current values of all targets. */
  function Gather(store: Store, ghost types: Types, ptr: Pointer, ghost xs: seq<Value>): (r: seq<Value>)
    requires StoreTyped(store, types) && PartsTyped(types, ptr, xs)
    ensures TargetsTyped(types, ptr, r) && forall k :: 0 <= k < |ptr| ==>
      ptr[k].target in store && r[k] == store[ptr[k].target]
    decreases |ptr|
  {
    if ptr == [] then [] else [store[ptr[0].target]] + Gather(store, types, ptr[1..], xs[1..])
  }
}
