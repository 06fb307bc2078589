/** A step does not depend on the order in which a hash map yields the due events, nor on
    the order in which a thread pool runs the ready instances (src/bin/llhd-sim/engine.rs). */
module StepOrder {
  import opened SimTime
  import opened Sets
  import opened Kernel
  import opened Engine

  // ---------------------------------------------------------------- events

  /** Events that do not interfere with each other, on signals that are in good shape. */
  ghost predicate Independent<S(!new), D, P(!new), V>(m: Machine<S, D, P, V>, good: S -> bool, due: map<P, V>) {
    && (forall s, p :: good(s) && p in due ==> good(m.apply(s, p, due[p])))
    && (forall s, p, q {:trigger m.apply(m.apply(s, p, due[p]), q, due[q])} ::
      good(s) && p in due && q in due && p != q ==>
         m.apply(m.apply(s, p, due[p]), q, due[q]) == m.apply(m.apply(s, q, due[q]), p, due[p]))
    && (forall s, p, q {:trigger m.changed(m.apply(s, p, due[p]), q, due[q])} ::
      good(s) && p in due && q in due && p != q ==>
         m.changed(m.apply(s, p, due[p]), q, due[q]) == m.changed(s, q, due[q]))
  }

  /** Events from a map of events, each for a pointer of its own. */
  ghost predicate From<P, V>(due: map<P, V>, evs: seq<(P, V)>) {
    && (forall j, k {:trigger evs[j], evs[k]} :: 0 <= j < k < |evs| ==> evs[j].0 != evs[k].0)
    && (forall k :: 0 <= k < |evs| ==> evs[k].0 in due && due[evs[k].0] == evs[k].1)
  }

  lemma {:induction false} StaysGood<S(!new), D, P(!new), V>(m: Machine<S, D, P, V>, good: S -> bool, due: map<P, V>,
      s: S, evs: seq<(P, V)>)
    requires Independent(m, good, due) && good(s) && From(due, evs)
    ensures good(ApplyAll(m, s, evs))
    decreases |evs|
  {
    if evs == [] {
    } else {
      StaysGood(m, good, due, s, evs[..|evs| - 1]);
    }
  }

  lemma ApplySnoc<S, D, P, V>(m: Machine<S, D, P, V>, s: S, evs: seq<(P, V)>, e: (P, V), all: seq<(P, V)>)
    requires all == evs + [e]
    ensures ApplyAll(m, s, all) == m.apply(ApplyAll(m, s, evs), e.0, e.1)
    ensures ChangedAll(m, s, all) == ChangedAll(m, s, evs) + m.changed(ApplyAll(m, s, evs), e.0, e.1)
  {
    assert all[..|all| - 1] == evs;
  }

  /** The last two events may be exchanged. */
  lemma SwapLast<S(!new), D, P(!new), V>(m: Machine<S, D, P, V>, good: S -> bool, due: map<P, V>, s: S,
      evs: seq<(P, V)>, e: (P, V), f: (P, V))
    requires Independent(m, good, due) && good(s) && From(due, evs)
    requires e.0 in due && due[e.0] == e.1 && f.0 in due && due[f.0] == f.1 && e.0 != f.0
    ensures ApplyAll(m, s, evs + [e] + [f]) == ApplyAll(m, s, evs + [f] + [e])
    ensures ChangedAll(m, s, evs + [e] + [f]) == ChangedAll(m, s, evs + [f] + [e])
  {
    var a := ApplyAll(m, s, evs);
    StaysGood(m, good, due, s, evs);
    ApplySnoc(m, s, evs, e, evs + [e]);
    ApplySnoc(m, s, evs, f, evs + [f]);
    ApplySnoc(m, s, evs + [e], f, evs + [e] + [f]);
    ApplySnoc(m, s, evs + [f], e, evs + [f] + [e]);
    assert m.apply(m.apply(a, e.0, due[e.0]), f.0, due[f.0]) == m.apply(m.apply(a, f.0, due[f.0]), e.0, due[e.0]);
    assert m.changed(m.apply(a, e.0, due[e.0]), f.0, due[f.0]) == m.changed(a, f.0, due[f.0]);
    assert m.changed(m.apply(a, f.0, due[f.0]), e.0, due[e.0]) == m.changed(a, e.0, due[e.0]);
  }

  lemma FromParts<P, V>(due: map<P, V>, pre: seq<(P, V)>, e: (P, V), init: seq<(P, V)>, f: (P, V), all: seq<(P, V)>)
    requires From(due, all) && all == pre + [e] + init + [f]
    ensures From(due, pre + [e] + init) && From(due, pre + init) && e.0 != f.0
    ensures e.0 in due && due[e.0] == e.1 && f.0 in due && due[f.0] == f.1
  {
    var a, b := pre + [e] + init, pre + init;
    assert forall k :: 0 <= k < |a| ==> a[k] == all[k];
    assert forall k :: 0 <= k < |b| ==> b[k] == all[if k < |pre| then k else k + 1];
    assert e == all[|pre|] && f == all[|all| - 1];
  }

  lemma MoveParts<T>(pre: seq<T>, e: T, post: seq<T>, init: seq<T>, f: T, all: seq<T>, moved: seq<T>)
    requires post == init + [f] && all == pre + [e] + post && moved == pre + post + [e]
    ensures all == pre + [e] + init + [f] && moved == pre + init + [f] + [e]
  {
  }

  /** An event may be moved to the end. */
  lemma {:induction false} MoveToEnd<S(!new), D, P(!new), V>(m: Machine<S, D, P, V>, good: S -> bool, due: map<P, V>,
      s: S, pre: seq<(P, V)>, e: (P, V), post: seq<(P, V)>,
      all: seq<(P, V)>, moved: seq<(P, V)>)
    requires Independent(m, good, due) && good(s) && From(due, all) && all == pre + [e] + post
      && moved == pre + post + [e]
    ensures ApplyAll(m, s, all) == ApplyAll(m, s, moved) && ChangedAll(m, s, all) == ChangedAll(m, s, moved)
    decreases |post|
  {
    if post == [] {
      assert all == moved;
    } else {
      var n := |post| - 1;
      var f, init := post[n], post[..n];
      MoveParts(pre, e, post, init, f, all, moved);
      FromParts(due, pre, e, init, f, all);
      MoveToEnd(m, good, due, s, pre, e, init, pre + [e] + init, pre + init + [e]);
      ApplySnoc(m, s, pre + [e] + init, f, all);
      ApplySnoc(m, s, pre + init + [e], f, pre + init + [e] + [f]);
      SwapLast(m, good, due, s, pre + init, e, f);
    }
  }

  lemma ListsFrom<P, V>(due: map<P, V>, evs: seq<(P, V)>)
    requires Lists(due, evs)
    ensures From(due, evs) && (|evs| == 0 <==> due == map[])
  {
    if evs == [] {
      assert due.Keys == {};
    } else {
      assert evs[0].0 in due;
    }
  }

  lemma ListsWithout<P, V>(due: map<P, V>, pre: seq<(P, V)>, e: (P, V), post: seq<(P, V)>)
    requires Lists(due, pre + [e] + post)
    ensures Lists(due - {e.0}, pre + post)
  {
    var all, rest := pre + [e] + post, pre + post;
    assert all[|pre|] == e;
    assert forall k :: 0 <= k < |rest| ==> rest[k] == all[if k < |pre| then k else k + 1];
    forall p | p in due - {e.0}
      ensures exists k :: 0 <= k < |rest| && rest[k].0 == p
    {
      var k :| 0 <= k < |all| && all[k].0 == p;
      assert rest[if k < |pre| then k else k - 1].0 == p;
    }
  }

  lemma IndependentSubset<S(!new), D, P(!new), V>(m: Machine<S, D, P, V>, good: S -> bool, due: map<P, V>, p: P)
    requires Independent(m, good, due)
    ensures Independent(m, good, due - {p})
  {
    var sub := due - {p};
    forall s, q, r {:trigger m.apply(m.apply(s, q, sub[q]), r, sub[r])} | good(s) && q in sub && r in sub && q != r
      ensures m.apply(m.apply(s, q, sub[q]), r, sub[r]) == m.apply(m.apply(s, r, sub[r]), q, sub[q])
    {
      assert m.apply(m.apply(s, q, due[q]), r, due[r]) == m.apply(m.apply(s, r, due[r]), q, due[q]);
    }
    forall s, q, r {:trigger m.changed(m.apply(s, q, sub[q]), r, sub[r])} | good(s) && q in sub && r in sub && q != r
      ensures m.changed(m.apply(s, q, sub[q]), r, sub[r]) == m.changed(s, r, sub[r])
    {
      assert m.changed(m.apply(s, q, due[q]), r, due[r]) == m.changed(s, r, due[r]);
    }
  }

  /** Due events that do not interfere may be applied in any order. */
  lemma {:induction false} EventOrderIrrelevant<S(!new), D, P(!new), V>(m: Machine<S, D, P, V>, good: S -> bool,
      due: map<P, V>, s: S, a: seq<(P, V)>, b: seq<(P, V)>)
    requires Independent(m, good, due) && good(s) && Lists(due, a) && Lists(due, b)
    ensures ApplyAll(m, s, a) == ApplyAll(m, s, b) && ChangedAll(m, s, a) == ChangedAll(m, s, b)
    decreases |a|
  {
    ListsFrom(due, a);
    ListsFrom(due, b);
    if a == [] {
    } else {
      var n := |a| - 1;
      var e, init := a[n], a[..n];
      assert a == init + [e] + [];
      var k :| 0 <= k < |b| && b[k].0 == e.0;
      var pre, post := b[..k], b[k + 1..];
      assert b == pre + [e] + post;
      ListsWithout(due, init, e, []);
      ListsWithout(due, pre, e, post);
      assert init + [] == init;
      IndependentSubset(m, good, due, e.0);
      EventOrderIrrelevant(m, good, due - {e.0}, s, init, pre + post);
      MoveToEnd(m, good, due, s, pre, e, post, b, pre + post + [e]);
      ApplySnoc(m, s, init, e, a);
      ApplySnoc(m, s, pre + post, e, pre + post + [e]);
    }
  }

  // ---------------------------------------------------------------- instances

  /** The instances after some of them have run, one after the other. */
  function RunOrder<S, D, P, V>(m: Machine<S, D, P, V>, insts: seq<Instance<D>>, order: seq<nat>, signals: S,
      now: TimeValue, changed: set<nat>, first: bool): (r: seq<Instance<D>>)
    requires forall k :: 0 <= k < |order| ==> order[k] < |insts|
    ensures |r| == |insts|
    decreases |order|
  {
    if order == [] then insts
    else
      var i := order[0];
      RunOrder(m, insts[i := Resumed(now, Run(m, i, insts[i], signals, now, changed, first))], order[1..], signals, now,
        changed, first)
  }

  /** The events each of them yields. */
  function Results<S, D, P, V>(m: Machine<S, D, P, V>, insts: seq<Instance<D>>, order: seq<nat>, signals: S,
      now: TimeValue, changed: set<nat>, first: bool): map<nat, seq<Event<P, V>>>
    requires forall k :: 0 <= k < |order| ==> order[k] < |insts|
    decreases |order|
  {
    if order == [] then map[]
    else
      var i := order[0];
      var o := Run(m, i, insts[i], signals, now, changed, first);
      Results(m, insts[i := Resumed(now, o)], order[1..], signals, now, changed, first)[i := EventsOf(now, o.drives)]
  }

  /** Every instance does what it would do on its own. */
  lemma {:induction false} RunOrderEach<S, D, P, V>(m: Machine<S, D, P, V>, insts: seq<Instance<D>>, order: seq<nat>,
      signals: S, now: TimeValue, changed: set<nat>, first: bool, i: nat)
    requires (forall k :: 0 <= k < |order| ==> order[k] < |insts|) && Distinct(order) && i < |insts|
    ensures RunOrder(m, insts, order, signals, now, changed, first)[i] ==
      if i in order then Resumed(now, Run(m, i, insts[i], signals, now, changed, first)) else insts[i]
    ensures i in order <==> i in Results(m, insts, order, signals, now, changed, first)
    ensures i in order ==>
      Results(m, insts, order, signals, now, changed, first)[i]
        == EventsOf(now, Run(m, i, insts[i], signals, now, changed, first).drives)
    decreases |order|
  {
    if order == [] {
    } else {
      var h := order[0];
      assert order == [h] + order[1..];
      RunOrderEach(m, insts[h := Resumed(now, Run(m, h, insts[h], signals, now, changed, first))], order[1..], signals,
        now, changed, first, i);
    }
  }

  /** How a thread pool joins results: in any grouping, with empty lists in between, but in order. */
  datatype Reduction = Identity | Leaf(inst: nat) | Join(left: Reduction, right: Reduction)

  function Leaves(r: Reduction): seq<nat> {
    match r
    case Identity => []
    case Leaf(i) => [i]
    case Join(a, b) => Leaves(a) + Leaves(b)
  }

  function Reduce<E>(r: Reduction, results: map<nat, seq<E>>): seq<E>
    requires forall k :: 0 <= k < |Leaves(r)| ==> Leaves(r)[k] in results
  {
    match r
    case Identity => []
    case Leaf(i) => assert Leaves(r)[0] in results; results[i]
    case Join(a, b) =>
      assert forall k :: 0 <= k < |Leaves(a)| ==> Leaves(r)[k] == Leaves(a)[k];
      assert forall k :: 0 <= k < |Leaves(b)| ==> Leaves(r)[|Leaves(a)| + k] == Leaves(b)[k];
      Reduce(a, results) + Reduce(b, results)
  }

  /** The results in the order of a list of instances. */
  function Concatenated<E>(order: seq<nat>, results: map<nat, seq<E>>): seq<E>
    requires forall k :: 0 <= k < |order| ==> order[k] in results
  {
    if order == [] then [] else Concatenated(order[..|order| - 1], results) + results[order[|order| - 1]]
  }

  lemma {:induction false} ConcatenatedAppend<E>(a: seq<nat>, b: seq<nat>, results: map<nat, seq<E>>)
    requires (forall k :: 0 <= k < |a| ==> a[k] in results) && (forall k :: 0 <= k < |b| ==> b[k] in results)
    ensures Concatenated(a + b, results) == Concatenated(a, results) + Concatenated(b, results)
    decreases |b|
  {
    if b == [] {
      assert a + b == a;
    } else {
      assert (a + b)[..|a + b| - 1] == a + b[..|b| - 1];
      ConcatenatedAppend(a, b[..|b| - 1], results);
    }
  }

  lemma {:induction false} ReduceConcatenates<E>(r: Reduction, results: map<nat, seq<E>>)
    requires forall k :: 0 <= k < |Leaves(r)| ==> Leaves(r)[k] in results
    ensures Reduce(r, results) == Concatenated(Leaves(r), results)
    decreases r
  {
    match r
    case Identity =>
    case Leaf(i) =>
      assert Leaves(r)[..0] == [] && Concatenated(Leaves(r)[..0], results) == [];
    case Join(a, b) =>
      assert forall k :: 0 <= k < |Leaves(a)| ==> Leaves(r)[k] == Leaves(a)[k];
      assert forall k :: 0 <= k < |Leaves(b)| ==> Leaves(r)[|Leaves(a)| + k] == Leaves(b)[k];
      ReduceConcatenates(a, results);
      ReduceConcatenates(b, results);
      ConcatenatedAppend(Leaves(a), Leaves(b), results);
  }

  lemma {:induction false} ConcatenatedIsAllEvents<S, D, P, V>(m: Machine<S, D, P, V>, insts: seq<Instance<D>>,
      ready: seq<nat>, signals: S, now: TimeValue, changed: set<nat>, first: bool,
      results: map<nat, seq<Event<P, V>>>)
    requires forall k :: 0 <= k < |ready| ==> ready[k] < |insts| && ready[k] in results
    requires forall k :: 0 <= k < |ready| ==>
      results[ready[k]] == EventsOf(now, Run(m, ready[k], insts[ready[k]], signals, now, changed, first).drives)
    ensures Concatenated(ready, results) == AllEvents(m, insts, ready, signals, now, changed, first)
    decreases |ready|
  {
    if ready == [] {
    } else {
      ConcatenatedIsAllEvents(m, insts, ready[..|ready| - 1], signals, now, changed, first, results);
    }
  }

  /** Running the ready instances in any order, and joining their events in any grouping, is running them one
      after the other. */
  lemma InstanceOrderIrrelevant<S, D, P, V>(m: Machine<S, D, P, V>, insts: seq<Instance<D>>, ready: seq<nat>,
      order: seq<nat>, reduction: Reduction,
      signals: S, now: TimeValue, changed: set<nat>, first: bool)
    requires forall k :: 0 <= k < |ready| ==> ready[k] < |insts|
    requires (forall k :: 0 <= k < |order| ==> order[k] < |insts|) && Distinct(order)
    requires (forall i :: i in ready <==> i in order) && Leaves(reduction) == ready
    ensures InstsAfter(m, insts, RunOrder(m, insts, order, signals, now, changed, first), ready, signals, now, changed,
      first)
    ensures forall k :: 0 <= k < |ready| ==> ready[k] in Results(m, insts, order, signals, now, changed, first)
    ensures Reduce(reduction, Results(m, insts, order, signals, now, changed, first))
      == AllEvents(m, insts, ready, signals, now, changed, first)
  {
    var results := Results(m, insts, order, signals, now, changed, first);
    forall i: nat | i < |insts|
      ensures RunOrder(m, insts, order, signals, now, changed, first)[i] ==
        if i in ready then Resumed(now, Run(m, i, insts[i], signals, now, changed, first)) else insts[i]
    {
      RunOrderEach(m, insts, order, signals, now, changed, first, i);
    }
    forall k | 0 <= k < |ready|
      ensures ready[k] in results && results[ready[k]]
        == EventsOf(now, Run(m, ready[k], insts[ready[k]], signals, now, changed, first).drives)
    {
      RunOrderEach(m, insts, order, signals, now, changed, first, ready[k]);
    }
    ReduceConcatenates(reduction, results);
    ConcatenatedIsAllEvents(m, insts, ready, signals, now, changed, first, results);
  }
}
