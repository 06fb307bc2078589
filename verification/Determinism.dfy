/** Steps and whole runs do not depend on the order in which a hash map yields the due events
    (src/bin/llhd-sim/engine.rs, `step` and `run`). */
module Determinism {
  import opened Engine
  import opened Kernel
  import opened SimTime
  import opened StepOrder

  lemma FirstIn(s: seq<nat>)
    ensures s != [] ==> s[0] in s
  {
  }

  /** Only one list is increasing and has certain elements. */
  lemma {:induction false} IncreasingUnique(a: seq<nat>, b: seq<nat>)
    requires forall j, k {:trigger a[j], a[k]} :: 0 <= j < k < |a| ==> a[j] < a[k]
    requires forall j, k {:trigger b[j], b[k]} :: 0 <= j < k < |b| ==> b[j] < b[k]
    requires forall i :: i in a <==> i in b
    ensures a == b
    decreases |a|
  {
    if a == [] {
      FirstIn(b);
    } else {
      var n, m := |a| - 1, |b| - 1;
      assert a[0] in a && a[0] in b;
      assert a[n] in a && b[m] in b;
      assert a[n] == b[m];
      forall i {:trigger i in a[..n]} {:trigger i in b[..m]}
        ensures i in a[..n] <==> i in b[..m]
      {
        assert i in a[..n] <==> i in a && i != a[n];
        assert i in b[..m] <==> i in b && i != b[m];
      }
      IncreasingUnique(a[..n], b[..m]);
      assert a == a[..n] + [a[n]] && b == b[..m] + [b[m]];
    }
  }

  lemma WakeListUnique<D>(insts: seq<Instance<D>>, due: set<nat>, changed: set<nat>, a: seq<nat>, b: seq<nat>)
    requires WakeList(insts, due, changed, a) && WakeList(insts, due, changed, b)
    ensures a == b
  {
    forall i: nat
      ensures i in a <==> i in b
    {
      if i < |insts| {
        assert Wakes(insts[i], i, due, changed) <==> i in a;
      }
    }
    IncreasingUnique(a, b);
  }

  lemma InstsUnique<S, D, P, V>(m: Machine<S, D, P, V>, was: seq<Instance<D>>, a: seq<Instance<D>>, b: seq<Instance<D>>,
      ready: seq<nat>, signals: S, now: TimeValue, changed: set<nat>, first: bool)
    requires InstsAfter(m, was, a, ready, signals, now, changed, first)
      && InstsAfter(m, was, b, ready, signals, now, changed, first)
    ensures a == b
  {
  }

  lemma AddedUnique<P(!new), V>(before: map<TimeValue, map<P, V>>, evs: seq<Event<P, V>>, a: map<TimeValue, map<P, V>>,
      b: map<TimeValue, map<P, V>>)
    requires Added(before, evs, a) && Added(before, evs, b)
    ensures a == b
  {
    assert a.Keys == b.Keys;
    forall t | t in a
      ensures a[t] == b[t]
    {
      forall p
        ensures (p in a[t] <==> p in b[t]) && (p in a[t] ==> a[t][p] == b[t][p])
      {
        assert Lookup(a, t, p) == Lookup(b, t, p);
      }
    }
  }

  lemma TimedUnique<D>(was: map<TimeValue, set<nat>>, now: TimeValue, insts: seq<Instance<D>>, ready: seq<nat>,
      a: map<TimeValue, set<nat>>, b: map<TimeValue, set<nat>>)
    requires forall k :: 0 <= k < |ready| ==> ready[k] < |insts|
    requires TimedAfter(was, now, insts, ready, a) && TimedAfter(was, now, insts, ready, b)
    ensures a == b
  {
    assert a.Keys == b.Keys;
    forall t | t in a
      ensures a[t] == b[t]
    {
      assert forall i :: i in a[t] <==> i in b[t];
    }
  }

  lemma TimeUnique<P, V>(events: map<TimeValue, map<P, V>>, timed: map<TimeValue, set<nat>>, a: TimeValue, b: TimeValue)
    requires (a in events || a in timed) && (b in events || b in timed)
    requires NotAfter(a, events, timed) && NotAfter(b, events, timed)
    ensures a == b
  {
    TotalOrder(a, b, a);
  }

  /** If the due events do not interfere with each other, two steps from the same state end in the same state. */
  lemma {:induction false} StepDeterministic<S(!new), D(!new), P(!new), V(!new)>(m: Machine<S, D, P, V>,
      good: S -> bool, first: bool, was: Snapshot<S, D, P, V>,
      a: Snapshot<S, D, P, V>, b: Snapshot<S, D, P, V>)
    requires good(was.signals) && Independent(m, good, was.DueEvents())
    requires StepsTo(m, first, was, a) && StepsTo(m, first, was, b)
    ensures a == b
  {
    var order, changed, ready :| Stepped(m, first, was, order, changed, ready, a);
    var order', changed', ready' :| Stepped(m, first, was, order', changed', ready', b);
    EventOrderIrrelevant(m, good, was.DueEvents(), was.signals, order, order');
    SteppedUnique(m, first, was, order, order', changed, ready, ready', a, b);
  }

  lemma SteppedUnique<S(!new), D(!new), P(!new), V(!new)>(m: Machine<S, D, P, V>, first: bool,
      was: Snapshot<S, D, P, V>, order: seq<(P, V)>, order': seq<(P, V)>,
      changed: set<nat>, ready: seq<nat>, ready': seq<nat>, a: Snapshot<S, D, P, V>, b: Snapshot<S, D, P, V>)
    requires Stepped(m, first, was, order, changed, ready, a) && Stepped(m, first, was, order', changed, ready', b)
    requires a.signals == b.signals
    ensures a == b
  {
    WakeListUnique(was.insts, was.DueInsts(), changed, ready, ready');
    InstsUnique(m, was.insts, a.insts, b.insts, ready, a.signals, was.time, changed, first);
    AddedUnique(was.events - {was.time}, AllEvents(m, was.insts, ready, a.signals, was.time, changed, first), a.events,
      b.events);
    TimedUnique(was.timed, was.time, a.insts, ready, a.timed, b.timed);
    if !a.Idle() {
      TimeUnique(a.events, a.timed, a.time, b.time);
    }
  }

  /** At no point of the run do due events interfere with each other. */
  ghost predicate NeverInterfere<S(!new), D(!new), P(!new), V(!new)>(m: Machine<S, D, P, V>, good: S -> bool,
      states: seq<Snapshot<S, D, P, V>>)
  {
    forall k :: 0 <= k < |states| ==> good(states[k].signals) && Independent(m, good, states[k].DueEvents())
  }

  lemma TraceAt<S, D, P(!new), V(!new)>(m: Machine<S, D, P, V>, done: nat, states: seq<Snapshot<S, D, P, V>>, j: nat,
      k: nat)
    requires Trace(m, done, states) && k == j + 1 < |states|
    ensures StepsTo(m, done + j == 0, states[j], states[k])
  {
  }

  /** Two runs from the same state go through the same states, as far as both go. */
  lemma {:induction false} RunDeterministic<S(!new), D(!new), P(!new), V(!new)>(m: Machine<S, D, P, V>, good: S -> bool,
      done: nat, a: seq<Snapshot<S, D, P, V>>, b: seq<Snapshot<S, D, P, V>>, k: nat)
    requires Trace(m, done, a) && Trace(m, done, b) && a[0] == b[0] && NeverInterfere(m, good, a)
    requires k < |a| && k < |b|
    ensures a[k] == b[k]
    decreases k
  {
    if k > 0 {
      RunDeterministic(m, good, done, a, b, k - 1);
      TraceAt(m, done, a, k - 1, k);
      TraceAt(m, done, b, k - 1, k);
      StepDeterministic(m, good, done + (k - 1) == 0, a[k - 1], a[k], b[k]);
    }
  }
}
