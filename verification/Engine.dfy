/** One step of the simulation, and whole runs (src/bin/llhd-sim/engine.rs, `step` and `run`). */
module Engine {
  import opened Kernel
  import opened Options
  import opened SimTime

  // ---------------------------------------------------------------- who runs

  /** An instance runs if it is ready, if its time has come, or if one of its signals changed. */
  predicate Wakes<D>(inst: Instance<D>, i: nat, due: set<nat>, changed: set<nat>) {
    inst.state.Ready? || i in due || (inst.state.Wait? && inst.state.signals * changed != {})
  }

  /** What an instance does now. */
  function Run<S, D, P, V>(m: Machine<S, D, P, V>, i: nat, inst: Instance<D>, signals: S, now: TimeValue,
      changed: set<nat>, first: bool): Outcome<D, P, V>
  {
    m.run(i, inst.data, signals, now, changed, first)
  }

  /** The events of all instances that run, in the order of the instances. */
  function AllEvents<S, D, P, V>(m: Machine<S, D, P, V>, insts: seq<Instance<D>>, ready: seq<nat>, signals: S,
      now: TimeValue, changed: set<nat>, first: bool): seq<Event<P, V>>
    requires forall k :: 0 <= k < |ready| ==> ready[k] < |insts|
    decreases |ready|
  {
    if ready == [] then []
    else
      var i := ready[|ready| - 1];
      AllEvents(m, insts, ready[..|ready| - 1], signals, now, changed, first) + EventsOf(now,
        Run(m, i, insts[i], signals, now, changed, first).drives)
  }

  /** The instances that are ready, in order. */
  ghost predicate ReadyList<D>(insts: seq<Instance<D>>, ready: seq<nat>) {
    && (forall j, k {:trigger ready[j], ready[k]} :: 0 <= j < k < |ready| ==> ready[j] < ready[k])
    && (forall k :: 0 <= k < |ready| ==> ready[k] < |insts|)
    && (forall i: nat {:trigger insts[i]} :: i < |insts| ==> (insts[i].state.Ready? <==> i in ready))
  }

  // ---------------------------------------------------------------- invariants of the queues

  /** Whoever waits for a point in time is queued for it. */
  ghost predicate Queued<D>(insts: seq<Instance<D>>, timed: map<TimeValue, set<nat>>) {
    forall i: nat {:trigger insts[i]} :: i < |insts| && insts[i].state.Wait? && insts[i].state.until.Some? ==>
      insts[i].state.until.value in timed && i in timed[insts[i].state.until.value]
  }

  ghost predicate Indexed<D>(insts: seq<Instance<D>>, timed: map<TimeValue, set<nat>>) {
    forall t, i {:trigger i in timed[t]} :: t in timed && i in timed[t] ==> i < |insts|
  }

  /** What holds before every step. */
  ghost predicate Valid<S(!new), D(!new), P(!new), V(!new)>(state: State<S, D, P, V>)
    reads state
  {
    NotAfter(state.time, state.events, state.timed) && Queued(state.insts, state.timed)
      && Indexed(state.insts, state.timed)
  }

  /** Nobody is left ready. */
  ghost predicate NoneReady<D>(insts: seq<Instance<D>>) {
    forall i {:trigger insts[i]} :: 0 <= i < |insts| ==> !insts[i].state.Ready?
  }

  lemma {:induction false} EventTimes<S(!new), D(!new), P, V>(m: Machine<S, D, P, V>, insts: seq<Instance<D>>,
      ready: seq<nat>, signals: S, now: TimeValue, changed: set<nat>, first: bool)
    requires Forward(m) && forall k :: 0 <= k < |ready| ==> ready[k] < |insts|
    ensures forall k {:trigger AllEvents(m, insts, ready, signals, now, changed, first)[k]} ::
      0 <= k < |AllEvents(m, insts, ready, signals, now, changed, first)| ==>
      AtMost(now, AllEvents(m, insts, ready, signals, now, changed, first)[k].time) &&
      (NonZero(m) ==> Less(now, AllEvents(m, insts, ready, signals, now, changed, first)[k].time))
    decreases |ready|
  {
    if ready == [] {
    } else {
      var i := ready[|ready| - 1];
      var rest := AllEvents(m, insts, ready[..|ready| - 1], signals, now, changed, first);
      var o := Run(m, i, insts[i], signals, now, changed, first);
      EventTimes(m, insts, ready[..|ready| - 1], signals, now, changed, first);
      var all := rest + EventsOf(now, o.drives);
      forall k | 0 <= k < |all|
        ensures AtMost(now, all[k].time) && (NonZero(m) ==> Less(now, all[k].time))
      {
        if k >= |rest| {
          assert all[k] == EventsOf(now, o.drives)[k - |rest|];
          AfterAdvances(now, o.drives[k - |rest|].delay);
        } else {
          assert all[k] == rest[k];
        }
      }
    }
  }

  // ---------------------------------------------------------------- the phases of a step

  /** Apply the events that are due, in the order in which the hash map yields them. */
  method ApplyDue<S(!new), D(!new), P(!new, ==), V(!new)>(m: Machine<S, D, P, V>, state: State<S, D, P, V>,
      due: map<P, V>)
      returns (changed: set<nat>, ghost order: seq<(P, V)>)
    modifies state`signals
    ensures Lists(due, order)
    ensures state.signals == ApplyAll(m, old(state.signals), order)
      && changed == ChangedAll(m, old(state.signals), order)
  {
    changed, order := {}, [];
    var rest := due.Keys;
    while rest != {}
      invariant rest <= due.Keys
      invariant forall j, k {:trigger order[j], order[k]} :: 0 <= j < k < |order| ==> order[j].0 != order[k].0
      invariant forall k :: 0 <= k < |order| ==>
        order[k].0 in due && order[k].0 !in rest && due[order[k].0] == order[k].1
      invariant forall p :: p in due && p !in rest ==> exists k :: 0 <= k < |order| && order[k].0 == p
      invariant state.signals == ApplyAll(m, old(state.signals), order)
        && changed == ChangedAll(m, old(state.signals), order)
      decreases |rest|
    {
      var p :| p in rest;
      ghost var next := order + [(p, due[p])];
      assert next[..|order|] == order && next[|order|].0 == p;
      assert forall k :: 0 <= k < |order| ==> next[k] == order[k];
      changed := changed + m.changed(state.signals, p, due[p]);
      state.signals := m.apply(state.signals, p, due[p]);
      rest, order := rest - {p}, next;
    }
  }

  /** Wake up instances whose timed wait has run out. */
  method WakeTimed<S(!new), D(!new), P(!new, ==), V(!new)>(state: State<S, D, P, V>, due: set<nat>)
    requires forall i :: i in due ==> i < |state.insts|
    modifies state`insts
    ensures |state.insts| == |old(state.insts)|
    ensures forall i: nat :: i < |state.insts| ==>
      state.insts[i] == if i in due then old(state.insts)[i].(state := Ready) else old(state.insts)[i]
  {
    var rest := due;
    while rest != {}
      invariant rest <= due && |state.insts| == |old(state.insts)|
      invariant forall i: nat :: i < |state.insts| ==>
        state.insts[i] == if i in due && i !in rest then old(state.insts)[i].(state := Ready) else old(state.insts)[i]
      decreases |rest|
    {
      var i :| i in rest;
      state.insts := state.insts[i := state.insts[i].(state := Ready)];
      rest := rest - {i};
    }
  }

  /** Wake up instances that are sensitive to one of the changed signals. */
  method WakeSensitive<S(!new), D(!new), P(!new, ==), V(!new)>(state: State<S, D, P, V>, changed: set<nat>)
    modifies state`insts
    ensures |state.insts| == |old(state.insts)|
    ensures forall i: nat :: i < |state.insts| ==>
      state.insts[i] == if Wakes(old(state.insts)[i], i, {}, changed) then old(state.insts)[i].(state := Ready)
        else old(state.insts)[i]
  {
    for k := 0 to |state.insts|
      invariant |state.insts| == |old(state.insts)|
      invariant forall i: nat :: i < |state.insts| ==>
        state.insts[i] == if i < k && Wakes(old(state.insts)[i], i, {},
          changed) then old(state.insts)[i].(state := Ready) else old(state.insts)[i]
    {
      var inst := state.insts[k];
      if inst.state.Wait? && inst.state.signals * changed != {} {
        state.insts := state.insts[k := inst.(state := Ready)];
      }
    }
  }

  /** Collect the instances that are ready. */
  method CollectReady<S(!new), D(!new), P(!new, ==), V(!new)>(state: State<S, D, P, V>) returns (ready: seq<nat>)
    ensures ReadyList(state.insts, ready)
  {
    ready := [];
    for n := 0 to |state.insts|
      invariant forall j, k {:trigger ready[j], ready[k]} :: 0 <= j < k < |ready| ==> ready[j] < ready[k]
      invariant forall k :: 0 <= k < |ready| ==> ready[k] < n
      invariant forall i: nat {:trigger state.insts[i]} :: i < n ==> (state.insts[i].state.Ready? <==> i in ready)
    {
      if state.insts[n].state.Ready? {
        ready := ready + [n];
      }
    }
  }

  /** Run the instances that are ready, and collect their events. */
  method RunReady<S(!new), D(!new), P(!new, ==), V(!new)>(m: Machine<S, D, P, V>, state: State<S, D, P, V>,
      ready: seq<nat>, changed: set<nat>, first: bool)
      returns (events: seq<Event<P, V>>)
    requires ReadyList(state.insts, ready)
    modifies state`insts
    ensures |state.insts| == |old(state.insts)|
    ensures forall i: nat :: i < |state.insts| ==>
      state.insts[i] == if i in ready then Resumed(state.time,
        Run(m, i, old(state.insts)[i], state.signals, state.time, changed, first)) else old(state.insts)[i]
    ensures events == AllEvents(m, old(state.insts), ready, state.signals, state.time, changed, first)
  {
    events := [];
    ghost var was := state.insts;
    assert ready[..|ready|] == ready;
    for k := 0 to |ready|
      invariant |state.insts| == |was|
      invariant forall i: nat :: i < |was| ==>
        state.insts[i] == if i in ready[..k] then Resumed(state.time,
          Run(m, i, was[i], state.signals, state.time, changed, first)) else was[i]
      invariant events == AllEvents(m, was, ready[..k], state.signals, state.time, changed, first)
    {
      var i := ready[k];
      assert ready[..k + 1] == ready[..k] + [i];
      assert ready[..k + 1][..k] == ready[..k];
      assert i !in ready[..k];
      var o := Run(m, i, state.insts[i], state.signals, state.time, changed, first);
      state.insts := state.insts[i := Resumed(state.time, o)];
      events := events + EventsOf(state.time, o.drives);
    }
  }

  /** Gather the instances that perform a timed wait. */
  method GatherTimed<S(!new), D(!new), P(!new, ==), V(!new)>(state: State<S, D, P, V>, ready: seq<nat>)
      returns (waits: seq<(TimeValue, nat)>)
    requires forall k :: 0 <= k < |ready| ==> ready[k] < |state.insts|
    ensures forall t, i :: (t, i) in waits <==>
      i in ready && state.insts[i].state.Wait? && state.insts[i].state.until == Some(t)
  {
    waits := [];
    assert ready[..|ready|] == ready;
    for k := 0 to |ready|
      invariant forall t, i :: (t, i) in waits <==>
        i in ready[..k] && state.insts[i].state.Wait? && state.insts[i].state.until == Some(t)
    {
      assert ready[..k + 1] == ready[..k] + [ready[k]];
      var s := state.insts[ready[k]].state;
      if s.Wait? && s.until.Some? {
        waits := waits + [(s.until.value, ready[k])];
      }
    }
  }

  // ---------------------------------------------------------------- a step

  /** The instances that run in a step, in order. */
  ghost predicate WakeList<D>(insts: seq<Instance<D>>, due: set<nat>, changed: set<nat>, ready: seq<nat>) {
    && (forall j, k {:trigger ready[j], ready[k]} :: 0 <= j < k < |ready| ==> ready[j] < ready[k])
    && (forall k :: 0 <= k < |ready| ==> ready[k] < |insts|)
    && (forall i: nat {:trigger insts[i]} :: i < |insts| ==> (Wakes(insts[i], i, due, changed) <==> i in ready))
  }

  lemma {:induction false} AllEventsSameData<S, D, P, V>(m: Machine<S, D, P, V>, a: seq<Instance<D>>,
      b: seq<Instance<D>>, ready: seq<nat>, signals: S, now: TimeValue, changed: set<nat>, first: bool)
    requires |a| == |b| && forall i: nat :: i < |a| ==> a[i].data == b[i].data
    requires forall k :: 0 <= k < |ready| ==> ready[k] < |a|
    ensures AllEvents(m, a, ready, signals, now, changed, first) == AllEvents(m, b, ready, signals, now, changed, first)
    decreases |ready|
  {
    if ready == [] {
    } else {
      AllEventsSameData(m, a, b, ready[..|ready| - 1], signals, now, changed, first);
    }
  }

  /** What a step does to the instances. */
  ghost predicate InstsAfter<S, D, P, V>(m: Machine<S, D, P, V>, was: seq<Instance<D>>, insts: seq<Instance<D>>,
      ready: seq<nat>, signals: S, now: TimeValue, changed: set<nat>, first: bool)
  {
    |insts| == |was| && forall i: nat {:trigger insts[i]} {:trigger was[i]} :: i < |was| ==>
      insts[i] == if i in ready then Resumed(now, Run(m, i, was[i], signals, now, changed, first)) else was[i]
  }

  /** What a step does to the queue of waits. */
  ghost predicate TimedAfter<D>(was: map<TimeValue, set<nat>>, now: TimeValue, insts: seq<Instance<D>>, ready: seq<nat>,
      timed: map<TimeValue, set<nat>>)
    requires forall k :: 0 <= k < |ready| ==> ready[k] < |insts|
  {
    && (forall t, i {:trigger i in timed[t]} :: t in timed ==>
         (i in timed[t] <==>
           (t != now && t in was && i in was[t])
           || (i in ready && insts[i].state.Wait? && insts[i].state.until == Some(t))))
    && (forall t :: t in timed <==> (t != now && t in was) || exists i ::
      i in ready && insts[i].state.Wait? && insts[i].state.until == Some(t))
  }

  lemma ReadyTimes<S(!new), D(!new), P, V>(m: Machine<S, D, P, V>, was: seq<Instance<D>>, insts: seq<Instance<D>>,
      ready: seq<nat>, signals: S, now: TimeValue, changed: set<nat>, first: bool, i: nat)
    requires Forward(m) && InstsAfter(m, was, insts, ready, signals, now, changed, first) && i < |was| && i in ready
    ensures !insts[i].state.Ready?
    ensures insts[i].state.Wait? && insts[i].state.until.Some? ==>
      AtMost(now, insts[i].state.until.value) && (NonZero(m) ==> Less(now, insts[i].state.until.value))
  {
    var o := Run(m, i, was[i], signals, now, changed, first);
    if o.suspend.Sleep? && o.suspend.delay.Some? {
      AfterAdvances(now, o.suspend.delay.value);
    }
  }

  lemma QueuedAfter<S(!new), D(!new), P, V>(m: Machine<S, D, P, V>, was: seq<Instance<D>>, insts: seq<Instance<D>>,
      timedWas: map<TimeValue, set<nat>>, timed: map<TimeValue, set<nat>>,
      due: set<nat>, ready: seq<nat>, signals: S, now: TimeValue, changed: set<nat>, first: bool)
    requires Forward(m) && Queued(was, timedWas) && Indexed(was, timedWas)
      && due == (if now in timedWas then timedWas[now] else {})
    requires WakeList(was, due, changed, ready) && InstsAfter(m, was, insts, ready, signals, now, changed, first)
      && TimedAfter(timedWas, now, insts, ready, timed)
    ensures Queued(insts, timed) && Indexed(insts, timed) && NoneReady(insts)
  {
    forall i: nat | i < |insts|
      ensures !insts[i].state.Ready?
      ensures insts[i].state.Wait? && insts[i].state.until.Some? ==>
        insts[i].state.until.value in timed && i in timed[insts[i].state.until.value]
    {
      if i in ready {
        ReadyTimes(m, was, insts, ready, signals, now, changed, first, i);
      } else {
        assert !Wakes(was[i], i, due, changed) && insts[i] == was[i];
      }
    }
  }

  /** Nothing that is left in the queues is due before now, or now if delays are not zero. */
  lemma TimesAfter<S(!new), D(!new), P(!new), V>(m: Machine<S, D, P, V>, was: seq<Instance<D>>, insts: seq<Instance<D>>,
      ready: seq<nat>, signals: S, now: TimeValue, changed: set<nat>, first: bool,
      eventsWas: map<TimeValue, map<P, V>>, evs: seq<Event<P, V>>, events: map<TimeValue, map<P, V>>,
        timedWas: map<TimeValue, set<nat>>, timed: map<TimeValue, set<nat>>)
    requires Forward(m) && InstsAfter(m, was, insts, ready, signals, now, changed, first)
      && NotAfter(now, eventsWas, timedWas)
    requires forall k :: 0 <= k < |ready| ==> ready[k] < |insts|
    requires TimedAfter(timedWas, now, insts, ready, timed)
    requires evs == AllEvents(m, was, ready, signals, now, changed, first) && Added(eventsWas - {now}, evs, events)
    ensures NotAfter(now, events, timed)
    ensures NonZero(m) ==> forall u :: u in events || u in timed ==> Less(now, u)
  {
    EventTimes(m, was, ready, signals, now, changed, first);
    forall u | u in events
      ensures AtMost(now, u) && (NonZero(m) ==> Less(now, u))
    {
      if u !in eventsWas - {now} {
        var k :| 0 <= k < |evs| && evs[k].time == u;
      }
    }
    forall u | u in timed
      ensures AtMost(now, u) && (NonZero(m) ==> Less(now, u))
    {
      if !(u != now && u in timedWas) {
        var i :| i in ready && insts[i].state.Wait? && insts[i].state.until == Some(u);
        ReadyTimes(m, was, insts, ready, signals, now, changed, first, i);
      }
    }
  }

  lemma TimedIsAfter<D>(was: map<TimeValue, set<nat>>, now: TimeValue, insts: seq<Instance<D>>, ready: seq<nat>,
      waits: seq<(TimeValue, nat)>, timed: map<TimeValue, set<nat>>)
    requires forall k :: 0 <= k < |ready| ==> ready[k] < |insts|
    requires forall t, i :: (t, i) in waits <==> i in ready && insts[i].state.Wait? && insts[i].state.until == Some(t)
    requires TimedAdded(was - {now}, waits, timed)
    ensures TimedAfter(was, now, insts, ready, timed)
  {
    forall t
      ensures (exists k :: 0 <= k < |waits| && waits[k].0 == t) <==>
        exists i :: i in ready && insts[i].state.Wait? && insts[i].state.until == Some(t)
    {
      if k :| 0 <= k < |waits| && waits[k].0 == t {
        assert (waits[k].0, waits[k].1) in waits;
      }
      if i :| i in ready && insts[i].state.Wait? && insts[i].state.until == Some(t) {
        assert (t, i) in waits;
        var k :| 0 <= k < |waits| && waits[k] == (t, i);
      }
    }
  }

  lemma WokenList<D>(was: seq<Instance<D>>, due: set<nat>, mid: seq<Instance<D>>, changed: set<nat>,
      woken: seq<Instance<D>>, ready: seq<nat>)
    requires |was| == |mid| == |woken|
    requires forall i: nat :: i < |was| ==> mid[i] == if i in due then was[i].(state := Ready) else was[i]
    requires forall i: nat :: i < |was| ==> woken[i] == if Wakes(mid[i], i, {}, changed) then mid[i].(state := Ready)
      else mid[i]
    requires ReadyList(woken, ready)
    ensures WakeList(was, due, changed, ready) && forall i: nat :: i < |was| ==> woken[i].data == was[i].data
  {
  }

  /** Wake up and run whoever is due. */
  method Execute<S(!new), D(!new), P(!new, ==), V(!new)>(m: Machine<S, D, P, V>, state: State<S, D, P, V>,
      due: set<nat>, changed: set<nat>, first: bool)
      returns (events: seq<Event<P, V>>, ready: seq<nat>)
    requires forall i :: i in due ==> i < |state.insts|
    modifies state`insts
    ensures WakeList(old(state.insts), due, changed, ready)
    ensures InstsAfter(m, old(state.insts), state.insts, ready, state.signals, state.time, changed, first)
    ensures events == AllEvents(m, old(state.insts), ready, state.signals, state.time, changed, first)
  {
    ghost var was := state.insts;
    WakeTimed(state, due);
    ghost var mid := state.insts;
    WakeSensitive(state, changed);
    ghost var woken := state.insts;
    ready := CollectReady(state);
    WokenList(was, due, mid, changed, woken, ready);
    events := RunReady(m, state, ready, changed, first);
    AllEventsSameData(m, was, woken, ready, state.signals, state.time, changed, first);
  }

  /** A state at some point of the run. */
  datatype Snapshot<S, D, P, V> = Snapshot(
    time: TimeValue,
    events: map<TimeValue, map<P, V>>,
    timed: map<TimeValue, set<nat>>,
    signals: S,
    insts: seq<Instance<D>>)
  {
    function DueEvents(): map<P, V> {
      if time in events then events[time] else map[]
    }

    function DueInsts(): set<nat> {
      if time in timed then timed[time] else {}
    }

    predicate Idle() {
      events.Keys == {} && timed.Keys == {}
    }
  }

  ghost function Current<S(!new), D(!new), P(!new), V(!new)>(state: State<S, D, P, V>): Snapshot<S, D, P, V>
    reads state
  {
    Snapshot(state.time, state.events, state.timed, state.signals, state.insts)
  }

  /** What one step does, with the due events in some order: they are applied, whoever wakes runs and is queued anew,
      and the time becomes the least one that is queued. */
  ghost predicate Stepped<S, D, P(!new), V>(m: Machine<S, D, P, V>, first: bool, a: Snapshot<S, D, P, V>,
      order: seq<(P, V)>, changed: set<nat>, ready: seq<nat>, b: Snapshot<S, D, P, V>)
  {
    && Lists(a.DueEvents(), order)
    && b.signals == ApplyAll(m, a.signals, order) && changed == ChangedAll(m, a.signals, order)
    && WakeList(a.insts, a.DueInsts(), changed, ready)
    && InstsAfter(m, a.insts, b.insts, ready, b.signals, a.time, changed, first)
    && Added(a.events - {a.time}, AllEvents(m, a.insts, ready, b.signals, a.time, changed, first), b.events)
    && |b.insts| == |a.insts| && TimedAfter(a.timed, a.time, b.insts, ready, b.timed)
    && (if b.Idle() then b.time == a.time
        else (b.time in b.events || b.time in b.timed) && NotAfter(b.time, b.events, b.timed))
  }

  ghost predicate StepsTo<S, D, P(!new), V(!new)>(m: Machine<S, D, P, V>, first: bool, a: Snapshot<S, D, P, V>,
      b: Snapshot<S, D, P, V>)
  {
    exists order, changed, ready :: Stepped(m, first, a, order, changed, ready, b)
  }

  /** The states between the steps of a run; `done` steps have been made before. */
  ghost predicate Trace<S, D, P(!new), V(!new)>(m: Machine<S, D, P, V>, done: nat, states: seq<Snapshot<S, D, P, V>>) {
    states != [] && forall j, k {:trigger states[j], states[k]} :: 0 <= j < k < |states| && k == j + 1 ==>
      StepsTo(m, done + j == 0, states[j], states[k])
  }

  lemma TraceStep<S, D, P(!new), V(!new)>(m: Machine<S, D, P, V>, done: nat, states: seq<Snapshot<S, D, P, V>>,
      next: Snapshot<S, D, P, V>, all: seq<Snapshot<S, D, P, V>>, n: nat)
    requires Trace(m, done, states) && n == |states| - 1 && StepsTo(m, done + n == 0, states[n], next)
      && all == states + [next]
    ensures Trace(m, done, all) && all[0] == states[0] && all[|all| - 1] == next && |all| == n + 2
  {
    forall j, k {:trigger all[j], all[k]} | 0 <= j < k < |all| && k == j + 1
      ensures StepsTo(m, done + j == 0, all[j], all[k])
    {
      if k < |states| {
        assert states[j] == all[j] && states[k] == all[k];
      }
    }
  }

  /** Go on to the least queued time. */
  method Advance<S(!new), D(!new), P(!new, ==), V(!new)>(state: State<S, D, P, V>) returns (more: bool)
    modifies state`time
    ensures more <==> !Current(state).Idle()
    ensures if more then (state.time in state.events || state.time in state.timed)
      && NotAfter(state.time, state.events, state.timed)
      else state.time == old(state.time)
  {
    var next := state.NextTime();
    more := next.Some?;
    if next.Some? {
      state.time := next.value;
    }
  }

  /** Queue what the instances that have run have asked for. */
  method Enqueue<S(!new), D(!new), P(!new, ==), V(!new)>(state: State<S, D, P, V>, events: seq<Event<P, V>>,
      ready: seq<nat>, ghost timedWas: map<TimeValue, set<nat>>)
    requires (forall k :: 0 <= k < |ready| ==> ready[k] < |state.insts|) && state.timed == timedWas - {state.time}
    requires forall k :: 0 <= k < |events| ==> AtMost(state.time, events[k].time)
    requires forall i :: i in ready && state.insts[i].state.Wait? && state.insts[i].state.until.Some? ==>
      AtMost(state.time, state.insts[i].state.until.value)
    modifies state`events, state`timed
    ensures Added(old(state.events), events, state.events)
    ensures TimedAfter(timedWas, state.time, state.insts, ready, state.timed)
  {
    state.ScheduleEvents(events);
    var waits := GatherTimed(state, ready);
    forall k | 0 <= k < |waits|
      ensures AtMost(state.time, waits[k].0)
    {
      assert (waits[k].0, waits[k].1) in waits;
    }
    state.ScheduleTimed(waits);
    TimedIsAfter(timedWas, state.time, state.insts, ready, waits, state.timed);
  }

  /** Time does not go back, or it even advances from each step to the next. */
  ghost predicate Advancing(times: seq<TimeValue>, always: bool) {
    forall j, k {:trigger times[j], times[k]} :: 0 <= j < k < |times| ==>
      AtMost(times[j], times[k]) && (always ==> Less(times[j], times[k]))
  }

  lemma AdvancingOn(times: seq<TimeValue>, always: bool, next: TimeValue, all: seq<TimeValue>)
    requires Advancing(times, always) && times != [] && all == times + [next]
    requires AtMost(times[|times| - 1], next) && (always ==> Less(times[|times| - 1], next))
    ensures Advancing(all, always)
  {
    forall j | 0 <= j < |times|
      ensures AtMost(times[j], next) && (always ==> Less(times[j], next))
    {
      TotalOrder(times[j], times[|times| - 1], next);
    }
  }

  /** A run from one state to another, by the times and the states that it has passed. */
  ghost predicate RunSoFar<S, D, P(!new), V(!new)>(m: Machine<S, D, P, V>, done: nat, steps: nat,
      a: Snapshot<S, D, P, V>, b: Snapshot<S, D, P, V>, times: seq<TimeValue>, states: seq<Snapshot<S, D, P, V>>,
      always: bool)
  {
    && times != [] && times[0] == a.time && times[|times| - 1] == b.time && Advancing(times, always)
    && Trace(m, done, states) && states[0] == a && states[|states| - 1] == b && |states| == steps - done + 1
  }

  lemma RunOn<S, D, P(!new), V(!new)>(m: Machine<S, D, P, V>, done: nat, steps: nat, a: Snapshot<S, D, P, V>,
      b: Snapshot<S, D, P, V>, c: Snapshot<S, D, P, V>, times: seq<TimeValue>, states: seq<Snapshot<S, D, P, V>>,
      always: bool, more: bool)
    requires RunSoFar(m, done, steps, a, b, times, states, always) && StepsTo(m, steps == 0, b, c)
    requires AtMost(b.time, c.time) && (always && more ==> Less(b.time, c.time)) && (!more ==> c.time == b.time)
    ensures RunSoFar(m, done, steps + 1, a, c, if more then times + [c.time] else times, states + [c], always)
  {
    TraceStep(m, done, states, c, states + [c], |states| - 1);
    if more {
      AdvancingOn(times, always, c.time, times + [c.time]);
    }
  }

  class Simulation<S(!new), D(!new), P(!new, ==), V(!new)> {
    const state: State<S, D, P, V>
    var steps: nat

    constructor (state: State<S, D, P, V>)
      ensures this.state == state && steps == 0
    {
      this.state, steps := state, 0;
    }

    /** `step`: apply what is due, run whoever wakes up, and advance to the least queued time. */
    method Step(m: Machine<S, D, P, V>) returns (more: bool, ghost order: seq<(P, V)>, changed: set<nat>,
        ghost ready: seq<nat>)
      requires Valid(state) && Forward(m)
      modifies this`steps, state
      ensures steps == old(steps) + 1
      ensures Stepped(m, old(steps) == 0, old(Current(state)), order, changed, ready, Current(state))
      ensures Valid(state) && NoneReady(state.insts)
      ensures more <==> !Current(state).Idle()
      ensures AtMost(old(state.time), state.time) && (NonZero(m) && more ==> Less(old(state.time), state.time))
    {
      ghost var was, eventsWas, timedWas, now := state.insts, state.events, state.timed, state.time;
      var first := steps == 0;
      steps := steps + 1;

      var dueEvents := state.TakeNextEvents();
      changed, order := ApplyDue(m, state, dueEvents);
      var dueInsts := state.TakeNextTimed();
      var events, runs := Execute(m, state, dueInsts, changed, first);
      ready := runs;
      EventTimes(m, was, ready, state.signals, now, changed, first);
      forall i | i in ready && state.insts[i].state.Wait? && state.insts[i].state.until.Some?
        ensures AtMost(now, state.insts[i].state.until.value)
      {
        ReadyTimes(m, was, state.insts, ready, state.signals, now, changed, first, i);
      }
      Enqueue(state, events, runs, timedWas);
      QueuedAfter(m, was, state.insts, timedWas, state.timed, dueInsts, ready, state.signals, now, changed, first);
      TimesAfter(m, was, state.insts, ready, state.signals, now, changed, first, eventsWas, events, state.events,
        timedWas, state.timed);
      more := Advance(state);
    }

    /** `run`: step until nothing is left to do or enough steps have been made. */
    method Run(m: Machine<S, D, P, V>, untilStep: nat)
        returns (ghost times: seq<TimeValue>, ghost states: seq<Snapshot<S, D, P, V>>)
      requires Valid(state) && Forward(m)
      modifies this`steps, state
      ensures Valid(state) && (steps > old(steps) ==> NoneReady(state.insts))
      ensures times != [] && times[0] == old(state.time) && times[|times| - 1] == state.time
      ensures Advancing(times, NonZero(m))
      ensures steps >= untilStep || Current(state).Idle()
      ensures Trace(m, old(steps), states) && states[0] == old(Current(state)) && states[|states| - 1] == Current(state)
      ensures |states| == steps - old(steps) + 1
    {
      times, states := [state.time], [Current(state)];
      while steps < untilStep
        invariant Valid(state) && steps >= old(steps) && (steps > old(steps) ==> NoneReady(state.insts))
        invariant RunSoFar(m, old(steps), steps, old(Current(state)), Current(state), times, states, NonZero(m))
        decreases untilStep - steps
      {
        ghost var before := Current(state);
        var more, order, changed, ready := Step(m);
        RunOn(m, old(steps), steps - 1, old(Current(state)), before, Current(state), times, states, NonZero(m), more);
        times, states := if more then times + [state.time] else times, states + [Current(state)];
        if !more {
          return;
        }
      }
    }
  }

  /** Nobody who waits for a point in time is overdue. */
  lemma NeverOverdue<S(!new), D(!new), P(!new), V(!new)>(state: State<S, D, P, V>, i: nat)
    requires Valid(state) && i < |state.insts| && state.insts[i].state.Wait? && state.insts[i].state.until.Some?
    ensures AtMost(state.time, state.insts[i].state.until.value)
  {
    assert state.insts[i].state.until.value in state.timed;
  }

  /** Whoever waits for the current time runs in this step. */
  lemma RunsWhenDue<D>(insts: seq<Instance<D>>, timed: map<TimeValue, set<nat>>, now: TimeValue, changed: set<nat>,
      ready: seq<nat>, i: nat)
    requires Queued(insts, timed) && i < |insts| && insts[i].state.Wait? && insts[i].state.until == Some(now)
    requires WakeList(insts, if now in timed then timed[now] else {}, changed, ready)
    ensures i in ready
  {
    assert insts[i].state.until.value in timed;
  }

  // ---------------------------------------------------------------- waits for a time or for signals, never both

  ghost predicate OneKind<S(!new), D(!new), P, V>(m: Machine<S, D, P, V>) {
    forall i, d, s, t, c, f {:trigger m.run(i, d, s, t, c, f)} ::
      m.run(i, d, s, t, c, f).suspend.Sleep? && m.run(i, d, s, t, c, f).suspend.delay.Some? ==>
        m.run(i, d, s, t, c, f).suspend.signals == {}
  }

  /** The queue holds exactly those who wait for a point in time, and they wait for nothing else. */
  ghost predicate ExactlyQueued<D>(insts: seq<Instance<D>>, timed: map<TimeValue, set<nat>>) {
    && Queued(insts, timed)
    && (forall t, i {:trigger i in timed[t]} :: t in timed && i in timed[t] ==>
      i < |insts| && insts[i].state == Wait(Some(t), {}))
  }

  lemma RanExact<S(!new), D(!new), P, V>(m: Machine<S, D, P, V>, i: nat, was: Instance<D>, inst: Instance<D>,
      signals: S, now: TimeValue, changed: set<nat>, first: bool, t: TimeValue)
    requires OneKind(m) && inst == Resumed(now, Run(m, i, was, signals, now, changed, first)) && inst.state.Wait?
      && inst.state.until == Some(t)
    ensures inst.state == Wait(Some(t), {})
  {
  }

  /** Whoever is queued for some other time and does not run stays as he is. */
  lemma KeptExact<D>(was: seq<Instance<D>>, timedWas: map<TimeValue, set<nat>>, now: TimeValue, changed: set<nat>,
      t: TimeValue, i: nat)
    requires ExactlyQueued(was, timedWas) && t in timedWas && i in timedWas[t] && t != now
    ensures i < |was| && was[i].state == Wait(Some(t), {})
    ensures !Wakes(was[i], i, if now in timedWas then timedWas[now] else {}, changed)
  {
  }

  lemma AfterAt<S, D, P, V>(m: Machine<S, D, P, V>, was: seq<Instance<D>>, insts: seq<Instance<D>>, due: set<nat>,
      ready: seq<nat>, signals: S, now: TimeValue, changed: set<nat>, first: bool, i: nat)
    requires WakeList(was, due, changed, ready) && InstsAfter(m, was, insts, ready, signals, now, changed, first)
      && i < |was|
    ensures Wakes(was[i], i, due, changed) <==> i in ready
    ensures insts[i] == if i in ready then Resumed(now, Run(m, i, was[i], signals, now, changed, first)) else was[i]
  {
  }

  lemma StillExact<S(!new), D(!new), P, V>(m: Machine<S, D, P, V>, was: seq<Instance<D>>, insts: seq<Instance<D>>,
      timedWas: map<TimeValue, set<nat>>, timed: map<TimeValue, set<nat>>,
      due: set<nat>, ready: seq<nat>, signals: S, now: TimeValue, changed: set<nat>, first: bool, t: TimeValue, i: nat)
    requires OneKind(m) && ExactlyQueued(was, timedWas) && due == (if now in timedWas then timedWas[now] else {})
    requires WakeList(was, due, changed, ready) && InstsAfter(m, was, insts, ready, signals, now, changed, first)
      && TimedAfter(timedWas, now, insts, ready, timed)
    requires t in timed && i in timed[t]
    ensures i < |insts| && insts[i].state == Wait(Some(t), {})
  {
    if i in ready && insts[i].state.Wait? && insts[i].state.until == Some(t) {
      AfterAt(m, was, insts, due, ready, signals, now, changed, first, i);
      RanExact(m, i, was[i], insts[i], signals, now, changed, first, t);
    } else {
      KeptExact(was, timedWas, now, changed, t, i);
      AfterAt(m, was, insts, due, ready, signals, now, changed, first, i);
    }
  }

  /** With waits of one kind only, no wake-up is left over, so an instance wakes by time exactly when its wait
      has run out. */
  lemma ExactlyQueuedAfter<S(!new), D(!new), P, V>(m: Machine<S, D, P, V>, was: seq<Instance<D>>,
      insts: seq<Instance<D>>, timedWas: map<TimeValue, set<nat>>, timed: map<TimeValue, set<nat>>,
      due: set<nat>, ready: seq<nat>, signals: S, now: TimeValue, changed: set<nat>, first: bool)
    requires Forward(m) && OneKind(m) && ExactlyQueued(was, timedWas)
      && due == (if now in timedWas then timedWas[now] else {})
    requires WakeList(was, due, changed, ready) && InstsAfter(m, was, insts, ready, signals, now, changed, first)
      && TimedAfter(timedWas, now, insts, ready, timed)
    ensures ExactlyQueued(insts, timed)
    ensures forall i: nat :: i in due <==> i < |was| && was[i].state == Wait(Some(now), {})
  {
    assert Indexed(was, timedWas);
    QueuedAfter(m, was, insts, timedWas, timed, due, ready, signals, now, changed, first);
    forall t, i | t in timed && i in timed[t]
      ensures i < |insts| && insts[i].state == Wait(Some(t), {})
    {
      StillExact(m, was, insts, timedWas, timed, due, ready, signals, now, changed, first, t, i);
    }
    forall i: nat | i < |was| && was[i].state == Wait(Some(now), {})
      ensures i in due
    {
      assert was[i].state.until.value in timedWas;
    }
  }
}
