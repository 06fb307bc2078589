/** The state of a simulation with its queues (src/bin/llhd-sim/state.rs), and the step
    that advances it (src/bin/llhd-sim/engine.rs).  What an instance computes and what
    an event does to the signals are given by a machine. */
module Kernel {
  import opened Options
  import opened SimTime

  datatype InstanceState = Ready | Wait(until: Option<TimeValue>, signals: set<nat>) | Done

  datatype Instance<D> = Instance(data: D, state: InstanceState)

  datatype Event<P, V> = Event(time: TimeValue, signal: P, value: V)

  /** How an instance suspends itself: for good, or until some time has passed or some signal changes. */
  datatype Suspend = Halt | Sleep(delay: Option<TimeValue>, signals: set<nat>)

  datatype Drive<P, V> = Drive(delay: TimeValue, signal: P, value: V)

  datatype Outcome<D, P, V> = Outcome(data: D, suspend: Suspend, drives: seq<Drive<P, V>>)

  /** `apply` and `changed`: what an event does to the signals and which ones it changes;
      `run`: what an instance does until it suspends itself, given the signals, the time, the changed
      signals, and whether this is the first step. */
  datatype Machine<!S, !D, !P, !V> = Machine(
    apply: (S, P, V) -> S,
    changed: (S, P, V) -> set<nat>,
    run: (nat, D, S, TimeValue, set<nat>, bool) -> Outcome<D, P, V>)

  /** No delay goes back in time. */
  ghost predicate ForwardDrives<P, V>(drives: seq<Drive<P, V>>) {
    forall k :: 0 <= k < |drives| ==> IsDelay(drives[k].delay)
  }

  ghost predicate Forward<S(!new), D(!new), P, V>(m: Machine<S, D, P, V>) {
    forall i, d, s, t, c, f {:trigger m.run(i, d, s, t, c, f)} ::
      ForwardDrives(m.run(i, d, s, t, c, f).drives) &&
      (m.run(i, d, s, t, c, f).suspend.Sleep? && m.run(i, d, s, t, c, f).suspend.delay.Some? ==>
        IsDelay(m.run(i, d, s, t, c, f).suspend.delay.value))
  }

  /** All delays are different from zero. */
  ghost predicate NonZeroDrives<P, V>(drives: seq<Drive<P, V>>) {
    forall k :: 0 <= k < |drives| ==> drives[k].delay != ZERO
  }

  ghost predicate NonZero<S(!new), D(!new), P, V>(m: Machine<S, D, P, V>) {
    forall i, d, s, t, c, f {:trigger m.run(i, d, s, t, c, f)} ::
      NonZeroDrives(m.run(i, d, s, t, c, f).drives) &&
      (m.run(i, d, s, t, c, f).suspend.Sleep? && m.run(i, d, s, t, c, f).suspend.delay.Some? ==>
        m.run(i, d, s, t, c, f).suspend.delay.value != ZERO)
  }

  // ---------------------------------------------------------------- one instance

  /** The events of an instance's drives. */
  function EventsOf<P, V>(now: TimeValue, drives: seq<Drive<P, V>>): (r: seq<Event<P, V>>)
    ensures |r| == |drives|
    ensures forall k :: 0 <= k < |r| ==> r[k] == Event(After(now, drives[k].delay), drives[k].signal, drives[k].value)
  {
    seq(|drives|, k requires 0 <= k < |drives| => Event(After(now, drives[k].delay), drives[k].signal, drives[k].value))
  }

  /** The state in which an instance suspends itself. */
  function Suspended(now: TimeValue, suspend: Suspend): InstanceState {
    match suspend
    case Halt => Done
    case Sleep(None, signals) => Wait(None, signals)
    case Sleep(Some(delay), signals) => Wait(Some(After(now, delay)), signals)
  }

  function Resumed<D, P, V>(now: TimeValue, o: Outcome<D, P, V>): Instance<D> {
    Instance(o.data, Suspended(now, o.suspend))
  }

  // ---------------------------------------------------------------- events on signals

  /** The signals after events, applied one after the other. */
  function ApplyAll<S, D, P, V>(m: Machine<S, D, P, V>, s: S, evs: seq<(P, V)>): S {
    if evs == [] then s else m.apply(ApplyAll(m, s, evs[..|evs| - 1]), evs[|evs| - 1].0, evs[|evs| - 1].1)
  }

  /** The signals that are changed on the way. */
  function ChangedAll<S, D, P, V>(m: Machine<S, D, P, V>, s: S, evs: seq<(P, V)>): set<nat> {
    if evs == [] then {}
    else
      ChangedAll(m, s, evs[..|evs| - 1]) + m.changed(ApplyAll(m, s, evs[..|evs| - 1]), evs[|evs| - 1].0,
        evs[|evs| - 1].1)
  }

  /** The entries of a map in some order. */
  ghost predicate Lists<P, V>(due: map<P, V>, evs: seq<(P, V)>) {
    && (forall j, k {:trigger evs[j], evs[k]} :: 0 <= j < k < |evs| ==> evs[j].0 != evs[k].0)
    && (forall k :: 0 <= k < |evs| ==> evs[k].0 in due && due[evs[k].0] == evs[k].1)
    && (forall p :: p in due ==> exists k :: 0 <= k < |evs| && evs[k].0 == p)
  }

  // ---------------------------------------------------------------- queues

  /** The event that is queued for a pointer at some time. */
  function Lookup<P, V>(events: map<TimeValue, map<P, V>>, t: TimeValue, p: P): Option<V> {
    if t in events && p in events[t] then Some(events[t][p]) else None
  }

  /** The last of some events for a pointer at some time. */
  function LastFor<P(==), V>(evs: seq<Event<P, V>>, t: TimeValue, p: P): Option<V> {
    if evs == [] then None
    else if evs[|evs| - 1].time == t && evs[|evs| - 1].signal == p then Some(evs[|evs| - 1].value)
    else LastFor(evs[..|evs| - 1], t, p)
  }

  /** Some events have been added to a queue: later ones replace earlier ones for the same pointer and time. */
  ghost predicate Added<P(!new), V>(before: map<TimeValue, map<P, V>>, evs: seq<Event<P, V>>,
      after: map<TimeValue, map<P, V>>)
  {
    && (forall t, p :: Lookup(after, t, p) == match LastFor(evs, t,
      p) case Some(v) => Some(v) case None => Lookup(before, t, p))
    && (forall t :: t in after <==> t in before || exists k :: 0 <= k < |evs| && evs[k].time == t)
  }

  lemma {:induction false} AddedOne<P(!new), V>(before: map<TimeValue, map<P, V>>, evs: seq<Event<P, V>>,
      mid: map<TimeValue, map<P, V>>, e: Event<P, V>)
    requires Added(before, evs, mid)
    ensures Added(before, evs + [e], mid[e.time := (if e.time in mid then mid[e.time] else map[])[e.signal := e.value]])
  {
    var all := evs + [e];
    var after := mid[e.time := (if e.time in mid then mid[e.time] else map[])[e.signal := e.value]];
    assert all[..|evs|] == evs;
    forall t, p
      ensures Lookup(after, t, p) == match LastFor(all, t, p) case Some(v) => Some(v) case None => Lookup(before, t, p)
    {
      assert Lookup(mid, t, p) == match LastFor(evs, t, p) case Some(v) => Some(v) case None => Lookup(before, t, p);
    }
    forall t
      ensures t in after <==> t in before || exists k :: 0 <= k < |all| && all[k].time == t
    {
      if k :| 0 <= k < |evs| && evs[k].time == t {
        assert all[k].time == t;
      }
      assert all[|evs|].time == e.time;
    }
  }

  lemma AddedNone<P(!new), V>(events: map<TimeValue, map<P, V>>)
    ensures Added(events, [], events)
  {
  }

  class State<S(!new), D(!new), P(!new,==), V(!new)> {
    var time: TimeValue
    var events: map<TimeValue, map<P, V>>
    var timed: map<TimeValue, set<nat>>
    var signals: S
    var insts: seq<Instance<D>>

    /** The initial state: all instances are ready to run. */
    constructor (signals: S, data: seq<D>)
      ensures time == ZERO && events == map[] && timed == map[] && this.signals == signals
      ensures |insts| == |data| && forall i :: 0 <= i < |data| ==> insts[i] == Instance(data[i], Ready)
    {
      time, events, timed, this.signals := ZERO, map[], map[], signals;
      insts := seq(|data|, i requires 0 <= i < |data| => Instance(data[i], Ready));
    }

    /** Add events to the schedule. */
    method ScheduleEvents(evs: seq<Event<P, V>>)
      requires forall k :: 0 <= k < |evs| ==> AtMost(time, evs[k].time)
      modifies `events
      ensures Added(old(events), evs, events)
    {
      AddedNone(events);
      assert evs[..|evs|] == evs;
      for k := 0 to |evs|
        invariant Added(old(events), evs[..k], events)
      {
        AddedOne(old(events), evs[..k], events, evs[k]);
        assert evs[..k + 1] == evs[..k] + [evs[k]];
        var e := evs[k];
        events := events[e.time := (if e.time in events then events[e.time] else map[])[e.signal := e.value]];
      }
    }

    /** Add instances that are to be woken up to the schedule. */
    method ScheduleTimed(waits: seq<(TimeValue, nat)>)
      requires forall k :: 0 <= k < |waits| ==> AtMost(time, waits[k].0)
      modifies `timed
      ensures TimedAdded(old(timed), waits, timed)
    {
      assert waits[..|waits|] == waits;
      for k := 0 to |waits|
        invariant TimedAdded(old(timed), waits[..k], timed)
      {
        TimedAddedOne(old(timed), waits[..k], timed, waits[k]);
        assert waits[..k + 1] == waits[..k] + [waits[k]];
        var (t, i) := waits[k];
        timed := timed[t := (if t in timed then timed[t] else {}) + {i}];
      }
    }

    /** Dequeue the events that are due. */
    method TakeNextEvents() returns (due: map<P, V>)
      modifies `events
      ensures due == if time in old(events) then old(events)[time] else map[]
      ensures events == old(events) - {time}
    {
      due := map[];
      if time in events {
        due := events[time];
        events := events - {time};
      }
    }

    /** Dequeue the instances whose wait has run out. */
    method TakeNextTimed() returns (due: set<nat>)
      modifies `timed
      ensures due == if time in old(timed) then old(timed)[time] else {}
      ensures timed == old(timed) - {time}
    {
      due := {};
      if time in timed {
        due := timed[time];
        timed := timed - {time};
      }
    }

    /** The least time in either queue. */
    method NextTime() returns (next: Option<TimeValue>)
      ensures next.None? <==> events == map[] && timed == map[]
      ensures next.Some? ==> (next.value in events || next.value in timed) && NotAfter(next.value, events, timed)
    {
      var e := LeastKey(events.Keys);
      var t := LeastKey(timed.Keys);
      if e.Some? && t.Some? {
        next := if Less(t.value, e.value) then t else e;
      } else {
        next := if e.Some? then e else t;
      }
    }
  }

  /** Some waits have been added to the queue. */
  ghost predicate TimedAdded(before: map<TimeValue, set<nat>>, waits: seq<(TimeValue, nat)>,
      after: map<TimeValue, set<nat>>)
  {
    && (forall t :: t in after <==> t in before || exists k :: 0 <= k < |waits| && waits[k].0 == t)
    && (forall t, i :: t in after ==> (i in after[t] <==> (t in before && i in before[t]) || (t, i) in waits))
  }

  lemma {:induction false} TimedAddedOne(before: map<TimeValue, set<nat>>, waits: seq<(TimeValue, nat)>,
      mid: map<TimeValue, set<nat>>, w: (TimeValue, nat))
    requires TimedAdded(before, waits, mid)
    ensures TimedAdded(before, waits + [w], mid[w.0 := (if w.0 in mid then mid[w.0] else {}) + {w.1}])
  {
    var all := waits + [w];
    var after := mid[w.0 := (if w.0 in mid then mid[w.0] else {}) + {w.1}];
    forall t
      ensures t in after <==> t in before || exists k :: 0 <= k < |all| && all[k].0 == t
    {
      if k :| 0 <= k < |waits| && waits[k].0 == t {
        assert all[k].0 == t;
      }
      assert all[|waits|].0 == w.0;
    }
    forall t, i | t in after
      ensures i in after[t] <==> (t in before && i in before[t]) || (t, i) in all
    {
      if t in mid {
        assert i in mid[t] <==> (t in before && i in before[t]) || (t, i) in waits;
      } else {
        assert forall k :: 0 <= k < |waits| ==> waits[k].0 != t;
      }
      assert all[|waits|] == w;
    }
  }

  /** No time in either queue is before t. */
  ghost predicate NotAfter<P, V>(t: TimeValue, events: map<TimeValue, map<P, V>>, timed: map<TimeValue, set<nat>>) {
    forall u :: u in events || u in timed ==> AtMost(t, u)
  }

  /** The first key of an ordered map. */
  method LeastKey(keys: set<TimeValue>) returns (least: Option<TimeValue>)
    ensures least.None? <==> keys == {}
    ensures least.Some? ==> least.value in keys && forall u :: u in keys ==> AtMost(least.value, u)
  {
    least := None;
    var rest := keys;
    while rest != {}
      invariant rest <= keys
      invariant least.None? ==> rest == keys
      invariant least.Some? ==> least.value in keys && forall u :: u in keys && u !in rest ==> AtMost(least.value, u)
      decreases |rest|
    {
      var u :| u in rest;
      rest := rest - {u};
      if least.None? || Less(u, least.value) {
        least := Some(u);
      }
    }
  }
}
