/** Points in simulation time, their order (src/value/time.rs), and the time at which
    something with a delay happens (src/bin/llhd-sim/engine.rs, `time_after_delay`). */
module SimTime {

  /** Physical time in seconds, delta steps, epsilon steps. */
  datatype TimeValue = TimeValue(time: real, delta: nat, epsilon: nat)

  const ZERO := TimeValue(0.0, 0, 0)

  /** The derived order: first by time, then by delta, then by epsilon. */
  predicate Less(a: TimeValue, b: TimeValue) {
    a.time < b.time || (a.time == b.time && (a.delta < b.delta || (a.delta == b.delta && a.epsilon < b.epsilon)))
  }

  predicate AtMost(a: TimeValue, b: TimeValue) {
    a == b || Less(a, b)
  }

  lemma TotalOrder(a: TimeValue, b: TimeValue, c: TimeValue)
    ensures Less(a, b) || a == b || Less(b, a)
    ensures !(Less(a, b) && AtMost(b, a))
    ensures AtMost(a, b) && AtMost(b, c) ==> AtMost(a, c)
    ensures (AtMost(a, b) && Less(b, c)) || (Less(a, b) && AtMost(b, c)) ==> Less(a, c)
  {
  }

  /** A delay never goes back in time. */
  predicate IsDelay(d: TimeValue) {
    d.time >= 0.0
  }

  /** `time_after_delay`: a physical delay resets the delta and epsilon steps, a delta delay the epsilon steps. */
  function After(now: TimeValue, delay: TimeValue): TimeValue {
    var time, delta, epsilon := now.time, now.delta, now.epsilon;
    var (time, delta, epsilon) := if delay.time != 0.0 then (time + delay.time, 0, 0) else (time, delta, epsilon);
    var (delta, epsilon) := if delay.delta != 0 then (delta + delay.delta, 0) else (delta, epsilon);
    TimeValue(time, delta, epsilon + delay.epsilon)
  }

  /** Time advances with every delay but the zero delay. */
  lemma AfterAdvances(now: TimeValue, delay: TimeValue)
    requires IsDelay(delay)
    ensures if delay == ZERO then After(now, delay) == now else Less(now, After(now, delay))
  {
  }

  /** Delays act on time: one delay after another is the delay after the delay. */
  lemma AfterAssociative(now: TimeValue, a: TimeValue, b: TimeValue)
    requires IsDelay(a) && IsDelay(b)
    ensures IsDelay(After(a, b)) && After(After(now, a), b) == After(now, After(a, b))
  {
  }

  /** Later starts and longer delays end later. */
  lemma AfterMonotone(now: TimeValue, later: TimeValue, delay: TimeValue, longer: TimeValue)
    requires AtMost(now, later) && AtMost(delay, longer) && IsDelay(delay)
    ensures AtMost(After(now, delay), After(later, longer))
  {
    assert AtMost(After(now, delay), After(later, delay));
    assert AtMost(After(later, delay), After(later, longer));
    TotalOrder(After(now, delay), After(later, delay), After(later, longer));
  }
}
