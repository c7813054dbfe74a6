/** src/backpressure.rs: the write-backpressure verdict. Durations are nanoseconds. */
module BackpressureVerdicts {
  import opened Arithmetic
  import opened Core

  const TWO_64: int := 0x1_0000_0000_0000_0000
  const TWO_128: int := 0x1_0000_0000_0000_0000_0000_0000_0000_0000

  /** The longest duration: `u64::MAX` seconds and 999 999 999 nanoseconds. */
  const DURATION_MAX: int := TWO_64 * NANOS_PER_SEC - 1

  datatype Thresholds = Thresholds(
    l0Slowdown: Option<nat>, l0Stop: Option<nat>,
    bytesSlowdown: Option<nat>, bytesStop: Option<nat>, maxSlowdown: Option<nat>)

  datatype Verdict = Proceed | Slowdown(delay: nat) | Stop

  predicate IsOff(t: Thresholds) {
    t.l0Slowdown.None? && t.l0Stop.None? && t.bytesSlowdown.None? && t.bytesStop.None?
  }

  predicate Reached(value: nat, threshold: Option<nat>) {
    threshold.Some? && value >= threshold.value
  }

  /** `cap * num / den` by quotient and remainder, so that no product overflows. */
  function Scale(cap: nat, num: nat, den: nat): nat {
    if den == 0 then cap else (cap / den) * num + ((cap % den) * num) / den
  }

  /** The delay of one axis past its slowdown threshold. */
  function Ramp(value: nat, soft: nat, hard: Option<nat>, cap: nat): nat
    requires soft <= value
  {
    if hard.Some? && hard.value > soft then Scale(cap, value - soft, hard.value - soft) else cap
  }

  function AxisDelay(value: nat, soft: Option<nat>, hard: Option<nat>, cap: nat): nat {
    if Reached(value, soft) then Ramp(value, soft.value, hard, cap) else 0
  }

  function Cap(t: Thresholds): nat {
    if t.maxSlowdown.Some? then t.maxSlowdown.value else 0
  }

  function Max(a: nat, b: nat): nat {
    if a < b then b else a
  }

  function VerdictFor(l0: nat, pending: nat, t: Thresholds): Verdict {
    if IsOff(t) then Proceed
    else if Reached(l0, t.l0Stop) || Reached(pending, t.bytesStop) then Stop
    else if Reached(l0, t.l0Slowdown) || Reached(pending, t.bytesSlowdown) then
      Slowdown(Max(AxisDelay(l0, t.l0Slowdown, t.l0Stop, Cap(t)), AxisDelay(pending, t.bytesSlowdown, t.bytesStop, Cap(t))))
    else Proceed
  }

  method Compute(l0: nat, pending: nat, t: Thresholds) returns (v: Verdict)
    ensures v == VerdictFor(l0, pending, t)
  {
    hide Ramp;
    if IsOff(t) {
      return Proceed;
    }
    if Reached(l0, t.l0Stop) || Reached(pending, t.bytesStop) {
      return Stop;
    }
    var cap := Cap(t);
    var delay, slowing := 0, false;
    if t.l0Slowdown.Some? && l0 >= t.l0Slowdown.value {
      slowing := true;
      delay := Max(delay, Ramp(l0, t.l0Slowdown.value, t.l0Stop, cap));
    }
    if t.bytesSlowdown.Some? && pending >= t.bytesSlowdown.value {
      slowing := true;
      delay := Max(delay, Ramp(pending, t.bytesSlowdown.value, t.bytesStop, cap));
    }
    return if slowing then Slowdown(delay) else Proceed;
  }

  // --- the scaling ---

  /** The decomposed product is the exact one, rounded down. */
  lemma ScaleIsFloor(cap: nat, num: nat, den: nat)
    requires den > 0
    ensures Scale(cap, num, den) == cap * num / den
  {
    var q, r := cap / den, cap % den;
    assert cap * num == (q * num) * den + r * num by {
      assert cap == q * den + r;
      assert (q * den + r) * num == q * den * num + r * num;
      assert q * den * num == (q * num) * den;
    }
    DivideSum(q * num, r * num, den);
  }

  lemma ScaleMonotone(cap: nat, low: nat, high: nat, den: nat)
    requires den > 0 && low <= high
    ensures Scale(cap, low, den) <= Scale(cap, high, den)
  {
    ScaleIsFloor(cap, low, den);
    ScaleIsFloor(cap, high, den);
    MulMono(low, high, cap);
    DivMono(cap * low, cap * high, den);
  }

  lemma ScaleWithinCap(cap: nat, num: nat, den: nat)
    requires num <= den
    ensures Scale(cap, num, den) <= cap
  {
    if den > 0 {
      ScaleMonotone(cap, num, den, den);
      ScaleIsFloor(cap, den, den);
      QuotientIs(cap * den, cap, 0, den);
    }
  }

  /** Every product and sum on the way fits 128 bits, and the seconds fit 64. */
  lemma ScaleFits(cap: nat, num: nat, den: nat)
    requires cap <= DURATION_MAX && num < den < TWO_64
    ensures (cap / den) * num <= cap < TWO_128
    ensures (cap % den) * num < TWO_128
    ensures (cap / den) * num + ((cap % den) * num) / den < TWO_128
    ensures Scale(cap, num, den) / NANOS_PER_SEC < TWO_64
  {
    ScaleWithinCap(cap, num, den);
    MulMono(num, den, cap / den);
    assert cap == (cap / den) * den + cap % den;
    MulMono(cap % den, TWO_64, num);
    MulMono(num, TWO_64 - 1, TWO_64);
    DivMono(Scale(cap, num, den), DURATION_MAX, NANOS_PER_SEC);
  }

  // --- the verdict ---

  /** `b` is at least as severe as `a`. */
  predicate AtLeastAsSevere(a: Verdict, b: Verdict) {
    match a
    case Proceed => true
    case Slowdown(delay) => b.Stop? || (b.Slowdown? && delay <= b.delay)
    case Stop => b.Stop?
  }

  lemma AxisMonotone(low: nat, high: nat, soft: Option<nat>, hard: Option<nat>, cap: nat)
    requires low <= high && !Reached(high, hard)
    ensures AxisDelay(low, soft, hard, cap) <= AxisDelay(high, soft, hard, cap) <= cap
  {
    hide Scale;
    if Reached(high, soft) && hard.Some? {
      var den := hard.value - soft.value;
      ScaleWithinCap(cap, high - soft.value, den);
      if Reached(low, soft) {
        ScaleMonotone(cap, low - soft.value, high - soft.value, den);
      }
    }
  }

  /** More tables or more pending bytes never give a milder verdict. */
  lemma VerdictMonotone(l0: nat, pending: nat, moreL0: nat, morePending: nat, t: Thresholds)
    requires l0 <= moreL0 && pending <= morePending
    ensures AtLeastAsSevere(VerdictFor(l0, pending, t), VerdictFor(moreL0, morePending, t))
  {
    hide AxisDelay;
    if !Reached(moreL0, t.l0Stop) && !Reached(morePending, t.bytesStop) {
      AxisMonotone(l0, moreL0, t.l0Slowdown, t.l0Stop, Cap(t));
      AxisMonotone(pending, morePending, t.bytesSlowdown, t.bytesStop, Cap(t));
    }
  }

  /** The delay never exceeds the configured cap. */
  lemma DelayWithinCap(l0: nat, pending: nat, t: Thresholds)
    ensures VerdictFor(l0, pending, t).Slowdown? ==> VerdictFor(l0, pending, t).delay <= Cap(t)
  {
    hide AxisDelay;
    if !Reached(l0, t.l0Stop) && !Reached(pending, t.bytesStop) {
      AxisMonotone(l0, l0, t.l0Slowdown, t.l0Stop, Cap(t));
      AxisMonotone(pending, pending, t.bytesSlowdown, t.bytesStop, Cap(t));
    }
  }

  /** The exact delay of one axis between its two thresholds: the cap times the
      fraction of the way covered, rounded down. */
  lemma AxisDelayExact(value: nat, soft: nat, hard: nat, cap: nat)
    requires soft <= value < hard
    ensures AxisDelay(value, Some(soft), Some(hard), cap) == cap * (value - soft) / (hard - soft)
  {
    hide Scale;
    ScaleIsFloor(cap, value - soft, hard - soft);
  }

  /** The verdict in terms of the thresholds alone: which tier, and in the slowdown tier
      the greater delay of the axes past their slowdown threshold, each the fraction of
      the cap that lies behind it where a stop threshold lies ahead, and else the cap. */
  lemma VerdictExact(l0: nat, pending: nat, t: Thresholds)
    ensures
      var stop :=
        (t.l0Stop.Some? && l0 >= t.l0Stop.value) || (t.bytesStop.Some? && pending >= t.bytesStop.value);
      var l0Slow, bytesSlow :=
        t.l0Slowdown.Some? && l0 >= t.l0Slowdown.value, t.bytesSlowdown.Some? && pending >= t.bytesSlowdown.value;
      var v := VerdictFor(l0, pending, t);
      && (v.Stop? <==> stop)
      && (v.Slowdown? <==> !stop && (l0Slow || bytesSlow))
      && (v.Slowdown? ==>
            var cap := if t.maxSlowdown.Some? then t.maxSlowdown.value else 0;
            var l0Delay :=
              if !l0Slow then 0
              else if t.l0Stop.Some? && t.l0Stop.value > t.l0Slowdown.value
              then cap * (l0 - t.l0Slowdown.value) / (t.l0Stop.value - t.l0Slowdown.value)
              else cap;
            var bytesDelay :=
              if !bytesSlow then 0
              else if t.bytesStop.Some? && t.bytesStop.value > t.bytesSlowdown.value
              then cap * (pending - t.bytesSlowdown.value) / (t.bytesStop.value - t.bytesSlowdown.value)
              else cap;
            v.delay == if l0Delay < bytesDelay then bytesDelay else l0Delay)
  {
    hide Scale;
    if Reached(l0, t.l0Slowdown) && t.l0Stop.Some? && t.l0Stop.value > t.l0Slowdown.value {
      ScaleIsFloor(Cap(t), l0 - t.l0Slowdown.value, t.l0Stop.value - t.l0Slowdown.value);
    }
    if Reached(pending, t.bytesSlowdown) && t.bytesStop.Some? && t.bytesStop.value > t.bytesSlowdown.value {
      ScaleIsFloor(Cap(t), pending - t.bytesSlowdown.value, t.bytesStop.value - t.bytesSlowdown.value);
    }
  }
}
