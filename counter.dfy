/**
 * The statistics counters: when a counter first becomes half visible it
 * counts from 0 up to its target over 2000 ms on a 16 ms timer, showing
 * the floor of a running value that grows by target / (2000 / 16) per tick
 * and switching to the exact target once the running value reaches it.
 */
module Counter {

  /** animateNumber's default duration and its timer period, in milliseconds. */
  const Duration: nat := 2000
  const Period: nat := 16

  /** duration / 16 ticks over the duration: 2000 / 16 is exactly 125. */
  const TickCount: nat := 125

  /**
   * What the counter shows at ticks 1, 2, ...: floor(k * target / 125) for
   * k below 125, then the target. A zero target is reached on the first tick.
   */
  function CounterFrames(target: nat): (frames: seq<int>) {
    if target == 0 then [0]
    else
      seq(TickCount, i requires 0 <= i < TickCount =>
        if i + 1 < TickCount then (i + 1) * target / TickCount else target)
  }

  lemma MulCancelStrict(a: int, b: int, d: int)
    requires d > 0 && a * d < b * d
    ensures a < b
  {
  }

  lemma DivMonotone(x: nat, y: nat, d: nat)
    requires x <= y && d > 0
    ensures x / d <= y / d
  {
    var qx, qy := x / d, y / d;
    assert qx * d <= x;
    assert y < qy * d + d;
    assert qy * d + d == (qy + 1) * d;
    MulCancelStrict(qx, qy + 1, d);
  }

  lemma MulDivMonotone(a: nat, b: nat, t: nat, d: nat)
    requires a <= b && d > 0
    ensures a * t / d <= b * t / d
  {
    assert a * t <= b * t by {
      assert b * t == a * t + (b - a) * t;
    }
    DivMonotone(a * t, b * t, d);
  }

  lemma MulDivBelow(a: nat, t: nat, d: nat)
    requires a < d && t > 0
    ensures a * t / d < t
  {
    assert a * t < d * t by {
      assert d * t == a * t + (d - a) * t;
      assert (d - a) * t > 0;
    }
    var q := a * t / d;
    assert q * d <= a * t;
    assert q * d < t * d;
  }

  /** The counter stops within 125 ticks, and its last value is exactly the target. */
  lemma CounterFramesEnd(target: nat)
    ensures var f := CounterFrames(target);
      1 <= |f| <= TickCount && f[|f| - 1] == target && |f| == (if target == 0 then 1 else TickCount)
  {
  }

  /** Every value shown before the last is floor(k * target / 125) and strictly below the target. */
  lemma CounterFramesBelowTarget(target: nat, i: nat)
    requires i + 1 < |CounterFrames(target)|
    ensures CounterFrames(target)[i] == (i + 1) * target / TickCount
    ensures 0 <= CounterFrames(target)[i] < target
  {
    MulDivBelow(i + 1, target, TickCount);
  }

  /** The displayed values never decrease. */
  lemma CounterFramesMonotone(target: nat, i: nat, j: nat)
    requires i <= j < |CounterFrames(target)|
    ensures CounterFrames(target)[i] <= CounterFrames(target)[j]
  {
    var f := CounterFrames(target);
    if target > 0 {
      if j + 1 < TickCount {
        MulDivMonotone(i + 1, j + 1, target, TickCount);
      } else if i + 1 < TickCount {
        MulDivBelow(i + 1, target, TickCount);
      }
    }
  }

  /** floor(a / d) on exact reals is integer division of naturals. */
  lemma RealFloorIsDiv(a: nat, d: nat)
    requires d > 0
    ensures (a as real / d as real).Floor == a / d
  {
    var q, r := a / d, a % d;
    var dr := d as real;
    assert a as real == q as real * dr + r as real;
    var fr := r as real / dr;
    assert fr * dr == r as real;
    assert 0.0 <= fr < 1.0;
    var x := a as real / dr;
    assert x * dr == a as real;
    assert (q as real + fr) * dr == a as real;
    assert x == q as real + fr by {
      assert (x - (q as real + fr)) * dr == 0.0;
    }
  }

  lemma ProductSign(x: real, y: real)
    requires y > 0.0
    ensures x * y >= 0.0 <==> x >= 0.0
  {
    if x < 0.0 {
      assert (-x) * y > 0.0;
    }
  }

  lemma RunningValueReached(k: nat, target: nat)
    requires target > 0
    ensures (k as real * (target as real / TickCount as real) >= target as real) <==> k >= TickCount
  {
    var inc := target as real / TickCount as real;
    assert inc * TickCount as real == target as real;
    assert k as real * inc - target as real == (k as real - TickCount as real) * inc;
    ProductSign(k as real - TickCount as real, inc);
  }

  /**
   * animateNumber's interval loop, one iteration per tick, on exact reals:
   * the values it writes to the counter, in order.
   */
  method AnimateNumber(target: nat) returns (frames: seq<int>)
    ensures frames == CounterFrames(target)
    ensures 1 <= |frames| <= TickCount && frames[|frames| - 1] == target
  {
    var increment: real := target as real / (Duration as real / Period as real);
    var current: real := 0.0;
    var ticks: nat := 0;
    var running := true;
    frames := [];
    while running
      invariant 0 <= ticks <= TickCount
      invariant increment == target as real / TickCount as real
      invariant current == ticks as real * increment
      invariant running ==> ticks < TickCount && (target == 0 ==> ticks == 0)
      invariant running ==> frames == CounterFrames(target)[..ticks]
      invariant !running ==> frames == CounterFrames(target)
      decreases TickCount - ticks
    {
      current := current + increment;
      ticks := ticks + 1;
      if target > 0 {
        RunningValueReached(ticks, target);
      }
      if current >= target as real {
        frames := frames + [target];
        running := false;
      } else {
        RealFloorIsDiv(ticks * target, TickCount);
        assert current == (ticks * target) as real / TickCount as real;
        frames := frames + [current.Floor];
      }
    }
    CounterFramesEnd(target);
  }

  /**
   * A `.stat-number` element with its target and the one-shot `animated`
   * flag; `shown` is every value the script has written into it.
   */
  class StatCounter {
    const target: nat
    var animated: bool
    var shown: seq<int>

    ghost predicate Valid()
      reads this
    {
      shown == if animated then CounterFrames(target) else []
    }

    constructor (target: nat)
      ensures Valid() && this.target == target && !animated
    {
      this.target := target;
      animated := false;
      shown := [];
    }

    /** The number observer's callback for this element: count up once, on the first intersection. */
    method OnIntersection(isIntersecting: bool) returns (started: bool)
      requires Valid()
      modifies this
      ensures Valid()
      ensures started <==> isIntersecting && !old(animated)
      ensures animated == (old(animated) || isIntersecting)
      ensures !started ==> shown == old(shown)
      ensures started ==> shown == CounterFrames(target) && shown[|shown| - 1] == target
    {
      started := false;
      if isIntersecting && !animated {
        animated := true;
        var frames := AnimateNumber(target);
        shown := shown + frames;
        started := true;
      }
    }
  }
}
