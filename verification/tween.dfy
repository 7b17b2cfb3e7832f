/** The reset animations `animateSetTranslationAndScale` and
    `animateSetBounds`: a timer fires 30 times a second, each firing moves the
    view a fixed fraction of the way to its target, and the firing that takes
    the progress past 0.8 jumps the rest of the way and stops the timer. */
module Tween {
  import opened Prelude
  import opened Geometry
  import opened Plot
  import opened RealBounds

  /** The fraction of the remaining way a transform tween covers per tick. */
  const TransformSpeed: real := 0.3
  /** The fraction of the remaining way a bounds tween covers per tick. */
  const BoundsSpeed: real := 0.5

  /** The progress after `ticks` firings: each adds 1/30. */
  function Progress(ticks: nat): real
  {
    ticks as real / 30.0
  }

  /** Whether the firing numbered `tick` (counting from 1) is the last. */
  predicate IsLastTick(tick: nat)
  {
    Progress(tick) > 0.8
  }

  /** The 25th firing is the first whose progress passes 0.8. */
  lemma LastTickIsTwentyFifth(tick: nat)
    ensures IsLastTick(tick) <==> tick >= 25
  {
  }

  /** The speed of the firing numbered `tick`: the tween's own speed, or 1
      on the last firing. */
  function SpeedAt(base: real, tick: nat): (s: real)
    ensures IsLastTick(tick) ==> s == 1.0
    ensures !IsLastTick(tick) ==> s == base
  {
    if IsLastTick(tick) then 1.0 else base
  }

  /** `x += speed * (target - x)`: the distance to the target shrinks by the
      factor `1 - speed`, so speed 1 lands on the target. */
  function Approach(x: real, target: real, speed: real): (r: real)
    ensures r - target == (1.0 - speed) * (x - target)
    ensures speed == 1.0 ==> r == target
    ensures 0.0 <= speed <= 1.0 ==> Min(x, target) <= r <= Max(x, target)
  {
    assert x + speed * (target - x) - target == (1.0 - speed) * (x - target);
    assert 0.0 <= speed <= 1.0 ==> Min(0.0, target - x) <= speed * (target - x) <= Max(0.0, target - x) by {
      if 0.0 <= speed <= 1.0 {
        PartOf(speed, target - x);
      }
    }
    x + speed * (target - x)
  }

  /** A fraction of a distance lies between 0 and the distance. */
  lemma PartOf(speed: real, d: real)
    requires 0.0 <= speed <= 1.0
    ensures Min(0.0, d) <= speed * d <= Max(0.0, d)
  {
    if d >= 0.0 {
      ProductNonNegative(speed, d);
      ProductNonNegative(1.0 - speed, d);
    } else {
      ProductNonNegative(speed, -d);
      ProductNonNegative(1.0 - speed, -d);
    }
  }

  /** A running transform tween: its target and the firings already taken. */
  datatype TransformTween = TransformTween(target: Transform, ticks: nat)

  /** A running bounds tween: the target bounds and the firings already taken. */
  datatype BoundsTween = BoundsTween(target: Bounds, ticks: nat)

  /** The running reset animation, if any (`this.resetTimer`). */
  datatype Reset = TransformReset(transformTween: TransformTween) | BoundsReset(boundsTween: BoundsTween)

  /** One firing of the transform tween: translation and scale approach the
      target; the last firing lands on it and stops the timer. */
  function TickTransform(t: Transform, tw: TransformTween): (r: (Transform, Option<TransformTween>))
    ensures r.1.None? <==> IsLastTick(tw.ticks + 1)
    ensures r.1.None? ==> r.0 == tw.target
    ensures r.1.Some? ==> r.1.value == TransformTween(tw.target, tw.ticks + 1)
    ensures r.1.Some? ==> r.0.scale - tw.target.scale == 0.7 * (t.scale - tw.target.scale)
    ensures t.scale > 0.0 && tw.target.scale > 0.0 ==> r.0.scale > 0.0
  {
    var tick := tw.ticks + 1;
    var speed := SpeedAt(TransformSpeed, tick);
    var target := tw.target;
    var moved := Transform(
      Vec(Approach(t.translation.x, target.translation.x, speed),
          Approach(t.translation.y, target.translation.y, speed)),
      Approach(t.scale, target.scale, speed));
    (moved, if IsLastTick(tick) then None else Some(TransformTween(target, tick)))
  }

  /** Up to `n` firings of a transform tween, stopping early when it ends. */
  function RunTransform(t: Transform, tw: TransformTween, n: nat): (r: (Transform, Option<TransformTween>))
    ensures t.scale > 0.0 && tw.target.scale > 0.0 ==> r.0.scale > 0.0
    ensures r.1.Some? ==> r.1.value.target == tw.target
    decreases n
  {
    if n == 0 then (t, Some(tw))
    else
      var (t', next) := TickTransform(t, tw);
      match next
      case None => (t', None)
      case Some(tw') => RunTransform(t', tw', n - 1)
  }

  /** A transform tween that has taken `k` firings is still running after
      `n` more as long as the total stays below 25, and has landed on its
      target and stopped after exactly `25 - k` more. */
  lemma {:induction false} TransformSettles(t: Transform, tw: TransformTween, n: nat)
    requires tw.ticks + n <= 25
    ensures tw.ticks + n < 25 ==> RunTransform(t, tw, n).1 == Some(TransformTween(tw.target, tw.ticks + n))
    ensures tw.ticks + n == 25 && n > 0 ==> RunTransform(t, tw, n) == (tw.target, None)
    decreases n
  {
    if n > 0 {
      LastTickIsTwentyFifth(tw.ticks + 1);
      var (t', next) := TickTransform(t, tw);
      if next.Some? {
        TransformSettles(t', next.value, n - 1);
      }
    }
  }

  /** A reset that starts now reaches its target after 25 firings and not
      before. */
  lemma ResetTakesTwentyFiveTicks(t: Transform, target: Transform, n: nat)
    requires n <= 25
    ensures n < 25 ==> RunTransform(t, TransformTween(target, 0), n).1.Some?
    ensures RunTransform(t, TransformTween(target, 0), 25) == (target, None)
  {
    TransformSettles(t, TransformTween(target, 0), n);
    TransformSettles(t, TransformTween(target, 0), 25);
  }

  /** One firing of the bounds tween: the maximum and minimum approach the
      target's, and the bounds are rebuilt from them; the last firing
      rebuilds the target itself and stops the timer. */
  function TickBounds(b: Bounds, tw: BoundsTween, height: real): (r: (Bounds, Option<BoundsTween>))
    requires TallEnough(height)
    ensures IsBounds(r.0, height)
    ensures r.1.None? <==> IsLastTick(tw.ticks + 1)
    ensures r.1.None? && IsBounds(tw.target, height) ==> r.0 == tw.target
    ensures r.1.Some? ==> r.1.value == BoundsTween(tw.target, tw.ticks + 1)
    ensures r.0.axis.min - tw.target.axis.min ==
            (if r.1.None? then 0.0 else 0.5) * (b.axis.min - tw.target.axis.min)
  {
    var tick := tw.ticks + 1;
    var speed := SpeedAt(BoundsSpeed, tick);
    var max := Approach(b.axis.max, tw.target.axis.max, speed);
    var min := Approach(b.axis.min, tw.target.axis.min, speed);
    RebuildIsIdentity(max, min, height);
    (BoundsWithMaxAndMin(max, min, height), if IsLastTick(tick) then None else Some(BoundsTween(tw.target, tick)))
  }

  /** Up to `n` firings of a bounds tween, stopping early when it ends. */
  function RunBounds(b: Bounds, tw: BoundsTween, height: real, n: nat): (r: (Bounds, Option<BoundsTween>))
    requires TallEnough(height) && IsBounds(b, height)
    ensures IsBounds(r.0, height)
    ensures r.1.Some? ==> r.1.value.target == tw.target
    decreases n
  {
    if n == 0 then (b, Some(tw))
    else
      var (b', next) := TickBounds(b, tw, height);
      match next
      case None => (b', None)
      case Some(tw') => RunBounds(b', tw', height, n - 1)
  }

  /** A bounds tween that has taken `k` firings lands on its target and stops
      after exactly `25 - k` more, and is still running before that. */
  lemma {:induction false} BoundsSettle(b: Bounds, tw: BoundsTween, height: real, n: nat)
    requires TallEnough(height) && IsBounds(b, height) && IsBounds(tw.target, height)
    requires tw.ticks + n <= 25
    ensures tw.ticks + n < 25 ==> RunBounds(b, tw, height, n).1 == Some(BoundsTween(tw.target, tw.ticks + n))
    ensures tw.ticks + n == 25 && n > 0 ==> RunBounds(b, tw, height, n) == (tw.target, None)
    decreases n
  {
    if n > 0 {
      LastTickIsTwentyFifth(tw.ticks + 1);
      var (b', next) := TickBounds(b, tw, height);
      if next.Some? {
        BoundsSettle(b', next.value, height, n - 1);
      }
    }
  }
}
