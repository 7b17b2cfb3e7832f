/** Bars mode: the value bounds of `getRealBounds` and
    `getRealBoundsWithMaxAndMin`, with the value-to-y mapping, the baseline
    and the value change per dragged pixel. */
module RealBounds {
  import opened Prelude
  import opened Extraction

  /** The smallest range the degenerate-range guard lets through. */
  const MinRange: real := 0.001
  /** Space kept free at the far edge(s) of the canvas. */
  const Margin: real := 6.0
  /** Space kept free between a one-sided baseline and the canvas edge. */
  const BaselineHeight: real := 2.0

  /** What the `getYForValue` closure captures: the guarded maximum and
      minimum, their range and the canvas height. */
  datatype Axis = Axis(max: real, min: real, range: real, height: real)

  /** A bounds object as `getRealBoundsWithMaxAndMin` returns it. */
  datatype Bounds = Bounds(axis: Axis, baselineY: real, deltaPerPixel: real)

  predicate Guarded(a: Axis)
  {
    a.range == a.max - a.min && a.range >= MinRange
  }

  /** The degenerate-range guard: a maximum closer than `MinRange` above the
      minimum (or below it) is raised to `min + MinRange`. */
  function Guard(max: real, min: real): (g: (real, real))
    ensures g.1 == min && g.0 - g.1 >= MinRange
    ensures max - min >= MinRange ==> g.0 == max
    ensures max - min < MinRange ==> g.0 == min + MinRange
  {
    if max - min < MinRange then (min + MinRange, min) else (max, min)
  }

  /** Guarding guarded bounds changes nothing. */
  lemma GuardIdempotent(max: real, min: real)
    ensures Guard(Guard(max, min).0, Guard(max, min).1) == Guard(max, min)
  {
  }

  /** The canvas is tall enough for both margins, so every regime has a
      non-degenerate slope. */
  predicate TallEnough(height: real)
  {
    height > 2.0 * Margin
  }

  /** The `getYForValue` closure as written, in its three regimes: all
      values non-negative (baseline at the bottom), all non-positive
      (baseline at the top), or mixed. */
  function YForValueRegimes(a: Axis, v: real): (y: real)
    requires Guarded(a)
    ensures a.max > 0.0 && v == a.max ==> y == Margin
    ensures a.min < 0.0 && v == a.min ==> y == a.height - Margin
    ensures a.min >= 0.0 && v == 0.0 ==> y == a.height - BaselineHeight
    ensures a.max <= 0.0 && v == 0.0 ==> y == BaselineHeight
  {
    if a.min >= 0.0 then BottomRegimeY(v, a.max, a.height)
    else if a.max <= 0.0 then TopRegimeY(v, a.min, a.height)
    else MixedRegimeY(v, a.max, a.range, a.height)
  }

  /** All values non-negative: value 0 two pixels above the bottom edge, the
      maximum at the top margin. */
  function BottomRegimeY(v: real, max: real, height: real): (y: real)
    requires max != 0.0
    ensures v == 0.0 ==> y == height - BaselineHeight
    ensures v == max ==> y == Margin
  {
    height - BaselineHeight - (v / max * (height - Margin - BaselineHeight))
  }

  /** All values non-positive: value 0 two pixels below the top edge, the
      minimum at the bottom margin. */
  function TopRegimeY(v: real, min: real, height: real): (y: real)
    requires min != 0.0
    ensures v == 0.0 ==> y == BaselineHeight
    ensures v == min ==> y == height - Margin
  {
    BaselineHeight + v / min * (height - Margin - BaselineHeight)
  }

  /** Mixed signs: the maximum at the top margin, the minimum at the bottom
      margin, value 0 in between. */
  function MixedRegimeY(v: real, max: real, range: real, height: real): (y: real)
    requires range != 0.0
    ensures v == max ==> y == Margin
    ensures v == max - range ==> y == height - Margin
  {
    var zeroY := max / range * (height - 2.0 * Margin) + Margin;
    zeroY + -v / range * (height - 2.0 * Margin)
  }

  /** The pixel drop per unit of value in each regime. */
  function Slope(a: Axis): real
    requires Guarded(a)
  {
    if a.min >= 0.0 then 1.0 / a.max * (a.height - Margin - BaselineHeight)
    else if a.max <= 0.0 then -(1.0 / a.min * (a.height - Margin - BaselineHeight))
    else 1.0 / a.range * (a.height - 2.0 * Margin)
  }

  /** Where value 0 is drawn in each regime. */
  function ZeroY(a: Axis): real
    requires Guarded(a)
  {
    if a.min >= 0.0 then a.height - BaselineHeight
    else if a.max <= 0.0 then BaselineHeight
    else a.max / a.range * (a.height - 2.0 * Margin) + Margin
  }

  /** `getYForValue`: the y of value 0 less `v` times the drop per unit.
      `YForValueMatchesRegimes` shows this is the closure's value. */
  function YForValue(a: Axis, v: real): real
    requires Guarded(a)
  {
    ZeroY(a) - v * Slope(a)
  }

  lemma Rescale(v: real, d: real, k: real)
    requires d != 0.0
    ensures v / d * k == v * (1.0 / d * k)
  {
    assert v / d == v * (1.0 / d);
  }

  /** In every regime the closure computes the affine `YForValue`. */
  lemma YForValueMatchesRegimes(a: Axis, v: real)
    requires Guarded(a)
    ensures YForValueRegimes(a, v) == YForValue(a, v)
  {
    if a.min >= 0.0 {
      NonNegativeForm(a, v);
    } else if a.max <= 0.0 {
      NonPositiveForm(a, v);
    } else {
      MixedForm(a, v);
    }
  }

  lemma NonNegativeForm(a: Axis, v: real)
    requires Guarded(a) && a.min >= 0.0
    ensures YForValueRegimes(a, v) == ZeroY(a) - v * Slope(a)
  {
    var k := a.height - Margin - BaselineHeight;
    Rescale(v, a.max, k);
    assert YForValueRegimes(a, v) == a.height - BaselineHeight - v / a.max * k;
    assert Slope(a) == 1.0 / a.max * k;
  }

  lemma NonPositiveForm(a: Axis, v: real)
    requires Guarded(a) && a.min < 0.0 && a.max <= 0.0
    ensures YForValueRegimes(a, v) == ZeroY(a) - v * Slope(a)
  {
    var k := a.height - Margin - BaselineHeight;
    var s := 1.0 / a.min * k;
    Rescale(v, a.min, k);
    assert YForValueRegimes(a, v) == BaselineHeight + v / a.min * k;
    assert Slope(a) == -s;
    assert v * -s == -(v * s);
  }

  lemma MixedForm(a: Axis, v: real)
    requires Guarded(a) && a.min < 0.0 < a.max
    ensures YForValueRegimes(a, v) == ZeroY(a) - v * Slope(a)
  {
    var k := a.height - 2.0 * Margin;
    var s := 1.0 / a.range * k;
    Rescale(-v, a.range, k);
    assert YForValueRegimes(a, v) == ZeroY(a) + -v / a.range * k;
    assert Slope(a) == s;
    assert -v * s == -(v * s);
  }

  lemma SlopePositive(a: Axis)
    requires Guarded(a) && TallEnough(a.height)
    ensures Slope(a) > 0.0
  {
    if a.min >= 0.0 {
      MulPositive(1.0 / a.max, a.height - Margin - BaselineHeight);
    } else if a.max <= 0.0 {
      var k := a.height - Margin - BaselineHeight;
      MulPositive(1.0 / -a.min, k);
      assert 1.0 / a.min * k == -(1.0 / -a.min * k);
    } else {
      MulPositive(1.0 / a.range, a.height - 2.0 * Margin);
    }
  }

  /** `getYForValue` is affine with a negative slope: a larger value is
      drawn higher up. */
  lemma YAffine(a: Axis, v: real)
    requires Guarded(a) && TallEnough(a.height)
    ensures YForValue(a, 0.0) - YForValue(a, 1.0) > 0.0
    ensures YForValue(a, v) == YForValue(a, 0.0) - v * (YForValue(a, 0.0) - YForValue(a, 1.0))
  {
    SlopePositive(a);
  }

  /** A smaller value is drawn strictly lower on the canvas. */
  lemma YDecreasing(a: Axis, v: real, w: real)
    requires Guarded(a) && TallEnough(a.height) && v < w
    ensures YForValue(a, v) > YForValue(a, w)
  {
    SlopePositive(a);
    MulLess(v, w, Slope(a));
  }

  lemma FractionBetween(num: real, den: real, k: real)
    requires 0.0 <= num <= den && den > 0.0 && k >= 0.0
    ensures 0.0 <= num / den * k <= k
  {
    var q := num / den;
    assert 0.0 <= q <= 1.0;
    ProductNonNegative(q, k);
    ProductNonNegative(1.0 - q, k);
    assert k - q * k == (1.0 - q) * k;
  }

  /** A fraction of two non-positive numbers, as the top-baseline regime
      scales a value by the minimum. */
  lemma NegativeFractionBetween(num: real, den: real, k: real)
    requires den <= num <= 0.0 && den < 0.0 && k >= 0.0
    ensures 0.0 <= num / den * k <= k
  {
    var q := num / den;
    assert 0.0 <= q <= 1.0;
    ProductNonNegative(q, k);
    ProductNonNegative(1.0 - q, k);
    assert k - q * k == (1.0 - q) * k;
  }

  /** Every value in `[min, max]` is drawn inside the canvas, at least two
      pixels from either edge. */
  lemma YWithinCanvas(a: Axis, v: real)
    requires Guarded(a) && TallEnough(a.height) && a.min <= v <= a.max
    ensures BaselineHeight <= YForValue(a, v) <= a.height - BaselineHeight
  {
    YForValueMatchesRegimes(a, v);
    if a.min >= 0.0 {
      NonNegativeWithin(a, v);
    } else if a.max <= 0.0 {
      NonPositiveWithin(a, v);
    } else {
      MixedWithin(a, v);
    }
  }

  lemma NonNegativeWithin(a: Axis, v: real)
    requires Guarded(a) && TallEnough(a.height) && 0.0 <= a.min <= v <= a.max
    ensures Margin <= YForValueRegimes(a, v) <= a.height - BaselineHeight
  {
    BottomWithin(v, a.max, a.height);
  }

  /** The bottom-baseline regime on plain numbers. */
  lemma BottomWithin(v: real, max: real, height: real)
    requires 0.0 <= v <= max && max > 0.0 && TallEnough(height)
    ensures Margin <= BottomRegimeY(v, max, height) <= height - BaselineHeight
  {
    FractionBelow(v, max, height - Margin - BaselineHeight, height - BaselineHeight, Margin);
  }

  /** Taking a fraction of `k` off `top` stays within `[top - k, top]`. */
  lemma FractionBelow(num: real, den: real, k: real, top: real, bottom: real)
    requires 0.0 <= num <= den && den > 0.0 && k >= 0.0 && bottom == top - k
    ensures bottom <= top - (num / den * k) <= top
  {
    FractionBetween(num, den, k);
  }

  lemma NonPositiveWithin(a: Axis, v: real)
    requires Guarded(a) && TallEnough(a.height) && a.min <= v <= a.max <= 0.0
    ensures BaselineHeight <= YForValueRegimes(a, v) <= a.height - Margin
  {
    assert a.min < 0.0;
    TopWithin(v, a.min, a.height);
  }

  /** The top-baseline regime on plain numbers. */
  lemma TopWithin(v: real, min: real, height: real)
    requires min <= v <= 0.0 && min < 0.0 && TallEnough(height)
    ensures BaselineHeight <= TopRegimeY(v, min, height) <= height - Margin
  {
    NegativeFractionOffset(v, min, height - Margin - BaselineHeight, BaselineHeight, height - Margin);
  }

  /** Adding a fraction of `k` to `base` stays within `[base, base + k]`. */
  lemma NegativeFractionOffset(num: real, den: real, k: real, base: real, top: real)
    requires den <= num <= 0.0 && den < 0.0 && k >= 0.0 && top == base + k
    ensures base <= base + num / den * k <= top
  {
    NegativeFractionBetween(num, den, k);
  }

  lemma MixedWithin(a: Axis, v: real)
    requires Guarded(a) && TallEnough(a.height) && a.min <= v <= a.max && a.min < 0.0 < a.max
    ensures Margin <= YForValueRegimes(a, v) <= a.height - Margin
  {
    MixedRegimeWithin(v, a.max, a.range, a.height);
  }

  /** The mixed regime on plain numbers: a value at most `range` below the
      maximum lands between the margins. */
  lemma MixedRegimeWithin(v: real, max: real, range: real, height: real)
    requires max - range <= v <= max && range > 0.0 && TallEnough(height)
    ensures Margin <= MixedRegimeY(v, max, range, height) <= height - Margin
  {
    var k := height - 2.0 * Margin;
    var r := 1.0 / range;
    var f := (max - v) * r;
    assert max / range * k == max * r * k;
    assert -v / range * k == -v * r * k;
    assert max * r * k + -v * r * k == f * k;
    assert MixedRegimeY(v, max, range, height) == Margin + f * k;
    assert 0.0 <= f <= 1.0 by {
      assert f == (max - v) / range;
    }
    ProductNonNegative(f, k);
    ProductNonNegative(1.0 - f, k);
    assert k - f * k == (1.0 - f) * k;
  }

  /** `getRealBoundsWithMaxAndMin`. */
  function BoundsWithMaxAndMin(max: real, min: real, height: real): (b: Bounds)
    requires TallEnough(height)
    ensures Guarded(b.axis) && b.axis.height == height && b.axis.min == min
    ensures max - min >= MinRange ==> b.axis.max == max
    ensures max - min < MinRange ==> b.axis.max == min + MinRange
    ensures b.deltaPerPixel > 0.0
  {
    var (mx, mn) := Guard(max, min);
    var a := Axis(mx, mn, mx - mn, height);
    SlopePositive(a);
    var baselineY := if mn >= 0.0 then height else if mx <= 0.0 then 0.0 else YForValue(a, 0.0);
    Bounds(a, baselineY, 1.0 / (YForValue(a, 0.0) - YForValue(a, 1.0)))
  }

  /** The baseline in each regime: the bottom edge, the top edge, or the y of
      value 0. In the one-sided regimes this is two pixels away from where
      value 0 is drawn. In every regime y(0) is on the canvas. */
  lemma BaselineRegimes(max: real, min: real, height: real)
    requires TallEnough(height)
    ensures var b := BoundsWithMaxAndMin(max, min, height);
            && (b.axis.min >= 0.0 ==> b.baselineY == height && YForValue(b.axis, 0.0) == height - BaselineHeight)
            && (b.axis.max <= 0.0 ==> b.baselineY == 0.0 && YForValue(b.axis, 0.0) == BaselineHeight)
            && (b.axis.min < 0.0 < b.axis.max ==> b.baselineY == YForValue(b.axis, 0.0))
            && 0.0 <= YForValue(b.axis, 0.0) <= height
  {
    var b := BoundsWithMaxAndMin(max, min, height);
    if b.axis.min < 0.0 < b.axis.max {
      YWithinCanvas(b.axis, 0.0);
    }
  }

  /** Values 2 to 10: everything is non-negative and the baseline is the
      bottom edge of the canvas. */
  lemma NonNegativeBaselineExample(height: real)
    requires TallEnough(height)
    ensures BoundsWithMaxAndMin(10.0, 2.0, height).baselineY == height
  {
  }

  /** Dragging a bar by `dy` pixels changes its value by `-dy * deltaPerPixel`,
      which moves the bar's top by exactly `dy` pixels. */
  lemma DragMovesByPixels(max: real, min: real, height: real, v: real, dy: real)
    requires TallEnough(height)
    ensures var b := BoundsWithMaxAndMin(max, min, height);
            YForValue(b.axis, v - dy * b.deltaPerPixel) == YForValue(b.axis, v) + dy
  {
    var b := BoundsWithMaxAndMin(max, min, height);
    ShiftByPixels(b.axis, v, dy);
  }

  /** Moving a value by `-dy` pixels' worth of value moves its y by `dy`. */
  lemma ShiftByPixels(a: Axis, v: real, dy: real)
    requires Guarded(a) && TallEnough(a.height)
    ensures YForValue(a, v - dy * (1.0 / (YForValue(a, 0.0) - YForValue(a, 1.0)))) == YForValue(a, v) + dy
  {
    SlopePositive(a);
    AffineShift(ZeroY(a), Slope(a), v, dy);
  }

  lemma AffineShift(y0: real, k: real, v: real, dy: real)
    requires k > 0.0
    ensures y0 - (v - dy * (1.0 / k)) * k == (y0 - v * k) + dy
  {
    assert (dy * (1.0 / k)) * k == dy;
  }

  /** Bounds are what `getRealBoundsWithMaxAndMin` builds for their own
      maximum and minimum on a canvas of this height. */
  predicate IsBounds(b: Bounds, height: real)
  {
    TallEnough(height) && b == BoundsWithMaxAndMin(b.axis.max, b.axis.min, height)
  }

  /** Rebuilding bounds from their own maximum and minimum gives them back. */
  lemma RebuildIsIdentity(max: real, min: real, height: real)
    requires TallEnough(height)
    ensures IsBounds(BoundsWithMaxAndMin(max, min, height), height)
  {
    GuardIdempotent(max, min);
  }

  /** The largest value, by the `Math.max` loop. */
  function MaxValue(reals: seq<Tagged<real>>): (m: real)
    requires |reals| > 0
    ensures forall k :: 0 <= k < |reals| ==> reals[k].thing <= m
    ensures exists k :: 0 <= k < |reals| && reals[k].thing == m
    decreases |reals|
  {
    if |reals| == 1 then reals[0].thing
    else
      var n := |reals| - 1;
      var m := MaxValue(reals[..n]);
      assert forall k :: 0 <= k < n ==> reals[..n][k] == reals[k];
      Max(reals[n].thing, m)
  }

  /** The smallest value, by the `Math.min` loop. */
  function MinValue(reals: seq<Tagged<real>>): (m: real)
    requires |reals| > 0
    ensures forall k :: 0 <= k < |reals| ==> m <= reals[k].thing
    ensures exists k :: 0 <= k < |reals| && reals[k].thing == m
    decreases |reals|
  {
    if |reals| == 1 then reals[0].thing
    else
      var n := |reals| - 1;
      var m := MinValue(reals[..n]);
      assert forall k :: 0 <= k < n ==> reals[..n][k] == reals[k];
      Min(reals[n].thing, m)
  }

  /** `getRealBounds`: the bounds span every extracted value; the minimum is
      a value; the maximum is a value when some value lies at least `MinRange`
      above the minimum, and is the minimum plus `MinRange` otherwise. */
  function BoundsOfReals(reals: seq<Tagged<real>>, height: real): (b: Bounds)
    requires |reals| > 0 && TallEnough(height)
    ensures IsBounds(b, height)
    ensures forall k :: 0 <= k < |reals| ==> b.axis.min <= reals[k].thing <= b.axis.max
    ensures exists k :: 0 <= k < |reals| && reals[k].thing == b.axis.min
    ensures (exists k :: 0 <= k < |reals| && reals[k].thing - b.axis.min >= MinRange) ==>
              exists k :: 0 <= k < |reals| && reals[k].thing == b.axis.max
    ensures (forall k :: 0 <= k < |reals| ==> reals[k].thing - b.axis.min < MinRange) ==>
              b.axis.max == b.axis.min + MinRange
  {
    RebuildIsIdentity(MaxValue(reals), MinValue(reals), height);
    BoundsWithMaxAndMin(MaxValue(reals), MinValue(reals), height)
  }
}
