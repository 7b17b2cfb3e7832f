/** Plot mode: the model-to-device transform, its inverse, panning, the
    nearest-point hit-test and the fit-to-content metrics. */
module Plot {
  import opened Prelude
  import opened Geometry
  import opened Extraction

  /** `this.translation` and `this.scale`. */
  datatype Transform = Transform(translation: Vec, scale: real)

  /** The render transform: translate to the canvas centre, scale by
      `(scale, -scale)`, then translate by `translation`. */
  function ToDevice(canvas: Canvas, t: Transform, p: Vec): (d: Vec)
    ensures p == Vec(-t.translation.x, -t.translation.y) ==> d == Vec(canvas.width / 2.0, canvas.height / 2.0)
  {
    Vec(canvas.width / 2.0 + t.scale * (p.x + t.translation.x),
        canvas.height / 2.0 - t.scale * (p.y + t.translation.y))
  }

  /** The canvas-to-model conversion at the head of `getPointNearCanvasPoint`. */
  function ToModel(canvas: Canvas, t: Transform, c: Vec): (p: Vec)
    requires t.scale != 0.0
    ensures c == Vec(canvas.width / 2.0, canvas.height / 2.0) ==> p == Vec(-t.translation.x, -t.translation.y)
  {
    Vec((c.x - canvas.width / 2.0) / t.scale - t.translation.x,
        (c.y - canvas.height / 2.0) / -t.scale - t.translation.y)
  }

  /** The conversion inverts the render transform exactly, both ways. */
  lemma TransformRoundTrip(canvas: Canvas, t: Transform, p: Vec, c: Vec)
    requires t.scale != 0.0
    ensures ToModel(canvas, t, ToDevice(canvas, t, p)) == p
    ensures ToDevice(canvas, t, ToModel(canvas, t, c)) == c
  {
    var s := t.scale;
    var d := ToDevice(canvas, t, p);
    assert (d.x - canvas.width / 2.0) / s == p.x + t.translation.x;
    assert (d.y - canvas.height / 2.0) / -s == p.y + t.translation.y;
    var m := ToModel(canvas, t, c);
    assert s * (m.x + t.translation.x) == c.x - canvas.width / 2.0;
    assert s * (m.y + t.translation.y) == -(c.y - canvas.height / 2.0);
  }

  /** Dragging without edit or modifier: the translation moves by the pixel
      delta in model units, with y inverted. */
  function Pan(t: Transform, dx: real, dy: real): (r: Transform)
    requires t.scale != 0.0
    ensures r.scale == t.scale
  {
    Transform(Vec(t.translation.x + dx / t.scale, t.translation.y + -dy / t.scale), t.scale)
  }

  /** Panning by `(dx, dy)` pixels moves every point's device position by
      exactly `(dx, dy)`. */
  lemma PanShiftsDevice(canvas: Canvas, t: Transform, dx: real, dy: real, p: Vec)
    requires t.scale != 0.0
    ensures ToDevice(canvas, Pan(t, dx, dy), p) == ToDevice(canvas, t, p).Plus(Vec(dx, dy))
  {
    var s := t.scale;
    var u := Pan(t, dx, dy).translation;
    assert p.x + u.x == (p.x + t.translation.x) + dx / s;
    assert p.y + u.y == (p.y + t.translation.y) + -dy / s;
    ScaledShift(s, p.x + t.translation.x, dx);
    ScaledShift(s, p.y + t.translation.y, -dy);
    assert ToDevice(canvas, Pan(t, dx, dy), p).x == ToDevice(canvas, t, p).x + dx;
    assert ToDevice(canvas, Pan(t, dx, dy), p).y == ToDevice(canvas, t, p).y + dy;
  }

  lemma ScaledShift(s: real, a: real, d: real)
    requires s != 0.0
    ensures s * (a + d / s) == s * a + d
  {
    assert s * (d / s) == d;
    assert s * (a + d / s) == s * a + s * (d / s);
  }

  /** The index the search loop ends on: a nearest point, the first of them
      because only a strictly smaller distance replaces the candidate. */
  function FirstNearest(points: seq<Tagged<Vec>>, p: Vec): (j: nat)
    requires |points| > 0
    ensures j < |points|
    ensures forall k :: 0 <= k < |points| ==> DistSq(points[j].thing, p) <= DistSq(points[k].thing, p)
    ensures forall k :: 0 <= k < j ==> DistSq(points[j].thing, p) < DistSq(points[k].thing, p)
    decreases |points|
  {
    if |points| == 1 then 0
    else
      var n := |points| - 1;
      var j := FirstNearest(points[..n], p);
      assert forall k :: 0 <= k < n ==> points[..n][k] == points[k];
      if DistSq(points[n].thing, p) < DistSq(points[j].thing, p) then n else j
  }

  /** `closestDistance <= radius`, decided on squares. */
  predicate Within(distSq: real, radius: real)
  {
    radius >= 0.0 && distSq <= radius * radius
  }

  /** `getPointNearCanvasPoint`: the first nearest point when it lies within
      `radius` pixels (`radius / scale` model units), otherwise null. A point
      is returned exactly when some point lies within the radius. */
  function PointNearCanvasPoint(canvas: Canvas, t: Transform, points: seq<Tagged<Vec>>, c: Vec, radius: real)
    : (r: Option<Tagged<Vec>>)
    requires t.scale != 0.0
    ensures r.Some? ==> Within(DistSq(r.value.thing, ToModel(canvas, t, c)), radius / t.scale)
    ensures r.Some? ==> exists j :: 0 <= j < |points| && points[j] == r.value &&
                          forall k :: 0 <= k < |points| ==>
                            DistSq(points[j].thing, ToModel(canvas, t, c)) <= DistSq(points[k].thing, ToModel(canvas, t, c)) &&
                            (k < j ==> DistSq(points[j].thing, ToModel(canvas, t, c)) < DistSq(points[k].thing, ToModel(canvas, t, c)))
    ensures r.None? <==> forall k :: 0 <= k < |points| ==>
                           !Within(DistSq(points[k].thing, ToModel(canvas, t, c)), radius / t.scale)
  {
    var m := ToModel(canvas, t, c);
    var rad := radius / t.scale;
    if |points| == 0 then None
    else
      var j := FirstNearest(points, m);
      if Within(DistSq(points[j].thing, m), rad) then Some(points[j]) else None
  }

  /** Hit-testing at scale 10 with a 20-pixel radius (two model units): the
      point under the cursor is found, a point about 4.24 units away is not. */
  lemma HitTestExample(item: Item)
    ensures PointNearCanvasPoint(Canvas(100.0, 100.0), Transform(Vec(-5.0, -5.0), 10.0),
                                 [Tagged(Vec(5.0, 5.0), item)], Vec(50.0, 50.0), 20.0)
            == Some(Tagged(Vec(5.0, 5.0), item))
    ensures PointNearCanvasPoint(Canvas(100.0, 100.0), Transform(Vec(-5.0, -5.0), 10.0),
                                 [Tagged(Vec(8.0, 8.0), item)], Vec(50.0, 50.0), 20.0)
            == None
  {
    var t := Transform(Vec(-5.0, -5.0), 10.0);
    assert ToModel(Canvas(100.0, 100.0), t, Vec(50.0, 50.0)) == Vec(5.0, 5.0);
  }

  /** `getMetrics`: bounding box corners and midpoint. */
  datatype Metrics = Metrics(minPoint: Vec, maxPoint: Vec, midPoint: Vec)

  /** Every point lies in the box `[lo, hi]`. */
  predicate Encloses(points: seq<Tagged<Vec>>, lo: Vec, hi: Vec)
  {
    forall k :: 0 <= k < |points| ==>
      lo.x <= points[k].thing.x <= hi.x && lo.y <= points[k].thing.y <= hi.y
  }

  /** Every side of the box `[lo, hi]` touches a point. */
  predicate Touches(points: seq<Tagged<Vec>>, lo: Vec, hi: Vec)
  {
    && (exists k :: 0 <= k < |points| && points[k].thing.x == lo.x)
    && (exists k :: 0 <= k < |points| && points[k].thing.y == lo.y)
    && (exists k :: 0 <= k < |points| && points[k].thing.x == hi.x)
    && (exists k :: 0 <= k < |points| && points[k].thing.y == hi.y)
  }

  /** The running minimum and maximum of the metrics loop. */
  function Box(points: seq<Tagged<Vec>>): (b: (Vec, Vec))
    requires |points| > 0
    ensures Encloses(points, b.0, b.1) && Touches(points, b.0, b.1)
    decreases |points|
  {
    if |points| == 1 then (points[0].thing, points[0].thing)
    else
      var n := |points| - 1;
      var prefix := points[..n];
      var (lo, hi) := Box(prefix);
      assert forall k :: 0 <= k < n ==> prefix[k] == points[k];
      var p := points[n].thing;
      (Vec(Min(lo.x, p.x), Min(lo.y, p.y)), Vec(Max(hi.x, p.x), Max(hi.y, p.y)))
  }

  /** `getMetrics`: the tight bounding box of the points, or the origin when
      there are none, with its midpoint. */
  function GetMetrics(points: seq<Tagged<Vec>>): (m: Metrics)
    ensures |points| == 0 ==> m.minPoint == m.maxPoint == m.midPoint == Vec(0.0, 0.0)
    ensures |points| > 0 ==> Encloses(points, m.minPoint, m.maxPoint) && Touches(points, m.minPoint, m.maxPoint)
    ensures m.minPoint.x <= m.midPoint.x <= m.maxPoint.x && m.minPoint.y <= m.midPoint.y <= m.maxPoint.y
    ensures m.maxPoint.x - m.midPoint.x == m.midPoint.x - m.minPoint.x
    ensures m.maxPoint.y - m.midPoint.y == m.midPoint.y - m.minPoint.y
  {
    var (lo, hi) := if |points| == 0 then (Vec(0.0, 0.0), Vec(0.0, 0.0)) else Box(points);
    Metrics(lo, hi, Vec(0.5 * (hi.x + lo.x), 0.5 * (hi.y + lo.y)))
  }

  /** `getTranslationWithMetrics`: minus the midpoint, which the render
      transform then sends to the canvas centre. */
  function FitTranslation(m: Metrics): (v: Vec)
    ensures v.Plus(m.midPoint) == Vec(0.0, 0.0)
  {
    Vec(-m.midPoint.x, -m.midPoint.y)
  }

  /** `getScaleWithMetrics`: three quarters of the largest scale at which the
      box (at least 0.01 wide and high) fits the canvas. */
  function FitScale(canvas: Canvas, m: Metrics): (s: real)
    ensures canvas.width > 0.0 && canvas.height > 0.0 ==> s > 0.0
    ensures s <= 0.75 * canvas.width / Max(0.01, m.maxPoint.x - m.minPoint.x)
    ensures s <= 0.75 * canvas.height / Max(0.01, m.maxPoint.y - m.minPoint.y)
    ensures s == 0.75 * canvas.width / Max(0.01, m.maxPoint.x - m.minPoint.x) ||
            s == 0.75 * canvas.height / Max(0.01, m.maxPoint.y - m.minPoint.y)
  {
    var widthScale := canvas.width / Max(0.01, m.maxPoint.x - m.minPoint.x);
    var heightScale := canvas.height / Max(0.01, m.maxPoint.y - m.minPoint.y);
    0.75 * Min(widthScale, heightScale)
  }

  /** The transform `setStream` and `animateResetTransform` fit to the points. */
  function FitTransform(canvas: Canvas, points: seq<Tagged<Vec>>): Transform
  {
    var m := GetMetrics(points);
    Transform(FitTranslation(m), FitScale(canvas, m))
  }

  /** The fitted transform has a positive scale and sends every point into the
      central 75% of the canvas on each axis. */
  lemma FitPlacesPointsCentrally(canvas: Canvas, points: seq<Tagged<Vec>>, k: nat)
    requires canvas.width > 0.0 && canvas.height > 0.0 && k < |points|
    ensures FitTransform(canvas, points).scale > 0.0
    ensures var d := ToDevice(canvas, FitTransform(canvas, points), points[k].thing);
            && 0.125 * canvas.width <= d.x <= 0.875 * canvas.width
            && 0.125 * canvas.height <= d.y <= 0.875 * canvas.height
  {
    var m := GetMetrics(points);
    assert FitTransform(canvas, points) == Transform(FitTranslation(m), FitScale(canvas, m));
    assert Encloses(points, m.minPoint, m.maxPoint);
    PlacedInCentre(canvas, FitTransform(canvas, points), points[k].thing, m.minPoint, m.maxPoint);
  }

  /** The fitted scale stretches one of the two extents to exactly 75% of the
      canvas along that axis. */
  lemma FitScaleFillsAxis(canvas: Canvas, m: Metrics)
    ensures var s := FitScale(canvas, m);
            s * Max(0.01, m.maxPoint.x - m.minPoint.x) == 0.75 * canvas.width ||
            s * Max(0.01, m.maxPoint.y - m.minPoint.y) == 0.75 * canvas.height
  {
    var s := FitScale(canvas, m);
    var dx := Max(0.01, m.maxPoint.x - m.minPoint.x);
    var dy := Max(0.01, m.maxPoint.y - m.minPoint.y);
    ScaleTimesExtent(s, canvas.width, dx, canvas.height, dy);
  }

  lemma ScaleTimesExtent(s: real, w: real, dx: real, h: real, dy: real)
    requires dx > 0.0 && dy > 0.0
    requires s == 0.75 * w / dx || s == 0.75 * h / dy
    ensures s * dx == 0.75 * w || s * dy == 0.75 * h
  {
  }

  lemma PlacedInCentre(canvas: Canvas, t: Transform, p: Vec, lo: Vec, hi: Vec)
    requires canvas.width > 0.0 && canvas.height > 0.0 && t.scale > 0.0
    requires lo.x <= p.x <= hi.x && lo.y <= p.y <= hi.y
    requires t.translation == Vec(-(0.5 * (hi.x + lo.x)), -(0.5 * (hi.y + lo.y)))
    requires t.scale <= 0.75 * canvas.width / Max(0.01, hi.x - lo.x)
    requires t.scale <= 0.75 * canvas.height / Max(0.01, hi.y - lo.y)
    ensures var d := ToDevice(canvas, t, p);
            && 0.125 * canvas.width <= d.x <= 0.875 * canvas.width
            && 0.125 * canvas.height <= d.y <= 0.875 * canvas.height
  {
    AxisPlacement(lo.x, hi.x, p.x, canvas.width, t.scale, t.translation.x);
    AxisPlacement(lo.y, hi.y, p.y, canvas.height, t.scale, t.translation.y);
  }

  /** One axis of the fitted transform, in both directions of the y flip. */
  lemma AxisPlacement(lo: real, hi: real, v: real, size: real, s: real, tr: real)
    requires lo <= v <= hi && size > 0.0 && s > 0.0 && tr == -(0.5 * (hi + lo))
    requires s <= 0.75 * size / Max(0.01, hi - lo)
    ensures 0.125 * size <= size / 2.0 + s * (v + tr) <= 0.875 * size
    ensures 0.125 * size <= size / 2.0 - s * (v + tr) <= 0.875 * size
  {
    assert v + tr == v - 0.5 * (hi + lo);
    AxisFit(lo, hi, v, size, s);
  }

  /** One axis of the fit: a coordinate in `[lo, hi]`, measured from the
      midpoint and scaled by at most `0.75 * size / max(0.01, hi - lo)`,
      stays within `0.375 * size` of the centre. */
  lemma AxisFit(lo: real, hi: real, v: real, size: real, s: real)
    requires lo <= v <= hi && size > 0.0 && s > 0.0
    requires s <= 0.75 * size / Max(0.01, hi - lo)
    ensures -0.375 * size <= s * (v - 0.5 * (hi + lo)) <= 0.375 * size
  {
    var d := Max(0.01, hi - lo);
    var e := v - 0.5 * (hi + lo);
    var a := if e >= 0.0 then e else -e;
    assert a <= d / 2.0;
    ScaleLessEq(0.0, a, s);
    ScaleLessEq(a, d / 2.0, s);
    ScaleLessEq(s, 0.75 * size / d, d / 2.0);
    assert (0.75 * size / d) * (d / 2.0) == 0.375 * size;
    assert s * a <= s * (d / 2.0);
    assert s * (d / 2.0) <= (0.75 * size / d) * (d / 2.0);
    calc {
      s * a;
    <=
      s * (d / 2.0);
    <=
      (0.75 * size / d) * (d / 2.0);
    ==
      0.375 * size;
    }
    assert s * a >= 0.0;
    if e < 0.0 {
      assert s * e == -(s * a);
      assert s * e <= 0.0;
    } else {
      assert s * e == s * a;
    }
  }

  lemma ScaleLessEq(a: real, b: real, f: real)
    requires a <= b && f >= 0.0
    ensures f * a <= f * b && a * f <= b * f
  {
    assert f * b - f * a == f * (b - a);
  }
}
