/** The size of a point marker in `fillPoints`: from the point's property
    bag when it has an area (or coverage), otherwise a constant. */
module Markers {
  import opened Prelude
  import opened Extraction
  import opened Highlight

  /** `property && (property.area || property.coverage)`: the area, unless it
      is absent or 0, in which case the coverage (itself possibly absent). */
  function MarkerArea(property: Option<Props>): (r: Option<real>)
    ensures property.None? ==> r.None?
    ensures r.Some? ==> r == property.value.area || r == property.value.coverage
    ensures property.Some? && property.value.area.Some? && property.value.area.value != 0.0 ==> r == property.value.area
    ensures property.Some? && !(property.value.area.Some? && property.value.area.value != 0.0) ==> r == property.value.coverage
  {
    match property
    case None => None
    case Some(p) => if p.area.Some? && p.area.value != 0.0 then p.area else p.coverage
  }

  /** An area of exactly 0 counts as no area: without a coverage the point
      gets the constant-size marker, not the zero-area ring. */
  lemma ZeroAreaIsAbsent(p: Props)
    requires p.area == Some(0.0)
    ensures MarkerArea(Some(p)) == p.coverage
  {
  }

  /** `properties[i]`: the property bag at the point's own index, undefined
      past the end of the list. */
  function PropertyAt(properties: seq<Tagged<Props>>, i: nat): (r: Option<Props>)
    ensures r.Some? <==> i < |properties|
  {
    if i < |properties| then Some(properties[i].thing) else None
  }

  /** A filled disc or, for a zero area, a stroked ring. */
  datatype Marker = Filled(radius: real) | Ring(radius: real)

  /** The smallest radius an area marker can have: 0.11 model units, or
      3 pixels when that is smaller. */
  function SmallestRadius(scale: real): (r: real)
    requires scale > 0.0
    ensures 0.0 < r <= 0.11
    ensures r * scale <= 3.0
  {
    assert 3.0 / scale > 0.0;
    assert 3.0 / scale * scale == 3.0;
    if 0.11 <= 3.0 / scale then
      assert 0.11 * scale <= 3.0 / scale * scale;
      0.11
    else 3.0 / scale
  }

  /** The marker for a point with an area: the squared, clamped area blends
      the smallest radius into 0.4, and a zero area gives a ring stroked
      half a pixel inside the smallest radius. The source tests the square
      for zero, which for a fraction is the same as testing the fraction. */
  function AreaMarker(a: real, scale: real): (m: Marker)
    requires scale > 0.0
    ensures m.radius >= 0.0
    ensures m.Ring? <==> a <= 0.0
    ensures a > 0.0 ==> SmallestRadius(scale) <= m.radius <= 0.4
    ensures a >= 1.0 ==> m == Filled(0.4)
  {
    var clamped := LimitReal(a, 0.0, 1.0);
    var s := Square(clamped);
    var smallest := SmallestRadius(scale);
    var radius := smallest * (1.0 - s) + 0.4 * s;
    BlendBounds(smallest, s, radius);
    if clamped == 0.0 then Ring(Max(0.0, radius - (1.0 / scale) / 2.0)) else Filled(radius)
  }

  /** The square of a fraction is a fraction. */
  function Square(c: real): (r: real)
    requires 0.0 <= c <= 1.0
    ensures 0.0 <= r <= 1.0
    ensures c == 1.0 ==> r == 1.0
  {
    ProductNonNegative(c, c);
    ProductNonNegative(c, 1.0 - c);
    c * c
  }

  lemma BlendBounds(smallest: real, s: real, radius: real)
    requires 0.0 <= s <= 1.0 && 0.0 < smallest <= 0.11
    requires radius == smallest * (1.0 - s) + 0.4 * s
    ensures s == 1.0 ==> radius == 0.4
    ensures smallest <= radius <= 0.4
  {
    ProductNonNegative(s, 0.4 - smallest);
    ProductNonNegative(1.0 - s, 0.4 - smallest);
    assert radius - smallest == s * (0.4 - smallest);
    assert 0.4 - radius == (1.0 - s) * (0.4 - smallest);
  }

  /** The marker `fillPoints` draws for one point: the area marker when the
      point has an area, otherwise 2 pixels (3 when highlighted), doubled in
      high contrast. */
  function PointMarker(area: Option<real>, pass: Pass, scale: real, highContrast: bool): (m: Marker)
    requires scale > 0.0
    ensures area.Some? ==> m == AreaMarker(area.value, scale)
    ensures area.None? ==> m.Filled? && m.radius > 0.0
    ensures area.None? ==> m.radius * scale == (if pass == Unhighlighted then 2.0 else 3.0) * (if highContrast then 2.0 else 1.0)
  {
    match area
    case Some(a) => AreaMarker(a, scale)
    case None =>
      var pixels := (if pass == Unhighlighted then 2.0 else 3.0) * (if highContrast then 2.0 else 1.0);
      assert pixels / scale * scale == pixels;
      Filled(pixels / scale)
  }

  /** Without an area, a highlighted marker is half as large again as an
      unhighlighted one. */
  lemma HighlightEnlarges(pass: Pass, scale: real, highContrast: bool)
    requires scale > 0.0 && pass != Unhighlighted
    ensures PointMarker(None, pass, scale, highContrast).radius ==
            1.5 * PointMarker(None, Unhighlighted, scale, highContrast).radius
  {
  }
}
