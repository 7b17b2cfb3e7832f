/** Bar geometry shared by the colours and bars modes (`fillColors`,
    `fillReals`) and the bucket hit-test of `getItemNearCanvasPoint`. */
module BarLayout {
  import opened Prelude
  import opened Extraction

  /** Colour swatches drop their padding above `width/4` items, numeric bars
      above `width/2`. */
  datatype BarKind = ColorBars | RealBars

  function Crowding(kind: BarKind): real
  {
    match kind
    case ColorBars => 4.0
    case RealBars => 2.0
  }

  /** `Math.floor(width / stream.length)`: the horizontal pitch of one bucket. */
  function Pitch(n: nat, width: real): int
    requires n > 0
  {
    (width / n as real).Floor
  }

  /** The gap between bars: none once bars would otherwise get too thin. */
  function Padding(kind: BarKind, n: nat, width: real): (p: int)
    ensures p == 0 || p == 1
    ensures p == 0 <==> n as real * Crowding(kind) > width
  {
    if n as real > width / Crowding(kind) then 0 else 1
  }

  /** `barWidth`: the pitch less the padding, never negative on a canvas of
      non-negative width. When padding is kept a bar is at least one pixel
      wide (bars) or three (colours). */
  function BarWidth(kind: BarKind, n: nat, width: real): (w: int)
    requires n > 0 && width >= 0.0
    ensures w >= 0
    ensures w + Padding(kind, n, width) == Pitch(n, width)
    ensures Padding(kind, n, width) == 1 ==> w >= Crowding(kind).Floor - 1
  {
    var p := Padding(kind, n, width);
    assert p == 1 ==> Pitch(n, width) >= Crowding(kind).Floor by {
      if p == 1 {
        CrowdingPitch(kind, n, width);
      }
    }
    assert width / n as real >= 0.0;
    Pitch(n, width) - p
  }

  lemma CrowdingPitch(kind: BarKind, n: nat, width: real)
    requires n > 0 && n as real <= width / Crowding(kind)
    ensures Pitch(n, width) >= Crowding(kind).Floor
  {
    var c := Crowding(kind);
    assert n as real * c <= width;
    assert width / n as real >= c;
  }

  /** The x-origin of bar `i`: `i * (barWidth + padding)`, which is `i`
      buckets of the hit-test's pitch. */
  function BarX(kind: BarKind, n: nat, width: real, i: int): (x: int)
    requires n > 0 && width >= 0.0
    ensures x == i * Pitch(n, width)
    ensures 0 <= i ==> 0 <= x
  {
    i * (BarWidth(kind, n, width) + Padding(kind, n, width))
  }

  /** The bar index of a thing: its item's stream position, or 0 when the item
      is not in the stream. */
  function BarIndex(stream: seq<Item>, item: Item): (i: int)
    ensures 0 <= i && (|stream| > 0 ==> i < |stream|)
    ensures item in stream ==> stream[i] == item
    ensures item !in stream ==> i == 0
  {
    var k := IndexOf(stream, item);
    if k < 0 then 0 else k
  }

  lemma PitchTimesCount(n: nat, width: real)
    requires n > 0 && width >= 0.0
    ensures n * Pitch(n, width) <= width.Floor
  {
    var q := width / n as real;
    assert (Pitch(n, width) as real) <= q;
    assert (n * Pitch(n, width)) as real == n as real * Pitch(n, width) as real;
    assert n as real * Pitch(n, width) as real <= n as real * q;
  }

  /** Bars never overlap, start at or right of 0 and end within the canvas. */
  lemma BarsInsideCanvas(kind: BarKind, n: nat, width: real, i: int)
    requires n > 0 && width >= 0.0 && 0 <= i < n
    ensures 0 <= BarX(kind, n, width, i)
    ensures BarX(kind, n, width, i) + BarWidth(kind, n, width) <= BarX(kind, n, width, i + 1)
    ensures (BarX(kind, n, width, i) + BarWidth(kind, n, width)) as real <= width
  {
    var w := BarWidth(kind, n, width);
    var f := Pitch(n, width);
    PitchTimesCount(n, width);
    MulMono(0, i, f);
    MulMono(i + 1, n, f);
    assert (i + 1) * f == i * f + f;
  }

  lemma MulMono(a: int, b: int, f: int)
    requires a <= b && f >= 0
    ensures a * f <= b * f
  {
    assert b * f - a * f == (b - a) * f;
  }

  /** Four hundred swatches on an 800-pixel canvas: no padding, two pixels each. */
  lemma CrowdedColorsExample()
    ensures Padding(ColorBars, 400, 800.0) == 0
    ensures BarWidth(ColorBars, 400, 800.0) == 2
  {
    assert 800.0 / 400 as real == 2.0;
  }

  /** The bucket under device x: `floor(x / pitch)` limited to `[0, n-1]`. */
  function Bucket(n: nat, width: real, x: real): (i: int)
    requires n > 0 && Pitch(n, width) != 0
    ensures 0 <= i < n
  {
    Limit((x / Pitch(n, width) as real).Floor, 0, n - 1)
  }

  /** The bucket lookup of `getItemNearCanvasPoint`: null for an empty
      stream, otherwise the item of the bucket under x. With more items
      than pixels the pitch is 0 and the division gives an infinity of the
      sign of x, which the limit sends to the last or first item, or, for
      x == 0, NaN, which indexes no item. */
  function BucketItem(stream: seq<Item>, width: real, x: real): (r: Option<Item>)
    ensures r.None? <==> |stream| == 0 || (Pitch(|stream|, width) == 0 && x == 0.0)
    ensures r.Some? ==> r.value in stream
    ensures |stream| > 0 && Pitch(|stream|, width) != 0 ==> r == Some(stream[Bucket(|stream|, width, x)])
    ensures |stream| > 0 && Pitch(|stream|, width) == 0 && x > 0.0 ==> r == Some(stream[|stream| - 1])
    ensures |stream| > 0 && Pitch(|stream|, width) == 0 && x < 0.0 ==> r == Some(stream[0])
  {
    if |stream| == 0 then None
    else if Pitch(|stream|, width) != 0 then Some(stream[Bucket(|stream|, width, x)])
    else if x > 0.0 then Some(stream[|stream| - 1])
    else if x < 0.0 then Some(stream[0])
    else None
  }

  /** More items than pixels: the pitch is 0. */
  lemma CrowdedPitchIsZero(n: nat, width: real)
    requires n > 0 && 0.0 <= width < n as real
    ensures Pitch(n, width) == 0
  {
    assert width / n as real < 1.0;
  }

  /** The bucket lookup inverts the layout: a device x over bar `i` or the gap
      that follows it hits bar `i`. */
  lemma BucketFindsBar(kind: BarKind, n: nat, width: real, i: int, x: real)
    requires n > 0 && width >= 0.0 && Pitch(n, width) > 0 && 0 <= i < n
    requires BarX(kind, n, width, i) as real <= x < BarX(kind, n, width, i + 1) as real
    ensures Bucket(n, width, x) == i
  {
    FloorInBucket(x, Pitch(n, width), i);
  }

  lemma FloorInBucket(x: real, f: int, i: int)
    requires f > 0 && (i * f) as real <= x < ((i + 1) * f) as real
    ensures (x / f as real).Floor == i
  {
    assert (i * f) as real == (i as real) * (f as real);
    assert ((i + 1) * f) as real == (i as real + 1.0) * (f as real);
    DivideWithin(x, f as real, i);
  }

  lemma DivideWithin(x: real, f: real, i: int)
    requires f > 0.0 && (i as real) * f <= x < (i as real + 1.0) * f
    ensures (x / f).Floor == i
  {
    var q := x / f;
    QuotientTimes(x, f);
    if q < i as real {
      MulLess(q, i as real, f);
      assert false;
    }
    if q >= i as real + 1.0 {
      MulLessEq(i as real + 1.0, q, f);
      assert false;
    }
  }

  lemma QuotientTimes(x: real, f: real)
    requires f != 0.0
    ensures x / f * f == x
  {
  }

  lemma MulLessEq(a: real, b: real, f: real)
    requires a <= b && f >= 0.0
    ensures a * f <= b * f
  {
    assert b * f - a * f == (b - a) * f;
  }

  /** Device x left of the canvas hits the first bar and right of the last
      bucket hits the last. */
  lemma BucketClampsOutside(n: nat, width: real, x: real)
    requires n > 0 && Pitch(n, width) > 0
    ensures x < 0.0 ==> Bucket(n, width, x) == 0
    ensures x >= (n * Pitch(n, width)) as real ==> Bucket(n, width, x) == n - 1
  {
    var f := Pitch(n, width) as real;
    var q := x / f;
    QuotientTimes(x, f);
    if x < 0.0 && q >= 0.0 {
      MulLessEq(0.0, q, f);
      assert false;
    }
    assert (n * Pitch(n, width)) as real == n as real * f;
    if x >= (n * Pitch(n, width)) as real && q < n as real {
      MulLess(q, n as real, f);
      assert false;
    }
  }
}
