/** Stream items, the things extracted from them (`extract`,
    `getExtractionsFromItems`) and the choice of visualization (`setStream`). */
module Extraction {
  import opened Prelude
  import opened Geometry

  /** The payload of a stream item. Its structure belongs to the pipeline and
      is only inspected through an `Extractor`. */
  type Payload(==)

  /** A stream item. Items are compared by identity; `id` is that identity. */
  datatype Item = Item(id: nat, payload: Payload)

  /** A quadratic curve `{A, B, C}`. */
  datatype Curve = Curve(a: Vec, b: Vec, c: Vec)

  /** A colour `{r, g, b, a}`. */
  datatype Rgba = Rgba(r: real, g: real, b: real, alpha: real)

  /** A property bag; each field is present or absent. */
  datatype Props = Props(area: Option<real>, height: Option<real>, coverage: Option<real>, length: Option<real>)

  /** An extracted thing together with the item it came from (`thing.item`). */
  datatype Tagged<S> = Tagged(thing: S, item: Item)

  /** `NLObjectExtract` applied with each of the five fixed templates and
      match modes: `{x,y}` all, `{A,B,C}` all, `{r,g,b,a}` all,
      `{area,height,coverage,length}` any, and the scalar template `1`. */
  datatype Extractor = Extractor(
    points: Payload -> seq<Vec>,
    beziers: Payload -> seq<Curve>,
    colors: Payload -> seq<Rgba>,
    properties: Payload -> seq<Props>,
    scalars: Payload -> seq<real>)

  /** The five lists `getExtractionsFromItems` returns. */
  datatype Extracted = Extracted(
    points: seq<Tagged<Vec>>,
    beziers: seq<Tagged<Curve>>,
    colors: seq<Tagged<Rgba>>,
    properties: seq<Tagged<Props>>,
    reals: seq<Tagged<real>>)

  /** The value of `this.visualization`: "plot", "colors", "bars" or "". */
  datatype Visualization = Plot | Colors | Bars | Blank

  function Tag<S>(shapes: seq<S>, item: Item): (r: seq<Tagged<S>>)
    ensures |r| == |shapes|
    ensures forall k :: 0 <= k < |r| ==> r[k].thing == shapes[k] && r[k].item == item
  {
    seq(|shapes|, k requires 0 <= k < |shapes| => Tagged(shapes[k], item))
  }

  /** `extract`: every item's things, tagged with that item, in stream order. */
  function Extract<S>(items: seq<Item>, f: Payload -> seq<S>): (things: seq<Tagged<S>>)
    ensures forall k :: 0 <= k < |things| ==> things[k].item in items
  {
    if |items| == 0 then []
    else Tag(f(items[0].payload), items[0]) + Extract(items[1..], f)
  }

  /** Extraction distributes over concatenation: the things of an earlier item
      all come before the things of a later one. */
  lemma {:induction false} ExtractAppend<S>(a: seq<Item>, b: seq<Item>, f: Payload -> seq<S>)
    ensures Extract(a + b, f) == Extract(a, f) + Extract(b, f)
    decreases |a|
  {
    if |a| == 0 {
      assert a + b == b;
    } else {
      assert (a + b)[1..] == a[1..] + b;
      ExtractAppend(a[1..], b, f);
    }
  }

  /** A thing is extracted exactly when some item of the list yields it. */
  lemma {:induction false} ExtractContents<S>(items: seq<Item>, f: Payload -> seq<S>, t: Tagged<S>)
    ensures t in Extract(items, f) <==>
            exists i :: 0 <= i < |items| && t.item == items[i] && t.thing in f(items[i].payload)
    decreases |items|
  {
    if |items| > 0 {
      var head := Tag(f(items[0].payload), items[0]);
      ExtractContents(items[1..], f, t);
      if t in head {
        var k :| 0 <= k < |head| && head[k] == t;
        assert t.thing == f(items[0].payload)[k];
      }
      if t.item == items[0] && t.thing in f(items[0].payload) {
        var k :| 0 <= k < |f(items[0].payload)| && f(items[0].payload)[k] == t.thing;
        assert head[k] == t;
      }
      if exists i :: 0 <= i < |items| && t.item == items[i] && t.thing in f(items[i].payload) {
        var i :| 0 <= i < |items| && t.item == items[i] && t.thing in f(items[i].payload);
        if i > 0 {
          assert items[1..][i - 1] == items[i];
        }
      }
    }
  }

  /** Some item yields at least one thing. */
  predicate Yields<S>(items: seq<Item>, f: Payload -> seq<S>)
  {
    exists i :: 0 <= i < |items| && |f(items[i].payload)| > 0
  }

  /** The extraction is empty exactly when no item yields anything. */
  lemma {:induction false} ExtractNonEmpty<S>(items: seq<Item>, f: Payload -> seq<S>)
    ensures |Extract(items, f)| > 0 <==> Yields(items, f)
    decreases |items|
  {
    if |items| > 0 {
      ExtractNonEmpty(items[1..], f);
      if Yields(items[1..], f) {
        var i :| 0 <= i < |items[1..]| && |f(items[1..][i].payload)| > 0;
        assert items[i + 1] == items[1..][i];
      }
      if Yields(items, f) && |f(items[0].payload)| == 0 {
        var i :| 0 <= i < |items| && |f(items[i].payload)| > 0;
        assert items[1..][i - 1] == items[i];
      }
    }
  }

  /** `getExtractionsFromItems`. Scalars are a fallback: they are extracted
      only when the list yields no point and no colour. */
  function ExtractionsFromItems(e: Extractor, items: seq<Item>): (x: Extracted)
    ensures |x.reals| > 0 ==> |x.points| == 0 && |x.colors| == 0
    ensures |x.points| == 0 && |x.colors| == 0 ==> x.reals == Extract(items, e.scalars)
  {
    var points := Extract(items, e.points);
    var colors := Extract(items, e.colors);
    Extracted(
      points,
      Extract(items, e.beziers),
      colors,
      Extract(items, e.properties),
      if |points| == 0 && |colors| == 0 then Extract(items, e.scalars) else [])
  }

  /** The priority rule of `setStream`. */
  function VisualizationOf(x: Extracted): Visualization
  {
    if |x.points| > 0 then Plot
    else if |x.colors| > 0 then Colors
    else if |x.reals| > 0 then Bars
    else Blank
  }

  /** The visualization of a stream, stated item by item: any point gives a
      plot; otherwise any colour gives colours; otherwise any scalar gives
      bars; otherwise nothing is drawn. */
  lemma ModePriority(e: Extractor, items: seq<Item>)
    ensures VisualizationOf(ExtractionsFromItems(e, items)) == Plot <==> Yields(items, e.points)
    ensures VisualizationOf(ExtractionsFromItems(e, items)) == Colors <==>
            !Yields(items, e.points) && Yields(items, e.colors)
    ensures VisualizationOf(ExtractionsFromItems(e, items)) == Bars <==>
            !Yields(items, e.points) && !Yields(items, e.colors) && Yields(items, e.scalars)
    ensures VisualizationOf(ExtractionsFromItems(e, items)) == Blank <==>
            !Yields(items, e.points) && !Yields(items, e.colors) && !Yields(items, e.scalars)
  {
    ExtractNonEmpty(items, e.points);
    ExtractNonEmpty(items, e.colors);
    ExtractNonEmpty(items, e.scalars);
  }
}
