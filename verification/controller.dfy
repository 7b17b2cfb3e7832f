/** `NVInteractiveCanvasView` as a state machine: the view's fields form one
    immutable record, and each mouse handler, the reset timer and the
    pipeline's `setStream` call are functions from a record to the next. */
module Controller {
  import opened Prelude
  import opened Geometry
  import opened Extraction
  import opened Plot
  import opened RealBounds
  import opened BarLayout
  import opened StreamRewrite
  import opened Tween

  /** The hover radius, in pixels, of the nearest-point search. */
  const HoverRadius: real := 20.0

  /** The code the view calls but does not define: the extraction templates,
      the pipeline run that turns a new initial input into this stage's
      stream, `NLObjectMovePoint`, `NLObjectSubdivide`, `NLReal` and
      `NLRealUnbox`, and the zoom factor `Math.pow(1.01, d)`. */
  datatype Host = Host(
    extractor: Extractor,
    run: seq<Item> -> seq<Item>,
    movePoint: MovePoint,
    subdivide: Payload -> seq<Payload>,
    box: real -> Payload,
    unbox: Payload -> real,
    zoom: real -> real)

  /** `Math.pow(1.01, d)` is positive for every `d`. */
  ghost predicate HostValid(h: Host)
  {
    forall d: real :: h.zoom(d) > 0.0
  }

  /** One call of `programView.setHighlightedWithStreamItem(highlighted, item)`. */
  datatype Notice = Notice(highlighted: bool, item: Item)

  /** The fields of an interactive canvas view. */
  datatype View = View(
    canvas: Canvas,
    stream: seq<Item>,
    extracted: Extracted,
    visualization: Visualization,
    selectedItems: seq<Item>,
    hotItem: Option<Item>,
    transform: Transform,
    bounds: Bounds,
    editable: bool,
    editing: bool,
    hoverItem: Option<Item>,
    hoverPoint: Option<Tagged<Vec>>,
    lastMouse: Vec,
    reset: Option<Reset>,
    notices: seq<Notice>,
    initialInput: seq<Item>,
    nextId: nat)

  /** A canvas wide enough to draw on and tall enough for the bar margins. */
  predicate GoodCanvas(c: Canvas)
  {
    c.width > 0.0 && TallEnough(c.height)
  }

  /** The visualization agrees with what is extracted. */
  predicate Coherent(v: View)
  {
    v.visualization == VisualizationOf(v.extracted)
  }

  function ItemSet(o: Option<Item>): set<Item>
  {
    if o.Some? then {o.value} else {}
  }

  function ItemOf(p: Option<Tagged<Vec>>): Option<Item>
  {
    if p.Some? then Some(p.value.item) else None
  }

  //--------------------------------------------------------------------------
  //  Highlight notices

  /** The items the notice log leaves highlighted, replaying each notice in
      order: entering adds the item, exiting removes it. Every highlighted
      item was entered at some point. */
  function Highlighted(log: seq<Notice>): (h: set<Item>)
    ensures forall i :: i in h ==> Notice(true, i) in log
    decreases |log|
  {
    if |log| == 0 then {}
    else
      var n := |log| - 1;
      var before := Highlighted(log[..n]);
      assert forall k :: 0 <= k < n ==> log[..n][k] == log[k];
      if log[n].highlighted then before + {log[n].item} else before - {log[n].item}
  }

  lemma HighlightedSnoc(log: seq<Notice>, n: Notice)
    ensures Highlighted(log + [n]) ==
            if n.highlighted then Highlighted(log) + {n.item} else Highlighted(log) - {n.item}
  {
    assert (log + [n])[..|log|] == log;
  }

  /** The exit notice for the previous hover item, if there is one. */
  function ExitNotices(previous: Option<Item>): seq<Notice>
  {
    if previous.Some? then [Notice(false, previous.value)] else []
  }

  /** The enter notice for the new hover item, if there is one. */
  function EnterNotices(item: Option<Item>): seq<Notice>
  {
    if item.Some? then [Notice(true, item.value)] else []
  }

  /** Exiting the previous item and then entering the new one takes the previous item
      out of the highlighted set and puts the new one in. */
  lemma ExitThenEnter(log: seq<Notice>, previous: Option<Item>, item: Option<Item>)
    ensures Highlighted(log + ExitNotices(previous) + EnterNotices(item)) == Highlighted(log) - ItemSet(previous) + ItemSet(item)
  {
    if previous.Some? {
      HighlightedSnoc(log, Notice(false, previous.value));
    } else {
      assert log + ExitNotices(previous) == log;
    }
    if item.Some? {
      HighlightedSnoc(log + ExitNotices(previous), Notice(true, item.value));
    } else {
      assert log + ExitNotices(previous) + EnterNotices(item) == log + ExitNotices(previous);
    }
  }

  //--------------------------------------------------------------------------
  //  Hover

  /** `setHoverItem`: notify the pipeline that the previous item is no longer
      highlighted, then that the new one is; clearing the item clears the
      hover point too. Nothing else changes. */
  function SetHoverItem(v: View, item: Option<Item>): (r: View)
    ensures r.hoverItem == item
    ensures item.None? ==> r.hoverPoint.None?
    ensures item.Some? ==> r.hoverPoint == v.hoverPoint
    ensures r == v.(hoverItem := r.hoverItem, hoverPoint := r.hoverPoint, notices := r.notices)
    ensures r.notices == v.notices + ExitNotices(v.hoverItem) + EnterNotices(item)
    ensures Highlighted(r.notices) == Highlighted(v.notices) - ItemSet(v.hoverItem) + ItemSet(item)
  {
    ExitThenEnter(v.notices, v.hoverItem, item);
    v.(hoverItem := item,
       hoverPoint := if item.None? then None else v.hoverPoint,
       notices := v.notices + ExitNotices(v.hoverItem) + EnterNotices(item))
  }

  /** `setHoverPoint`: the hover item becomes the point's item. */
  function SetHoverPoint(v: View, p: Option<Tagged<Vec>>): (r: View)
    ensures r.hoverPoint == p && r.hoverItem == ItemOf(p)
    ensures r == v.(hoverItem := r.hoverItem, hoverPoint := r.hoverPoint, notices := r.notices)
    ensures Highlighted(r.notices) == Highlighted(v.notices) - ItemSet(v.hoverItem) + ItemSet(ItemOf(p))
  {
    SetHoverItem(v.(hoverPoint := p), ItemOf(p))
  }

  /** `getItemNearCanvasPoint`: null for an empty stream; in plot mode the
      item of the point near the cursor; otherwise the item of the bucket
      under the cursor, which on a canvas narrower than the stream is the
      first or last item, or none exactly at x = 0. */
  function ItemNearCanvasPoint(v: View, c: Vec): (r: Option<Item>)
    requires v.visualization == Plot ==> v.transform.scale != 0.0
    ensures |v.stream| == 0 ==> r.None?
    ensures v.visualization != Plot ==> r == BucketItem(v.stream, v.canvas.width, c.x)
    ensures v.visualization == Plot && |v.stream| > 0 ==>
              r == ItemOf(PointNearCanvasPoint(v.canvas, v.transform, v.extracted.points, c, HoverRadius))
    ensures v.visualization != Plot && r.Some? ==> r.value in v.stream
    ensures v.visualization != Plot && |v.stream| > 0 && (Pitch(|v.stream|, v.canvas.width) != 0 || c.x != 0.0) ==>
              r.Some?
    ensures v.visualization == Plot && r.Some? ==>
              exists k :: 0 <= k < |v.extracted.points| && v.extracted.points[k].item == r.value
  {
    if |v.stream| == 0 then None
    else if v.visualization == Plot then
      var p := PointNearCanvasPoint(v.canvas, v.transform, v.extracted.points, c, HoverRadius);
      ItemOf(p)
    else BucketItem(v.stream, v.canvas.width, c.x)
  }

  //--------------------------------------------------------------------------
  //  Streams

  /** `setStream`: clear the hover (notifying the pipeline), the selection and
      the hot item, re-extract, choose the visualization, and, unless a drag
      edit is under way, fit the transform (plot) or the bounds (bars) to
      the new content. */
  function SetStream(v: View, e: Extractor, stream: seq<Item>): (r: View)
    requires GoodCanvas(v.canvas)
    ensures r.stream == stream && r.extracted == ExtractionsFromItems(e, stream) && Coherent(r)
    ensures r.selectedItems == [] && r.hotItem.None? && r.hoverItem.None? && r.hoverPoint.None?
    ensures Highlighted(r.notices) == Highlighted(v.notices) - ItemSet(v.hoverItem)
    ensures v.editing ==> r.transform == v.transform && r.bounds == v.bounds
    ensures !v.editing && r.visualization == Plot ==> r.transform == FitTransform(v.canvas, r.extracted.points)
    ensures !v.editing && r.visualization == Bars ==>
              r.bounds == BoundsOfReals(r.extracted.reals, v.canvas.height)
    ensures r.visualization != Plot ==> r.transform == v.transform
    ensures r.visualization != Bars ==> r.bounds == v.bounds
    ensures r.canvas == v.canvas && r.editable == v.editable && r.editing == v.editing && r.lastMouse == v.lastMouse
    ensures r.reset == v.reset && r.initialInput == v.initialInput && r.nextId == v.nextId
  {
    var x := ExtractionsFromItems(e, stream);
    var vis := VisualizationOf(x);
    var cleared := SetHoverItem(v, None);
    var u := cleared.(stream := stream, selectedItems := [], hotItem := None, extracted := x, visualization := vis);
    if v.editing then u
    else if vis == Plot then u.(transform := FitTransform(v.canvas, x.points))
    else if vis == Bars then u.(bounds := BoundsOfReals(x.reals, v.canvas.height))
    else u
  }

  /** `programView.setInitialInputStream`: wrap the new payloads as fresh
      items, make them the initial input, run the pipeline and hand this
      stage's output to `setStream`. The counter of identities then moves
      past every item the view holds. */
  function Commit(v: View, h: Host, objs: seq<Payload>): (r: View)
    requires GoodCanvas(v.canvas)
    ensures Payloads(r.initialInput) == objs
    ensures forall i, j :: 0 <= i < j < |r.initialInput| ==> r.initialInput[i] != r.initialInput[j]
    ensures IdsBelow(v.initialInput, v.nextId) && IdsBelow(v.stream, v.nextId) ==>
              forall i :: 0 <= i < |r.initialInput| ==>
                r.initialInput[i] !in v.initialInput && r.initialInput[i] !in v.stream
    ensures v.nextId + |objs| <= r.nextId && IdsBelow(r.initialInput, r.nextId) && IdsBelow(r.stream, r.nextId)
    ensures r == SetStream(v.(initialInput := r.initialInput, nextId := r.nextId), h.extractor, h.run(r.initialInput))
    ensures Valid(v, h) ==> Valid(r, h)
  {
    var items := Restream(objs, v.nextId);
    var stream := h.run(items);
    var u := v.(initialInput := items, nextId := FreshAbove(stream, v.nextId + |objs|));
    assert Valid(v, h) ==> Valid(SetStream(u, h.extractor, stream), h) by {
      if Valid(v, h) {
        IdsBelowMono(items, v.nextId + |objs|, u.nextId);
        IdsBelowMono(v.stream, v.nextId, u.nextId);
        assert Valid(u, h);
        SetStreamValid(u, h, stream);
      }
    }
    SetStream(u, h.extractor, stream)
  }

  /** The pipeline's `setStream` call together with the initial input it ran:
      the view keeps that input for later edits and moves its counter of
      identities past every item it now holds. */
  function ReceiveStream(v: View, e: Extractor, stream: seq<Item>, input: seq<Item>): (r: View)
    requires GoodCanvas(v.canvas)
    ensures r.initialInput == input && r.stream == stream
    ensures v.nextId <= r.nextId && IdsBelow(input, r.nextId) && IdsBelow(stream, r.nextId)
    ensures r == SetStream(v.(initialInput := input, nextId := r.nextId), e, stream)
  {
    SetStream(v.(initialInput := input, nextId := FreshAbove(stream, FreshAbove(input, v.nextId))), e, stream)
  }

  //--------------------------------------------------------------------------
  //  Reset animations

  /** `animateResetView`: start a tween of the transform to the fit of the
      points (plot), or of the bounds to those of the values (bars),
      replacing any running one. Other visualizations start nothing and
      leave a running tween alone. */
  function AnimateResetView(v: View): (r: View)
    requires GoodCanvas(v.canvas) && Coherent(v)
    ensures v.visualization == Plot ==>
              r.reset == Some(TransformReset(TransformTween(FitTransform(v.canvas, v.extracted.points), 0)))
    ensures v.visualization == Bars ==>
              r.reset == Some(BoundsReset(BoundsTween(BoundsOfReals(v.extracted.reals, v.canvas.height), 0)))
    ensures v.visualization != Plot && v.visualization != Bars ==> r.reset == v.reset
    ensures r == v.(reset := r.reset)
  {
    match v.visualization
    case Plot => v.(reset := Some(TransformReset(TransformTween(FitTransform(v.canvas, v.extracted.points), 0))))
    case Bars => v.(reset := Some(BoundsReset(BoundsTween(BoundsOfReals(v.extracted.reals, v.canvas.height), 0))))
    case _ => v
  }

  /** One firing of the reset timer. */
  function Tick(v: View): (r: View)
    requires GoodCanvas(v.canvas)
    ensures v.reset.None? ==> r == v
    ensures r == v.(transform := r.transform, bounds := r.bounds, reset := r.reset)
    ensures v.reset.Some? && v.reset.value.TransformReset? ==>
              (r.transform, r.reset) == (TickTransform(v.transform, v.reset.value.transformTween).0,
                                         if TickTransform(v.transform, v.reset.value.transformTween).1.Some?
                                         then Some(TransformReset(TickTransform(v.transform, v.reset.value.transformTween).1.value))
                                         else None)
    ensures v.reset.Some? && v.reset.value.BoundsReset? ==>
              IsBounds(r.bounds, v.canvas.height) && r.transform == v.transform
  {
    match v.reset
    case None => v
    case Some(TransformReset(tw)) =>
      var (t, next) := TickTransform(v.transform, tw);
      v.(transform := t, reset := if next.Some? then Some(TransformReset(next.value)) else None)
    case Some(BoundsReset(bw)) =>
      var (b, next) := TickBounds(v.bounds, bw, v.canvas.height);
      v.(bounds := b, reset := if next.Some? then Some(BoundsReset(next.value)) else None)
  }

  /** `n` firings of the reset timer with no other event in between. */
  function Ticks(v: View, n: nat): (r: View)
    requires GoodCanvas(v.canvas)
    ensures r.canvas == v.canvas
    decreases n
  {
    if n == 0 then v else Ticks(Tick(v), n - 1)
  }

  //--------------------------------------------------------------------------
  //  Mouse handlers

  /** `mouseDown`: remember the position, cancel a running reset, and start
      editing when the view is editable and something is hovered. */
  function MouseDown(v: View, pos: Vec): (r: View)
    ensures r.reset.None? && r.lastMouse == pos
    ensures r.editing <==> v.editing || (v.editable && v.hoverItem.Some?)
    ensures r == v.(lastMouse := pos, reset := None, editing := r.editing)
  {
    v.(lastMouse := pos, reset := None, editing := v.editing || (v.editable && v.hoverItem.Some?))
  }

  /** The editing part of a plot drag: move the hovered point in the initial
      input by the drag in model units, then hover the point at the same
      index of the new extraction. */
  function PointEdit(v: View, h: Host, dx: real, dy: real): (r: View)
    requires GoodCanvas(v.canvas) && v.transform.scale != 0.0 && v.hoverPoint.Some?
    ensures r.canvas == v.canvas && r.lastMouse == v.lastMouse && r.editing == v.editing && r.editable == v.editable
    ensures Payloads(r.initialInput) ==
              TranslatePointObjects(v.initialInput, v.hoverPoint.value.thing,
                                    dx / v.transform.scale, -dy / v.transform.scale, h.movePoint)
    ensures var k := IndexOf(v.extracted.points, v.hoverPoint.value);
            r.hoverPoint == (if 0 <= k < |r.extracted.points| then Some(r.extracted.points[k]) else None)
    ensures r.hoverPoint.Some? ==> r.hoverPoint.value in r.extracted.points
    ensures Valid(v, h) ==> Valid(r, h)
  {
    var hp := v.hoverPoint.value;
    var pointIndex := IndexOf(v.extracted.points, hp);
    var objs := TranslatePointObjects(v.initialInput, hp.thing, dx / v.transform.scale,
                                      -dy / v.transform.scale, h.movePoint);
    HoverPointAt(Commit(v, h, objs), h, pointIndex)
  }

  /** After an edit, hover the point at position `k` of the new extraction,
      or nothing when there is no such position. */
  function HoverPointAt(v: View, h: Host, k: int): (r: View)
    ensures r.hoverPoint == (if 0 <= k < |v.extracted.points| then Some(v.extracted.points[k]) else None)
    ensures r.hoverItem == ItemOf(r.hoverPoint)
    ensures r == v.(hoverItem := r.hoverItem, hoverPoint := r.hoverPoint, notices := r.notices)
    ensures Valid(v, h) ==> Valid(r, h)
  {
    var next := if 0 <= k < |v.extracted.points| then Some(v.extracted.points[k]) else None;
    assert Valid(v, h) ==> Valid(SetHoverPoint(v, next), h) by {
      if Valid(v, h) {
        HoverPointValid(v, h, next);
      }
    }
    SetHoverPoint(v, next)
  }

  /** The plot-mode part of `mouseDrag`, with the pixel delta `(dx, dy)`:
      while editing, move the hovered point; otherwise zoom (with shift) or
      pan. */
  function PlotDrag(v: View, h: Host, dx: real, dy: real, shift: bool): (r: View)
    requires GoodCanvas(v.canvas) && v.transform.scale != 0.0
    ensures r.canvas == v.canvas && r.lastMouse == v.lastMouse && r.editing == v.editing && r.editable == v.editable
    ensures !v.editing && !shift ==> r == v.(transform := Pan(v.transform, dx, dy))
    ensures !v.editing && shift ==>
              r == v.(transform := Transform(v.transform.translation, v.transform.scale * h.zoom(dx - dy)))
    ensures v.editing && v.hoverPoint.Some? ==> r == PointEdit(v, h, dx, dy)
    ensures v.editing && v.hoverPoint.None? ==> r == v
    ensures Valid(v, h) && HostValid(h) ==> Valid(r, h)
  {
    if v.editing then
      if v.hoverPoint.Some? then PointEdit(v, h, dx, dy) else v
    else if shift then
      var zoomed := v.(transform := Transform(v.transform.translation, v.transform.scale * h.zoom(dx - dy)));
      assert Valid(v, h) && HostValid(h) ==> Valid(zoomed, h) by {
        if Valid(v, h) && HostValid(h) {
          MulPositive(v.transform.scale, h.zoom(dx - dy));
        }
      }
      zoomed
    else v.(transform := Pan(v.transform, dx, dy))
  }

  /** The bars-mode part of `mouseDrag`: while editing a hovered bar, add
      `-dy * deltaPerPixel` to its value and hover the item at the same index
      of the new stream. */
  function BarsDrag(v: View, h: Host, dy: real): (r: View)
    requires GoodCanvas(v.canvas)
    ensures r.canvas == v.canvas && r.lastMouse == v.lastMouse && r.editing == v.editing && r.editable == v.editable
    ensures v.editing && v.hoverItem.Some? ==>
              Payloads(r.initialInput) ==
                AdjustRealObjects(v.stream, v.initialInput, v.hoverItem.value,
                                  -dy * v.bounds.deltaPerPixel, h.box, h.unbox)
    ensures v.editing && v.hoverItem.Some? ==>
              var k := IndexOf(v.stream, v.hoverItem.value);
              r.hoverItem == (if 0 <= k < |r.stream| then Some(r.stream[k]) else None)
    ensures !(v.editing && v.hoverItem.Some?) ==> r == v
    ensures Valid(v, h) ==> Valid(r, h)
  {
    if v.editing && v.hoverItem.Some? then
      var item := v.hoverItem.value;
      var itemIndex := IndexOf(v.stream, item);
      var objs := AdjustRealObjects(v.stream, v.initialInput, item, -dy * v.bounds.deltaPerPixel, h.box, h.unbox);
      HoverItemAt(Commit(v, h, objs), h, itemIndex)
    else v
  }

  /** After an edit, hover the item at position `k` of the new stream, or
      nothing when there is no such position. */
  function HoverItemAt(v: View, h: Host, k: int): (r: View)
    ensures r.hoverItem == (if 0 <= k < |v.stream| then Some(v.stream[k]) else None)
    ensures r == v.(hoverItem := r.hoverItem, hoverPoint := r.hoverPoint, notices := r.notices)
    ensures Valid(v, h) && v.hoverPoint.None? ==> Valid(r, h)
  {
    var next := if 0 <= k < |v.stream| then Some(v.stream[k]) else None;
    assert Valid(v, h) && v.hoverPoint.None? ==> Valid(SetHoverItem(v, next), h) by {
      if Valid(v, h) && v.hoverPoint.None? {
        HoverItemValid(v, h, next);
      }
    }
    SetHoverItem(v, next)
  }

  /** `mouseDrag`: record the position and act on the pixel delta from the
      last one according to the visualization; colours and blank views do
      nothing else. */
  function MouseDrag(v: View, h: Host, pos: Vec, shift: bool): (r: View)
    requires GoodCanvas(v.canvas) && v.transform.scale != 0.0
    ensures r.lastMouse == pos && r.canvas == v.canvas && r.editing == v.editing
    ensures v.visualization == Plot ==>
              r == PlotDrag(v.(lastMouse := pos), h, pos.x - v.lastMouse.x, pos.y - v.lastMouse.y, shift)
    ensures v.visualization == Bars ==> r == BarsDrag(v.(lastMouse := pos), h, pos.y - v.lastMouse.y)
    ensures v.visualization != Plot && v.visualization != Bars ==> r == v.(lastMouse := pos)
  {
    var moved := v.(lastMouse := pos);
    match v.visualization
    case Plot => PlotDrag(moved, h, pos.x - v.lastMouse.x, pos.y - v.lastMouse.y, shift)
    case Bars => BarsDrag(moved, h, pos.y - v.lastMouse.y)
    case _ => moved
  }

  /** `mouseUp`: an edit ends and the view animates back to its fit. */
  function MouseUp(v: View): (r: View)
    requires GoodCanvas(v.canvas) && Coherent(v)
    ensures !r.editing
    ensures !v.editing ==> r == v
    ensures v.editing ==> r == AnimateResetView(v.(editing := false))
  {
    if v.editing then AnimateResetView(v.(editing := false)) else v
  }

  /** `doubleClick`: on an editable view, with an item hovered and one curve
      per stream item, subdivide that item in the initial input; otherwise
      animate back to the fit. */
  function DoubleClick(v: View, h: Host): (r: View)
    requires GoodCanvas(v.canvas) && Coherent(v)
    ensures r.canvas == v.canvas && r.editable == v.editable
    ensures v.editable && v.hoverItem.Some? && |v.stream| == |v.extracted.beziers| ==>
              Payloads(r.initialInput) == SubdivideObjects(v.initialInput, v.hoverItem.value, h.subdivide)
    ensures !(v.editable && v.hoverItem.Some? && |v.stream| == |v.extracted.beziers|) ==>
              r == AnimateResetView(v)
  {
    if v.editable && v.hoverItem.Some? && |v.stream| == |v.extracted.beziers| then
      Commit(v, h, SubdivideObjects(v.initialInput, v.hoverItem.value, h.subdivide))
    else AnimateResetView(v)
  }

  /** `mouseMove`: ignored while editing; otherwise hover the point near the
      cursor (plot) or the item under it. */
  function MouseMove(v: View, pos: Vec): (r: View)
    requires v.visualization == Plot ==> v.transform.scale != 0.0
    ensures v.editing ==> r == v
    ensures !v.editing && v.visualization == Plot ==>
              r == SetHoverPoint(v, PointNearCanvasPoint(v.canvas, v.transform, v.extracted.points, pos, HoverRadius))
    ensures !v.editing && v.visualization != Plot ==> r == SetHoverItem(v, ItemNearCanvasPoint(v, pos))
  {
    if v.editing then v
    else if v.visualization == Plot then
      SetHoverPoint(v, PointNearCanvasPoint(v.canvas, v.transform, v.extracted.points, pos, HoverRadius))
    else SetHoverItem(v, ItemNearCanvasPoint(v, pos))
  }

  /** `mouseLeave`: ignored while editing; otherwise clear the hover. */
  function MouseLeave(v: View): (r: View)
    ensures v.editing ==> r == v
    ensures !v.editing ==> r.hoverItem.None? && r.hoverPoint.None?
    ensures !v.editing ==> Highlighted(r.notices) == Highlighted(v.notices) - ItemSet(v.hoverItem)
    ensures r == v.(hoverItem := r.hoverItem, hoverPoint := r.hoverPoint, notices := r.notices)
  {
    if v.editing then v else SetHoverItem(v, None)
  }

  //--------------------------------------------------------------------------
  //  Events

  /** What can happen to a view: the mouse handlers, a timer firing, and the
      two calls the pipeline makes. */
  datatype Event =
    | Down(pos: Vec)
    | Drag(pos: Vec, shift: bool)
    | Up
    | Move(pos: Vec)
    | Leave
    | DoubleClicked
    | TimerFired
    | EditableSet(editable: bool)
    | StreamSet(stream: seq<Item>, initialInput: seq<Item>)

  /** The reset tween targets a positive scale or valid bounds. */
  predicate ResetOk(reset: Option<Reset>, height: real)
  {
    match reset
    case None => true
    case Some(TransformReset(tw)) => tw.target.scale > 0.0
    case Some(BoundsReset(bw)) => IsBounds(bw.target, height)
  }

  /** The hover bookkeeping: a hover point is a point of the plot and its
      item is the hover item; the hover item is an item of the stream; and
      the notices leave exactly the hover item highlighted. */
  predicate HoverOk(v: View)
  {
    && (v.hoverPoint.Some? ==>
          v.visualization == Plot && v.hoverPoint.value in v.extracted.points &&
          v.hoverItem == Some(v.hoverPoint.value.item))
    && (v.hoverItem.Some? ==> v.hoverItem.value in v.stream)
    && Highlighted(v.notices) == ItemSet(v.hoverItem)
  }

  /** The invariant of every reachable view. */
  predicate Valid(v: View, h: Host)
  {
    && GoodCanvas(v.canvas)
    && v.extracted == ExtractionsFromItems(h.extractor, v.stream)
    && Coherent(v)
    && v.transform.scale > 0.0
    && IsBounds(v.bounds, v.canvas.height)
    && ResetOk(v.reset, v.canvas.height)
    && HoverOk(v)
    && IdsBelow(v.initialInput, v.nextId)
    && IdsBelow(v.stream, v.nextId)
  }

  /** The view after one event. Only the pipeline's calls change the
      editable flag, and only a stream, a drag or a double click changes
      what is shown or the initial input. */
  function Step(v: View, h: Host, ev: Event): (r: View)
    requires GoodCanvas(v.canvas) && Coherent(v) && v.transform.scale != 0.0
    ensures r.canvas == v.canvas
    ensures !ev.EditableSet? ==> r.editable == v.editable
    ensures !ev.StreamSet? && !ev.Drag? && !ev.DoubleClicked? ==>
              r.stream == v.stream && r.extracted == v.extracted && r.initialInput == v.initialInput
  {
    match ev
    case Down(pos) => MouseDown(v, pos)
    case Drag(pos, shift) => MouseDrag(v, h, pos, shift)
    case Up => MouseUp(v)
    case Move(pos) => MouseMove(v, pos)
    case Leave => MouseLeave(v)
    case DoubleClicked => DoubleClick(v, h)
    case TimerFired => Tick(v)
    case EditableSet(b) => v.(editable := b)
    case StreamSet(stream, input) => ReceiveStream(v, h.extractor, stream, input)
  }

  /** A view before its first stream (nothing hovered, nothing logged, no
      tween, placeholder transform and bounds) receiving its first stream
      and the initial input the pipeline ran to produce it. */
  function Initial(canvas: Canvas, h: Host, stream: seq<Item>, input: seq<Item>, editable: bool): (r: View)
    requires GoodCanvas(canvas)
    ensures Valid(r, h)
    ensures r.stream == stream && r.initialInput == input
    ensures r.notices == [] && r.editable == editable && !r.editing
  {
    var blank := View(canvas, [], Extracted([], [], [], [], []), Blank, [], None,
                      FitTransform(canvas, []), BoundsWithMaxAndMin(0.0, 0.0, canvas.height),
                      editable, false, None, None, Vec(0.0, 0.0), None, [], [], 0);
    RebuildIsIdentity(0.0, 0.0, canvas.height);
    assert Valid(blank, h);
    ReceiveStreamValid(blank, h, stream, input);
    ReceiveStream(blank, h.extractor, stream, input)
  }

  //--------------------------------------------------------------------------
  //  Invariant

  /** A new stream keeps the view valid: the hover is cleared with a
      matching exit notice, and a refit yields a positive scale or valid
      bounds. */
  lemma SetStreamValid(v: View, h: Host, stream: seq<Item>)
    requires Valid(v, h) && IdsBelow(stream, v.nextId)
    ensures Valid(SetStream(v, h.extractor, stream), h)
  {
    var r := SetStream(v, h.extractor, stream);
    if !v.editing && r.visualization == Plot {
      var m := GetMetrics(r.extracted.points);
      assert FitScale(v.canvas, m) > 0.0;
    }
  }

  /** Receiving a stream from the pipeline keeps the view valid. */
  lemma ReceiveStreamValid(v: View, h: Host, stream: seq<Item>, input: seq<Item>)
    requires Valid(v, h)
    ensures Valid(ReceiveStream(v, h.extractor, stream, input), h)
  {
    var m := FreshAbove(input, v.nextId);
    var n := FreshAbove(stream, m);
    var u := v.(initialInput := input, nextId := n);
    IdsBelowMono(input, m, n);
    IdsBelowMono(v.stream, v.nextId, n);
    assert Valid(u, h);
    SetStreamValid(u, h, stream);
  }

  /** Validity depends on the hover fields and the notice log only through
      `HoverOk`. */
  lemma HoverFrame(v: View, r: View, h: Host)
    requires Valid(v, h) && HoverOk(r)
    requires r == v.(hoverItem := r.hoverItem, hoverPoint := r.hoverPoint, notices := r.notices)
    ensures Valid(r, h)
  {
  }

  /** A plotted point's item is an item of the stream. */
  lemma PointItemInStream(v: View, h: Host, tp: Tagged<Vec>)
    requires Valid(v, h) && tp in v.extracted.points
    ensures tp.item in v.stream
  {
    var k :| 0 <= k < |v.extracted.points| && v.extracted.points[k] == tp;
  }

  /** Hovering a point of the current plot keeps the hover bookkeeping. */
  lemma HoverPointValid(v: View, h: Host, p: Option<Tagged<Vec>>)
    requires Valid(v, h)
    requires p.Some? ==> p.value in v.extracted.points
    ensures Valid(SetHoverPoint(v, p), h)
  {
    var r := SetHoverPoint(v, p);
    if p.Some? {
      PointItemInStream(v, h, p.value);
    }
    assert HoverOk(r);
    HoverFrame(v, r, h);
  }

  /** Hovering an item of the stream keeps the hover bookkeeping, provided
      there is no hover point to go stale. */
  lemma HoverItemValid(v: View, h: Host, item: Option<Item>)
    requires Valid(v, h) && v.hoverPoint.None?
    requires item.Some? ==> item.value in v.stream
    ensures Valid(SetHoverItem(v, item), h)
  {
    var r := SetHoverItem(v, item);
    assert HoverOk(r);
    HoverFrame(v, r, h);
  }

  lemma ResetViewValid(v: View, h: Host)
    requires Valid(v, h)
    ensures Valid(AnimateResetView(v), h)
  {
    if v.visualization == Plot {
      assert FitScale(v.canvas, GetMetrics(v.extracted.points)) > 0.0;
    }
  }

  lemma MouseDownValid(v: View, h: Host, pos: Vec)
    requires Valid(v, h)
    ensures Valid(MouseDown(v, pos), h)
  {
  }

  lemma MouseMoveValid(v: View, h: Host, pos: Vec)
    requires Valid(v, h)
    ensures Valid(MouseMove(v, pos), h)
  {
    if !v.editing {
      if v.visualization == Plot {
        HoverPointValid(v, h, PointNearCanvasPoint(v.canvas, v.transform, v.extracted.points, pos, HoverRadius));
      } else {
        HoverItemValid(v, h, ItemNearCanvasPoint(v, pos));
      }
    }
  }

  lemma MouseLeaveValid(v: View, h: Host)
    requires Valid(v, h)
    ensures Valid(MouseLeave(v), h)
  {
    if !v.editing {
      var r := SetHoverItem(v, None);
      assert HoverOk(r);
      HoverFrame(v, r, h);
    }
  }

  lemma MouseDragValid(v: View, h: Host, pos: Vec, shift: bool)
    requires Valid(v, h) && HostValid(h)
    ensures Valid(MouseDrag(v, h, pos, shift), h)
  {
    assert Valid(v.(lastMouse := pos), h);
  }

  lemma MouseUpValid(v: View, h: Host)
    requires Valid(v, h)
    ensures Valid(MouseUp(v), h)
  {
    if v.editing {
      ResetViewValid(v.(editing := false), h);
    }
  }

  lemma DoubleClickValid(v: View, h: Host)
    requires Valid(v, h)
    ensures Valid(DoubleClick(v, h), h)
  {
    if !(v.editable && v.hoverItem.Some? && |v.stream| == |v.extracted.beziers|) {
      ResetViewValid(v, h);
    }
  }

  lemma TickValid(v: View, h: Host)
    requires Valid(v, h)
    ensures Valid(Tick(v), h)
  {
  }

  /** Every event keeps a valid view valid. */
  lemma StepPreservesValid(v: View, h: Host, ev: Event)
    requires Valid(v, h) && HostValid(h)
    ensures Valid(Step(v, h, ev), h)
  {
    match ev
    case Down(pos) =>
      assert Step(v, h, ev) == MouseDown(v, pos);
      MouseDownValid(v, h, pos);
    case Drag(pos, shift) =>
      assert Step(v, h, ev) == MouseDrag(v, h, pos, shift);
      MouseDragValid(v, h, pos, shift);
    case Up =>
      assert Step(v, h, ev) == MouseUp(v);
      MouseUpValid(v, h);
    case Move(pos) =>
      assert Step(v, h, ev) == MouseMove(v, pos);
      MouseMoveValid(v, h, pos);
    case Leave =>
      assert Step(v, h, ev) == MouseLeave(v);
      MouseLeaveValid(v, h);
    case DoubleClicked =>
      assert Step(v, h, ev) == DoubleClick(v, h);
      DoubleClickValid(v, h);
    case TimerFired =>
      assert Step(v, h, ev) == Tick(v);
      TickValid(v, h);
    case EditableSet(b) =>
      assert Step(v, h, ev) == v.(editable := b);
    case StreamSet(stream, input) =>
      assert Step(v, h, ev) == ReceiveStream(v, h.extractor, stream, input);
      ReceiveStreamValid(v, h, stream, input);
  }

  /** Because every enter notice is preceded by the exit notice of the
      previous hover item, at most one item is highlighted at a time. */
  lemma AtMostOneHighlighted(v: View, h: Host)
    requires Valid(v, h)
    ensures |Highlighted(v.notices)| <= 1
    ensures v.hoverItem.None? ==> Highlighted(v.notices) == {}
  {
  }

  //--------------------------------------------------------------------------
  //  Behaviour

  /** A plain drag in plot mode moves every point on the canvas by exactly
      the mouse's movement. */
  lemma DragPansPlot(v: View, h: Host, pos: Vec, p: Vec)
    requires GoodCanvas(v.canvas) && v.transform.scale != 0.0
    requires v.visualization == Plot && !v.editing
    ensures var r := MouseDrag(v, h, pos, false);
            ToDevice(v.canvas, r.transform, p) ==
              ToDevice(v.canvas, v.transform, p).Plus(Vec(pos.x - v.lastMouse.x, pos.y - v.lastMouse.y))
  {
    var dx, dy := pos.x - v.lastMouse.x, pos.y - v.lastMouse.y;
    var moved := v.(lastMouse := pos);
    assert MouseDrag(v, h, pos, false) == PlotDrag(moved, h, dx, dy, false);
    assert PlotDrag(moved, h, dx, dy, false).transform == Pan(v.transform, dx, dy);
    PanShiftsDevice(v.canvas, v.transform, dx, dy, p);
  }

  /** In every visualization, hovering by `mouseMove` and asking
      `getItemNearCanvasPoint` agree: the hovered item is the item near the
      cursor. */
  lemma MoveHoversItemNearCursor(v: View, h: Host, pos: Vec)
    requires Valid(v, h) && !v.editing
    ensures MouseMove(v, pos).hoverItem == ItemNearCanvasPoint(v, pos)
  {
  }

  /** `n` timer firings during a transform reset advance the transform
      exactly as the tween does. */
  lemma {:induction false} TicksFollowTransformTween(v: View, tw: TransformTween, n: nat)
    requires GoodCanvas(v.canvas) && v.reset == Some(TransformReset(tw))
    ensures Ticks(v, n).transform == RunTransform(v.transform, tw, n).0
    ensures RunTransform(v.transform, tw, n).1.None? ==> Ticks(v, n).reset.None?
    decreases n
  {
    if n > 0 {
      var (t, next) := TickTransform(v.transform, tw);
      var u := Tick(v);
      if next.Some? {
        TicksFollowTransformTween(u, next.value, n - 1);
      } else {
        NoResetNoChange(u, n - 1);
      }
    }
  }

  /** With no reset running, the timer changes nothing. */
  lemma {:induction false} NoResetNoChange(v: View, n: nat)
    requires GoodCanvas(v.canvas) && v.reset.None?
    ensures Ticks(v, n) == v
    decreases n
  {
    if n > 0 {
      NoResetNoChange(Tick(v), n - 1);
    }
  }

  /** Releasing the mouse after editing a plot brings the transform back to
      the fit of the points in exactly 25 timer firings and stops the
      timer. */
  lemma EditReleaseRefits(v: View)
    requires GoodCanvas(v.canvas) && Coherent(v) && v.editing && v.visualization == Plot
    ensures var u := Ticks(MouseUp(v), 25);
            u.transform == FitTransform(v.canvas, v.extracted.points) && u.reset.None?
  {
    var target := FitTransform(v.canvas, v.extracted.points);
    var up := MouseUp(v);
    TicksFollowTransformTween(up, TransformTween(target, 0), 25);
    ResetTakesTwentyFiveTicks(up.transform, target, 25);
  }
}
