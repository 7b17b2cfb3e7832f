# NVCanvasView, modelled in Dafny

A model of the canvas view of the Nile viewer (`NVCanvasView` and its
interactive subclass `NVInteractiveCanvasView`). Each pipeline stage shows its
output stream on a canvas:

- a scatter plot of the points extracted from the stream's objects;
- a strip of colour swatches;
- a bar chart of its numbers;
- nothing.

On an editable view the user drags points or bars, or double-clicks a curve.
Each edit rewrites the pipeline's initial input, and the pipeline then feeds
the view a new stream.

Below the drawing calls the view has a layer of exact logic:

- **Extraction.** Things are extracted from the stream and tagged with the
  item each came from. The visualization is chosen by priority from what was
  found.
- **Render passes.** The `forEachWithHighlight` filter decides which things
  each pass that goes through it draws: `fillPoints`, `fillColors`,
  `fillReals`, the highlighted `fillPixels` and `labelBeziers`.
- **Plot mode.** The render transform and its inverse, the nearest-point hit
  test, panning and the fit of the transform to the points.
- **Bars mode.** The bar layout and bucket hit test, and the value bounds
  with their three baseline regimes.
- **Stream rewrites.** The three rewrites of the initial input.
- **Controller.** The mouse handlers, the hover bookkeeping with its
  highlight notifications, and the reset animations.

JavaScript numbers are modelled as `real`, and `Math.floor` as `.Floor`.
Distances are compared through their squares, never through `Math.sqrt`.
Object identity of stream items is an `id` field. A new item takes its `id`
from the view's counter `nextId`, which always lies above every `id` the view
holds, so a new item is never equal to an old one. Each foreign helper
(`NLObjectExtract`, the pipeline run, …) stays an abstract function, bundled
in records:

- `NLObjectExtract` with the five templates is an `Extractor`.
- `NLObjectMovePoint`, `NLObjectSubdivide`, `NLReal` and `NLRealUnbox` are in
  a `Host`.
- The pipeline run triggered by `setInitialInputStream` is in the `Host`.
- The zoom factor `Math.pow(1.01, d)` is in the `Host`.

The view's state is one immutable `View` record. Every handler is a function
from one record to the next. `Controller.Step` dispatches an `Event` to the
matching handler. The pipeline's `setStream` call carries the initial input
it ran, so that later edits rewrite that input.

Modules, following the structure of the source:

| file | module | covers |
|---|---|---|
| prelude.dfy | `Prelude` | `Option`, `Math.min`/`max`, `Number.limit`, `Array.indexOf` |
| geometry.dfy | `Geometry` | points, canvas size, squared distance |
| extraction.dfy | `Extraction` | `extract`, `getExtractionsFromItems`, the mode choice of `setStream` |
| highlight.dfy | `Highlight` | `forEachWithHighlight` |
| markers.dfy | `Markers` | point radii in `fillPoints` |
| bar_layout.dfy | `BarLayout` | `fillColors`/`fillReals` layout, bucket lookup of `getItemNearCanvasPoint` |
| plot.dfy | `Plot` | render transform, `getPointNearCanvasPoint`, panning, `getMetrics` and the fit |
| real_bounds.dfy | `RealBounds` | `getRealBounds`, `getRealBoundsWithMaxAndMin` |
| rewrites.dfy | `StreamRewrite` | `translatePointInStream`, `adjustRealInStream`, `subdivideItem` |
| curve_fan.dfy | `CurveFan` | sub-path grouping in `fillBeziers` |
| tween.dfy | `Tween` | `animateSetTranslationAndScale`, `animateSetBounds` |
| controller.dfy | `Controller` | the view state, `setStream`, mouse handlers, hover, `animateResetView` |

Some quirks of the source are modelled as written and stated as lemmas:

- A thing whose item is both hot and selected is drawn by both highlight
  passes.
- In the one-sided bar regimes the baseline lies on the canvas edge, while
  value 0 is drawn two pixels inside it.
- `adjustRealInStream` finds the index in the stage's own stream but applies
  it to the pipeline's initial input.
- An area of 0 counts as no area when choosing a point's marker.
- With more items than pixels the bucket pitch is 0, and `x / 0` is an
  infinity or NaN. A cursor right of 0 then hovers the last item, one left of
  0 the first, and one exactly at 0 nothing.
- `subdivideItem` compares the hovered item, which belongs to the stage's
  stream, with the items of the initial input. So it only finds the item when
  the stage shows the initial input itself.

## Model

| member | source | states |
|---|---|---|
| Prelude.Limit | viz/NileViewer/NileViewer/NVCanvasView.js:532 | `limit(lo, hi)` lands in `[lo, hi]`, keeps a value already inside and clamps each side to its end |
| Prelude.LimitReal | viz/NileViewer/NileViewer/NVCanvasView.js:176 | `limit(0, 1)` on a real lands in the interval when it is non-empty, keeps a value already inside and clamps each side to its end |
| Prelude.IndexOf | viz/NileViewer/NileViewer/NVCanvasView.js:645 | `indexOf` is -1 exactly when the element is absent; otherwise it is the first position holding it |
| Geometry.DistSq | viz/NileViewer/NileViewer/NVCanvasView.js:477 | the squared distance is never negative and is 0 from a point to itself |
| Extraction.Extract | viz/NileViewer/NileViewer/NVCanvasView.js:71-82 | every extracted thing is tagged with an item of the input list |
| Extraction.ExtractAppend | viz/NileViewer/NileViewer/NVCanvasView.js:71-82 | extraction distributes over concatenation, so things keep stream order: an earlier item's things all come first |
| Extraction.ExtractContents | viz/NileViewer/NileViewer/NVCanvasView.js:71-82 | a tagged thing is extracted if and only if some item of the list yields that thing and it is tagged with that item |
| Extraction.ExtractNonEmpty | viz/NileViewer/NileViewer/NVCanvasView.js:71-82 | the extraction is empty exactly when no item yields anything |
| Extraction.ExtractionsFromItems | viz/NileViewer/NileViewer/NVCanvasView.js:61-69 | numbers are extracted only when there are no points and no colours, and then all of them are |
| Extraction.ModePriority | viz/NileViewer/NileViewer/NVCanvasView.js:37-39 | any point gives plot; otherwise any colour gives colours; otherwise any number gives bars; otherwise nothing. Each mode holds if and only if its condition does |
| Highlight.Visited | viz/NileViewer/NileViewer/NVCanvasView.js:149-157 | a pass calls back at original indices, in increasing order, exactly for the things whose item satisfies the pass's test |
| Highlight.PassPartition | viz/NileViewer/NileViewer/NVCanvasView.js:149-157 | the unhighlighted pass draws exactly what neither highlight pass draws, and every thing is drawn by some pass |
| Highlight.HotAndSelectedDrawnTwice | viz/NileViewer/NileViewer/NVCanvasView.js:151-153 | a thing whose item is hot and selected is drawn by both the selected and the hot pass of `forEachWithHighlight`, not by its plain one |
| Highlight.SelectedOverlayDrawsAll | viz/NileViewer/NileViewer/NVCanvasView.js:104-106 | the selected overlay, extracted from `selectedItems`, draws every one of its things |
| Highlight.HotOverlayDrawsAll | viz/NileViewer/NileViewer/NVCanvasView.js:107-109 | the hot overlay, extracted from `[hotItem]`, draws every one of its things |
| Markers.MarkerArea | viz/NileViewer/NileViewer/NVCanvasView.js:171-172 | no property bag gives no area; a non-zero area wins; an absent or zero area falls back to the coverage, itself possibly absent |
| Markers.ZeroAreaIsAbsent | viz/NileViewer/NileViewer/NVCanvasView.js:172 | an area of exactly 0 falls through to the coverage, so without one the point gets the constant-size marker |
| Markers.PropertyAt | viz/NileViewer/NileViewer/NVCanvasView.js:171 | a point's property bag exists exactly when its index is within the properties list |
| Markers.SmallestRadius | viz/NileViewer/NileViewer/NVCanvasView.js:176 | the smallest area radius is positive, at most 0.11 model units and at most 3 pixels |
| Markers.AreaMarker | viz/NileViewer/NileViewer/NVCanvasView.js:174-178 | a non-positive area gives a ring; a positive one gives a disc whose radius lies between the smallest radius and 0.4; an area of 1 or more gives exactly 0.4; radii are never negative |
| Markers.PointMarker | viz/NileViewer/NileViewer/NVCanvasView.js:173-184 | with an area the marker is the area marker; without one it is a disc of 2 pixels, 3 when highlighted, doubled in high contrast |
| Markers.HighlightEnlarges | viz/NileViewer/NileViewer/NVCanvasView.js:182 | without an area, a highlighted point is 1.5 times the radius of a plain one |
| BarLayout.Padding | viz/NileViewer/NileViewer/NVCanvasView.js:319 | padding is 0 or 1, and 0 exactly when the item count exceeds the width over 4 (swatches) or 2 (bars) |
| BarLayout.BarWidth | viz/NileViewer/NileViewer/NVCanvasView.js:344-345 | the bar width is never negative and width plus padding is the pitch `floor(width/n)` |
| BarLayout.BarIndex | viz/NileViewer/NileViewer/NVCanvasView.js:351-352 | a thing's bar is its item's stream position, or 0 when the item is not in the stream |
| BarLayout.BarX | viz/NileViewer/NileViewer/NVCanvasView.js:325 | bar i starts i pitches of `floor(width / n)` from the left edge, the pitch the hit test divides by, and never left of 0 |
| BarLayout.BarsInsideCanvas | viz/NileViewer/NileViewer/NVCanvasView.js:319-325 | bars start right of 0, end before the next bar starts, and end within the canvas width |
| BarLayout.CrowdedColorsExample | viz/NileViewer/NileViewer/NVCanvasView.js:319-320 | 400 swatches on an 800-pixel canvas get padding 0 and width 2 |
| BarLayout.Bucket | viz/NileViewer/NileViewer/NVCanvasView.js:530-532 | with a non-zero pitch, the bucket index is always a valid stream position |
| BarLayout.BucketItem | viz/NileViewer/NileViewer/NVCanvasView.js:523-533 | null exactly for an empty stream, or for a zero pitch with x exactly 0. Any result is an item of the stream. A non-zero pitch gives the item at the bucket index; a zero pitch gives the last item right of 0 and the first left of it |
| BarLayout.CrowdedPitchIsZero | viz/NileViewer/NileViewer/NVCanvasView.js:530 | a canvas narrower than the item count gives a pitch of 0, the case where `x / barWidth` is infinite or NaN |
| BarLayout.BucketFindsBar | viz/NileViewer/NileViewer/NVCanvasView.js:531-532 | the bucket lookup inverts the layout: an x over bar i, or over the gap after it, hits bar i |
| BarLayout.BucketClampsOutside | viz/NileViewer/NileViewer/NVCanvasView.js:532 | an x left of the canvas hits the first bar; an x right of the last bucket hits the last bar |
| Plot.TransformRoundTrip | viz/NileViewer/NileViewer/NVCanvasView.js:469-470 | the canvas-to-model conversion inverts the render transform exactly, in both directions, for a non-zero scale |
| Plot.ToDevice | viz/NileViewer/NileViewer/NVCanvasView.js:98-100 | the model point at minus the translation is drawn at the canvas centre |
| Plot.ToModel | viz/NileViewer/NileViewer/NVCanvasView.js:469-470 | the canvas centre converts back to the model point at minus the translation |
| Plot.Pan | viz/NileViewer/NileViewer/NVCanvasView.js:699-700 | panning keeps the scale |
| Plot.PanShiftsDevice | viz/NileViewer/NileViewer/NVCanvasView.js:699-700 | panning by (dx, dy) pixels moves every point's canvas position by exactly (dx, dy) |
| Plot.FirstNearest | viz/NileViewer/NileViewer/NVCanvasView.js:476-479 | the search loop ends on a point of minimal distance, the first of them, because only a strictly smaller distance replaces it |
| Plot.PointNearCanvasPoint | viz/NileViewer/NileViewer/NVCanvasView.js:468-482 | the result is the first nearest point and lies within `radius/scale`; null exactly when no point lies that close, including when there are no points |
| Plot.HitTestExample | viz/NileViewer/NileViewer/NVCanvasView.js:468-482 | at scale 10 a point under the cursor is found, and one about 42 pixels away is not |
| Plot.Box | viz/NileViewer/NileViewer/NVCanvasView.js:430-442 | the running min and max box encloses every point and touches a point on each side |
| Plot.GetMetrics | viz/NileViewer/NileViewer/NVCanvasView.js:430-451 | the box is tight around the points, or the origin when there are none, and the midpoint is its centre |
| Plot.FitTranslation | viz/NileViewer/NileViewer/NVCanvasView.js:464-466 | the translation plus the midpoint is the origin |
| Plot.FitScale | viz/NileViewer/NileViewer/NVCanvasView.js:453-462 | the fitted scale is positive on a positive canvas, at most 0.75 of the fit on each axis, and equal to the fit of one of the two axes |
| Plot.FitScaleFillsAxis | viz/NileViewer/NileViewer/NVCanvasView.js:453-462 | the fitted scale stretches one axis's extent (at least 0.01) to exactly 75% of the canvas along that axis |
| Plot.FitPlacesPointsCentrally | viz/NileViewer/NileViewer/NVCanvasView.js:430-466 | after fitting, every point lands in the central 75% of the canvas on both axes |
| RealBounds.Guard | viz/NileViewer/NileViewer/NVCanvasView.js:501-502 | after the guard the range is at least 0.001 and the minimum is kept; a range of at least 0.001 keeps the maximum, a smaller one (or a maximum below the minimum) raises it to the minimum plus 0.001 |
| RealBounds.GuardIdempotent | viz/NileViewer/NileViewer/NVCanvasView.js:501-502 | guarding guarded bounds changes nothing |
| RealBounds.YForValueMatchesRegimes | viz/NileViewer/NileViewer/NVCanvasView.js:509-516 | the affine form used by the model equals the closure's three regimes (all non-negative, all non-positive, mixed) for every value |
| RealBounds.YForValueRegimes | viz/NileViewer/NileViewer/NVCanvasView.js:509-516 | a positive maximum is drawn at the top margin and a negative minimum at the bottom margin; with one-signed values 0 is drawn two pixels inside the baseline edge |
| RealBounds.BottomRegimeY | viz/NileViewer/NileViewer/NVCanvasView.js:510 | with non-negative values 0 is drawn 2 pixels above the bottom and the maximum 6 pixels below the top |
| RealBounds.TopRegimeY | viz/NileViewer/NileViewer/NVCanvasView.js:511 | with non-positive values 0 is drawn 2 pixels below the top and the minimum 6 pixels above the bottom |
| RealBounds.MixedRegimeY | viz/NileViewer/NileViewer/NVCanvasView.js:513-515 | with mixed signs the maximum is drawn 6 pixels below the top and the minimum 6 pixels above the bottom |
| RealBounds.YAffine | viz/NileViewer/NileViewer/NVCanvasView.js:509-516 | in every regime `getYForValue` is affine with a positive per-unit drop |
| RealBounds.YDecreasing | viz/NileViewer/NileViewer/NVCanvasView.js:509-516 | a larger value is drawn strictly higher |
| RealBounds.YWithinCanvas | viz/NileViewer/NileViewer/NVCanvasView.js:509-516 | every value between the minimum and maximum maps to a y between 2 and height - 2 |
| RealBounds.BoundsWithMaxAndMin | viz/NileViewer/NileViewer/NVCanvasView.js:500-522 | built bounds are guarded, keep the minimum, keep a maximum at least 0.001 above the minimum, raise any other maximum to the minimum plus 0.001, and have a positive value change per pixel |
| RealBounds.BaselineRegimes | viz/NileViewer/NileViewer/NVCanvasView.js:510-518 | the baseline is the bottom edge when all values are non-negative, the top edge when all are non-positive, and y(0) otherwise. In the one-sided regimes y(0) is two pixels inside the edge |
| RealBounds.NonNegativeBaselineExample | viz/NileViewer/NileViewer/NVCanvasView.js:518 | values 2 to 10 put the baseline on the bottom edge |
| RealBounds.DragMovesByPixels | viz/NileViewer/NileViewer/NVCanvasView.js:519 | changing a value by `-dy * deltaPerPixel` moves its bar top by exactly dy pixels |
| RealBounds.RebuildIsIdentity | viz/NileViewer/NileViewer/NVCanvasView.js:500-522 | rebuilding bounds from their own max and min gives the same bounds |
| RealBounds.MaxValue | viz/NileViewer/NileViewer/NVCanvasView.js:492-495 | the running maximum bounds every value and is one of them |
| RealBounds.MinValue | viz/NileViewer/NileViewer/NVCanvasView.js:492-495 | the running minimum bounds every value and is one of them |
| RealBounds.BoundsOfReals | viz/NileViewer/NileViewer/NVCanvasView.js:489-497 | the bounds span every value; the minimum is a value; the maximum is a value when some value is at least 0.001 above the minimum, and is the minimum plus 0.001 otherwise |
| StreamRewrite.Payloads | viz/NileViewer/NileViewer/NVCanvasView.js:618 | the payload list matches the stream in length and order |
| StreamRewrite.Restream | viz/NileViewer/NileViewer/NVCanvasView.js:620 | wrapping gives back the payloads in items numbered up from the counter: no two share an identity and every identity is below the counter plus the count |
| StreamRewrite.FreshAbove | viz/NileViewer/NileViewer/NVCanvasView.js:620 | the new counter is at least the old one, lies above every identity in the list, and is the least such: the old counter or one past an identity in use |
| StreamRewrite.TranslatePointObjects | viz/NileViewer/NileViewer/NVCanvasView.js:613-624 | the result keeps the length, and each payload is the old one with the point moved |
| StreamRewrite.NullTranslateKeepsPayloads | viz/NileViewer/NileViewer/NVCanvasView.js:613-624 | a zero drag leaves every payload unchanged when moving a point onto itself changes nothing |
| StreamRewrite.AdjustRealObjects | viz/NileViewer/NileViewer/NVCanvasView.js:644-656 | the result keeps the length. Only the position the item has in the stage's stream changes, and there the number gains delta |
| StreamRewrite.AdjustRealValues | viz/NileViewer/NileViewer/NVCanvasView.js:644-656 | read back as numbers, the stream differs by delta at the item's index and nowhere else |
| StreamRewrite.AdjustMissingItem | viz/NileViewer/NileViewer/NVCanvasView.js:645-651 | an item missing from the stage's stream, index -1, changes nothing |
| StreamRewrite.SubdivideObjects | viz/NileViewer/NileViewer/NVCanvasView.js:626-642 | an item absent from the initial input leaves every payload as it was |
| StreamRewrite.SubdivideAppend | viz/NileViewer/NileViewer/NVCanvasView.js:626-642 | subdividing distributes over concatenation, so untouched payloads keep their order |
| StreamRewrite.SubdivideInPlace | viz/NileViewer/NileViewer/NVCanvasView.js:626-642 | the matching item is replaced, in place, by its pieces in order; everything before and after is unchanged |
| CurveFan.SubPaths | viz/NileViewer/NileViewer/NVCanvasView.js:235-252 | the sub-paths hold every curve once, in order. Within a sub-path each curve starts where the previous one ends, and a new sub-path starts exactly at a curve that does not |
| CurveFan.FlattenLast | viz/NileViewer/NileViewer/NVCanvasView.js:243-250 | the last curve drawn is the last curve of the last sub-path |
| CurveFan.SubPathCounts | viz/NileViewer/NileViewer/NVCanvasView.js:243-250 | a chained list of curves is one sub-path; a list with no joins has one sub-path per curve |
| CurveFan.BreakInFlatten | viz/NileViewer/NileViewer/NVCanvasView.js:244-246 | two or more sub-paths never flatten back into one chained list: the break between two sub-paths is a break between adjacent curves |
| Tween.LastTickIsTwentyFifth | viz/NileViewer/NileViewer/NVCanvasView.js:825-826 | the firing whose progress passes 0.8 is the 25th and every later one |
| Tween.SpeedAt | viz/NileViewer/NileViewer/NVCanvasView.js:820-826 | the speed is the base speed (0.3 or 0.5) until the last firing, whose speed is 1 |
| Tween.Approach | viz/NileViewer/NileViewer/NVCanvasView.js:828-830 | each firing shrinks the distance to the target by the factor 1 - speed without overshooting, and speed 1 lands on the target |
| Tween.TickTransform | viz/NileViewer/NileViewer/NVCanvasView.js:818-837 | the last firing lands exactly on the target and stops the timer; earlier ones cut the scale's distance to 70% and keep a positive scale |
| Tween.RunTransform | viz/NileViewer/NileViewer/NVCanvasView.js:824-836 | repeated firings keep the scale positive and the target fixed |
| Tween.TransformSettles | viz/NileViewer/NileViewer/NVCanvasView.js:824-836 | the tween is still running before the 25th firing and sits exactly on its target, stopped, after it |
| Tween.ResetTakesTwentyFiveTicks | viz/NileViewer/NileViewer/NVCanvasView.js:818-837 | a fresh transform reset is still running after fewer than 25 firings and has landed on its target after 25 |
| Tween.TickBounds | viz/NileViewer/NileViewer/NVCanvasView.js:845-861 | each firing rebuilds valid bounds and halves the minimum's distance to the target; the last firing gives exactly the target and stops |
| Tween.RunBounds | viz/NileViewer/NileViewer/NVCanvasView.js:851-860 | repeated firings keep the bounds valid and the target fixed |
| Tween.BoundsSettle | viz/NileViewer/NileViewer/NVCanvasView.js:851-860 | a bounds tween is still running before the 25th firing and has landed exactly on its target after it |
| Controller.Highlighted | viz/NileViewer/NileViewer/NVCanvasView.js:778-789 | replaying the notice log; every item it leaves highlighted was entered at some point |
| Controller.ExitThenEnter | viz/NileViewer/NileViewer/NVCanvasView.js:779-788 | exiting the old item and then entering the new one removes the old item from the highlighted set and adds the new one |
| Controller.SetHoverItem | viz/NileViewer/NileViewer/NVCanvasView.js:778-798 | the hover item becomes the argument; clearing it clears the hover point; the log gains the old item's exit before the new item's enter; nothing else changes |
| Controller.SetHoverPoint | viz/NileViewer/NileViewer/NVCanvasView.js:773-776 | the hover item becomes the point's item, or null with no point |
| Controller.ItemNearCanvasPoint | viz/NileViewer/NileViewer/NVCanvasView.js:523-533 | null for an empty stream. In plot mode the item of the point `getPointNearCanvasPoint` finds within 20 pixels; otherwise the bucket item, which is an item of the stream and exists unless the pitch is 0 and x is exactly 0 |
| Controller.SetStream | viz/NileViewer/NileViewer/NVCanvasView.js:29-55 | hover, selection and hot item are cleared and the stream re-extracted. The fit is redone unless an edit is under way, which keeps transform and bounds |
| Controller.Commit | viz/NileViewer/NileViewer/NVCanvasView.js:613-624 | the new initial input holds the given payloads in pairwise distinct items, none of them an item of the old initial input or stream. The counter ends above every identity the view holds, the view receives the pipeline's output, and validity is kept |
| Controller.ReceiveStream | viz/NileViewer/NileViewer/NVCanvasView.js:29-55 | the view shows the given stream and keeps the initial input it came from, and its counter moves above every identity in both |
| Controller.AnimateResetView | viz/NileViewer/NileViewer/NVCanvasView.js:805-816 | plot starts a tween to the fitted transform; bars starts one to the bounds of the numbers; other modes leave a running tween alone |
| Controller.Tick | viz/NileViewer/NileViewer/NVCanvasView.js:824-860 | with no tween the timer changes nothing; a bounds tween keeps the bounds valid; only transform, bounds and the tween change |
| Controller.MouseDown | viz/NileViewer/NileViewer/NVCanvasView.js:663-676 | the reset tween is cancelled. Editing starts exactly when the view is editable and something is hovered, and never stops here |
| Controller.PointEdit | viz/NileViewer/NileViewer/NVCanvasView.js:688-693 | the initial input is rewritten with the hovered point moved by the drag in model units, and the hover point becomes the point at the old point's index in the new extraction, or none past its end |
| Controller.HoverPointAt | viz/NileViewer/NileViewer/NVCanvasView.js:689-691 | the hover point becomes the point at index k of the extraction, or none outside it, the hover item follows it, and validity is kept |
| Controller.PlotDrag | viz/NileViewer/NileViewer/NVCanvasView.js:686-701 | editing with a hovered point is a point edit. Otherwise a drag zooms with shift and pans without it. A valid view stays valid |
| Controller.BarsDrag | viz/NileViewer/NileViewer/NVCanvasView.js:703-710 | editing a hovered bar adds `-dy * deltaPerPixel` at its stream index in the initial input, and the hover item becomes the item at that index of the new stream, or none past its end; otherwise nothing changes |
| Controller.HoverItemAt | viz/NileViewer/NileViewer/NVCanvasView.js:705-707 | the hover item becomes the item at index k of the stream, or none outside it, and validity is kept when no hover point is set |
| Controller.MouseDrag | viz/NileViewer/NileViewer/NVCanvasView.js:678-713 | the position is recorded, and the drag acts by visualization; colours and blank views do nothing more |
| Controller.MouseUp | viz/NileViewer/NileViewer/NVCanvasView.js:715-726 | editing is always off afterwards, and an edit that ends starts the reset animation |
| Controller.DoubleClick | viz/NileViewer/NileViewer/NVCanvasView.js:733-742 | an editable view with a hovered item and one curve per item subdivides that item in the initial input; otherwise it animates back to the fit |
| Controller.MouseMove | viz/NileViewer/NileViewer/NVCanvasView.js:754-764 | ignored while editing; otherwise hovers the nearest point within 20 pixels (plot) or the item under the cursor |
| Controller.MouseLeave | viz/NileViewer/NileViewer/NVCanvasView.js:766-771 | ignored while editing; otherwise the hover is cleared with an exit notice |
| Controller.Initial | viz/NileViewer/NileViewer/NVCanvasView.js:29-55 | a fresh view receiving its first stream together with the initial input satisfies the invariant and keeps that input for later edits |
| Controller.SetStreamValid | viz/NileViewer/NileViewer/NVCanvasView.js:592-597 | a new stream keeps the view invariant |
| Controller.ReceiveStreamValid | viz/NileViewer/NileViewer/NVCanvasView.js:29-55 | receiving a stream keeps the invariant, including identities below the counter |
| Controller.StepPreservesValid | viz/NileViewer/NileViewer/NVCanvasView.js:663-798 | every event keeps the invariant: a positive scale, valid bounds and tween targets, a hover point that is a plotted point of the hover item, a hover item in the stream, and a log that leaves exactly the hover item highlighted |
| Controller.Step | viz/NileViewer/NileViewer/NVCanvasView.js:580-583 | no event changes the canvas; only `setEditable` changes the editable flag; only a stream, a drag or a double click changes the stream, its extraction or the initial input |
| Controller.HoverPointValid | viz/NileViewer/NileViewer/NVCanvasView.js:773-776 | hovering a plotted point, or none, keeps the invariant: the point's item joins the log as the only highlighted item |
| Controller.HoverItemValid | viz/NileViewer/NileViewer/NVCanvasView.js:778-798 | hovering an item of the stream, or none, keeps the invariant when no hover point is set |
| Controller.ResetViewValid | viz/NileViewer/NileViewer/NVCanvasView.js:805-816 | starting the reset animation keeps the invariant: the fitted scale is positive and the target bounds are valid |
| Controller.MouseDownValid | viz/NileViewer/NileViewer/NVCanvasView.js:663-676 | pressing the mouse keeps the invariant |
| Controller.MouseMoveValid | viz/NileViewer/NileViewer/NVCanvasView.js:754-764 | a mouse move keeps the invariant |
| Controller.MouseLeaveValid | viz/NileViewer/NileViewer/NVCanvasView.js:766-771 | leaving the canvas keeps the invariant |
| Controller.MouseDragValid | viz/NileViewer/NileViewer/NVCanvasView.js:678-713 | a drag keeps the invariant, including a point or bar edit |
| Controller.MouseUpValid | viz/NileViewer/NileViewer/NVCanvasView.js:715-726 | a mouse release keeps the invariant |
| Controller.DoubleClickValid | viz/NileViewer/NileViewer/NVCanvasView.js:733-742 | a double click keeps the invariant, whether it subdivides or animates back |
| Controller.TickValid | viz/NileViewer/NileViewer/NVCanvasView.js:818-861 | a timer firing keeps the invariant |
| Controller.NoResetNoChange | viz/NileViewer/NileViewer/NVCanvasView.js:822-826 | with no reset animation running, any number of timer firings leave the view unchanged |
| Controller.AtMostOneHighlighted | viz/NileViewer/NileViewer/NVCanvasView.js:778-789 | at most one item is highlighted through the log at any time, and none when nothing is hovered |
| Controller.DragPansPlot | viz/NileViewer/NileViewer/NVCanvasView.js:698-701 | a plain drag in plot mode moves every point on the canvas by exactly the mouse's movement |
| Controller.MoveHoversItemNearCursor | viz/NileViewer/NileViewer/NVCanvasView.js:758-762 | the item `mouseMove` hovers is the item `getItemNearCanvasPoint` reports for the cursor |
| Controller.TicksFollowTransformTween | viz/NileViewer/NileViewer/NVCanvasView.js:824-836 | timer firings during a transform reset move the view exactly as the tween does |
| Controller.EditReleaseRefits | viz/NileViewer/NileViewer/NVCanvasView.js:722-724 | releasing the mouse after a plot edit brings the transform back to the fit of the points in exactly 25 timer firings, then stops |

## Left out

- Drawing is left out: every `ctx` call, colour strings, `fillPixels`, `labelPoint`/`labelBeziers`, `strokeBeziers` and the captions. What each pass that goes through `forEachWithHighlight` draws is modelled through `Highlight.Visited`, point radii through `Markers` and curve grouping through `CurveFan`.
- The base pass of `fillBeziers` (NVCanvasView.js:235-252, called only in the unhighlighted pass at 119-121) and the unhighlighted `fillPixels` (NVCanvasView.js:287-295) do not filter: they draw every thing, hot and selected ones included. `Highlight.Visited` and its lemmas do not describe these two passes.
- Grid-step selection in `drawPlotGrid`/`drawRealGrid` is left out. It needs `Math.log`, `Math.pow` and `Math.round`.
- DOM and event plumbing is left out: `addEvent`/`removeEvent`, `event.stop`, `getPosition`, cursor styles, `setEditable`'s help text, `mouseEnter`, and the help-text fade `animateHelpOpacity`. Mouse positions are given relative to the canvas.
- Timers are not asynchronous here. A running reset animation is the `reset` field, and one firing is `Controller.Tick`.
- The zoom factor `Math.pow(1.01, d)` is a host function. The model only assumes it is positive.
- IEEE-754 rounding is not modelled: arithmetic is exact. The `1/30` progress steps are counted as whole ticks. In doubles the 24th sum stays just below 0.8, so the last firing is the 25th either way.
- The sentinels `1e100` and `±1e99` are replaced by explicit cases. The nearest-point search handles an empty list directly, and the bounds of numbers require at least one number, which bars mode guarantees. `fillBeziers`' `1e100` start point means the first curve always starts a sub-path.
- The canvas must be wider than 0 and taller than 12 pixels. That is twice the margin, so every bar regime has a positive slope. On a shorter canvas `deltaPerPixel` is infinite or negative.
- Before its first plot or bars stream the source leaves the transform or bounds undefined. `Controller.Initial` fills them with a fit to no points and with the bounds of 0.
- New items get a fresh identity in the source (`NLStreamItem`). The model gives them identities from a counter instead. The pipeline run is a host function, so nothing is promised about whether its output items are new; the counter is only moved above them.
- `selectedItems` and `hotItem` are set by other views. The model only clears them in `setStream` and reads them in the render passes.
- Extracted things are compared by value, not identity, when a drag looks up the hover point's index. Two equal points of one item are therefore indistinguishable.
- `getYForValue` in the source also assigns a global `barHeight`. The assignment has no effect on the view.
- The per-thing property lookup in `fillPoints` is modelled as `Markers.PropertyAt` and `Markers.PointMarker`. The loop over the visited points is not modelled separately.
- Markers.AreaMarker: the source tests the squared clamped area for 0, and the model tests the clamped area. The two agree on reals, but in doubles a tiny positive area can square to 0.
- Controller.Tick: only validity is stated for a bounds tween. Convergence of bounds tweens is stated by `Tween.BoundsSettle`.
- Plot.FirstNearest: the source compares square roots, the model compares squares. The two orders agree on non-negative reals.
