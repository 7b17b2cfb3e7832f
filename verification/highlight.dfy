/** `forEachWithHighlight`: which extracted things a render pass that goes
    through it draws. */
module Highlight {
  import opened Prelude
  import opened Extraction

  /** The `highlight` argument: `false`, `true` or `"hot"`. */
  datatype Pass = Unhighlighted | Selected | Hot

  /** Whether a thing belongs to a pass, decided by its item's identity
      against `selectedItems` and `hotItem`. */
  predicate InPass<S>(t: Tagged<S>, pass: Pass, selected: seq<Item>, hot: Option<Item>)
  {
    var isHighlighted := t.item in selected;
    var isHot := hot == Some(t.item);
    match pass
    case Hot => isHot
    case Selected => isHighlighted
    case Unhighlighted => !isHot && !isHighlighted
  }

  /** The indices, in order, at which `forEachWithHighlight` calls back. */
  function Visited<S>(things: seq<Tagged<S>>, pass: Pass, selected: seq<Item>, hot: Option<Item>): (r: seq<nat>)
    ensures forall k :: 0 <= k < |r| ==> r[k] < |things|
    ensures forall i :: 0 <= i < |things| ==> (i in r <==> InPass(things[i], pass, selected, hot))
    ensures forall k, l :: 0 <= k < l < |r| ==> r[k] < r[l]
    decreases |things|
  {
    if |things| == 0 then []
    else
      var n := |things| - 1;
      var prefix := Visited(things[..n], pass, selected, hot);
      assert forall i :: 0 <= i < n ==> things[..n][i] == things[i];
      if InPass(things[n], pass, selected, hot) then prefix + [n] else prefix
  }

  /** The unhighlighted pass draws exactly the things drawn by neither
      highlight pass, and every thing is drawn by at least one pass. */
  lemma PassPartition<S>(things: seq<Tagged<S>>, selected: seq<Item>, hot: Option<Item>, i: nat)
    requires i < |things|
    ensures i in Visited(things, Unhighlighted, selected, hot) <==>
            i !in Visited(things, Selected, selected, hot) && i !in Visited(things, Hot, selected, hot)
    ensures i in Visited(things, Unhighlighted, selected, hot) ||
            i in Visited(things, Selected, selected, hot) ||
            i in Visited(things, Hot, selected, hot)
  {
  }

  /** A thing whose item is both hot and selected is drawn by both highlight
      passes, not by exactly one. */
  lemma HotAndSelectedDrawnTwice<S>(things: seq<Tagged<S>>, selected: seq<Item>, i: nat)
    requires i < |things| && things[i].item in selected
    ensures i in Visited(things, Selected, selected, Some(things[i].item))
    ensures i in Visited(things, Hot, selected, Some(things[i].item))
    ensures i !in Visited(things, Unhighlighted, selected, Some(things[i].item))
  {
  }

  /** `render` draws the selected overlay from the things of `selectedItems`
      alone; the filter then keeps every one of them. */
  lemma SelectedOverlayDrawsAll<S>(f: Payload -> seq<S>, selected: seq<Item>, hot: Option<Item>)
    ensures forall i :: 0 <= i < |Extract(selected, f)| ==> i in Visited(Extract(selected, f), Selected, selected, hot)
  {
  }

  /** Likewise the hot overlay, drawn from the things of `[hotItem]`. */
  lemma HotOverlayDrawsAll<S>(f: Payload -> seq<S>, selected: seq<Item>, hot: Item)
    ensures forall i :: 0 <= i < |Extract([hot], f)| ==> i in Visited(Extract([hot], f), Hot, selected, Some(hot))
  {
  }
}
