/** The edits the interactive view sends back to the pipeline: each builds a
    new initial input stream from the current one (`translatePointInStream`,
    `adjustRealInStream`, `subdivideItem`). */
module StreamRewrite {
  import opened Prelude
  import opened Geometry
  import opened Extraction

  /** The payloads of a stream, in order. */
  function Payloads(items: seq<Item>): (r: seq<Payload>)
    ensures |r| == |items|
    ensures forall i :: 0 <= i < |items| ==> r[i] == items[i].payload
  {
    seq(|items|, i requires 0 <= i < |items| => items[i].payload)
  }

  /** Every item's identity is below `n`: no identity from `n` up is in use. */
  predicate IdsBelow(items: seq<Item>, n: nat)
  {
    forall i :: 0 <= i < |items| ==> items[i].id < n
  }

  lemma IdsBelowMono(items: seq<Item>, m: nat, n: nat)
    requires IdsBelow(items, m) && m <= n
    ensures IdsBelow(items, n)
  {
  }

  /** The least counter, from `n` up, that no identity in `items` reaches:
      either `n` itself or one past an identity in use. */
  function FreshAbove(items: seq<Item>, n: nat): (m: nat)
    ensures n <= m && IdsBelow(items, m)
    ensures m == n || exists i :: 0 <= i < |items| && items[i].id == m - 1
    decreases |items|
  {
    if |items| == 0 then n
    else
      var k := |items| - 1;
      var rest := FreshAbove(items[..k], n);
      assert forall i :: 0 <= i < k ==> items[..k][i] == items[i];
      if items[k].id < rest then rest else items[k].id + 1
  }

  /** Wrapping payloads in new stream items (`NLStreamItem`): each gets a
      fresh identity, counted up from `nextId`, so no two new items share
      one and every one is at or above `nextId`. */
  function Restream(objs: seq<Payload>, nextId: nat): (items: seq<Item>)
    ensures Payloads(items) == objs
    ensures forall i :: 0 <= i < |items| ==> items[i].id == nextId + i
    ensures forall i, j :: 0 <= i < j < |items| ==> items[i] != items[j]
    ensures IdsBelow(items, nextId + |objs|)
  {
    seq(|objs|, i requires 0 <= i < |objs| => Item(nextId + i, objs[i]))
  }

  /** `NLObjectMovePoint(object, fromX, fromY, toX, toY)`. */
  type MovePoint = (Payload, real, real, real, real) -> Payload

  /** `translatePointInStream`: move the point `p` by `(dx, dy)` in every
      payload of the initial input stream. */
  function TranslatePointObjects(initial: seq<Item>, p: Vec, dx: real, dy: real, move: MovePoint): (r: seq<Payload>)
    ensures |r| == |initial|
    ensures forall i :: 0 <= i < |r| ==> r[i] == move(initial[i].payload, p.x, p.y, p.x + dx, p.y + dy)
  {
    seq(|initial|, i requires 0 <= i < |initial| => move(initial[i].payload, p.x, p.y, p.x + dx, p.y + dy))
  }

  /** A drag by `(0, 0)` leaves every payload as it was, provided moving a
      point onto itself changes nothing. */
  lemma NullTranslateKeepsPayloads(initial: seq<Item>, p: Vec, move: MovePoint)
    requires forall o: Payload, x: real, y: real :: move(o, x, y, x, y) == o
    ensures TranslatePointObjects(initial, p, 0.0, 0.0, move) == Payloads(initial)
  {
    var r := TranslatePointObjects(initial, p, 0.0, 0.0, move);
    assert forall i :: 0 <= i < |r| ==> r[i] == move(initial[i].payload, p.x, p.y, p.x, p.y);
  }

  /** `adjustRealInStream`: add `delta` to the scalar at the item's position.
      The position is looked up in this stage's `stream` and applied to the
      pipeline's initial input stream; when the item is not in `stream` the
      index is -1 and nothing is adjusted. */
  function AdjustRealObjects(stream: seq<Item>, initial: seq<Item>, item: Item, delta: real,
                             box: real -> Payload, unbox: Payload -> real): (r: seq<Payload>)
    ensures |r| == |initial|
    ensures forall i :: 0 <= i < |initial| && i != IndexOf(stream, item) ==> r[i] == initial[i].payload
    ensures 0 <= IndexOf(stream, item) < |initial| ==>
              r[IndexOf(stream, item)] == box(unbox(initial[IndexOf(stream, item)].payload) + delta)
  {
    var index := IndexOf(stream, item);
    seq(|initial|, i requires 0 <= i < |initial| =>
      if i != index then initial[i].payload else box(unbox(initial[i].payload) + delta))
  }

  /** Read back as numbers, the adjusted stream differs from the initial one
      by `delta` at the item's position and nowhere else; a `delta` of 0
      changes no value. */
  lemma AdjustRealValues(stream: seq<Item>, initial: seq<Item>, item: Item, delta: real,
                         box: real -> Payload, unbox: Payload -> real, i: nat)
    requires forall v: real :: unbox(box(v)) == v
    requires i < |initial|
    ensures var r := AdjustRealObjects(stream, initial, item, delta, box, unbox);
            unbox(r[i]) == unbox(initial[i].payload) + (if i == IndexOf(stream, item) then delta else 0.0)
  {
  }

  /** An item missing from the stage's stream leaves the payloads as they were. */
  lemma AdjustMissingItem(stream: seq<Item>, initial: seq<Item>, item: Item, delta: real,
                          box: real -> Payload, unbox: Payload -> real)
    requires item !in stream
    ensures AdjustRealObjects(stream, initial, item, delta, box, unbox) == Payloads(initial)
  {
  }

  /** `subdivideItem`: the item's payload is replaced, in place, by the pieces
      `NLObjectSubdivide` cuts it into; every other payload is kept. */
  function SubdivideObjects(initial: seq<Item>, item: Item, subdivide: Payload -> seq<Payload>): (r: seq<Payload>)
    ensures item !in initial ==> r == Payloads(initial)
    decreases |initial|
  {
    if |initial| == 0 then []
    else
      var head := if initial[0] == item then subdivide(initial[0].payload) else [initial[0].payload];
      var rest := SubdivideObjects(initial[1..], item, subdivide);
      assert Payloads(initial) == [initial[0].payload] + Payloads(initial[1..]);
      head + rest
  }

  /** Subdividing distributes over concatenation, so the order of the
      untouched payloads is kept. */
  lemma {:induction false} SubdivideAppend(a: seq<Item>, b: seq<Item>, item: Item, subdivide: Payload -> seq<Payload>)
    ensures SubdivideObjects(a + b, item, subdivide) == SubdivideObjects(a, item, subdivide) + SubdivideObjects(b, item, subdivide)
    decreases |a|
  {
    if |a| == 0 {
      assert a + b == b;
    } else {
      assert (a + b)[1..] == a[1..] + b;
      SubdivideAppend(a[1..], b, item, subdivide);
    }
  }

  /** An item that occurs once, at position `k`, is replaced by its pieces
      exactly there: the payloads before and after it are unchanged. */
  lemma SubdivideInPlace(initial: seq<Item>, item: Item, subdivide: Payload -> seq<Payload>, k: nat)
    requires k < |initial| && initial[k] == item
    requires item !in initial[..k] && item !in initial[k + 1..]
    ensures SubdivideObjects(initial, item, subdivide) ==
            Payloads(initial[..k]) + subdivide(item.payload) + Payloads(initial[k + 1..])
  {
    assert initial == initial[..k] + ([initial[k]] + initial[k + 1..]);
    SubdivideAppend(initial[..k], [initial[k]] + initial[k + 1..], item, subdivide);
    SubdivideAppend([initial[k]], initial[k + 1..], item, subdivide);
    assert SubdivideObjects([initial[k]], item, subdivide) == subdivide(item.payload) by {
      assert [initial[k]][1..] == [];
    }
  }
}
