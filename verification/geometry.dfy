/** Points in model or device space and the size of the drawing surface. */
module Geometry {

  /** A point `{x, y}`; used for model points, device points and translations. */
  datatype Vec = Vec(x: real, y: real)
  {
    function Plus(o: Vec): Vec { Vec(x + o.x, y + o.y) }
  }

  /** The canvas element's `width` and `height` attributes. */
  datatype Canvas = Canvas(width: real, height: real)

  /** The square of the Euclidean distance between two points. `Math.sqrt` is
      monotone on non-negative reals, so comparing squares decides every
      comparison the source makes between distances. */
  function DistSq(a: Vec, b: Vec): (d: real)
    ensures d >= 0.0
    ensures a == b ==> d == 0.0
  {
    var dx := a.x - b.x;
    var dy := a.y - b.y;
    SquareSign(dx);
    SquareSign(dy);
    dx * dx + dy * dy
  }

  lemma SquareSign(r: real)
    ensures r * r >= 0.0
  {
    if r < 0.0 {
      assert r * r == (-r) * (-r);
    }
  }
}
