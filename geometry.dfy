// Integer screen geometry: points, pygame-style rectangles with half-open
// `collidepoint`, the four edges of a rectangle as line segments, and the
// first-match search over a row of rectangles that several widgets share.

module Geometry {
  import opened Collections

  datatype Point = Point(x: int, y: int)

  /** A pygame `Rect(x, y, w, h)`. */
  datatype Rect = Rect(x: int, y: int, w: int, h: int)

  /** `Rect.collidepoint`: the left and top sides are inside, the right and bottom sides are not. */
  predicate Contains(r: Rect, p: Point) {
    r.x <= p.x < r.x + r.w && r.y <= p.y < r.y + r.h
  }

  /** A drawn line `[a, b]`; two segments are equal only with the same orientation. */
  datatype Segment = Segment(a: Point, b: Point)

  function TopEdge(r: Rect): Segment { Segment(Point(r.x, r.y), Point(r.x + r.w, r.y)) }
  function LeftEdge(r: Rect): Segment { Segment(Point(r.x, r.y), Point(r.x, r.y + r.h)) }
  function RightEdge(r: Rect): Segment { Segment(Point(r.x + r.w, r.y), Point(r.x + r.w, r.y + r.h)) }
  function BottomEdge(r: Rect): Segment { Segment(Point(r.x, r.y + r.h), Point(r.x + r.w, r.y + r.h)) }

  /** A rectangle of positive size has four different edges. */
  lemma EdgesDistinct(r: Rect)
    requires r.w != 0 && r.h != 0
    ensures NoDup([LeftEdge(r), TopEdge(r), RightEdge(r), BottomEdge(r)])
  {
  }

  /** The right edge of a tile is the left edge of the tile right of it, and the bottom edge
      is the top edge of the tile below, orientation included. */
  lemma NeighbourEdgesAgree(x: int, y: int, w: int, h: int)
    ensures RightEdge(Rect(x, y, w, h)) == LeftEdge(Rect(x + w, y, w, h))
    ensures BottomEdge(Rect(x, y, w, h)) == TopEdge(Rect(x, y + h, w, h))
  {
  }

  /** Index of the first rectangle containing p, as a `for ... if collidepoint: return` loop finds it. */
  function FirstHit(rects: seq<Rect>, p: Point): (r: Option<nat>)
    ensures r.Some? ==> r.value < |rects| && Contains(rects[r.value], p)
    ensures r.Some? ==> forall i :: 0 <= i < r.value ==> !Contains(rects[i], p)
    ensures r.None? <==> forall i :: 0 <= i < |rects| ==> !Contains(rects[i], p)
  {
    if |rects| == 0 then None
    else if Contains(rects[0], p) then Some(0)
    else
      var rest := FirstHit(rects[1..], p);
      assert forall i :: 1 <= i < |rects| ==> rects[i] == rects[1..][i - 1];
      if rest.None? then None else Some(rest.value + 1)
  }

  /** Rectangles no point lies in twice. */
  ghost predicate Disjoint(rects: seq<Rect>) {
    forall i, j, p :: 0 <= i < j < |rects| && Contains(rects[i], p) ==> !Contains(rects[j], p)
  }

  /** Python's `//` (rounds toward negative infinity); Dafny's `/` is Euclidean. */
  function FloorDiv(a: int, b: int): (q: int)
    requires b != 0
    ensures b > 0 ==> q * b <= a < q * b + b
    ensures b < 0 ==> q * b >= a > q * b + b
  {
    if b > 0 then a / b
    else if a % b == 0 then a / b
    else a / b - 1
  }

  /** Swatch i of a row of equal swatches of width w starting at (x, y). */
  function Strip(x: int, y: int, w: int, h: int, i: int): Rect {
    Rect(x + w * i, y, w, h)
  }

  /** Swatches of one row never overlap, so a point is in at most one of them. */
  lemma StripsDisjoint(x: int, y: int, w: int, h: int, i: int, j: int, p: Point)
    requires i != j && Contains(Strip(x, y, w, h, i), p)
    ensures !Contains(Strip(x, y, w, h, j), p)
  {
    assert w > 0;
    var lo, hi := if i < j then i else j, if i < j then j else i;
    var d := hi - lo - 1;
    assert d >= 0;
    assert w * hi == w * lo + w + w * d;
    assert w * d >= 0;
  }

  /** Neighbouring swatches touch: each one ends where the next begins. */
  lemma StripsContiguous(x: int, y: int, w: int, h: int, i: int)
    ensures Strip(x, y, w, h, i).x + w == Strip(x, y, w, h, i + 1).x
  {
  }
}
