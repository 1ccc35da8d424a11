// utils/games_generator/control_elements/color_range_button.py: a row of one
// swatch per palette colour, in palette order, splitting the button's width
// evenly (Python's `//`). A click returns the colour of the first swatch that
// contains it; no position or a miss gives None. Nothing in it changes after
// construction, so it is a value here. Drawing is left out.

module ColorRangeButtons {
  import opened Collections
  import opened Geometry
  import Colors

  datatype Swatch = Swatch(rect: Rect, color: Colors.Color)

  datatype ColorRangeButton = ColorRangeButton(rect: Rect, swatches: seq<Swatch>)

  /** The width of one swatch of a button w wide. */
  function SwatchWidth(w: int): int {
    FloorDiv(w, |Colors.All()|)
  }

  /** `ColorRangeButton(top_left, size)`: swatch i is the i-th strip of the row and has the i-th
      palette colour. */
  function Make(topLeft: Point, size: Point): (b: ColorRangeButton)
    ensures b.rect == Rect(topLeft.x, topLeft.y, size.x, size.y)
    ensures |b.swatches| == |Colors.All()|
    ensures forall i :: 0 <= i < |b.swatches| ==>
      b.swatches[i].rect == Strip(topLeft.x, topLeft.y, SwatchWidth(size.x), size.y, i) &&
      b.swatches[i].color == Colors.All()[i]
  {
    var all := Colors.All();
    var w := SwatchWidth(size.x);
    ColorRangeButton(Rect(topLeft.x, topLeft.y, size.x, size.y),
                     seq(|all|, i requires 0 <= i < |all| => Swatch(Strip(topLeft.x, topLeft.y, w, size.y, i), all[i])))
  }

  function SwatchRects(ss: seq<Swatch>): (r: seq<Rect>)
    ensures |r| == |ss| && forall i :: 0 <= i < |ss| ==> r[i] == ss[i].rect
  {
    seq(|ss|, i requires 0 <= i < |ss| => ss[i].rect)
  }

  /** `get_value`: None without a position; otherwise the colour of the first swatch containing
      it, or None when there is none. */
  function GetValue(b: ColorRangeButton, mouse: Option<Point>): (r: Option<Colors.Color>)
    ensures mouse.None? ==> r.None?
    ensures mouse.Some? ==> (r.None? <==> forall i :: 0 <= i < |b.swatches| ==> !Contains(b.swatches[i].rect, mouse.value))
    ensures mouse.Some? && r.Some? ==>
      exists i :: 0 <= i < |b.swatches| && Contains(b.swatches[i].rect, mouse.value) &&
        r.value == b.swatches[i].color && forall j :: 0 <= j < i ==> !Contains(b.swatches[j].rect, mouse.value)
  {
    if mouse.None? then None
    else
      var k := FirstHit(SwatchRects(b.swatches), mouse.value);
      if k.None? then None else Some(b.swatches[k.value].color)
  }

  /** Every palette colour has exactly one swatch. */
  lemma EachColourOnce(topLeft: Point, size: Point, c: Colors.Color)
    ensures var ss := Make(topLeft, size).swatches;
      exists i :: 0 <= i < |ss| && ss[i].color == c && forall j :: 0 <= j < |ss| && ss[j].color == c ==> j == i
  {
    var ss := Make(topLeft, size).swatches;
    Colors.AllComplete(c);
    Colors.AllNoDup();
    var i := Colors.Index(c);
    assert ss[i].color == c;
  }

  /** A click inside swatch i of a freshly made button gives colour i: no earlier swatch
      overlaps it. */
  lemma ClickSwatch(topLeft: Point, size: Point, i: int, p: Point)
    requires 0 <= i < |Colors.All()|
    requires Contains(Strip(topLeft.x, topLeft.y, SwatchWidth(size.x), size.y, i), p)
    ensures GetValue(Make(topLeft, size), Some(p)) == Some(Colors.All()[i])
  {
    var b := Make(topLeft, size);
    var w := SwatchWidth(size.x);
    var k := FirstHit(SwatchRects(b.swatches), p);
    assert k.Some?;
    if k.value != i {
      StripsDisjoint(topLeft.x, topLeft.y, w, size.y, i, k.value, p);
    }
  }

  /** The swatch a click lands on is the one its offset from the left edge, divided by the swatch
      width, names, as long as the click is inside the row of swatches. */
  lemma ClickColumn(topLeft: Point, size: Point, p: Point)
    requires SwatchWidth(size.x) > 0
    requires topLeft.x <= p.x < topLeft.x + |Colors.All()| * SwatchWidth(size.x)
    requires topLeft.y <= p.y < topLeft.y + size.y
    ensures 0 <= FloorDiv(p.x - topLeft.x, SwatchWidth(size.x)) < |Colors.All()|
    ensures GetValue(Make(topLeft, size), Some(p)) ==
      Some(Colors.All()[FloorDiv(p.x - topLeft.x, SwatchWidth(size.x))])
  {
    var w := SwatchWidth(size.x);
    var n := |Colors.All()|;
    var i := FloorDiv(p.x - topLeft.x, w);
    assert i * w <= p.x - topLeft.x < i * w + w;
    assert w * i == i * w;
    ClickSwatch(topLeft, size, i, p);
  }

  /** The swatches fill the button from its left edge: all of them fit in its width, and no more
      than the width's remainder (under 35 units) is left over on the right. */
  lemma SwatchesFit(topLeft: Point, size: Point)
    requires size.x >= 0
    ensures var w := SwatchWidth(size.x);
      0 <= size.x - |Colors.All()| * w < |Colors.All()|
  {
    var n := |Colors.All()|;
    var w := SwatchWidth(size.x);
    assert w * n <= size.x < w * n + n;
  }
}
