// utils/games_generator/control_elements/button.py: the editor's basic
// widget, a rectangle with a colour, a value and an optional frame. A click
// hits it when the pygame rectangle contains the point; `set_value` replaces the
// value unless it is given None; `get_value` returns it. Drawing and the font
// are left out.

module Buttons {
  import opened Collections
  import opened Geometry
  import Colors

  /** What a widget can hold as its `value`; `NoValue` is Python's None. A 2-tuple is a `Pair`. */
  datatype Value = NoValue | Text(s: string) | Number(n: int) | Pair(p: Point) | ColorValue(c: Colors.Color)

  class Button {
    /** `pygame.Rect(top_left, size)`; no widget moves a button after creating it. */
    const rect: Rect
    var color: Colors.Color
    var value: Value
    /** `_box`: whether a frame is drawn around the button. */
    var box: bool

    constructor (topLeft: Point, size: Point, color: Colors.Color, value: Value, box: bool)
      ensures rect == Rect(topLeft.x, topLeft.y, size.x, size.y)
      ensures this.color == color && this.value == value && this.box == box
    {
      rect := Rect(topLeft.x, topLeft.y, size.x, size.y);
      this.color := color;
      this.value := value;
      this.box := box;
    }

    /** `click`: the half-open containment of pygame's `collidepoint`. */
    predicate Click(p: Point) {
      Contains(rect, p)
    }

    /** `set_value`: the mouse position plays no part. */
    method SetValue(mouse: Option<Point>, value: Value)
      modifies this`value
      ensures value != NoValue ==> this.value == value
      ensures value == NoValue ==> this.value == old(this.value)
    {
      if value != NoValue {
        this.value := value;
      }
    }

    /** `get_value`: the mouse position plays no part. */
    function GetValue(mouse: Option<Point>): (v: Value)
      reads this
      ensures v == value
    {
      value
    }
  }

  /** The click test is exactly rectangle containment: the top-left corner is inside and the
      bottom-right corner is not. */
  lemma ClickCorners(b: Button)
    requires b.rect.w > 0 && b.rect.h > 0
    ensures b.Click(Point(b.rect.x, b.rect.y))
    ensures !b.Click(Point(b.rect.x + b.rect.w, b.rect.y + b.rect.h))
    ensures !b.Click(Point(b.rect.x - 1, b.rect.y))
  {
  }

  /** The rectangles of some buttons, in order. */
  function Rects(bs: seq<Button>): (r: seq<Rect>)
    ensures |r| == |bs| && forall i :: 0 <= i < |bs| ==> r[i] == bs[i].rect
  {
    seq(|bs|, i requires 0 <= i < |bs| => bs[i].rect)
  }

  lemma RectsAppend(bs: seq<Button>, cs: seq<Button>)
    ensures Rects(bs + cs) == Rects(bs) + Rects(cs)
  {
  }

  /** The buttons a click at p hits, in list order. */
  function Hit(bs: seq<Button>, p: Point): (r: seq<Button>)
    ensures |r| <= |bs|
    decreases |bs|
  {
    if bs == [] then []
    else Hit(bs[..|bs| - 1], p) + (if bs[|bs| - 1].Click(p) then [bs[|bs| - 1]] else [])
  }

  /** The hits are exactly the buttons that contain the point. */
  lemma {:induction false} HitMembers(bs: seq<Button>, p: Point)
    ensures forall i :: 0 <= i < |Hit(bs, p)| ==> Hit(bs, p)[i] in bs && Hit(bs, p)[i].Click(p)
    ensures forall i :: 0 <= i < |bs| && bs[i].Click(p) ==> bs[i] in Hit(bs, p)
    decreases |bs|
  {
    if bs != [] {
      var init := bs[..|bs| - 1];
      var last := bs[|bs| - 1];
      assert bs == init + [last];
      HitMembers(init, p);
    }
  }

  lemma HitSnoc(bs: seq<Button>, b: Button, p: Point)
    ensures Hit(bs + [b], p) == Hit(bs, p) + (if b.Click(p) then [b] else [])
  {
    assert (bs + [b])[..|bs|] == bs;
  }

  /** Among distinct buttons, the hits before position i are distinct and do not include button i. */
  lemma HitPrefix(bs: seq<Button>, i: int, p: Point)
    requires NoDup(bs) && 0 <= i < |bs|
    ensures NoDup(Hit(bs[..i], p)) && bs[i] !in Hit(bs[..i], p)
  {
    var init := bs[..i];
    assert NoDup(init) by {
      forall a, b | 0 <= a < b < |init| ensures init[a] != init[b] { assert init[a] == bs[a] && init[b] == bs[b]; }
    }
    HitNoDup(init, p);
    HitMembers(init, p);
  }

  /** Hits among distinct buttons are distinct. */
  lemma {:induction false} HitNoDup(bs: seq<Button>, p: Point)
    requires NoDup(bs)
    ensures NoDup(Hit(bs, p))
    decreases |bs|
  {
    if bs != [] {
      var init := bs[..|bs| - 1];
      var last := bs[|bs| - 1];
      assert NoDup(init) by {
        forall i, j | 0 <= i < j < |init| ensures init[i] != init[j] { assert init[i] == bs[i] && init[j] == bs[j]; }
      }
      HitNoDup(init, p);
      HitMembers(init, p);
      var h := Hit(init, p);
      if last.Click(p) {
        assert last !in init by {
          forall i | 0 <= i < |init| ensures init[i] != last { assert init[i] == bs[i]; }
        }
        var r := h + [last];
        forall i, j | 0 <= i < j < |r| ensures r[i] != r[j] {
          if j == |h| { assert r[i] in h; }
        }
      }
    }
  }
}
