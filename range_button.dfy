// utils/games_generator/control_elements/range_button.py: a number with a
// small "-" button on the left and a small "+" button on the right. A click in
// "-" lowers the number by the step but not below the minimum, a click in "+"
// raises it by the step but not above the maximum; the body shows the number.

module RangeButtons {
  import opened Geometry
  import Colors
  import Buttons

  /** `_SMALL_BUTTON_SIZE`. */
  const Small := 10

  class RangeButton {
    const minus: Buttons.Button
    const plus: Buttons.Button
    /** The body between the two small buttons. */
    const rect: Rect
    var color: Colors.Color
    var value: int
    const box: bool
    const step: int
    const minValue: int
    const maxValue: int

    /** The layout: "-" at (x, y + 5) and "+" at (x + w - 10, y + 5), both 10x10, gray and
        framed, and the body from x + 10 with width w - 20. */
    constructor (topLeft: Point, size: Point, color: Colors.Color, value: int, valueRange: (int, int), step: int, box: bool)
      ensures fresh(minus) && fresh(plus) && minus != plus
      ensures minus.rect == Rect(topLeft.x, topLeft.y + 5, Small, Small)
      ensures plus.rect == Rect(topLeft.x + size.x - Small, topLeft.y + 5, Small, Small)
      ensures minus.color == Colors.GRAY && plus.color == Colors.GRAY && minus.box && plus.box
      ensures minus.value == Buttons.Text("-") && plus.value == Buttons.Text("+")
      ensures rect == Rect(topLeft.x + Small, topLeft.y, size.x - 2 * Small, size.y)
      ensures this.color == color && this.value == value && this.box == box
      ensures this.step == step && minValue == valueRange.0 && maxValue == valueRange.1
      ensures LaidOut()
    {
      minus := new Buttons.Button(Point(topLeft.x, topLeft.y + 5), Point(Small, Small), Colors.GRAY, Buttons.Text("-"), true);
      plus := new Buttons.Button(Point(topLeft.x + size.x - Small, topLeft.y + 5), Point(Small, Small), Colors.GRAY, Buttons.Text("+"), true);
      rect := Rect(topLeft.x + Small, topLeft.y, size.x - 2 * Small, size.y);
      this.color := color;
      this.value := value;
      this.box := box;
      this.step := step;
      minValue, maxValue := valueRange.0, valueRange.1;
    }

    /** The small buttons sit at the body's two ends, 5 pixels down. */
    predicate LaidOut() {
      minus.rect == Rect(rect.x - Small, rect.y + 5, Small, Small) &&
      plus.rect == Rect(rect.x + rect.w, rect.y + 5, Small, Small)
    }

    /** The number after a click at p: first "-", then "+", each when the point is in it. */
    function Clicked(v: int, p: Point): (r: int) {
      var afterMinus := if minus.Click(p) then (if v - step > minValue then v - step else minValue) else v;
      if plus.Click(p) then (if afterMinus + step < maxValue then afterMinus + step else maxValue) else afterMinus
    }

    /** `set_value`: the value argument is ignored and the mouse position must be given. */
    method SetValue(mouse: Point, value: Buttons.Value)
      modifies this`value
      ensures this.value == Clicked(old(this.value), mouse)
    {
      if minus.Click(mouse) {
        this.value := if this.value - step > minValue then this.value - step else minValue;
      }
      if plus.Click(mouse) {
        this.value := if this.value + step < maxValue then this.value + step else maxValue;
      }
    }

    /** `click`: whether the point is in one of the small buttons. A point the widget does not
        take changes no number. */
    predicate Click(p: Point)
      ensures !Click(p) ==> forall v :: Clicked(v, p) == v
    {
      minus.Click(p) || plus.Click(p)
    }
  }

  /** A click in "-" alone gives max(v - step, min); one in "+" alone gives min(v + step, max);
      a click in neither keeps the number. */
  lemma ClickedEffect(b: RangeButton, v: int, p: Point)
    ensures b.minus.Click(p) && !b.plus.Click(p) ==>
      b.Clicked(v, p) == (if v - b.step > b.minValue then v - b.step else b.minValue)
    ensures b.plus.Click(p) && !b.minus.Click(p) ==>
      b.Clicked(v, p) == (if v + b.step < b.maxValue then v + b.step else b.maxValue)
    ensures !b.Click(p) ==> b.Clicked(v, p) == v
  {
  }

  /** With a non-negative step, a number within the range stays within it. */
  lemma ClickedInRange(b: RangeButton, v: int, p: Point)
    requires b.step >= 0 && b.minValue <= v <= b.maxValue
    ensures b.minValue <= b.Clicked(v, p) <= b.maxValue
  {
  }

  /** Each click moves the number by at most one step. */
  lemma ClickedBounded(b: RangeButton, v: int, p: Point)
    requires b.step >= 0 && b.minValue <= v <= b.maxValue
    ensures b.minus.Click(p) && !b.plus.Click(p) ==> v - b.step <= b.Clicked(v, p) <= v
    ensures b.plus.Click(p) && !b.minus.Click(p) ==> v <= b.Clicked(v, p) <= v + b.step
  {
  }

  /** On a button at least 20 wide the two small buttons do not overlap, so one click moves the
      number one way only. */
  lemma SmallButtonsApart(b: RangeButton, p: Point)
    requires b.LaidOut() && b.rect.w >= 0
    ensures !(b.minus.Click(p) && b.plus.Click(p))
  {
  }
}
