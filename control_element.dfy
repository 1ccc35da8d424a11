// utils/games_generator/control_elements/control_element.py: one row of the
// editor's panel, a 100-unit label with the element's name on the left and
// an inner control filling the rest of the row. Which control it is follows
// from the arguments given: a colour count makes a colour picker, an integer
// value with a range and a step makes a range button, a pick area makes a
// point picker, and anything else a plain button. Every row is entered, under
// its name, in a registry shared by all rows. Drawing and fonts are left out.

module ControlElements {
  import opened Collections
  import opened Geometry
  import Colors
  import Buttons
  import ColorButtons
  import RangeButtons
  import SelectPointButtons

  /** `_ELEMENT_WIDTH`: the width of the label. */
  const ElementWidth := 100

  /** Which inner control the arguments ask for. */
  datatype Kind = ColorKind | RangeKind | PointKind | PlainKind

  /** The inner control itself. */
  datatype Control =
    | ColorControl(c: ColorButtons.ColorButton)
    | RangeControl(r: RangeButtons.RangeButton)
    | PointControl(s: SelectPointButtons.SelectPointButton)
    | PlainControl(b: Buttons.Button)

  function KindOfControl(c: Control): Kind {
    match c
    case ColorControl(_) => ColorKind
    case RangeControl(_) => RangeKind
    case PointControl(_) => PointKind
    case PlainControl(_) => PlainKind
  }

  /** The constructor's tests in their order: a colour count first, then an integer value with a
      range pair and an integer step, then both corners of a pick area (any given tuple is truthy),
      and otherwise a plain button. */
  function Dispatch(nColors: Option<int>, value: Buttons.Value, valueRange: Option<(int, int)>, step: Option<int>,
                    areaTopLeft: Option<Point>, areaSize: Option<Point>): (k: Kind)
    ensures k == ColorKind <==> nColors.Some?
    ensures k == RangeKind <==> nColors.None? && value.Number? && valueRange.Some? && step.Some?
    ensures k == PointKind <==>
      nColors.None? && !(value.Number? && valueRange.Some? && step.Some?) && areaTopLeft.Some? && areaSize.Some?
  {
    if nColors.Some? then ColorKind
    else if value.Number? && valueRange.Some? && step.Some? then RangeKind
    else if areaSize.Some? && areaTopLeft.Some? then PointKind
    else PlainKind
  }

  /** A plain button is made exactly when none of the three special cases applies. */
  lemma PlainOtherwise(nColors: Option<int>, value: Buttons.Value, valueRange: Option<(int, int)>, step: Option<int>,
                       areaTopLeft: Option<Point>, areaSize: Option<Point>)
    ensures Dispatch(nColors, value, valueRange, step, areaTopLeft, areaSize) == PlainKind <==>
      nColors.None? && !(value.Number? && valueRange.Some? && step.Some?) && !(areaTopLeft.Some? && areaSize.Some?)
  {
  }

  /** A range or a step alone, without the other and an integer value, never makes a range button:
      the row then falls through to the pick area or a plain button. */
  lemma RangeNeedsAllThree(value: Buttons.Value, valueRange: Option<(int, int)>, step: Option<int>,
                           areaTopLeft: Option<Point>, areaSize: Option<Point>)
    requires !value.Number? || valueRange.None? || step.None?
    ensures Dispatch(None, value, valueRange, step, areaTopLeft, areaSize) ==
      (if areaTopLeft.Some? && areaSize.Some? then PointKind else PlainKind)
  {
  }

  /** `ControlElement.control_elements`: the inner control of the last row made under each name. */
  class Registry {
    var controls: map<string, Control>

    constructor ()
      ensures controls == map[]
    {
      controls := map[];
    }
  }

  class ControlElement {
    const rect: Rect
    var color: Colors.Color
    var value: Buttons.Value
    var box: bool
    /** The label: `Button((x, y), (100, h), value=element)`. */
    const element: Buttons.Button
    /** `self.button`. */
    const control: Control

    /** The inner control can take a click: a colour picker's swatches are distinct. */
    predicate Valid()
      reads this, if control.ColorControl? then {control.c} else {}
    {
      control.ColorControl? ==> NoDup(control.c.colorsButtons)
    }

    /** `ControlElement(element, top_left, size, color, n_colors, area_top_left, area_size, value,
        value_range, step, box)`. A colour picker needs a colour count from 1 to the palette
        length (`w // n_colors` and the palette lookup fail otherwise). */
    constructor (name: string, topLeft: Point, size: Point, color: Colors.Color, nColors: Option<int>,
                 areaTopLeft: Option<Point>, areaSize: Option<Point>, value: Buttons.Value,
                 valueRange: Option<(int, int)>, step: Option<int>, box: bool, registry: Registry)
      requires nColors.Some? ==> nColors.value != 0 && nColors.value <= 35
      modifies registry
      ensures rect == Rect(topLeft.x, topLeft.y, size.x, size.y)
      ensures this.color == color && this.value == value && this.box == box
      ensures KindOfControl(control) == Dispatch(nColors, value, valueRange, step, areaTopLeft, areaSize)
      ensures InnerRect() == Rect(topLeft.x + ElementWidth, topLeft.y, size.x - ElementWidth, size.y)
      ensures element.rect == Rect(topLeft.x, topLeft.y, ElementWidth, size.y)
      ensures element.value == Buttons.Text(name) && element.color == Colors.WHITE && !element.box
      ensures registry.controls == old(registry.controls)[name := control]
      ensures Valid()
    {
      rect := Rect(topLeft.x, topLeft.y, size.x, size.y);
      this.color := color;
      this.value := value;
      this.box := box;
      var at := Point(topLeft.x + ElementWidth, topLeft.y);
      var rest := Point(size.x - ElementWidth, size.y);
      var k := Dispatch(nColors, value, valueRange, step, areaTopLeft, areaSize);
      var inner: Control;
      if k == ColorKind {
        var c := new ColorButtons.ColorButton(at, rest, nColors.value, color);
        inner := ColorControl(c);
      } else if k == RangeKind {
        var r := new RangeButtons.RangeButton(at, rest, color, value.n, valueRange.value, step.value, box);
        inner := RangeControl(r);
      } else if k == PointKind {
        var s := new SelectPointButtons.SelectPointButton(at, rest, areaTopLeft.value, areaSize.value);
        inner := PointControl(s);
      } else {
        var b := new Buttons.Button(at, rest, color, value, box);
        inner := PlainControl(b);
      }
      control := inner;
      element := new Buttons.Button(topLeft, Point(ElementWidth, size.y), Colors.WHITE, Buttons.Text(name), false);
      new;
      registry.controls := registry.controls[name := control];
    }

    /** The rectangle the inner control was created with; a range button keeps only its body
        between the two small buttons, so its row is recovered from the small buttons' places. */
    function InnerRect(): Rect
      reads if control.ColorControl? then {control.c} else {}
    {
      match control
      case ColorControl(c) => c.rect
      case RangeControl(r) => Rect(r.minus.rect.x, r.rect.y, r.rect.w + 2 * RangeButtons.Small, r.rect.h)
      case PointControl(s) => s.rect
      case PlainControl(b) => b.rect
    }

    /** `click`, inherited from `Button`: the whole row's rectangle, label included. */
    predicate Click(p: Point)
      ensures Click(p) ==> rect.w > 0 && rect.h > 0
    {
      Contains(rect, p)
    }

    /** `get_value`, inherited from `Button`: the row's own value, the one passed to the
        constructor, and not the inner control's. */
    function GetValue(mouse: Option<Point>): (v: Buttons.Value)
      reads this
      ensures v == value
    {
      value
    }

    /** The objects a click may change in the inner control. */
    function Inner(): set<object>
      reads if control.ColorControl? then {control.c} else {}
    {
      match control
      case ColorControl(c) => set k | 0 <= k < |c.colorsButtons| :: c.colorsButtons[k]
      case RangeControl(r) => {r}
      case PointControl(s) => {s}
      case PlainControl(b) => {b}
    }

    /** `set_value`: both arguments go to the inner control unchanged. A range button needs the
        position (its small buttons test it). The shared queues of the colour and point pickers
        are passed explicitly. */
    method SetValue(mouse: Option<Point>, value: Buttons.Value, colorQueue: ColorButtons.WaitingQueue,
                    pointQueue: SelectPointButtons.PointQueue)
      requires Valid() && colorQueue.Valid() && pointQueue.Valid()
      requires control.RangeControl? ==> mouse.Some?
      modifies colorQueue, pointQueue, Inner()
      ensures Valid() && colorQueue.Valid() && pointQueue.Valid()
      ensures this.value == old(this.value)
      ensures !control.ColorControl? ==> colorQueue.waiting == old(colorQueue.waiting)
      ensures !control.PointControl? ==> pointQueue.waiting == old(pointQueue.waiting)
      ensures control.ColorControl? && mouse.Some? ==>
        colorQueue.waiting == ToggleEach(old(colorQueue.waiting), Buttons.Hit(control.c.colorsButtons, mouse.value))
      ensures control.ColorControl? && mouse.None? ==> colorQueue.waiting == old(colorQueue.waiting)
      ensures control.ColorControl? && mouse.None? ==> forall k :: 0 <= k < |control.c.colorsButtons| ==>
        control.c.colorsButtons[k].box == old(control.c.colorsButtons[k].box)
      ensures control.ColorControl? && mouse.Some? ==> forall k :: 0 <= k < |control.c.colorsButtons| ==>
        control.c.colorsButtons[k].box ==
          (if control.c.colorsButtons[k].Click(mouse.value) then control.c.colorsButtons[k] !in old(colorQueue.waiting)
           else old(control.c.colorsButtons[k].box))
      ensures control.ColorControl? ==> forall k :: 0 <= k < |control.c.colorsButtons| ==>
        control.c.colorsButtons[k].color == old(control.c.colorsButtons[k].color) &&
        control.c.colorsButtons[k].value == old(control.c.colorsButtons[k].value)
      ensures control.RangeControl? ==> control.r.value == control.r.Clicked(old(control.r.value), mouse.value)
      ensures control.PointControl? && value.Pair? ==>
        control.s.value == value && control.s.box == old(control.s.box) && pointQueue.waiting == old(pointQueue.waiting)
      ensures control.PointControl? && !value.Pair? ==> control.s.value == old(control.s.value)
      ensures control.PointControl? && !value.Pair? && mouse.Some? && control.s.Click(mouse.value) ==>
        pointQueue.waiting == Toggle(old(pointQueue.waiting), control.s) &&
        control.s.box == (control.s !in old(pointQueue.waiting))
      ensures control.PointControl? && !value.Pair? && !(mouse.Some? && control.s.Click(mouse.value)) ==>
        pointQueue.waiting == old(pointQueue.waiting) && control.s.box == old(control.s.box)
      ensures control.PlainControl? ==>
        control.b.value == (if value != Buttons.NoValue then value else old(control.b.value))
    {
      match control
      case ColorControl(c) => c.SetValue(mouse, value, colorQueue);
      case RangeControl(r) => r.SetValue(mouse.value, value);
      case PointControl(s) => s.SetValue(mouse, value, pointQueue);
      case PlainControl(b) => b.SetValue(mouse, value);
    }
  }

  /** A row at least as wide as its label is hit exactly where its label or the rectangle its
      inner control was made with is hit, which never both happens. */
  lemma RowIsLabelAndControl(e: ControlElement, p: Point)
    requires e.rect.w >= ElementWidth
    requires e.element.rect == Rect(e.rect.x, e.rect.y, ElementWidth, e.rect.h)
    requires e.InnerRect() == Rect(e.rect.x + ElementWidth, e.rect.y, e.rect.w - ElementWidth, e.rect.h)
    ensures e.Click(p) <==> e.element.Click(p) || Contains(e.InnerRect(), p)
    ensures !(e.element.Click(p) && Contains(e.InnerRect(), p))
  {
  }
}
