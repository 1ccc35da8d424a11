// utils/games_generator/control_elements/color_button.py: a row of colour
// swatches. Clicking a swatch puts it into a queue shared by every colour button
// (or takes it out again, when it is already queued), and a colour picked
// elsewhere goes to the swatch at the front of the queue. The row can be
// rebuilt with another number of swatches; a swatch that survives keeps its
// colour, a new one takes the palette's colour at its position.

module ColorButtons {
  import opened Collections
  import opened Geometry
  import Colors
  import Buttons

  /** The class-wide `_waiting` list: swatches waiting for a colour, oldest first. */
  class WaitingQueue {
    var waiting: seq<Buttons.Button>

    constructor ()
      ensures waiting == []
    {
      waiting := [];
    }

    /** No swatch is queued twice. */
    predicate Valid()
      reads this
    {
      NoDup(waiting)
    }
  }

  class ColorButton {
    const rect: Rect
    var color: Colors.Color
    /** `_all_colors`: the palette, all colours in declaration order until a one-swatch reset
        with a colour gives this button a palette of its own. */
    var allColors: seq<Colors.Color>
    /** `colors_buttons`: the swatches. */
    var colorsButtons: seq<Buttons.Button>

    /** `ColorButton(top_left, size, n_colors, color)`: the constructor resets to n_colors swatches
        with `color`, so a single swatch takes that colour. */
    constructor (topLeft: Point, size: Point, nColors: int, color: Colors.Color)
      requires nColors != 0 && nColors <= 35
      ensures rect == Rect(topLeft.x, topLeft.y, size.x, size.y) && this.color == color
      ensures allColors == if nColors == 1 then [color] else Colors.All()
      ensures Swatches(nColors) && NoDup(colorsButtons)
      ensures forall i :: 0 <= i < |colorsButtons| ==> colorsButtons[i].color == allColors[i]
      ensures forall i :: 0 <= i < |colorsButtons| ==> fresh(colorsButtons[i])
    {
      rect := Rect(topLeft.x, topLeft.y, size.x, size.y);
      this.color := color;
      allColors := Colors.All();
      colorsButtons := [];
      new;
      ResetNColors(nColors, Some(color));
    }

    /** The swatches are n (or none, for n < 0) unframed buttons without a value, side by side
        from the top-left corner, each `w // n` wide. */
    predicate Swatches(n: int)
      requires n != 0
      reads this, colorsButtons
    {
      |colorsButtons| == (if n > 0 then n else 0) &&
      forall i :: 0 <= i < |colorsButtons| ==>
        colorsButtons[i].rect == Strip(rect.x, rect.y, FloorDiv(rect.w, n), rect.h, i) &&
        colorsButtons[i].value == Buttons.NoValue && !colorsButtons[i].box
    }

    /** `reset_n_colors`: n must not exceed the palette (the assertion) nor be 0 (the division). */
    method ResetNColors(n: int, color: Option<Colors.Color>)
      requires n != 0 && n <= |allColors|
      modifies this`allColors, this`colorsButtons
      ensures allColors == if n == 1 && color.Some? then [color.value] else old(allColors)
      ensures Swatches(n) && NoDup(colorsButtons)
      ensures forall i :: 0 <= i < |colorsButtons| ==> fresh(colorsButtons[i])
      ensures forall i :: 0 <= i < |colorsButtons| ==>
        colorsButtons[i].color == if i < |old(colorsButtons)| then old(colorsButtons[i].color) else allColors[i]
    {
      var previous := colorsButtons;
      if n == 1 && color.Some? {
        allColors := [color.value];
      }
      var w := FloorDiv(rect.w, n);
      var bs: seq<Buttons.Button> := [];
      var i := 0;
      while i < n
        invariant 0 <= i && |bs| == i && (n > 0 ==> i <= n) && (n <= 0 ==> i == 0)
        invariant n <= |allColors|
        invariant allColors == if n == 1 && color.Some? then [color.value] else old(allColors)
        invariant NoDup(bs)
        invariant forall k :: 0 <= k < i ==> fresh(bs[k])
        invariant forall k :: 0 <= k < i ==>
          bs[k].rect == Strip(rect.x, rect.y, w, rect.h, k) && bs[k].value == Buttons.NoValue && !bs[k].box
        invariant forall k :: 0 <= k < i ==>
          bs[k].color == if k < |previous| then previous[k].color else allColors[k]
      {
        var c := if i < |previous| then previous[i].color else allColors[i];
        var b := new Buttons.Button(Point(rect.x + w * i, rect.y), Point(w, rect.h), c, Buttons.NoValue, false);
        bs := bs + [b];
        i := i + 1;
      }
      colorsButtons := bs;
    }

    /** `set_value`: a click toggles every swatch it hits in the shared queue, framing the ones
        it queues and unframing the ones it takes out; the value argument is ignored. */
    method SetValue(mouse: Option<Point>, value: Buttons.Value, queue: WaitingQueue)
      requires NoDup(colorsButtons) && queue.Valid()
      modifies queue, colorsButtons
      ensures queue.Valid()
      ensures mouse.None? ==> queue.waiting == old(queue.waiting)
      ensures mouse.None? ==> forall k :: 0 <= k < |colorsButtons| ==> colorsButtons[k].box == old(colorsButtons[k].box)
      ensures mouse.Some? ==> queue.waiting == ToggleEach(old(queue.waiting), Buttons.Hit(colorsButtons, mouse.value))
      ensures mouse.Some? ==> forall k :: 0 <= k < |colorsButtons| ==>
        colorsButtons[k].box == (if colorsButtons[k].Click(mouse.value) then colorsButtons[k] !in old(queue.waiting)
                                 else old(colorsButtons[k].box))
      ensures forall k :: 0 <= k < |colorsButtons| ==> colorsButtons[k].color == old(colorsButtons[k].color)
      ensures forall k :: 0 <= k < |colorsButtons| ==> colorsButtons[k].value == old(colorsButtons[k].value)
    {
      if mouse.Some? {
        ClickAt(mouse.value, queue);
      }
    }

    /** `set_value`'s loop over the swatches for a click at p: every swatch hit is toggled, and
        its frame shows whether it was absent from the queue before the click. */
    method ClickAt(p: Point, queue: WaitingQueue)
      requires NoDup(colorsButtons) && queue.Valid()
      modifies queue, colorsButtons
      ensures queue.Valid()
      ensures queue.waiting == ToggleEach(old(queue.waiting), Buttons.Hit(colorsButtons, p))
      ensures forall k :: 0 <= k < |colorsButtons| ==>
        colorsButtons[k].box == (if colorsButtons[k].Click(p) then colorsButtons[k] !in old(queue.waiting)
                                 else old(colorsButtons[k].box))
      ensures forall k :: 0 <= k < |colorsButtons| ==> colorsButtons[k].color == old(colorsButtons[k].color)
      ensures forall k :: 0 <= k < |colorsButtons| ==> colorsButtons[k].value == old(colorsButtons[k].value)
    {
      var cb := colorsButtons;
      ghost var w0 := queue.waiting;
      ghost var queued := seq(|cb|, k requires 0 <= k < |cb| => cb[k] in w0);
      ghost var boxes := seq(|cb|, k requires 0 <= k < |cb| reads cb => cb[k].box);
      ghost var colors := seq(|cb|, k requires 0 <= k < |cb| reads cb => cb[k].color);
      ghost var hits := SweepSwatches(cb, p, queue, w0, queued, boxes, colors);
      assert cb[..|cb|] == cb;
      forall k | 0 <= k < |cb| ensures cb[k].box == (if cb[k].Click(p) then cb[k] !in w0 else old(cb[k].box)) {
        assert queued[k] == (cb[k] in w0) && boxes[k] == old(cb[k].box);
      }
    }

    /** `get_value`: without a position the first swatch's colour; with one, the colour of the
        first swatch containing it, or None. */
    function GetValue(mouse: Option<Point>): (r: Option<Colors.Color>)
      requires mouse.None? ==> |colorsButtons| > 0
      reads this, colorsButtons
      ensures mouse.None? ==> r == Some(colorsButtons[0].color)
      ensures mouse.Some? ==> (r.None? <==> forall i :: 0 <= i < |colorsButtons| ==> !colorsButtons[i].Click(mouse.value))
      ensures mouse.Some? && r.Some? ==>
        exists i :: 0 <= i < |colorsButtons| && colorsButtons[i].Click(mouse.value) &&
          r.value == colorsButtons[i].color && forall j :: 0 <= j < i ==> !colorsButtons[j].Click(mouse.value)
    {
      if mouse.None? then Some(colorsButtons[0].color)
      else
        var k := FirstHit(Buttons.Rects(colorsButtons), mouse.value);
        if k.None? then None
        else
          assert colorsButtons[k.value].Click(mouse.value);
          Some(colorsButtons[k.value].color)
    }
  }

  /** A click inside swatch i reads swatch i's colour, since swatches never overlap. */
  lemma GetValueOfSwatch(b: ColorButton, n: int, i: int, p: Point)
    requires n != 0 && b.Swatches(n) && 0 <= i < |b.colorsButtons| && b.colorsButtons[i].Click(p)
    ensures b.GetValue(Some(p)) == Some(b.colorsButtons[i].color)
  {
    var w := FloorDiv(b.rect.w, n);
    var k := FirstHit(Buttons.Rects(b.colorsButtons), p);
    if k.value != i {
      StripsDisjoint(b.rect.x, b.rect.y, w, b.rect.h, i, k.value, p);
    }
  }

  /** The loop itself, from the queue, the queue membership, the frames and the colours before
      it; it returns the swatches hit, in order. */
  method SweepSwatches(cb: seq<Buttons.Button>, p: Point, queue: WaitingQueue, ghost w0: seq<Buttons.Button>,
                       ghost queued: seq<bool>, ghost boxes: seq<bool>, ghost colors: seq<Colors.Color>)
      returns (ghost hits: seq<Buttons.Button>)
    requires NoDup(cb) && |queued| == |cb| && forall k :: 0 <= k < |cb| ==> queued[k] == (cb[k] in w0)
    requires Swept(cb, 0, p, queue, w0, [], queued, boxes, colors)
    modifies queue, cb`box
    ensures Swept(cb, |cb|, p, queue, w0, hits, queued, boxes, colors)
  {
    hits := [];
    var i := 0;
    while i < |cb|
      invariant Swept(cb, i, p, queue, w0, hits, queued, boxes, colors)
    {
      hits := VisitSwatch(cb, i, cb[i], p, queue, w0, hits, queued, boxes, colors);
      i := i + 1;
    }
  }

  /** The state after `set_value`'s loop has looked at the first i swatches: the hits so far are
      toggled in the queue, exactly they have their frames flipped, and no colour changed. */
  ghost predicate Swept(cb: seq<Buttons.Button>, i: int, p: Point, queue: WaitingQueue,
                        w0: seq<Buttons.Button>, hits: seq<Buttons.Button>,
                        queued: seq<bool>, boxes: seq<bool>, colors: seq<Colors.Color>)
    reads queue, cb
  {
    0 <= i <= |cb| && |queued| == |boxes| == |colors| == |cb| && queue.Valid() &&
    hits == Buttons.Hit(cb[..i], p) && queue.waiting == ToggleEach(w0, hits) &&
    (forall k :: 0 <= k < |cb| ==> cb[k].box == (if k < i && cb[k].Click(p) then !queued[k] else boxes[k])) &&
    (forall k :: 0 <= k < |cb| ==> cb[k].color == colors[k])
  }

  /** One turn of `set_value`'s loop, on swatch i. The ghost parameters are the queue, the
      queue membership, the frames and the colours before the loop, and the hits so far. */
  method VisitSwatch(cb: seq<Buttons.Button>, i: int, b: Buttons.Button, p: Point, queue: WaitingQueue,
                     ghost w0: seq<Buttons.Button>, ghost hits: seq<Buttons.Button>,
                     ghost queued: seq<bool>, ghost boxes: seq<bool>, ghost colors: seq<Colors.Color>)
      returns (ghost hits': seq<Buttons.Button>)
    requires NoDup(cb) && 0 <= i < |cb| && b == cb[i] && |queued| == |cb|
    requires forall k :: 0 <= k < |cb| ==> queued[k] == (cb[k] in w0)
    requires Swept(cb, i, p, queue, w0, hits, queued, boxes, colors)
    modifies queue, b`box
    ensures Swept(cb, i + 1, p, queue, w0, hits', queued, boxes, colors)
  {
    VisitHits(cb, i, p, w0, hits, queue.waiting);
    hits' := hits;
    if b.Click(p) {
      ToggleSwatch(b, queue);
      hits' := hits + [b];
    }
  }

  /** What one turn of the loop does to the hits and to the queue, as values: a hit swatch is new
      to the hits, so its membership in the queue is still the one before the loop. */
  lemma VisitHits(cb: seq<Buttons.Button>, i: int, p: Point, w0: seq<Buttons.Button>,
                  hits: seq<Buttons.Button>, w: seq<Buttons.Button>)
    requires NoDup(cb) && 0 <= i < |cb| && NoDup(w) && hits == Buttons.Hit(cb[..i], p) && w == ToggleEach(w0, hits)
    ensures Buttons.Hit(cb[..i + 1], p) == hits + (if cb[i].Click(p) then [cb[i]] else [])
    ensures ToggleEach(w0, hits + [cb[i]]) == Toggle(w, cb[i])
    ensures cb[i].Click(p) ==> (cb[i] in w <==> cb[i] in w0) && NoDup(Toggle(w, cb[i]))
  {
    var b := cb[i];
    Buttons.HitSnoc(cb[..i], b, p);
    assert cb[..i + 1] == cb[..i] + [b];
    ToggleEachSnoc(w0, hits, b);
    if b.Click(p) {
      Buttons.HitPrefix(cb, i, p);
      ToggleEachOther(w0, hits, b);
      ToggleNoDup(w, b);
    }
  }

  /** The body of `set_value`'s loop for a swatch the click hits: absent, it is framed and queued;
      queued, it leaves the queue and loses its frame. */
  method ToggleSwatch(b: Buttons.Button, queue: WaitingQueue)
    requires queue.Valid()
    modifies queue, b`box
    ensures queue.waiting == Toggle(old(queue.waiting), b)
    ensures b.box == (b !in old(queue.waiting))
  {
    if b !in queue.waiting {
      b.box := true;
      queue.waiting := queue.waiting + [b];
    } else {
      queue.waiting := RemoveFirst(queue.waiting, b);
      b.box := false;
    }
  }

  /** `set_waiting`: a colour given while swatches wait goes to the front one, which leaves the
      queue and loses its frame; otherwise nothing changes. */
  method SetWaiting(queue: WaitingQueue, value: Option<Colors.Color>)
    modifies queue, if queue.waiting != [] then {queue.waiting[0]} else {}
    ensures value.Some? && old(queue.waiting) != [] ==>
      queue.waiting == old(queue.waiting)[1..] &&
      old(queue.waiting)[0].color == value.value && !old(queue.waiting)[0].box &&
      old(queue.waiting)[0].value == old(queue.waiting[0].value)
    ensures !(value.Some? && old(queue.waiting) != []) ==> queue.waiting == old(queue.waiting)
    ensures old(queue.waiting) != [] && value.None? ==> unchanged(old(queue.waiting)[0])
  {
    if value.Some? && queue.waiting != [] {
      var b := queue.waiting[0];
      queue.waiting := queue.waiting[1..];
      b.box := false;
      b.color := value.value;
    }
  }

  /** Clicks keep the shared queue free of duplicates, and so do colours handed out. */
  lemma QueueStaysDistinct(w: seq<Buttons.Button>, hits: seq<Buttons.Button>)
    requires NoDup(w) && NoDup(hits)
    ensures NoDup(ToggleEach(w, hits))
    ensures w != [] ==> NoDup(w[1..])
  {
    ToggleEachMembership(w, hits);
    if w != [] {
      var t := w[1..];
      forall i, j | 0 <= i < j < |t| ensures t[i] != t[j] { assert t[i] == w[i + 1] && t[j] == w[j + 1]; }
    }
  }
}
