// utils/games_generator/control_elements/tiles.py: a grid of square tiles over
// a frame. Clicking a tile adds it to the border (painted in the border colour)
// or takes it out again (painted in the tile colour), and toggles each of its
// four edges in the list of drawn lines, so an edge two border tiles share
// disappears and the lines outline the painted region.

module Tiles {
  import opened Collections
  import opened Geometry
  import Colors
  import Buttons

  /** The edges of a tile in the order the click handler toggles them. */
  function TileEdges(r: Rect): seq<Segment> {
    [LeftEdge(r), TopEdge(r), RightEdge(r), BottomEdge(r)]
  }

  /** The four lines `reset_size` draws around the frame (top, left, right, bottom). */
  function FrameLines(topLeft: Point, size: Point): seq<Segment> {
    var r := Rect(topLeft.x, topLeft.y, size.x, size.y);
    [TopEdge(r), LeftEdge(r), RightEdge(r), BottomEdge(r)]
  }

  /** The edges of some tiles, tile after tile. */
  function EdgesOf(bs: seq<Buttons.Button>): (r: seq<Segment>)
    ensures |r| == 4 * |bs|
    decreases |bs|
  {
    if bs == [] then [] else EdgesOf(bs[..|bs| - 1]) + TileEdges(bs[|bs| - 1].rect)
  }

  lemma EdgesOfSnoc(bs: seq<Buttons.Button>, b: Buttons.Button)
    ensures EdgesOf(bs + [b]) == EdgesOf(bs) + TileEdges(b.rect)
  {
    assert (bs + [b])[..|bs|] == bs;
  }

  /** The tiles of one column x, one per y. */
  function Column(x: int, ys: seq<int>, step: int): (r: seq<Rect>)
    ensures |r| == |ys| && forall j :: 0 <= j < |ys| ==> r[j] == Rect(x, ys[j], step, step)
  {
    seq(|ys|, j requires 0 <= j < |ys| => Rect(x, ys[j], step, step))
  }

  /** The tiles of the grid xs × ys, x in the outer loop. */
  function Grid(xs: seq<int>, ys: seq<int>, step: int): (r: seq<Rect>)
    ensures |r| == |xs| * |ys|
    decreases |xs|
  {
    if xs == [] then []
    else
      var g := Grid(xs[..|xs| - 1], ys, step);
      assert |g| + |ys| == (|xs| - 1) * |ys| + |ys| == |xs| * |ys|;
      g + Column(xs[|xs| - 1], ys, step)
  }

  /** The offsets of grid point (a, b): inside the grid, and inside its first n - 1 columns unless a
      is the last column, where it is b past them. */
  lemma GridOffset(a: int, b: int, n: int, m: int)
    requires 0 <= a < n && 0 <= b < m
    ensures 0 <= a * m + b < n * m
    ensures a < n - 1 ==> a * m + b < (n - 1) * m
    ensures a == n - 1 ==> a * m + b == (n - 1) * m + b
  {
    var d := n - 1 - a;
    assert n * m == a * m + m + d * m;
    assert d * m >= 0;
    assert a * m >= 0;
    if a < n - 1 {
      assert (n - 1) * m == a * m + m + (d - 1) * m;
      assert (d - 1) * m >= 0;
    }
  }

  /** Grid point (a, b) is tile a·|ys| + b. */
  lemma {:induction false} GridIndex(xs: seq<int>, ys: seq<int>, step: int, a: int, b: int)
    requires 0 <= a < |xs| && 0 <= b < |ys|
    ensures 0 <= a * |ys| + b < |xs| * |ys|
    ensures Grid(xs, ys, step)[a * |ys| + b] == Rect(xs[a], ys[b], step, step)
    decreases |xs|
  {
    var n, m := |xs|, |ys|;
    var init := xs[..n - 1];
    var g := Grid(init, ys, step);
    var k := a * m + b;
    GridOffset(a, b, n, m);
    assert Grid(xs, ys, step) == g + Column(xs[n - 1], ys, step);
    if a < n - 1 {
      GridIndex(init, ys, step, a, b);
      assert init[a] == xs[a];
      assert Grid(xs, ys, step)[k] == g[k];
    } else {
      assert Grid(xs, ys, step)[k] == Column(xs[n - 1], ys, step)[b];
    }
  }

  class TileButton {
    const rect: Rect
    var color: Colors.Color
    var tileColor: Colors.Color
    var borderColor: Colors.Color
    const step: int
    var tiles: seq<Buttons.Button>
    /** The selected tiles, in the order they were selected. */
    var border: seq<Buttons.Button>
    var borderLines: seq<Segment>

    /** Every tile appears once, and so does every selected tile. */
    predicate Valid()
      reads this
    {
      NoDup(tiles) && NoDup(border)
    }

    /** A tile has the border colour when it is selected and the tile colour otherwise. */
    predicate ColoursAgree()
      reads this, tiles
    {
      forall k :: 0 <= k < |tiles| ==> tiles[k].color == (if tiles[k] in border then borderColor else tileColor)
    }

    /** `TileButton(top_left, size, step, tile_color, border_color)`: a white button over the frame
        that resets to a fresh grid. `range` refuses a zero step. */
    constructor (topLeft: Point, size: Point, step: int, tileColor: Colors.Color, borderColor: Colors.Color)
      requires step != 0
      ensures rect == Rect(topLeft.x, topLeft.y, size.x, size.y) && color == Colors.WHITE
      ensures this.step == step && this.tileColor == tileColor && this.borderColor == borderColor
      ensures Buttons.Rects(tiles) ==
        Grid(Range(topLeft.x, topLeft.x + size.x, step), Range(topLeft.y, topLeft.y + size.y, step), step)
      ensures border == [] && borderLines == FrameLines(topLeft, size)
      ensures Valid() && ColoursAgree()
    {
      rect := Rect(topLeft.x, topLeft.y, size.x, size.y);
      color := Colors.WHITE;
      this.step := step;
      this.tileColor := tileColor;
      this.borderColor := borderColor;
      tiles, border, borderLines := [], [], [];
      new;
      ResetSize(topLeft, size);
    }

    /** `reset_size`: one fresh framed step×step tile in the tile colour per grid point of the
        frame, x in the outer loop, nothing selected, and the frame's four lines. */
    method ResetSize(topLeft: Point, size: Point)
      requires step != 0
      modifies this`tiles, this`border, this`borderLines
      ensures Buttons.Rects(tiles) ==
        Grid(Range(topLeft.x, topLeft.x + size.x, step), Range(topLeft.y, topLeft.y + size.y, step), step)
      ensures forall k :: 0 <= k < |tiles| ==> fresh(tiles[k])
      ensures forall k :: 0 <= k < |tiles| ==>
        tiles[k].color == tileColor && tiles[k].box && tiles[k].value == Buttons.NoValue
      ensures border == [] && borderLines == FrameLines(topLeft, size)
      ensures Valid() && ColoursAgree()
    {
      var xs := Range(topLeft.x, topLeft.x + size.x, step);
      var ys := Range(topLeft.y, topLeft.y + size.y, step);
      tiles := NewGrid(xs, ys, step, tileColor);
      border := [];
      borderLines := FrameLines(topLeft, size);
    }

    /** `reset_color`: without colours nothing changes; otherwise the colours given replace the old
        ones and every tile is repainted by whether it is selected. */
    method ResetColor(newTile: Option<Colors.Color>, newBorder: Option<Colors.Color>)
      requires Valid()
      modifies this`tileColor, this`borderColor, tiles
      ensures Valid()
      ensures newTile.None? && newBorder.None? ==>
        tileColor == old(tileColor) && borderColor == old(borderColor) &&
        forall k :: 0 <= k < |tiles| ==> tiles[k].color == old(tiles[k].color)
      ensures newTile.Some? || newBorder.Some? ==>
        tileColor == (if newTile.Some? then newTile.value else old(tileColor)) &&
        borderColor == (if newBorder.Some? then newBorder.value else old(borderColor)) &&
        ColoursAgree()
      ensures forall k :: 0 <= k < |tiles| ==> tiles[k].box == old(tiles[k].box)
    {
      if newTile.None? && newBorder.None? {
        return;
      }
      if newBorder.Some? {
        borderColor := newBorder.value;
      }
      if newTile.Some? {
        tileColor := newTile.value;
      }
      var i := 0;
      while i < |tiles|
        invariant 0 <= i <= |tiles|
        invariant forall k :: 0 <= k < i ==>
          tiles[k].color == (if tiles[k] in border then borderColor else tileColor)
        invariant forall k :: 0 <= k < |tiles| ==> tiles[k].box == old(tiles[k].box)
        invariant tileColor == (if newTile.Some? then newTile.value else old(tileColor))
        invariant borderColor == (if newBorder.Some? then newBorder.value else old(borderColor))
      {
        var t := tiles[i];
        t.color := if t in border then borderColor else tileColor;
        i := i + 1;
      }
    }

    /** The inner loop of `set_value`: each edge of the tile leaves the lines when it is there and
        joins them otherwise. */
    method ToggleEdges(r: Rect)
      modifies this`borderLines
      ensures borderLines == ToggleEach(old(borderLines), TileEdges(r))
    {
      var es := TileEdges(r);
      var j := 0;
      while j < |es|
        invariant 0 <= j <= |es|
        invariant borderLines == ToggleEach(old(borderLines), es[..j])
      {
        ToggleEachSnoc(old(borderLines), es[..j], es[j]);
        assert es[..j + 1] == es[..j] + [es[j]];
        if es[j] in borderLines {
          borderLines := RemoveFirst(borderLines, es[j]);
        } else {
          borderLines := borderLines + [es[j]];
        }
        j := j + 1;
      }
      assert es[..j] == es;
    }

    /** `set_value`: every tile the click hits is selected or unselected, repainted, and has its
        edges toggled; the value argument is ignored. The position must be given (pygame refuses
        `collidepoint(None)`). */
    method SetValue(mouse: Point, value: Buttons.Value)
      requires Valid()
      modifies this`border, this`borderLines, tiles
      ensures Valid()
      ensures border == ToggleEach(old(border), Buttons.Hit(tiles, mouse))
      ensures borderLines == ToggleEach(old(borderLines), EdgesOf(Buttons.Hit(tiles, mouse)))
      ensures forall k :: 0 <= k < |tiles| ==>
        tiles[k].color == (if !tiles[k].Click(mouse) then old(tiles[k].color)
                           else if tiles[k] in old(border) then tileColor else borderColor)
      ensures old(ColoursAgree()) ==> ColoursAgree()
    {
      ghost var b0 := border;
      Walk(mouse);
      QueueFree(b0, Buttons.Hit(tiles, mouse), tiles, mouse);
      if old(ColoursAgree()) {
        ClickFlipsSelection(tiles, b0, mouse);
        forall k | 0 <= k < |tiles| ensures tiles[k].color == (if tiles[k] in border then borderColor else tileColor) {
          assert old(tiles[k].color) == (if tiles[k] in b0 then borderColor else tileColor);
        }
      }
    }

    /** The loop of `set_value`. */
    method Walk(p: Point)
      requires NoDup(tiles)
      modifies this`border, this`borderLines, tiles
      ensures border == ToggleEach(old(border), Buttons.Hit(tiles, p))
      ensures borderLines == ToggleEach(old(borderLines), EdgesOf(Buttons.Hit(tiles, p)))
      ensures forall k :: 0 <= k < |tiles| ==>
        tiles[k].color == (if !tiles[k].Click(p) then old(tiles[k].color)
                           else if tiles[k] in old(border) then tileColor else borderColor)
    {
      ghost var b0, l0 := border, borderLines;
      ghost var selected := seq(|tiles|, k requires 0 <= k < |tiles| reads this => tiles[k] in b0);
      ghost var colors := seq(|tiles|, k requires 0 <= k < |tiles| reads this, tiles => tiles[k].color);
      ghost var hits := Visit(p, b0, l0, selected, colors);
      assert tiles[..|tiles|] == tiles;
      forall k | 0 <= k < |tiles| ensures tiles[k].color ==
        (if !tiles[k].Click(p) then old(tiles[k].color) else if tiles[k] in old(border) then tileColor else borderColor)
      {
        assert selected[k] == (tiles[k] in b0) && colors[k] == old(tiles[k].color);
      }
    }

    /** The loop itself, from the selection b0, the lines l0, the tile selections and the tile
        colours before it; it returns the tiles hit, in order. */
    method Visit(p: Point, ghost b0: seq<Buttons.Button>, ghost l0: seq<Segment>,
                 ghost selected: seq<bool>, ghost colors: seq<Colors.Color>) returns (ghost hits: seq<Buttons.Button>)
      requires NoDup(tiles) && |selected| == |tiles| && Visited(0, p, b0, l0, [], selected, colors)
      requires forall k :: 0 <= k < |tiles| ==> selected[k] == (tiles[k] in b0)
      modifies this`border, this`borderLines, tiles
      ensures Visited(|tiles|, p, b0, l0, hits, selected, colors)
    {
      var ts := tiles;
      hits := [];
      var i := 0;
      while i < |ts|
        invariant tiles == ts && Visited(i, p, b0, l0, hits, selected, colors)
      {
        hits := VisitTile(ts[i], i, p, b0, l0, hits, selected, colors);
        i := i + 1;
      }
    }

    /** The state after `set_value`'s loop has looked at the first i tiles: the hits so far are
        toggled in the selection, their edges in the lines, and exactly they are repainted. */
    ghost predicate Visited(i: int, p: Point, b0: seq<Buttons.Button>, l0: seq<Segment>,
                            hits: seq<Buttons.Button>, selected: seq<bool>, colors: seq<Colors.Color>)
      reads this, tiles
    {
      0 <= i <= |tiles| && |selected| == |colors| == |tiles| &&
      hits == Buttons.Hit(tiles[..i], p) &&
      border == ToggleEach(b0, hits) && borderLines == ToggleEach(l0, EdgesOf(hits)) &&
      forall k :: 0 <= k < |tiles| ==> (tiles[k].color ==
        (if k < i && tiles[k].Click(p) then (if selected[k] then tileColor else borderColor) else colors[k]))
    }

    /** One turn of `set_value`'s loop, on tile i. The ghost parameters are the selection, the lines,
        the tile selections and the colours before the loop, and the hits so far. */
    method VisitTile(t: Buttons.Button, i: nat, p: Point, ghost b0: seq<Buttons.Button>, ghost l0: seq<Segment>,
                     ghost hits: seq<Buttons.Button>, ghost selected: seq<bool>, ghost colors: seq<Colors.Color>)
        returns (ghost hits': seq<Buttons.Button>)
      requires NoDup(tiles) && i < |tiles| && t == tiles[i] && |selected| == |tiles|
      requires forall k :: 0 <= k < |tiles| ==> selected[k] == (tiles[k] in b0)
      requires Visited(i, p, b0, l0, hits, selected, colors)
      modifies this`border, this`borderLines, t`color
      ensures Visited(i + 1, p, b0, l0, hits', selected, colors)
    {
      TileStep(tiles, i, p, b0, hits);
      hits' := hits;
      if t.Click(p) {
        VisitHit(t, i, p, b0, l0, hits, selected, colors);
        hits' := hits + [t];
      } else {
        assert hits + [] == hits;
      }
    }

    /** A hit tile leaves the selection and takes the tile colour, or joins it and takes the
        border colour. */
    method ToggleTile(t: Buttons.Button)
      modifies this`border, t`color
      ensures border == Toggle(old(border), t)
      ensures t.color == (if t in old(border) then tileColor else borderColor)
    {
      if t in border {
        border := RemoveFirst(border, t);
        t.color := tileColor;
      } else {
        border := border + [t];
        t.color := borderColor;
      }
    }

    /** A turn of `set_value`'s loop on a tile i the click hits. */
    method VisitHit(t: Buttons.Button, i: nat, p: Point, ghost b0: seq<Buttons.Button>, ghost l0: seq<Segment>,
                    ghost hits: seq<Buttons.Button>, ghost selected: seq<bool>, ghost colors: seq<Colors.Color>)
      requires NoDup(tiles) && i < |tiles| && t == tiles[i] && |selected| == |tiles| && t.Click(p)
      requires selected[i] == (t in b0) && (t in border <==> t in b0) && |colors| == |tiles|
      requires border == ToggleEach(b0, hits) && Buttons.Hit(tiles[..i + 1], p) == hits + [t]
      requires borderLines == ToggleEach(l0, EdgesOf(hits))
      requires forall k :: 0 <= k < |tiles| ==> (tiles[k].color ==
        (if k < i && tiles[k].Click(p) then (if selected[k] then tileColor else borderColor) else colors[k]))
      requires ToggleEach(b0, hits + [t]) == Toggle(ToggleEach(b0, hits), t)
      modifies this`border, this`borderLines, t`color
      ensures Visited(i + 1, p, b0, l0, hits + [t], selected, colors)
    {
      ToggleTile(t);
      assert border == ToggleEach(b0, hits + [t]);
      ToggleEdges(t.rect);
      EdgesOfSnoc(hits, t);
      ToggleEachAppend(l0, EdgesOf(hits), TileEdges(t.rect));
      assert borderLines == ToggleEach(l0, EdgesOf(hits + [t]));
      forall k | 0 <= k < |tiles| ensures tiles[k].color ==
        (if k < i + 1 && tiles[k].Click(p) then (if selected[k] then tileColor else borderColor) else colors[k])
      {
        if k != i { assert tiles[k] != t; }
      }
    }
  }

  /** The loops of `reset_size`: fresh framed step×step tiles of colour c, column by column. */
  method NewGrid(xs: seq<int>, ys: seq<int>, step: int, c: Colors.Color) returns (ts: seq<Buttons.Button>)
    ensures Buttons.Rects(ts) == Grid(xs, ys, step)
    ensures NoDup(ts) && forall k :: 0 <= k < |ts| ==> fresh(ts[k])
    ensures forall k :: 0 <= k < |ts| ==> ts[k].color == c && ts[k].box && ts[k].value == Buttons.NoValue
  {
    ts := [];
    var a := 0;
    while a < |xs|
      invariant 0 <= a <= |xs|
      invariant Buttons.Rects(ts) == Grid(xs[..a], ys, step)
      invariant NoDup(ts)
      invariant forall k :: 0 <= k < |ts| ==> fresh(ts[k])
      invariant forall k :: 0 <= k < |ts| ==> ts[k].color == c && ts[k].box && ts[k].value == Buttons.NoValue
    {
      var col := NewColumn(xs[a], ys, step, c);
      assert xs[..a + 1][..a] == xs[..a];
      Buttons.RectsAppend(ts, col);
      assert NoDup(ts + col) by {
        forall i, j | 0 <= i < j < |ts + col| ensures (ts + col)[i] != (ts + col)[j] {
          if i < |ts| && j >= |ts| { assert fresh(col[j - |ts|]); }
        }
      }
      ts := ts + col;
      a := a + 1;
    }
    assert xs[..a] == xs;
  }

  /** The inner loop of `reset_size`: one fresh framed step×step tile of colour c per y, in order. */
  method NewColumn(x: int, ys: seq<int>, step: int, c: Colors.Color) returns (col: seq<Buttons.Button>)
    ensures Buttons.Rects(col) == Column(x, ys, step)
    ensures NoDup(col) && forall k :: 0 <= k < |col| ==> fresh(col[k])
    ensures forall k :: 0 <= k < |col| ==> col[k].color == c && col[k].box && col[k].value == Buttons.NoValue
  {
    col := [];
    var b := 0;
    while b < |ys|
      invariant 0 <= b <= |ys|
      invariant Buttons.Rects(col) == Column(x, ys[..b], step)
      invariant NoDup(col) && forall k :: 0 <= k < |col| ==> fresh(col[k])
      invariant forall k :: 0 <= k < |col| ==> col[k].color == c && col[k].box && col[k].value == Buttons.NoValue
    {
      var t := new Buttons.Button(Point(x, ys[b]), Point(step, step), c, Buttons.NoValue, true);
      assert Column(x, ys[..b + 1], step) == Column(x, ys[..b], step) + [t.rect];
      Buttons.RectsAppend(col, [t]);
      col := col + [t];
      b := b + 1;
    }
    assert ys[..b] == ys;
  }

  /** What one turn of the loop does to the hits and the selection, as values: a hit tile is new to
      the hits, so its selection is still the one before the loop. */
  lemma TileStep(ts: seq<Buttons.Button>, i: int, p: Point, b0: seq<Buttons.Button>, hits: seq<Buttons.Button>)
    requires NoDup(ts) && 0 <= i < |ts| && hits == Buttons.Hit(ts[..i], p)
    ensures Buttons.Hit(ts[..i + 1], p) == hits + (if ts[i].Click(p) then [ts[i]] else [])
    ensures ToggleEach(b0, hits + [ts[i]]) == Toggle(ToggleEach(b0, hits), ts[i])
    ensures ts[i].Click(p) ==> (ts[i] in ToggleEach(b0, hits) <==> ts[i] in b0)
  {
    Buttons.HitSnoc(ts[..i], ts[i], p);
    assert ts[..i + 1] == ts[..i] + [ts[i]];
    ToggleEachSnoc(b0, hits, ts[i]);
    if ts[i].Click(p) {
      Buttons.HitPrefix(ts, i, p);
      ToggleEachOther(b0, hits, ts[i]);
    }
  }

  /** A click keeps the selection free of repeats. */
  lemma QueueFree(b0: seq<Buttons.Button>, hits: seq<Buttons.Button>, ts: seq<Buttons.Button>, p: Point)
    requires NoDup(b0) && NoDup(ts) && hits == Buttons.Hit(ts, p)
    ensures NoDup(ToggleEach(b0, hits))
  {
    Buttons.HitNoDup(ts, p);
    ToggleEachMembership(b0, hits);
  }

  /** After a click on distinct tiles, a tile is selected exactly when it was selected before or
      was clicked, but not both. */
  lemma ClickFlipsSelection(ts: seq<Buttons.Button>, b0: seq<Buttons.Button>, p: Point)
    requires NoDup(ts) && NoDup(b0)
    ensures forall k :: 0 <= k < |ts| ==> (ts[k] in ToggleEach(b0, Buttons.Hit(ts, p)) <==> (ts[k] in b0) != ts[k].Click(p))
  {
    var hits := Buttons.Hit(ts, p);
    Buttons.HitNoDup(ts, p);
    Buttons.HitMembers(ts, p);
    ToggleEachMembership(b0, hits);
    forall k | 0 <= k < |ts| ensures ts[k] in hits <==> ts[k].Click(p) {
      if ts[k] in hits {
        var j :| 0 <= j < |hits| && hits[j] == ts[k];
      }
    }
  }

  /** Colours that agreed with the selection before a click agree with it after the click. */
  lemma AgreeAfterClick(ts: seq<Buttons.Button>, b0: seq<Buttons.Button>, p: Point, tileColor: Colors.Color,
                        borderColor: Colors.Color, before: seq<Colors.Color>, after: seq<Colors.Color>)
    requires NoDup(ts) && NoDup(b0) && |before| == |after| == |ts|
    requires forall k :: 0 <= k < |ts| ==> before[k] == (if ts[k] in b0 then borderColor else tileColor)
    requires forall k :: 0 <= k < |ts| ==> (after[k] ==
      (if !ts[k].Click(p) then before[k] else if ts[k] in b0 then tileColor else borderColor))
    ensures forall k :: 0 <= k < |ts| ==>
      after[k] == (if ts[k] in ToggleEach(b0, Buttons.Hit(ts, p)) then borderColor else tileColor)
  {
    ClickFlipsSelection(ts, b0, p);
  }

  /** A click on no tile changes neither the selection nor the lines. */
  lemma MissChangesNothing(ts: seq<Buttons.Button>, p: Point, b0: seq<Buttons.Button>, l0: seq<Segment>)
    requires forall k :: 0 <= k < |ts| ==> !ts[k].Click(p)
    ensures ToggleEach(b0, Buttons.Hit(ts, p)) == b0
    ensures ToggleEach(l0, EdgesOf(Buttons.Hit(ts, p))) == l0
  {
    Buttons.HitMembers(ts, p);
  }

  /** Clicking a tile of non-zero size changes the lines by symmetric difference with its four
      edges: an edge that was drawn is erased, one that was not is drawn. */
  lemma EdgesSymmetricDifference(lines: seq<Segment>, r: Rect)
    requires NoDup(lines) && r.w != 0 && r.h != 0
    ensures NoDup(ToggleEach(lines, TileEdges(r)))
    ensures forall e :: e in ToggleEach(lines, TileEdges(r)) <==> (e in lines) != (e in TileEdges(r))
  {
    EdgesDistinct(r);
    ToggleEachMembership(lines, TileEdges(r));
  }

  /** Selecting two tiles side by side (or one above the other) leaves the edge they share as it
      was: it is toggled once by each of them. */
  lemma SharedEdgeCancels(lines: seq<Segment>, x: int, y: int, w: int, h: int)
    requires NoDup(lines) && w != 0 && h != 0
    ensures var right := ToggleEach(ToggleEach(lines, TileEdges(Rect(x, y, w, h))), TileEdges(Rect(x + w, y, w, h)));
      RightEdge(Rect(x, y, w, h)) in right <==> RightEdge(Rect(x, y, w, h)) in lines
    ensures var below := ToggleEach(ToggleEach(lines, TileEdges(Rect(x, y, w, h))), TileEdges(Rect(x, y + h, w, h)));
      BottomEdge(Rect(x, y, w, h)) in below <==> BottomEdge(Rect(x, y, w, h)) in lines
  {
    var r := Rect(x, y, w, h);
    NeighbourEdgesAgree(x, y, w, h);
    EdgesSymmetricDifference(lines, r);
    var once := ToggleEach(lines, TileEdges(r));
    EdgesSymmetricDifference(once, Rect(x + w, y, w, h));
    EdgesSymmetricDifference(once, Rect(x, y + h, w, h));
  }

  /** Clicking the same tile twice gives back the same set of lines. */
  lemma ToggleTileTwice(lines: seq<Segment>, r: Rect)
    requires NoDup(lines) && r.w != 0 && r.h != 0
    ensures forall e :: e in ToggleEach(ToggleEach(lines, TileEdges(r)), TileEdges(r)) <==> e in lines
  {
    EdgesSymmetricDifference(lines, r);
    EdgesSymmetricDifference(ToggleEach(lines, TileEdges(r)), r);
  }
}
