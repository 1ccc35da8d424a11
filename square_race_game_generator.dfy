// utils/games_generator/square_race_game_generator.py: the level editor of the
// Square Race game. The board is a grid of 50-unit tiles; the editor walks
// through four modes. In border mode a click toggles the tiles under it as
// walls; pressing the button writes the walls and their outline. In start mode
// a click places the bricks' start; pressing the button asks for the bricks and
// writes them. In end mode clicks draw the finish line, snapped to be
// horizontal or vertical; pressing the button writes it. In logo mode a click
// places the logo; pressing the button writes it and ends the session.
// Drawing, fonts, the event queue and the final save are left out; the
// answers to the console prompts and the random choices are parameters.

module SquareRaceGameGenerator {
  import opened Collections
  import opened Geometry
  import Colors
  import Elements
  import LevelData
  import GameGeneratorBase
  import Strings
  import Tiles

  /** The default game name of the editor. */
  const DefaultName := "Square Race"

  /** `tile_size`. */
  const TileSize := 50

  /** `GROUPS`: walls and wall edges share group 1, the finish line has group 2, and brick i
      gets group 3 + i. */
  const BoundariesGroup := 1
  const BoundariesLinesGroup := 1
  const VictoryLineGroup := 2
  const BricksGroup := 3

  /** `SIZES["bricks"]`. */
  const BrickSize := Point(15, 15)

  /** The editor modes, `MODE_BORDER` to `MODE_LOGO`. */
  datatype Mode = Border | Start | End | Logo

  function ModeName(m: Mode): string {
    match m
    case Border => "border"
    case Start => "start"
    case End => "end"
    case Logo => "logo"
  }

  /** The position of a mode in the editor's sequence. */
  function Rank(m: Mode): nat {
    match m
    case Border => 0
    case Start => 1
    case End => 2
    case Logo => 3
  }

  /** The `modes` stack while in mode m: the modes still to come, the next one on top. */
  function Pending(m: Mode): (r: seq<Mode>)
    ensures |r| == 3 - Rank(m)
    ensures forall k :: 0 <= k < |r| ==> Rank(r[k]) == 3 - k
  {
    match m
    case Border => [Logo, End, Start]
    case Start => [Logo, End]
    case End => [Logo]
    case Logo => []
  }

  /** Popping the stack in mode m gives the mode of the next rank, and leaves that mode's stack. */
  lemma PopAdvances(m: Mode)
    requires m != Logo
    ensures var s := Pending(m); Rank(s[|s| - 1]) == Rank(m) + 1 && Pending(s[|s| - 1]) == s[..|s| - 1]
  {
  }

  /** The board: the row of tiles for each y in `range(0, height, 50)`, each row a tile for each
      x in `range(0, width, 50)`. */
  function Row(xs: seq<int>, y: int, s: int): (r: seq<Rect>)
    ensures |r| == |xs| && forall j :: 0 <= j < |xs| ==> r[j] == Rect(xs[j], y, s, s)
  {
    seq(|xs|, j requires 0 <= j < |xs| => Rect(xs[j], y, s, s))
  }

  function Rows(xs: seq<int>, ys: seq<int>, s: int): (r: seq<seq<Rect>>)
    ensures |r| == |ys| && forall i :: 0 <= i < |ys| ==> r[i] == Row(xs, ys[i], s)
  {
    seq(|ys|, i requires 0 <= i < |ys| => Row(xs, ys[i], s))
  }

  function Board(width: int, height: int): seq<seq<Rect>> {
    Rows(Range(0, width, TileSize), Range(0, height, TileSize), TileSize)
  }

  /** Every row of the board has the same length, so each tile has its four neighbour indices. */
  predicate Rectangular(tiles: seq<seq<Rect>>) {
    forall i :: 0 <= i < |tiles| ==> |tiles[i]| == |tiles[0]|
  }

  /** Every tile of the board is a 50×50 square at its grid point. */
  lemma BoardShape(width: int, height: int)
    ensures Rectangular(Board(width, height))
    ensures var b := Board(width, height);
      forall i, j :: 0 <= i < |b| && 0 <= j < |b[i]| ==>
        b[i][j] == Rect(j * TileSize, i * TileSize, TileSize, TileSize)
  {
  }

  lemma {:induction false} FlattenMembers<T>(rows: seq<seq<T>>, x: T)
    ensures x in Flatten(rows) <==> exists i :: 0 <= i < |rows| && x in rows[i]
    decreases |rows|
  {
    if rows != [] {
      var init := rows[..|rows| - 1];
      FlattenMembers(init, x);
      if x in Flatten(init) {
        var i :| 0 <= i < |init| && x in init[i];
        assert x in rows[i];
      }
    }
  }

  lemma NoDupAppend<T>(a: seq<T>, b: seq<T>)
    requires NoDup(a) && NoDup(b) && forall x :: x in a ==> x !in b
    ensures NoDup(a + b)
  {
    var r := a + b;
    forall i, j | 0 <= i < j < |r| ensures r[i] != r[j] {
      if i < |a| && j >= |a| {
        assert r[i] in a && r[j] == b[j - |a|];
      }
    }
  }

  /** Grid points with distinct coordinates give distinct tiles, each in one of the rows' ys. */
  lemma {:induction false} RowsNoDup(xs: seq<int>, ys: seq<int>, s: int)
    requires NoDup(xs) && NoDup(ys)
    ensures NoDup(Flatten(Rows(xs, ys, s)))
    ensures forall t :: t in Flatten(Rows(xs, ys, s)) ==> t.y in ys
    decreases |ys|
  {
    var rows := Rows(xs, ys, s);
    if ys != [] {
      var n := |ys|;
      var init := ys[..n - 1];
      assert NoDup(init) by {
        forall i, j | 0 <= i < j < |init| ensures init[i] != init[j] { assert init[i] == ys[i] && init[j] == ys[j]; }
      }
      assert Rows(xs, init, s) == rows[..n - 1];
      RowsNoDup(xs, init, s);
      var last := rows[n - 1];
      assert NoDup(last) by {
        forall i, j | 0 <= i < j < |last| ensures last[i] != last[j] { assert last[i].x == xs[i] && last[j].x == xs[j]; }
      }
      assert ys[n - 1] !in init by {
        forall i | 0 <= i < |init| ensures init[i] != ys[n - 1] { assert init[i] == ys[i]; }
      }
      forall t | t in Flatten(rows[..n - 1]) ensures t !in last {
      }
      NoDupAppend(Flatten(rows[..n - 1]), last);
      forall t | t in Flatten(rows) ensures t.y in ys {
        if t in last {
          var j :| 0 <= j < |last| && last[j] == t;
        } else {
          assert t in Flatten(rows[..n - 1]);
          assert t.y in init;
        }
      }
    }
  }

  /** No tile of the board appears twice. */
  lemma BoardNoDup(width: int, height: int)
    ensures NoDup(Flatten(Board(width, height)))
  {
    RangeNoDup(0, width, TileSize);
    RangeNoDup(0, height, TileSize);
    RowsNoDup(Range(0, width, TileSize), Range(0, height, TileSize), TileSize);
  }

  /** The tiles a click visits and finds under it, in visiting order. */
  function RectHits(rs: seq<Rect>, p: Point): (r: seq<Rect>)
    ensures |r| <= |rs|
    decreases |rs|
  {
    if rs == [] then [] else RectHits(rs[..|rs| - 1], p) + (if Contains(rs[|rs| - 1], p) then [rs[|rs| - 1]] else [])
  }

  lemma {:induction false} RectHitsAppend(a: seq<Rect>, b: seq<Rect>, p: Point)
    ensures RectHits(a + b, p) == RectHits(a, p) + RectHits(b, p)
    decreases |b|
  {
    if b == [] {
      assert a + b == a;
    } else {
      var init := b[..|b| - 1];
      assert (a + b)[..|a + b| - 1] == a + init;
      RectHitsAppend(a, init, p);
    }
  }

  /** The hits are exactly the visited tiles containing the point, and distinct tiles give
      distinct hits. */
  lemma {:induction false} RectHitsMembers(rs: seq<Rect>, p: Point)
    requires NoDup(rs)
    ensures NoDup(RectHits(rs, p))
    ensures forall t :: t in RectHits(rs, p) <==> t in rs && Contains(t, p)
    decreases |rs|
  {
    if rs != [] {
      var init := rs[..|rs| - 1];
      var last := rs[|rs| - 1];
      assert rs == init + [last];
      assert NoDup(init) by {
        forall i, j | 0 <= i < j < |init| ensures init[i] != init[j] { assert init[i] == rs[i] && init[j] == rs[j]; }
      }
      assert last !in init by {
        forall i | 0 <= i < |init| ensures init[i] != last { assert init[i] == rs[i]; }
      }
      RectHitsMembers(init, p);
      if Contains(last, p) {
        NoDupAppend(RectHits(init, p), [last]);
      }
    }
  }

  /** A border-mode click on a board of distinct tiles flips exactly the walls under it. */
  lemma BorderClickToggles(borders: seq<Rect>, tiles: seq<seq<Rect>>, p: Point)
    requires NoDup(borders) && NoDup(Flatten(tiles))
    ensures NoDup(ToggleEach(borders, RectHits(Flatten(tiles), p)))
    ensures forall t :: t in ToggleEach(borders, RectHits(Flatten(tiles), p)) <==>
      (t in borders) != (t in Flatten(tiles) && Contains(t, p))
  {
    RectHitsMembers(Flatten(tiles), p);
    ToggleEachMembership(borders, RectHits(Flatten(tiles), p));
  }

  /** What `_add_borders_lines` appends for tile (i, j): nothing for a free tile; for a wall, its
      right, left, bottom and top edge in that order, each when the neighbour on that side exists
      and is free. */
  function CellLines(tiles: seq<seq<Rect>>, borders: seq<Rect>, i: int, j: int): seq<Segment>
    requires Rectangular(tiles) && 0 <= i < |tiles| && 0 <= j < |tiles[i]|
  {
    var t := tiles[i][j];
    if t !in borders then []
    else WallLines(t, j + 1 < |tiles[i]| && tiles[i][j + 1] !in borders, j > 0 && tiles[i][j - 1] !in borders,
                   i + 1 < |tiles| && tiles[i + 1][j] !in borders, i > 0 && tiles[i - 1][j] !in borders)
  }

  /** A wall's right, left, bottom and top edge, in that order, each when its side is open. */
  function WallLines(t: Rect, right: bool, left: bool, bottom: bool, top: bool): seq<Segment> {
    (if right then [RightEdge(t)] else []) + (if left then [LeftEdge(t)] else []) +
    (if bottom then [BottomEdge(t)] else []) + (if top then [TopEdge(t)] else [])
  }

  /** The lines of each tile of row i, in column order. */
  function RowCells(tiles: seq<seq<Rect>>, borders: seq<Rect>, i: int): (r: seq<seq<Segment>>)
    requires Rectangular(tiles) && 0 <= i < |tiles|
    ensures |r| == |tiles[i]| && forall j :: 0 <= j < |r| ==> r[j] == CellLines(tiles, borders, i, j)
  {
    seq(|tiles[i]|, j requires 0 <= j < |tiles[i]| => CellLines(tiles, borders, i, j))
  }

  /** The lines of each row, in row order. */
  function GridRows(tiles: seq<seq<Rect>>, borders: seq<Rect>): (r: seq<seq<Segment>>)
    requires Rectangular(tiles)
    ensures |r| == |tiles| && forall i :: 0 <= i < |r| ==> r[i] == Flatten(RowCells(tiles, borders, i))
  {
    seq(|tiles|, i requires 0 <= i < |tiles| => Flatten(RowCells(tiles, borders, i)))
  }

  /** Everything `_add_borders_lines` appends: the tiles' lines row by row. */
  function AddedLines(tiles: seq<seq<Rect>>, borders: seq<Rect>): seq<Segment>
    requires Rectangular(tiles)
  {
    Flatten(GridRows(tiles, borders))
  }

  lemma AppendAssoc<T>(a: seq<T>, b: seq<T>, c: seq<T>)
    ensures (a + b) + c == a + (b + c)
  {
  }

  lemma FlattenSnoc<T>(rows: seq<seq<T>>, k: int)
    requires 0 <= k < |rows|
    ensures Flatten(rows[..k + 1]) == Flatten(rows[..k]) + rows[k]
  {
    assert rows[..k + 1][..k] == rows[..k];
  }

  /** For a wall tile of non-zero size, each of its edges is appended exactly when the neighbour
      on that side exists and is free; a free tile adds nothing, a wall at most its four edges. */
  lemma CellLinesMembers(tiles: seq<seq<Rect>>, borders: seq<Rect>, i: int, j: int)
    requires Rectangular(tiles) && 0 <= i < |tiles| && 0 <= j < |tiles[i]|
    requires tiles[i][j].w != 0 && tiles[i][j].h != 0
    ensures var t, r := tiles[i][j], CellLines(tiles, borders, i, j);
      (t !in borders ==> r == []) && |r| <= 4 &&
      (RightEdge(t) in r <==> t in borders && j + 1 < |tiles[i]| && tiles[i][j + 1] !in borders) &&
      (LeftEdge(t) in r <==> t in borders && j > 0 && tiles[i][j - 1] !in borders) &&
      (BottomEdge(t) in r <==> t in borders && i + 1 < |tiles| && tiles[i + 1][j] !in borders) &&
      (TopEdge(t) in r <==> t in borders && i > 0 && tiles[i - 1][j] !in borders) &&
      (forall e :: e in r ==> e == RightEdge(t) || e == LeftEdge(t) || e == BottomEdge(t) || e == TopEdge(t))
  {
    EdgesDistinct(tiles[i][j]);
  }

  /** A line is appended exactly when some tile appends it. */
  lemma AddedLinesMembers(tiles: seq<seq<Rect>>, borders: seq<Rect>, e: Segment)
    requires Rectangular(tiles)
    ensures e in AddedLines(tiles, borders) <==>
      exists i, j :: 0 <= i < |tiles| && 0 <= j < |tiles[i]| && e in CellLines(tiles, borders, i, j)
  {
    var rows := GridRows(tiles, borders);
    FlattenMembers(rows, e);
    forall i | 0 <= i < |tiles|
      ensures e in rows[i] <==> exists j :: 0 <= j < |tiles[i]| && e in CellLines(tiles, borders, i, j)
    {
      var cells := RowCells(tiles, borders, i);
      FlattenMembers(cells, e);
    }
  }

  /** The finish line's end for a click at `mouse` from `start`: keep the start's x when the click
      is further off vertically than horizontally, otherwise keep its y. The line is therefore
      vertical or horizontal, and a tie makes it horizontal. */
  function Snap(start: Point, mouse: Point): (e: Point)
    ensures e.x == start.x || e.y == start.y
    ensures Abs(start.x - mouse.x) == Abs(start.y - mouse.y) ==> e == Point(mouse.x, start.y)
  {
    if Abs(start.x - mouse.x) < Abs(start.y - mouse.y) then Point(start.x, mouse.y) else Point(mouse.x, start.y)
  }

  function Abs(n: int): nat {
    if n < 0 then -n else n
  }

  function Manhattan(p: Point, q: Point): nat {
    Abs(p.x - q.x) + Abs(p.y - q.y)
  }

  /** The snapped end is the point nearest to the click among all points on the vertical and the
      horizontal line through the start. */
  lemma SnapNearest(start: Point, mouse: Point, q: Point)
    requires q.x == start.x || q.y == start.y
    ensures Manhattan(Snap(start, mouse), mouse) <= Manhattan(q, mouse)
  {
  }

  /** `getattr(Color, answer.upper()).value`, or the fallback colour when no member has that
      name. */
  function ColorChoice(answer: string, fallback: Colors.Color): (v: Colors.Rgba)
    ensures exists c :: v == Colors.Value(c)
  {
    match Colors.FromName(Strings.Upper(answer))
    case Some(c) => Colors.Value(c)
    case None => Colors.Value(fallback)
  }

  /** Typing a colour's name in any letter case picks that colour. */
  lemma ColorChoiceByName(answer: string, fallback: Colors.Color, c: Colors.Color)
    requires Strings.Upper(answer) == Colors.Name(c)
    ensures ColorChoice(answer, fallback) == Colors.Value(c)
  {
    Colors.FromNameName(c);
  }

  /** `n_bricks`: the number typed, or 2 when it does not parse; `range` of a negative count is
      empty. */
  function BrickCount(typed: Option<int>): (n: nat)
    ensures typed.None? ==> n == 2
    ensures typed.Some? ==> n == |Range(0, typed.value, 1)|
  {
    if typed.None? then 2
    else
      RangeFromZero(typed.value);
      if typed.value < 0 then 0 else typed.value
  }

  /** `range(n)` has n elements, and none when n is negative. */
  lemma RangeFromZero(n: int)
    ensures |Range(0, n, 1)| == if n < 0 then 0 else n
  {
    var r := Range(0, n, 1);
    if |r| > 0 {
      assert r[|r| - 1] == |r| - 1;
    }
  }

  /** The `"boundaries"` records: one per wall tile in order, at the tile's centre, of the tile's
      size, in group 1, all of the chosen colour. */
  function BoundaryRecords(borders: seq<Rect>, color: Colors.Rgba): (r: seq<LevelData.BoundaryRecord>)
    ensures |r| == |borders|
  {
    seq(|borders|, k requires 0 <= k < |borders| =>
      LevelData.BoundaryRecord(
        Elements.Vec2(borders[k].x as real + borders[k].w as real / 2.0, borders[k].y as real + borders[k].h as real / 2.0),
        Point(borders[k].w, borders[k].h), BoundariesGroup, color))
  }

  /** Each wall record sits strictly inside its tile and keeps the tile's size, so the tile can be
      recovered from the record. */
  lemma BoundaryRecordsInside(borders: seq<Rect>, color: Colors.Rgba, k: int)
    requires 0 <= k < |borders| && borders[k].w > 0 && borders[k].h > 0
    ensures var rec, t := BoundaryRecords(borders, color)[k], borders[k];
      t.x as real < rec.position.x < (t.x + t.w) as real && t.y as real < rec.position.y < (t.y + t.h) as real &&
      rec.size == Point(t.w, t.h) && rec.group == BoundariesGroup && rec.color == color &&
      Rect((rec.position.x - rec.size.x as real / 2.0).Floor, (rec.position.y - rec.size.y as real / 2.0).Floor,
           rec.size.x, rec.size.y) == t
  {
  }

  /** The `"boundaries_lines"` records: one per line in order, in group 1. */
  function LineRecords(lines: seq<Segment>): (r: seq<LevelData.LineRecord>)
    ensures |r| == |lines|
  {
    seq(|lines|, k requires 0 <= k < |lines| => LevelData.LineRecord(lines[k].a, lines[k].b, BoundariesLinesGroup))
  }

  /** The lines can be read back from their records. */
  lemma LineRecordsRoundTrip(lines: seq<Segment>)
    ensures var r := LineRecords(lines);
      seq(|r|, k requires 0 <= k < |r| => Segment(r[k].a, r[k].b)) == lines
    ensures forall k :: 0 <= k < |lines| ==> LineRecords(lines)[k].group == BoundariesLinesGroup
  {
    var r := LineRecords(lines);
    assert seq(|r|, k requires 0 <= k < |r| => Segment(r[k].a, r[k].b)) == lines;
  }

  /** The `"bricks"` records: brick i starts at the start position with size 15×15, velocity i,
      group 3 + i and colour i. */
  function BrickRecords(start: Point, colors: seq<Colors.Rgba>, velocities: seq<Elements.Vec2>): (r: seq<LevelData.BrickRecord>)
    requires |velocities| == |colors|
    ensures |r| == |colors|
  {
    seq(|colors|, i requires 0 <= i < |colors| =>
      LevelData.BrickRecord(start, BrickSize, velocities[i], BricksGroup + i, colors[i]))
  }

  /** Every brick gets a group of its own, and none shares the walls' or the finish line's
      group, so the game can tell every pair apart. */
  lemma BrickGroupsApart(start: Point, colors: seq<Colors.Rgba>, velocities: seq<Elements.Vec2>)
    requires |velocities| == |colors|
    ensures var r := BrickRecords(start, colors, velocities);
      (forall i, j :: 0 <= i < j < |r| ==> r[i].group != r[j].group) &&
      (forall i :: 0 <= i < |r| ==>
        r[i].group != BoundariesGroup && r[i].group != VictoryLineGroup && r[i].position == start && r[i].color == colors[i])
  {
  }

  /** The answers to the console prompts and the random choices of one button press. */
  datatype Answers = Answers(
    wallColor: string, wallFallback: Colors.Color,
    bricks: Option<int>, brickColors: seq<string>, brickFallbacks: seq<Colors.Color>,
    velocities: seq<Elements.Vec2>)

  /** One prompt answer, one random fallback and one random velocity per brick. */
  predicate AnswersFit(a: Answers) {
    |a.brickColors| == |a.brickFallbacks| == |a.velocities| == BrickCount(a.bricks)
  }

  /** The colour chosen for each brick, in brick order. */
  function ChosenColors(answers: seq<string>, fallbacks: seq<Colors.Color>): (r: seq<Colors.Rgba>)
    requires |answers| == |fallbacks|
    ensures |r| == |answers|
  {
    seq(|answers|, i requires 0 <= i < |answers| => ColorChoice(answers[i], fallbacks[i]))
  }

  /** The loop of `_add_bricks_data` that asks for each brick's colour. */
  method AskBrickColors(answers: seq<string>, fallbacks: seq<Colors.Color>) returns (colors: seq<Colors.Rgba>)
    requires |answers| == |fallbacks|
    ensures colors == ChosenColors(answers, fallbacks)
  {
    colors := [];
    var i := 0;
    while i < |answers|
      invariant 0 <= i <= |answers| && |colors| == i
      invariant forall k :: 0 <= k < i ==> colors[k] == ColorChoice(answers[k], fallbacks[k])
    {
      colors := colors + [ColorChoice(answers[i], fallbacks[i])];
      i := i + 1;
    }
  }

  /** The finish line drawn so far is horizontal or vertical, and it has an end only once it
      has a start. */
  predicate Snapped(start: Option<Point>, end: Option<Point>) {
    end.Some? ==> start.Some? && (end.value.x == start.value.x || end.value.y == start.value.y)
  }

  class SquareRaceGenerator {
    const base: GameGeneratorBase.Generator
    var startVictoryLine: Option<Point>
    var endVictoryLine: Option<Point>
    var startPosition: Option<Point>
    var logoPosition: Option<Point>
    /** Set to empty lists and never used again. */
    var boundaries: seq<Rect>
    var boundariesLines: seq<Segment>

    /** `SquareRaceGameGenerator(game_name)`: the base defaults, nothing placed yet. */
    constructor (gameName: string)
      ensures fresh(base) && base.gameName == gameName && base.width == 400 && base.height == 600
      ensures base.data == LevelData.EmptyData
      ensures startVictoryLine == None && endVictoryLine == None && startPosition == None && logoPosition == None
      ensures boundaries == [] && boundariesLines == []
    {
      base := new GameGeneratorBase.Generator(gameName);
      startVictoryLine, endVictoryLine := None, None;
      startPosition, logoPosition := None, None;
      boundaries, boundariesLines := [], [];
    }
  }

  /** The local state of one run of `generate`'s main loop. */
  class Session {
    const gen: SquareRaceGenerator
    /** `self.width` and `self.height`, which nothing changes while the loop runs. */
    const width: int
    const height: int
    const tiles: seq<seq<Rect>>
    /** The button under the board. */
    const button: Rect
    var borders: seq<Rect>
    var bordersLines: seq<Segment>
    var modes: seq<Mode>
    var mode: Mode
    var running: bool

    /** The mode stack holds the modes still to come, no wall is listed twice, the board's rows
        are equally long and its tiles distinct, and the finish line is snapped. */
    predicate Valid()
      reads this, gen
    {
      modes == Pending(mode) && NoDup(borders) && Rectangular(tiles) && NoDup(Flatten(tiles)) &&
      Snapped(gen.startVictoryLine, gen.endVictoryLine)
    }

    /** The start of `generate`'s loop: the board for the current size, no walls, the four frame
        lines, border mode with start, end and logo to come, and the button centred 20 units
        below the board. */
    constructor (gen: SquareRaceGenerator)
      requires Snapped(gen.startVictoryLine, gen.endVictoryLine)
      ensures this.gen == gen && width == gen.base.width && height == gen.base.height
      ensures tiles == Board(width, height)
      ensures borders == [] && bordersLines == Tiles.FrameLines(Point(0, 0), Point(width, height))
      ensures mode == Border && modes == [Logo, End, Start] && running
      ensures button == Rect(FloorDiv(width, 2) - 75, height + 20, 150, 50)
      ensures Valid()
    {
      this.gen := gen;
      width := gen.base.width;
      height := gen.base.height;
      tiles := Board(gen.base.width, gen.base.height);
      button := Rect(FloorDiv(gen.base.width, 2) - 75, gen.base.height + 20, 150, 50);
      borders := [];
      bordersLines := Tiles.FrameLines(Point(0, 0), Point(gen.base.width, gen.base.height));
      var ms := [Logo, End, Start, Border];
      mode := ms[|ms| - 1];
      modes := ms[..|ms| - 1];
      running := true;
      new;
      BoardShape(width, height);
      BoardNoDup(width, height);
    }

    /** `modes.pop()`. */
    method NextMode()
      requires Valid() && mode != Logo
      modifies this`mode, this`modes
      ensures Valid() && Rank(mode) == Rank(old(mode)) + 1
    {
      PopAdvances(mode);
      mode := modes[|modes| - 1];
      modes := modes[..|modes| - 1];
    }

    /** `_add_borders_lines(borders_lines, tiles, borders)`: appends the lines of every tile,
        row by row, keeping the lines already there. */
    method AddBordersLines()
      requires Rectangular(tiles)
      modifies this`bordersLines
      ensures bordersLines == old(bordersLines) + AddedLines(tiles, borders)
    {
      ghost var rows := GridRows(tiles, borders);
      var i := 0;
      while i < |tiles|
        invariant 0 <= i <= |tiles|
        invariant bordersLines == old(bordersLines) + Flatten(rows[..i])
      {
        AddRowLines(i);
        FlattenSnoc(rows, i);
        AppendAssoc(old(bordersLines), Flatten(rows[..i]), rows[i]);
        i := i + 1;
      }
      assert rows[..i] == rows;
    }

    /** One row of `_add_borders_lines`. */
    method AddRowLines(i: int)
      requires Rectangular(tiles) && 0 <= i < |tiles|
      modifies this`bordersLines
      ensures bordersLines == old(bordersLines) + Flatten(RowCells(tiles, borders, i))
    {
      ghost var cells := RowCells(tiles, borders, i);
      var j := 0;
      while j < |tiles[i]|
        invariant 0 <= j <= |tiles[i]|
        invariant bordersLines == old(bordersLines) + Flatten(cells[..j])
      {
        AddCellLines(i, j);
        FlattenSnoc(cells, j);
        AppendAssoc(old(bordersLines), Flatten(cells[..j]), cells[j]);
        j := j + 1;
      }
      assert cells[..j] == cells;
    }

    /** The four tests of one tile of `_add_borders_lines`, in order. */
    method AddCellLines(i: int, j: int)
      requires Rectangular(tiles) && 0 <= i < |tiles| && 0 <= j < |tiles[i]|
      modifies this`bordersLines
      ensures bordersLines == old(bordersLines) + CellLines(tiles, borders, i, j)
    {
      var t := tiles[i][j];
      if t in borders {
        var right := j + 1 < |tiles[i]| && tiles[i][j + 1] !in borders;
        var left := j > 0 && tiles[i][j - 1] !in borders;
        var bottom := i + 1 < |tiles| && tiles[i + 1][j] !in borders;
        var top := i > 0 && tiles[i - 1][j] !in borders;
        AddWallLines(t, right, left, bottom, top);
      }
    }

    /** The four appends of one wall tile. */
    method AddWallLines(t: Rect, right: bool, left: bool, bottom: bool, top: bool)
      modifies this`bordersLines
      ensures bordersLines == old(bordersLines) + WallLines(t, right, left, bottom, top)
    {
      if right {
        bordersLines := bordersLines + [RightEdge(t)];
      }
      if left {
        bordersLines := bordersLines + [LeftEdge(t)];
      }
      if bottom {
        bordersLines := bordersLines + [BottomEdge(t)];
      }
      if top {
        bordersLines := bordersLines + [TopEdge(t)];
      }
    }

    /** A border-mode click on the board: every tile under it leaves the walls when it is one and
        joins them otherwise. */
    method ToggleBorders(p: Point)
      modifies this`borders
      ensures borders == ToggleEach(old(borders), RectHits(Flatten(tiles), p))
    {
      var i := 0;
      while i < |tiles|
        invariant 0 <= i <= |tiles|
        invariant borders == ToggleEach(old(borders), RectHits(Flatten(tiles[..i]), p))
      {
        ghost var seen := RectHits(Flatten(tiles[..i]), p);
        ToggleRow(tiles[i], p);
        ToggleEachAppend(old(borders), seen, RectHits(tiles[i], p));
        assert tiles[..i + 1][..i] == tiles[..i];
        RectHitsAppend(Flatten(tiles[..i]), tiles[i], p);
        i := i + 1;
      }
      assert tiles[..i] == tiles;
    }

    method ToggleRow(row: seq<Rect>, p: Point)
      modifies this`borders
      ensures borders == ToggleEach(old(borders), RectHits(row, p))
    {
      var j := 0;
      while j < |row|
        invariant 0 <= j <= |row|
        invariant borders == ToggleEach(old(borders), RectHits(row[..j], p))
      {
        assert row[..j + 1][..j] == row[..j];
        if Contains(row[j], p) {
          assert RectHits(row[..j + 1], p) == RectHits(row[..j], p) + [row[j]];
          ToggleEachSnoc(old(borders), RectHits(row[..j], p), row[j]);
          if row[j] in borders {
            borders := RemoveFirst(borders, row[j]);
          } else {
            borders := borders + [row[j]];
          }
        } else {
          assert RectHits(row[..j + 1], p) == RectHits(row[..j], p) + [];
          assert RectHits(row[..j], p) + [] == RectHits(row[..j], p);
        }
        j := j + 1;
      }
      assert row[..j] == row;
    }

    /** A press of the button. Border mode writes the walls and their outline and moves on;
        start mode, once a start is placed, writes the bricks and moves on; end mode, once both
        ends are placed, writes the finish line and moves on; logo mode writes the logo and
        ends the loop. */
    method PressButton(answers: Answers)
      requires Valid() && AnswersFit(answers)
      modifies this`bordersLines, this`mode, this`modes, this`running, gen.base`data
      ensures Valid()
      ensures old(mode) == Border ==>
        mode == Start && bordersLines == old(bordersLines) + AddedLines(tiles, borders) &&
        gen.base.data == old(gen.base.data).(
          boundaries := Some(BoundaryRecords(borders, ColorChoice(answers.wallColor, answers.wallFallback))),
          boundariesLines := Some(LineRecords(bordersLines)))
      ensures old(mode) == Start && gen.startPosition.Some? ==>
        mode == End && gen.base.data == old(gen.base.data).(bricks :=
          Some(BrickRecords(gen.startPosition.value, ChosenColors(answers.brickColors, answers.brickFallbacks), answers.velocities)))
      ensures old(mode) == End && gen.startVictoryLine.Some? && gen.endVictoryLine.Some? ==>
        mode == Logo && gen.base.data == old(gen.base.data).(victoryLine :=
          Some(LevelData.VictoryRecord(gen.startVictoryLine.value, gen.endVictoryLine.value, VictoryLineGroup)))
      ensures old(mode) == Logo ==>
        mode == Logo && !running && gen.base.data == old(gen.base.data).(logo := Some(gen.logoPosition))
      ensures ((old(mode) == Start && gen.startPosition.None?) ||
               (old(mode) == End && !(gen.startVictoryLine.Some? && gen.endVictoryLine.Some?))) ==>
        mode == old(mode) && gen.base.data == old(gen.base.data)
      ensures old(mode) != Border ==> bordersLines == old(bordersLines)
      ensures old(mode) != Logo ==> running == old(running)
    {
      match mode
      case Border =>
        AddBordersLines();
        gen.base.data := gen.base.data.(
          boundaries := Some(BoundaryRecords(borders, ColorChoice(answers.wallColor, answers.wallFallback))),
          boundariesLines := Some(LineRecords(bordersLines)));
        NextMode();
      case Start =>
        if gen.startPosition.Some? {
          var colors := AskBrickColors(answers.brickColors, answers.brickFallbacks);
          gen.base.data := gen.base.data.(bricks := Some(BrickRecords(gen.startPosition.value, colors, answers.velocities)));
          NextMode();
        }
      case End =>
        if gen.startVictoryLine.Some? && gen.endVictoryLine.Some? {
          gen.base.data := gen.base.data.(victoryLine :=
            Some(LevelData.VictoryRecord(gen.startVictoryLine.value, gen.endVictoryLine.value, VictoryLineGroup)));
          NextMode();
        }
      case Logo =>
        gen.base.data := gen.base.data.(logo := Some(gen.logoPosition));
        running := false;
    }

    /** A click on the board in the current mode: toggle walls, place the start, draw the finish
        line or place the logo. For the finish line the first click only sets its start; each
        later click first moves an existing end into the start and then snaps a new end. */
    method EditAt(p: Point)
      requires Valid()
      modifies this`borders, gen`startPosition, gen`startVictoryLine, gen`endVictoryLine, gen`logoPosition
      ensures Valid()
      ensures mode == Border ==> borders == ToggleEach(old(borders), RectHits(Flatten(tiles), p))
      ensures mode != Border ==> borders == old(borders)
      ensures gen.startPosition == (if mode == Start then Some(p) else old(gen.startPosition))
      ensures gen.logoPosition == (if mode == Logo then Some(p) else old(gen.logoPosition))
      ensures mode == End && old(gen.startVictoryLine).None? ==>
        gen.startVictoryLine == Some(p) && gen.endVictoryLine == old(gen.endVictoryLine)
      ensures mode == End && old(gen.startVictoryLine).Some? ==>
        var s := if old(gen.endVictoryLine).Some? then old(gen.endVictoryLine).value else old(gen.startVictoryLine).value;
        gen.startVictoryLine == Some(s) && gen.endVictoryLine == Some(Snap(s, p))
      ensures mode != End ==>
        gen.startVictoryLine == old(gen.startVictoryLine) && gen.endVictoryLine == old(gen.endVictoryLine)
    {
      match mode
      case Border =>
        BorderClickToggles(borders, tiles, p);
        ToggleBorders(p);
      case Start =>
        gen.startPosition := Some(p);
      case End =>
        if gen.startVictoryLine.None? {
          gen.startVictoryLine := Some(p);
        } else {
          if gen.endVictoryLine.Some? {
            gen.startVictoryLine := gen.endVictoryLine;
          }
          gen.endVictoryLine := Some(Snap(gen.startVictoryLine.value, p));
        }
      case Logo =>
        gen.logoPosition := Some(p);
    }

    /** A `MOUSEBUTTONDOWN` at p: first the button, then, for a click above the panel, the board
        in the mode the button may just have changed. */
    method MouseDown(p: Point, answers: Answers)
      requires Valid() && AnswersFit(answers)
      modifies this`borders, this`bordersLines, this`mode, this`modes, this`running, gen, gen.base`data
      ensures Valid()
      ensures Rank(mode) == Rank(old(mode)) || Rank(mode) == Rank(old(mode)) + 1
      ensures !Contains(button, p) ==> mode == old(mode) && gen.base.data == old(gen.base.data)
      ensures p.y >= height ==>
        borders == old(borders) && gen.startPosition == old(gen.startPosition) &&
        gen.startVictoryLine == old(gen.startVictoryLine) && gen.endVictoryLine == old(gen.endVictoryLine) &&
        gen.logoPosition == old(gen.logoPosition)
      ensures mode == Border && p.y < height ==> borders == ToggleEach(old(borders), RectHits(Flatten(tiles), p))
      ensures old(running) != running ==> old(mode) == Logo && Contains(button, p) && !running
    {
      if Contains(button, p) {
        PressButton(answers);
      }
      if p.y < height {
        EditAt(p);
      }
    }

    /** `generate`'s main loop over the frames' event batches: a frame is handled only while the
        loop still runs, and every event of a handled frame is handled, also after a quit. The
        count of handled frames is returned. */
    method Run(frames: seq<seq<Event>>) returns (handled: nat)
      requires Valid()
      requires forall f, e :: f in frames && e in f && e.MouseButtonDown? ==> AnswersFit(e.answers)
      modifies this`borders, this`bordersLines, this`mode, this`modes, this`running, gen, gen.base`data
      ensures Valid() && handled <= |frames| && Rank(mode) >= Rank(old(mode))
      ensures handled < |frames| ==> !running
      ensures !old(running) ==> handled == 0
    {
      handled := 0;
      while running && handled < |frames|
        invariant Valid() && handled <= |frames| && Rank(mode) >= Rank(old(mode))
        invariant !old(running) ==> handled == 0
      {
        var events := frames[handled];
        var k := 0;
        while k < |events|
          invariant 0 <= k <= |events| && Valid() && Rank(mode) >= Rank(old(mode))
        {
          assert events[k] in events;
          match events[k] {
            case Quit => running := false;
            case MouseButtonDown(p, answers) => MouseDown(p, answers);
            case OtherEvent =>
          }
          k := k + 1;
        }
        handled := handled + 1;
      }
    }
  }

  /** The events the loop reacts to; the mouse position is the one when the event is handled. */
  datatype Event = Quit | MouseButtonDown(pos: Point, answers: Answers) | OtherEvent

  /** A press can never also be a click on the board: the button starts 20 units below it. */
  lemma ButtonBelowBoard(width: int, height: int, p: Point)
    requires Contains(Rect(FloorDiv(width, 2) - 75, height + 20, 150, 50), p)
    ensures p.y >= height
  {
  }
}
