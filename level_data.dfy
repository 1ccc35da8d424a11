// The level file as typed records. The editor writes these keys with
// `json.dump` and the game reads them back with `json.load`; the JSON text
// itself is not modelled, only the values under each key. Tuples come back
// from JSON as lists, which the model does not distinguish.

module LevelData {
  import opened Collections
  import Colors
  import opened Geometry
  import Elements

  /** An integer pixel position as a float vector, as pymunk receives it. */
  function ToVec(p: Point): (v: Elements.Vec2)
    ensures v.x == p.x as real && v.y == p.y as real
  {
    Elements.Vec2(p.x as real, p.y as real)
  }

  /** One `"boundaries"` entry: a wall tile's centre, size, group and colour. */
  datatype BoundaryRecord = BoundaryRecord(position: Elements.Vec2, size: Point, group: int, color: Colors.Rgba)

  /** One `"boundaries_lines"` entry: a wall edge. */
  datatype LineRecord = LineRecord(a: Point, b: Point, group: int)

  /** One `"bricks"` entry. */
  datatype BrickRecord = BrickRecord(position: Point, size: Point, velocity: Elements.Vec2, group: int, color: Colors.Rgba)

  /** A `"victory_line"` entry. */
  datatype VictoryRecord = VictoryRecord(a: Point, b: Point, group: int)

  datatype ScreenData = ScreenData(size: Point, color: Colors.Rgba)
  datatype SpaceData = SpaceData(gravity: Point, step: real)

  /** The editor's `data` dict: each key is `None` until it is written. The editor writes
      `"victory_line"` as a single record and `"logo"` as a position that may be `None`. */
  datatype EditorData = EditorData(
    screen: Option<ScreenData>,
    clockFps: Option<int>,
    space: Option<SpaceData>,
    boundaries: Option<seq<BoundaryRecord>>,
    boundariesLines: Option<seq<LineRecord>>,
    bricks: Option<seq<BrickRecord>>,
    victoryLine: Option<VictoryRecord>,
    logo: Option<Option<Point>>)

  const EmptyData := EditorData(None, None, None, None, None, None, None, None)

  /** The keys the game reads, with `"victory_line"` read as a list of records. */
  datatype Level = Level(
    victoryLines: seq<VictoryRecord>,
    boundaries: seq<BoundaryRecord>,
    boundariesLines: seq<LineRecord>,
    bricks: seq<BrickRecord>)
}
