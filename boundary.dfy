// elements/boundary.py: a wall tile, a box on a static body. It passes no
// collision type, so it keeps the base default 0.

module Boundary {
  import opened Collections
  import Colors
  import opened Elements

  /** The arguments `Boundary(position, size, color, group)` hands to `Element`. */
  function Params(position: Vec2, size: Vec2, color: Colors.Rgba, group: int): (p: ElementParams)
    ensures p.bodyType == Static
    ensures p.collisionType == 0 && p.group == group
    ensures p.position == position && p.color == color
    ensures ShapeGeometry(p) == BoxShape(size, 0.0)
    ensures p.mass == Defaults.mass && p.moment == Defaults.moment && p.velocity == Defaults.velocity
  {
    Defaults.(position := position, size := Some(size), bodyType := Static, group := group, color := color)
  }

  /** The defaults: a 30x30 box of group 1 in (144, 144, 120, 100). */
  lemma DefaultBoundary(position: Vec2)
    ensures var p := Params(position, Vec2(30.0, 30.0), Colors.Rgba(144, 144, 120, 100), 1);
      p.group == 1 && p.collisionType == 0 && ShapeGeometry(p) == BoxShape(Vec2(30.0, 30.0), 0.0)
  {
  }

  /** `Boundary(...)`. */
  method New(position: Vec2, size: Vec2, color: Colors.Rgba, group: int, registry: Registry) returns (e: Element)
    modifies registry
    ensures fresh(e.body) && fresh(e.shape)
    ensures e.KindMatches(Params(position, size, color, group)) && e.BodyMatches(Params(position, size, color, group))
    ensures registry.items == old(registry.items) + [BodyItem(e.body), ShapeItem(e.shape)]
  {
    e := new Element(Params(position, size, color, group), registry);
  }
}
