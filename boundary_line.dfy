// elements/boundary_line.py: an invisible wall edge, a segment of radius 1 on a
// static body in a fully transparent colour, with collision type 0.

module BoundaryLine {
  import opened Collections
  import Colors
  import opened Elements

  /** The arguments `BoundaryLine(a, b, group)` hands to `Element`. */
  function Params(a: Vec2, b: Vec2, group: int): (p: ElementParams)
    ensures p.bodyType == Static && p.color == Colors.Rgba(0, 0, 0, 0)
    ensures p.collisionType == 0 && p.group == group
    ensures ShapeGeometry(p) == SegmentShape(a, b, 1.0)
    ensures p.mass == Defaults.mass && p.moment == Defaults.moment && p.position == Defaults.position
  {
    Defaults.(a := Some(a), b := Some(b), group := group,
              color := Colors.Rgba(0, 0, 0, 0), bodyType := Static, radius := 1.0)
  }

  /** `BoundaryLine(...)`. */
  method New(a: Vec2, b: Vec2, group: int, registry: Registry) returns (e: Element)
    modifies registry
    ensures fresh(e.body) && fresh(e.shape)
    ensures e.KindMatches(Params(a, b, group)) && e.BodyMatches(Params(a, b, group))
    ensures registry.items == old(registry.items) + [BodyItem(e.body), ShapeItem(e.shape)]
  {
    e := new Element(Params(a, b, group), registry);
  }
}
