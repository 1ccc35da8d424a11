// elements/victory_line.py: the finish line, a red segment on a kinematic body
// whose collision type is its group.

module VictoryLine {
  import opened Collections
  import Colors
  import opened Elements

  /** The arguments `VictoryLine(a, b, radius, group)` hands to `Element`. The endpoints are
      tuples, which Python always treats as true, so the shape is always the segment a -> b. */
  function Params(a: Vec2, b: Vec2, radius: real, group: int): (p: ElementParams)
    ensures p.bodyType == Kinematic
    ensures p.collisionType == group && p.group == group
    ensures p.color == Colors.Value(Colors.RED)
    ensures ShapeGeometry(p) == SegmentShape(a, b, radius)
    ensures p.mass == Defaults.mass && p.moment == Defaults.moment && p.position == Defaults.position
  {
    Defaults.(a := Some(a), b := Some(b), radius := radius, group := group,
              collisionType := group, bodyType := Kinematic, color := Colors.Value(Colors.RED))
  }

  /** The defaults: radius 5 and group (so collision type) 3. */
  lemma DefaultVictoryLine(a: Vec2, b: Vec2)
    ensures var p := Params(a, b, 5.0, 3);
      p.collisionType == 3 && ShapeGeometry(p).radius == 5.0
  {
  }

  /** `VictoryLine(...)`. */
  method New(a: Vec2, b: Vec2, radius: real, group: int, registry: Registry) returns (e: Element)
    modifies registry
    ensures fresh(e.body) && fresh(e.shape)
    ensures e.KindMatches(Params(a, b, radius, group)) && e.BodyMatches(Params(a, b, radius, group))
    ensures registry.items == old(registry.items) + [BodyItem(e.body), ShapeItem(e.shape)]
  {
    e := new Element(Params(a, b, radius, group), registry);
  }
}
