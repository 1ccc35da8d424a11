// elements/brick.py: a player's square. Its preset is a dynamic body of mass 1
// that cannot rotate (infinite moment) and a box shape whose collision type is
// the brick's group, so every brick gets its own collision type.

module Brick {
  import opened Collections
  import Colors
  import opened Elements

  /** The arguments `Brick(position, size, velocity, group, color)` hands to `Element`. */
  function Params(position: Vec2, size: Vec2, velocity: Vec2, group: int, color: Colors.Rgba): (p: ElementParams)
    ensures p.bodyType == Dynamic && p.mass == 1.0 && p.moment == Infinite
    ensures p.collisionType == group && p.group == group
    ensures p.position == position && p.velocity == velocity && p.color == color
    ensures ShapeGeometry(p) == BoxShape(size, 0.0)
    ensures p.force == Defaults.force && p.angle == Defaults.angle && p.friction == Defaults.friction
    ensures p.elasticity == Defaults.elasticity && p.sensor == Defaults.sensor
  {
    Defaults.(mass := 1.0, moment := Infinite, bodyType := Dynamic,
              position := position, velocity := velocity, size := Some(size),
              group := group, color := color, collisionType := group)
  }

  /** `Brick()` with every default: a red 15x15 brick of group 2 at rest at the origin. */
  lemma DefaultBrick()
    ensures var p := Params(Vec2(0.0, 0.0), Vec2(15.0, 15.0), Vec2(0.0, 0.0), 2, Colors.Rgba(255, 0, 0, 255));
      p.group == 2 && p.collisionType == 2 && p.color == Colors.Value(Colors.RED) &&
      ShapeGeometry(p) == BoxShape(Vec2(15.0, 15.0), 0.0)
  {
  }

  /** `Brick(...)`: builds the element and registers its body and shape. */
  method New(position: Vec2, size: Vec2, velocity: Vec2, group: int, color: Colors.Rgba, registry: Registry)
    returns (e: Element)
    modifies registry
    ensures fresh(e.body) && fresh(e.shape)
    ensures e.BodyMatches(Params(position, size, velocity, group, color))
    ensures e.KindMatches(Params(position, size, velocity, group, color))
    ensures registry.items == old(registry.items) + [BodyItem(e.body), ShapeItem(e.shape)]
  {
    e := new Element(Params(position, size, velocity, group, color), registry);
  }
}
