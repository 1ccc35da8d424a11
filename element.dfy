// elements/element.py: a game element is a physics body and one shape on it.
// The constructor builds the body from its parameters, picks the shape kind by
// precedence (segment, box, polygon, circle), sets the shape's parameters and
// appends the body and the shape to the class-wide `items` list, which the game
// later adds to the physics space. Only the parameters are modelled; pymunk's
// simulation is not.

module Elements {
  import opened Collections
  import Colors

  /** A 2-vector as pymunk stores it. */
  datatype Vec2 = Vec2(x: real, y: real)

  datatype BodyType = Dynamic | Kinematic | Static

  /** A moment of inertia; `float('inf')` makes a body that never rotates. */
  datatype Moment = Finite(value: real) | Infinite

  /** A pymunk `Transform` (a 2x3 affine matrix), passed through to a polygon. */
  datatype Transform = Transform(a: real, b: real, c: real, d: real, tx: real, ty: real)

  /** The shape pymunk builds, with what it is built from. */
  datatype Geometry =
    | SegmentShape(a: Vec2, b: Vec2, radius: real)
    | BoxShape(size: Vec2, radius: real)
    | PolyShape(vertices: seq<Vec2>, transform: Option<Transform>, radius: real)
    | CircleShape(radius: real)

  /** The keyword arguments of `Element.__init__`; `None` stands for an argument left as None. */
  datatype ElementParams = ElementParams(
    mass: real,
    moment: Moment,
    bodyType: BodyType,
    position: Vec2,
    velocity: Vec2,
    force: Vec2,
    angle: real,
    radius: real,
    vertices: Option<seq<Vec2>>,
    transform: Option<Transform>,
    size: Option<Vec2>,
    a: Option<Vec2>,
    b: Option<Vec2>,
    friction: real,
    elasticity: real,
    sensor: bool,
    collisionType: int,
    color: Colors.Rgba,
    group: int)

  /** The defaults of `Element.__init__`: a static body of mass 1 and moment 0 at rest at the
      origin, no geometry, elasticity 1, friction 0, collision type 0, group 0, transparent. */
  const Defaults := ElementParams(
    mass := 1.0, moment := Finite(0.0), bodyType := Static,
    position := Vec2(0.0, 0.0), velocity := Vec2(0.0, 0.0), force := Vec2(0.0, 0.0), angle := 0.0,
    radius := 0.0, vertices := None, transform := None, size := None, a := None, b := None,
    friction := 0.0, elasticity := 1.0, sensor := false, collisionType := 0,
    color := Colors.Rgba(0, 0, 0, 0), group := 0)

  /** Python truthiness of the optional arguments: a 2-tuple is always true, a list when non-empty. */
  predicate HasSegment(p: ElementParams) { p.a.Some? && p.b.Some? }
  predicate HasVertices(p: ElementParams) { p.vertices.Some? && p.vertices.value != [] }

  /** The if/elif chain that picks the shape. */
  function ShapeGeometry(p: ElementParams): (g: Geometry)
    ensures g.SegmentShape? <==> HasSegment(p)
    ensures g.BoxShape? <==> !HasSegment(p) && p.size.Some?
    ensures g.PolyShape? <==> !HasSegment(p) && p.size.None? && HasVertices(p)
    ensures g.CircleShape? <==> !HasSegment(p) && p.size.None? && !HasVertices(p)
    ensures g.SegmentShape? ==> g == SegmentShape(p.a.value, p.b.value, p.radius)
    ensures g.BoxShape? ==> g == BoxShape(p.size.value, p.radius)
    ensures g.PolyShape? ==> g == PolyShape(p.vertices.value, p.transform, p.radius)
    ensures g.CircleShape? ==> g == CircleShape(p.radius)
  {
    if HasSegment(p) then SegmentShape(p.a.value, p.b.value, p.radius)
    else if p.size.Some? then BoxShape(p.size.value, p.radius)
    else if HasVertices(p) then PolyShape(p.vertices.value, p.transform, p.radius)
    else CircleShape(p.radius)
  }

  /** With no geometry argument at all the element is a circle of the given radius. */
  lemma DefaultIsCircle()
    ensures ShapeGeometry(Defaults) == CircleShape(0.0)
  {
  }

  /** A `pymunk.Body`. */
  class Body {
    const mass: real
    const moment: Moment
    const bodyType: BodyType
    var position: Vec2
    var velocity: Vec2
    var force: Vec2
    var angle: real

    /** `pymunk.Body(mass, moment, body_type)`: at rest at the origin. */
    constructor (mass: real, moment: Moment, bodyType: BodyType)
      ensures this.mass == mass && this.moment == moment && this.bodyType == bodyType
      ensures position == Vec2(0.0, 0.0) && velocity == Vec2(0.0, 0.0)
      ensures force == Vec2(0.0, 0.0) && angle == 0.0
    {
      this.mass, this.moment, this.bodyType := mass, moment, bodyType;
      position, velocity, force, angle := Vec2(0.0, 0.0), Vec2(0.0, 0.0), Vec2(0.0, 0.0), 0.0;
    }
  }

  /** A pymunk shape attached to a body. `Element` sets every attribute right after creating
      the shape and nothing changes them afterwards, so they are fixed at construction here. */
  class Shape {
    const body: Body
    const geometry: Geometry
    const friction: real
    const elasticity: real
    const sensor: bool
    const collisionType: int
    const color: Colors.Rgba
    const group: int

    constructor (body: Body, geometry: Geometry, friction: real, elasticity: real, sensor: bool,
                 collisionType: int, color: Colors.Rgba, group: int)
      ensures this.body == body && this.geometry == geometry
      ensures this.friction == friction && this.elasticity == elasticity && this.sensor == sensor
      ensures this.collisionType == collisionType && this.color == color && this.group == group
    {
      this.body, this.geometry := body, geometry;
      this.friction, this.elasticity, this.sensor := friction, elasticity, sensor;
      this.collisionType, this.color, this.group := collisionType, color, group;
    }
  }

  datatype Item = BodyItem(body: Body) | ShapeItem(shape: Shape)

  /** The class attribute `Element.items`, shared by every element and only ever extended. */
  class Registry {
    var items: seq<Item>

    constructor ()
      ensures items == []
    {
      items := [];
    }
  }

  /** An `Element`: its body and its shape. */
  class Element {
    const body: Body
    const shape: Shape

    /** The body is in the given starting state: position, velocity, force and angle. */
    predicate BodyMatches(p: ElementParams)
      reads body
    {
      body.position == p.position && body.velocity == p.velocity && body.force == p.force &&
      body.angle == p.angle
    }

    /** What construction fixes: the body's mass, moment and type, and the shape. */
    predicate KindMatches(p: ElementParams) {
      body.mass == p.mass && body.moment == p.moment && body.bodyType == p.bodyType && ShapeMatches(p)
    }

    /** The shape is the chosen one, on this element's body, with exactly the given shape parameters. */
    predicate ShapeMatches(p: ElementParams) {
      shape.body == body && shape.geometry == ShapeGeometry(p) &&
      shape.friction == p.friction && shape.elasticity == p.elasticity && shape.sensor == p.sensor &&
      shape.collisionType == p.collisionType && shape.color == p.color && shape.group == p.group
    }

    /** `Element.__init__`: builds the body and the shape and appends `[body, shape]` to `items`. */
    constructor (p: ElementParams, registry: Registry)
      modifies registry
      ensures fresh(body) && fresh(shape)
      ensures KindMatches(p) && BodyMatches(p)
      ensures registry.items == old(registry.items) + [BodyItem(body), ShapeItem(shape)]
    {
      var b := new Body(p.mass, p.moment, p.bodyType);
      b.position := p.position;
      b.velocity := p.velocity;
      b.force := p.force;
      b.angle := p.angle;
      var s := new Shape(b, ShapeGeometry(p), p.friction, p.elasticity, p.sensor, p.collisionType, p.color, p.group);
      body, shape := b, s;
      new;
      registry.items := registry.items + [BodyItem(body), ShapeItem(shape)];
    }
  }

  /** The bodies of a registry in order: each element adds its body at an even position. */
  function Bodies(items: seq<Item>): (r: seq<Body>)
    ensures |r| <= |items|
  {
    if items == [] then []
    else (if items[0].BodyItem? then [items[0].body] else []) + Bodies(items[1..])
  }

  /** Appending one element's pair adds exactly its body to the bodies. */
  lemma {:induction false} BodiesAppend(items: seq<Item>, b: Body, s: Shape)
    ensures Bodies(items + [BodyItem(b), ShapeItem(s)]) == Bodies(items) + [b]
  {
    if items == [] {
      assert [BodyItem(b), ShapeItem(s)][1..] == [ShapeItem(s)];
    } else {
      assert (items + [BodyItem(b), ShapeItem(s)])[1..] == items[1..] + [BodyItem(b), ShapeItem(s)];
      BodiesAppend(items[1..], b, s);
    }
  }

  /** The shapes of a registry in order. */
  function Shapes(items: seq<Item>): (r: seq<Shape>)
    ensures |r| <= |items|
  {
    if items == [] then []
    else (if items[0].ShapeItem? then [items[0].shape] else []) + Shapes(items[1..])
  }

  lemma {:induction false} BodiesConcat(a: seq<Item>, b: seq<Item>)
    ensures Bodies(a + b) == Bodies(a) + Bodies(b)
  {
    if a != [] {
      assert (a + b)[1..] == a[1..] + b;
      assert (a + b)[0] == a[0];
      BodiesConcat(a[1..], b);
    } else {
      assert a + b == b;
    }
  }

  lemma {:induction false} ShapesConcat(a: seq<Item>, b: seq<Item>)
    ensures Shapes(a + b) == Shapes(a) + Shapes(b)
  {
    if a != [] {
      assert (a + b)[1..] == a[1..] + b;
      assert (a + b)[0] == a[0];
      ShapesConcat(a[1..], b);
    } else {
      assert a + b == b;
    }
  }

  /** What building the elements in order appends to `items`. */
  function ElementItems(es: seq<Element>): (r: seq<Item>)
    ensures |r| == 2 * |es|
  {
    if es == [] then []
    else ElementItems(es[..|es| - 1]) + [BodyItem(es[|es| - 1].body), ShapeItem(es[|es| - 1].shape)]
  }

  function ElementBodies(es: seq<Element>): (r: seq<Body>)
    ensures |r| == |es| && forall i :: 0 <= i < |es| ==> r[i] == es[i].body
  {
    seq(|es|, i requires 0 <= i < |es| => es[i].body)
  }

  function ElementShapes(es: seq<Element>): (r: seq<Shape>)
    ensures |r| == |es| && forall i :: 0 <= i < |es| ==> r[i] == es[i].shape
  {
    seq(|es|, i requires 0 <= i < |es| => es[i].shape)
  }

  /** The bodies a run of elements registers are exactly theirs, in order; likewise the shapes. */
  lemma {:induction false} ElementItemsContents(es: seq<Element>)
    ensures Bodies(ElementItems(es)) == ElementBodies(es)
    ensures Shapes(ElementItems(es)) == ElementShapes(es)
  {
    if es != [] {
      var init, last := es[..|es| - 1], es[|es| - 1];
      ElementItemsContents(init);
      BodiesConcat(ElementItems(init), [BodyItem(last.body), ShapeItem(last.shape)]);
      ShapesConcat(ElementItems(init), [BodyItem(last.body), ShapeItem(last.shape)]);
      assert [BodyItem(last.body), ShapeItem(last.shape)][1..] == [ShapeItem(last.shape)];
    }
  }

  /** Each element was built from the parameters at its position. */
  predicate ElementsBuilt(es: seq<Element>, ps: seq<ElementParams>) {
    |es| == |ps| && forall i :: 0 <= i < |es| ==> es[i].KindMatches(ps[i])
  }

  /** ... and its body is still in the starting state they give. */
  predicate ElementsMatch(es: seq<Element>, ps: seq<ElementParams>)
    reads ElementBodies(es)
  {
    ElementsBuilt(es, ps) && forall i :: 0 <= i < |es| ==> es[i].BodyMatches(ps[i])
  }

  /** The collision types of some shapes, in order. */
  function ShapeTypes(shapes: seq<Shape>): (r: seq<int>)
    ensures |r| == |shapes| && forall i :: 0 <= i < |shapes| ==> r[i] == shapes[i].collisionType
  {
    seq(|shapes|, i requires 0 <= i < |shapes| => shapes[i].collisionType)
  }

  /** The collision types the parameters ask for, in order. */
  function CollisionTypes(ps: seq<ElementParams>): (r: seq<int>)
    ensures |r| == |ps| && forall i :: 0 <= i < |ps| ==> r[i] == ps[i].collisionType
  {
    seq(|ps|, i requires 0 <= i < |ps| => ps[i].collisionType)
  }

  /** Elements built from parameters have the collision types the parameters ask for. */
  lemma MatchedTypes(es: seq<Element>, ps: seq<ElementParams>)
    requires ElementsBuilt(es, ps)
    ensures ShapeTypes(ElementShapes(es)) == CollisionTypes(ps)
  {
    var a, b := ShapeTypes(ElementShapes(es)), CollisionTypes(ps);
    forall i | 0 <= i < |a| ensures a[i] == b[i] {
      assert es[i].KindMatches(ps[i]);
    }
  }

  /** A list built only by elements alternates body, shape, and the shape sits on the body before it. */
  ghost predicate WellPaired(items: seq<Item>) {
    |items| % 2 == 0 &&
    forall k :: 0 <= k < |items| / 2 ==>
      items[2 * k].BodyItem? && items[2 * k + 1].ShapeItem? && items[2 * k + 1].shape.body == items[2 * k].body
  }

  lemma WellPairedAppend(items: seq<Item>, b: Body, s: Shape)
    requires WellPaired(items) && s.body == b
    ensures WellPaired(items + [BodyItem(b), ShapeItem(s)])
  {
    var r := items + [BodyItem(b), ShapeItem(s)];
    forall k | 0 <= k < |r| / 2
      ensures r[2 * k].BodyItem? && r[2 * k + 1].ShapeItem? && r[2 * k + 1].shape.body == r[2 * k].body
    {
      if k < |items| / 2 {
        assert r[2 * k] == items[2 * k] && r[2 * k + 1] == items[2 * k + 1];
      }
    }
  }
}
