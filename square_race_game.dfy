// games/square_race_game.py: the Square Race game. It builds the level's
// finish lines, walls, wall edges and bricks as elements, adds every
// registered body and shape to the physics space and registers two collision
// handlers: "win" for a finish line touching a brick, which slows every body
// down and lets the contact pass, and "hit" for a brick touching anything else,
// which only plays a sound. A brick at rest ends the race. Sounds and the
// simulation itself are left out; the handlers are modelled by what they
// change and what they return.

module SquareRaceGame {
  import opened Collections
  import Colors
  import Strings
  import opened Elements
  import opened LevelData
  import Brick
  import VictoryLine
  import Boundary
  import BoundaryLine
  import GameBase
  import ReelUploader
  import Emojis

  const GameName := "Square Race Game"

  /** The game's name in snake case: the stem of its data files. */
  const SnakeName := "square_race_game"

  /** `SnakeName` is what the base game derives from the name. */
  lemma SnakeNameOfGame(name: string)
    requires name == GameName
    ensures GameBase.SnakeName(name) == SnakeName
  {
    var lower := Strings.Lower(name);
    var r := GameBase.SnakeName(name);
    assert r == Strings.ReplaceChar(lower, ' ', '_');
    forall i | 0 <= i < |r| ensures r[i] == SnakeName[i] {
      assert lower[i] == Strings.LowerChar(name[i]);
    }
  }


  // ---- level records to element parameters (`Cls(**record)`) ----

  function VictoryLineParams(r: VictoryRecord): ElementParams {
    VictoryLine.Params(ToVec(r.a), ToVec(r.b), 5.0, r.group)
  }

  function BoundaryParams(r: BoundaryRecord): ElementParams {
    Boundary.Params(r.position, ToVec(r.size), r.color, r.group)
  }

  function BoundaryLineParams(r: LineRecord): ElementParams {
    BoundaryLine.Params(ToVec(r.a), ToVec(r.b), r.group)
  }

  function BrickParams(r: BrickRecord): ElementParams {
    Brick.Params(ToVec(r.position), ToVec(r.size), r.velocity, r.group, r.color)
  }

  function VictoryLinesParams(rs: seq<VictoryRecord>): seq<ElementParams> {
    seq(|rs|, i requires 0 <= i < |rs| => VictoryLineParams(rs[i]))
  }

  function BoundariesParams(rs: seq<BoundaryRecord>): seq<ElementParams> {
    seq(|rs|, i requires 0 <= i < |rs| => BoundaryParams(rs[i]))
  }

  function BoundaryLinesParams(rs: seq<LineRecord>): seq<ElementParams> {
    seq(|rs|, i requires 0 <= i < |rs| => BoundaryLineParams(rs[i]))
  }

  function BricksParams(rs: seq<BrickRecord>): seq<ElementParams> {
    seq(|rs|, i requires 0 <= i < |rs| => BrickParams(rs[i]))
  }

  /** The bodies of elements built last are among the registry's bodies. */
  lemma BodiesOfLastBuilt(items: seq<Item>, es: seq<Element>)
    ensures forall i :: 0 <= i < |es| ==> es[i].body in Bodies(items + ElementItems(es))
  {
    BodiesConcat(items, ElementItems(es));
    ElementItemsContents(es);
    var all := Bodies(items + ElementItems(es));
    assert all == Bodies(items) + ElementBodies(es);
    forall i | 0 <= i < |es| ensures es[i].body in all {
      assert all[|Bodies(items)| + i] == es[i].body;
    }
  }

  /** `[Cls(**d) for d in records]`: one element per record, in order, each registering its
      body and shape. */
  method BuildAll(ps: seq<ElementParams>, registry: Registry) returns (es: seq<Element>)
    modifies registry
    ensures ElementsMatch(es, ps)
    ensures registry.items == old(registry.items) + ElementItems(es)
  {
    es := [];
    var i := 0;
    while i < |ps|
      invariant 0 <= i <= |ps| && |es| == i
      invariant forall k :: 0 <= k < i ==> es[k].KindMatches(ps[k]) && es[k].BodyMatches(ps[k])
      invariant registry.items == old(registry.items) + ElementItems(es)
    {
      var e := new Element(ps[i], registry);
      assert (es + [e])[..i] == es;
      es := es + [e];
      i := i + 1;
    }
  }

  /** The four comprehensions of `SquareRaceGame.__init__`, in the order they run:
      finish lines, walls, wall edges, bricks. */
  method BuildLevel(vps: seq<ElementParams>, bps: seq<ElementParams>, lps: seq<ElementParams>, kps: seq<ElementParams>,
                    registry: Registry)
    returns (victoryLines: seq<Element>, boundaries: seq<Element>, boundariesLines: seq<Element>, bricks: seq<Element>)
    modifies registry
    ensures ElementsMatch(victoryLines, vps) && ElementsMatch(boundaries, bps)
    ensures ElementsMatch(boundariesLines, lps) && ElementsMatch(bricks, kps)
    ensures registry.items == old(registry.items) + ElementItems(victoryLines) + ElementItems(boundaries) +
      ElementItems(boundariesLines) + ElementItems(bricks)
    ensures forall i :: 0 <= i < |bricks| ==> bricks[i].body in Bodies(registry.items)
  {
    victoryLines := BuildAll(vps, registry);
    boundaries := BuildAll(bps, registry);
    boundariesLines := BuildAll(lps, registry);
    ghost var before := registry.items;
    bricks := BuildAll(kps, registry);
    BodiesOfLastBuilt(before, bricks);
  }

  /** `_get_players_color`: the bricks' configured colours, in configuration order. */
  function PlayersColor(bricks: seq<BrickRecord>): (r: seq<Colors.Rgba>)
    ensures |r| == |bricks| && forall i :: 0 <= i < |bricks| ==> r[i] == bricks[i].color
  {
    seq(|bricks|, i requires 0 <= i < |bricks| => bricks[i].color)
  }

  /** Every brick whose colour is in the palette has its member's emoji in the caption's
      "versus" line. */
  lemma PlayersAppearInCaption(bricks: seq<BrickRecord>, i: nat, c: Colors.Color)
    requires i < |bricks| && Colors.Value(c) == bricks[i].color
    ensures Emojis.EmojiOf(c) in ReelUploader.PlayerEmojis(PlayersColor(bricks))
  {
    ReelUploader.PlayerEmojisContents(PlayersColor(bricks), c);
  }

  // ---- finishing ----

  /** `_finish_game_handler`: one flag per brick, true iff that brick is at rest. */
  function FinishFlags(bricks: seq<Element>): (r: seq<bool>)
    reads ElementBodies(bricks)
    ensures |r| == |bricks|
    ensures forall i :: 0 <= i < |bricks| ==> (r[i] <==> bricks[i].body.velocity == Vec2(0.0, 0.0))
  {
    if bricks == [] then []
    else [bricks[0].body.velocity == Vec2(0.0, 0.0)] + FinishFlags(bricks[1..])
  }

  /** A single brick at rest stops the main loop after the frame. */
  lemma OneBrickAtRestEndsTheRace(bricks: seq<Element>, i: nat, events: seq<GameBase.Event>)
    requires i < |bricks| && bricks[i].body.velocity == Vec2(0.0, 0.0)
    ensures !GameBase.KeepsRunning(GameBase.Frame(FinishFlags(bricks), events))
  {
    assert FinishFlags(bricks)[i];
  }

  /** While every brick moves and nobody quits, the loop goes on. */
  lemma MovingBricksKeepTheRaceGoing(bricks: seq<Element>, events: seq<GameBase.Event>)
    requires forall i :: 0 <= i < |bricks| ==> bricks[i].body.velocity != Vec2(0.0, 0.0)
    requires GameBase.QuitEvent !in events
    ensures GameBase.KeepsRunning(GameBase.Frame(FinishFlags(bricks), events))
  {
    var flags := FinishFlags(bricks);
    assert forall i :: 0 <= i < |flags| ==> !flags[i];
  }

  /** The body state other than velocity. */
  function Rest(b: Body): (real, Moment, BodyType, Vec2, Vec2, real)
    reads b
  {
    (b.mass, b.moment, b.bodyType, b.position, b.force, b.angle)
  }

  /** Python's `int(x)` on a float: truncation toward zero. */
  function Trunc(x: real): (t: int)
    ensures x >= 0.0 ==> 0 <= t && t as real <= x < t as real + 1.0
    ensures x < 0.0 ==> t <= 0 && t as real - 1.0 < x <= t as real
  {
    if x >= 0.0 then x.Floor else -((-x).Floor)
  }

  /** `(int(vx / 40.0), int(vy / 40.0))`. */
  function Slowed(v: Vec2): (w: Vec2)
    ensures w.x == Trunc(v.x / 40.0) as real && w.y == Trunc(v.y / 40.0) as real
  {
    Vec2(Trunc(v.x / 40.0) as real, Trunc(v.y / 40.0) as real)
  }

  /** The win slow-down keeps each component's sign, never grows it, and stops
      a component below 40 in size outright. */
  lemma SlowedComponent(x: real)
    ensures x == 0.0 ==> Trunc(x / 40.0) == 0
    ensures x > 0.0 ==> 0.0 <= Trunc(x / 40.0) as real <= x / 40.0
    ensures x < 0.0 ==> x / 40.0 <= Trunc(x / 40.0) as real <= 0.0
    ensures -40.0 < x < 40.0 ==> Trunc(x / 40.0) == 0
  {
  }

  /** Truncation, not floor: -41 becomes -1, where `//` would give -2. */
  lemma SlowedTruncates()
    ensures Slowed(Vec2(-41.0, 41.0)) == Vec2(-1.0, 1.0)
    ensures (-41.0 / 40.0).Floor == -2
  {
    assert Trunc(-41.0 / 40.0) == -1;
  }

  /** A pymunk `Space`: its bodies, its shapes and its collision handlers by sorted collision-type
      pair (see `Key`). */
  class Space {
    var bodies: seq<Body>
    var shapes: seq<Shape>
    var handlers: map<(int, int), Handler>

    constructor ()
      ensures bodies == [] && shapes == [] && handlers == map[]
    {
      bodies, shapes, handlers := [], [], map[];
    }
  }

  /** `victory_line_collision_handler`: every body of the space is slowed down and the
      contact is not processed (`False`). A space holds each body once. */
  method VictoryLineCollisionHandler(space: Space) returns (process: bool)
    requires NoDup(space.bodies)
    modifies space.bodies
    ensures !process
    ensures forall i :: 0 <= i < |space.bodies| ==>
      space.bodies[i].velocity == Slowed(old(space.bodies[i].velocity)) &&
      Rest(space.bodies[i]) == old(Rest(space.bodies[i]))
  {
    var bodies := space.bodies;
    var i := 0;
    while i < |bodies|
      invariant 0 <= i <= |bodies|
      invariant forall k :: 0 <= k < i ==> bodies[k].velocity == Slowed(old(bodies[k].velocity))
      invariant forall k :: i <= k < |bodies| ==> bodies[k].velocity == old(bodies[k].velocity)
      invariant forall k :: 0 <= k < |bodies| ==> Rest(bodies[k]) == old(Rest(bodies[k]))
    {
      bodies[i].velocity := Slowed(bodies[i].velocity);
      i := i + 1;
    }
    process := false;
  }

  /** The two handlers' `begin` callbacks. */
  datatype Handler = Win | Hit

  /** What `begin` returns: whether pymunk goes on to process the contact. */
  function Begin(h: Handler): (process: bool)
    ensures process <==> h == Hit
  {
    match h
    case Win => false
    case Hit => true
  }

  /** pymunk keeps one handler per unordered pair of collision types: `add_collision_handler(a, b)`
      and `add_collision_handler(b, a)` return the same handler, stored under the sorted pair, so
      setting `begin` on either replaces the other's. */
  function Key(a: int, b: int): (k: (int, int))
    ensures k.0 <= k.1
    ensures (k.0 == a && k.1 == b) || (k.0 == b && k.1 == a)
  {
    if a <= b then (a, b) else (b, a)
  }

  /** Both orders of a pair reach the same handler. */
  lemma KeySymmetric(a: int, b: int)
    ensures Key(a, b) == Key(b, a)
  {
  }

  type HandlerMap = map<(int, int), Handler>

  /** Whether a contact between shapes of types a and b is processed: without a handler pymunk's
      default `begin` does; with one, what its `begin` returns. */
  function Processes(h: HandlerMap, a: int, b: int): (r: bool)
    ensures !r <==> Key(a, b) in h && h[Key(a, b)] == Win
  {
    Key(a, b) !in h || Begin(h[Key(a, b)])
  }

  /** Which shape comes first in a contact does not matter. */
  lemma ProcessesSymmetric(h: HandlerMap, a: int, b: int)
    ensures Processes(h, a, b) == Processes(h, b, a)
  {
    KeySymmetric(a, b);
  }

  /** The key p has b on one of its sides. */
  predicate HasSide(p: (int, int), b: int) {
    p.0 <= p.1 && (p.0 == b || p.1 == b)
  }

  /** The side of p other than b. */
  function Partner(p: (int, int), b: int): int {
    if p.0 == b then p.1 else p.0
  }

  /** p is the key of (a, b) exactly when it has b on one side and a on the other. */
  lemma KeyOfSide(p: (int, int), a: int, b: int)
    ensures p == Key(a, b) <==> HasSide(p, b) && Partner(p, b) == a
  {
  }

  // ---- the win registration loops ----

  /** The inner loop of `_add_victory_line_collision_handler` for one brick type b: each
      finish-line type v in turn gets the win handler for (v, b). */
  function WinRow(h: HandlerMap, b: int, vs: seq<int>): HandlerMap
    decreases |vs|
  {
    if vs == [] then h else WinRow(h, b, vs[..|vs| - 1])[Key(vs[|vs| - 1], b) := Win]
  }

  /** Both loops, brick by brick. */
  function Wins(h: HandlerMap, bs: seq<int>, vs: seq<int>): HandlerMap
    decreases |bs|
  {
    if bs == [] then h else WinRow(Wins(h, bs[..|bs| - 1], vs), bs[|bs| - 1], vs)
  }

  /** One brick's win registrations: exactly the keys joining b to a finish-line type get the win
      handler, in whichever order the pair was first registered; every other key is kept. */
  lemma {:induction false} WinRowSpec(h: HandlerMap, b: int, vs: seq<int>, p: (int, int))
    ensures p in WinRow(h, b, vs) <==> p in h || (HasSide(p, b) && Partner(p, b) in vs)
    ensures p in WinRow(h, b, vs) ==>
      WinRow(h, b, vs)[p] == if HasSide(p, b) && Partner(p, b) in vs then Win else h[p]
    decreases |vs|
  {
    if vs != [] {
      assert vs == vs[..|vs| - 1] + [vs[|vs| - 1]];
      WinRowSpec(h, b, vs[..|vs| - 1], p);
      KeyOfSide(p, vs[|vs| - 1], b);
    }
  }

  /** The key of a (finish-line type, brick type) pair. */
  predicate IsWinPair(bs: seq<int>, vs: seq<int>, p: (int, int)) {
    p.0 <= p.1 && ((p.0 in vs && p.1 in bs) || (p.0 in bs && p.1 in vs))
  }

  /** The win registration gives exactly the win pairs' keys the win handler and keeps the rest. */
  lemma {:induction false} WinsSpec(h: HandlerMap, bs: seq<int>, vs: seq<int>, p: (int, int))
    ensures p in Wins(h, bs, vs) <==> p in h || IsWinPair(bs, vs, p)
    ensures p in Wins(h, bs, vs) ==> Wins(h, bs, vs)[p] == if IsWinPair(bs, vs, p) then Win else h[p]
    decreases |bs|
  {
    if bs != [] {
      var init, b := bs[..|bs| - 1], bs[|bs| - 1];
      assert bs == init + [b];
      WinsSpec(h, init, vs, p);
      WinRowSpec(Wins(h, init, vs), b, vs, p);
    }
  }

  // ---- the hit registration loops ----

  /** The innermost loop of `_add_brick_collision_handler`: brick type b against each shape type
      in turn, except b itself and the types in `skip`. The code skips the current finish line's
      type only, so `skip` is `[v]`. */
  function HitCell(h: HandlerMap, b: int, skip: seq<int>, ss: seq<int>): HandlerMap
    decreases |ss|
  {
    if ss == [] then h
    else
      var s := ss[|ss| - 1];
      var r := HitCell(h, b, skip, ss[..|ss| - 1]);
      if s == b || s in skip then r else r[Key(b, s) := Hit]
  }

  /** The middle loop, over the finish lines. */
  function HitRow(h: HandlerMap, b: int, vs: seq<int>, ss: seq<int>): HandlerMap
    decreases |vs|
  {
    if vs == [] then h else HitCell(HitRow(h, b, vs[..|vs| - 1], ss), b, [vs[|vs| - 1]], ss)
  }

  /** All three loops, brick by brick. */
  function Hits(h: HandlerMap, bs: seq<int>, vs: seq<int>, ss: seq<int>): HandlerMap
    decreases |bs|
  {
    if bs == [] then h else HitRow(Hits(h, bs[..|bs| - 1], vs, ss), bs[|bs| - 1], vs, ss)
  }

  lemma {:induction false} HitCellSpec(h: HandlerMap, b: int, skip: seq<int>, ss: seq<int>, p: (int, int))
    ensures p in HitCell(h, b, skip, ss) <==>
      p in h || (HasSide(p, b) && Partner(p, b) in ss && Partner(p, b) != b && Partner(p, b) !in skip)
    ensures p in HitCell(h, b, skip, ss) ==>
      HitCell(h, b, skip, ss)[p] == (if HasSide(p, b) && Partner(p, b) in ss && Partner(p, b) != b && Partner(p, b) !in skip then Hit else h[p])
    decreases |ss|
  {
    if ss != [] {
      assert ss == ss[..|ss| - 1] + [ss[|ss| - 1]];
      HitCellSpec(h, b, skip, ss[..|ss| - 1], p);
      KeyOfSide(p, ss[|ss| - 1], b);
    }
  }

  /** Some finish line's type differs from t, so the hit loops reach t at least once. */
  predicate SomeOther(vs: seq<int>, t: int) {
    exists v :: v in vs && v != t
  }

  lemma SomeOtherSnoc(vs: seq<int>, v: int, t: int)
    ensures SomeOther(vs + [v], t) <==> SomeOther(vs, t) || v != t
  {
    if SomeOther(vs + [v], t) {
      var w :| w in vs + [v] && w != t;
      if w != v { assert w in vs; }
    }
    if SomeOther(vs, t) {
      var w :| w in vs && w != t;
      assert w in vs + [v];
    }
    if v != t { assert v in vs + [v]; }
  }

  lemma {:induction false} HitRowSpec(h: HandlerMap, b: int, vs: seq<int>, ss: seq<int>, p: (int, int))
    ensures p in HitRow(h, b, vs, ss) <==>
      p in h || (HasSide(p, b) && Partner(p, b) in ss && Partner(p, b) != b && SomeOther(vs, Partner(p, b)))
    ensures p in HitRow(h, b, vs, ss) ==>
      HitRow(h, b, vs, ss)[p] == (if HasSide(p, b) && Partner(p, b) in ss && Partner(p, b) != b && SomeOther(vs, Partner(p, b)) then Hit else h[p])
    decreases |vs|
  {
    if vs != [] {
      var init, v := vs[..|vs| - 1], vs[|vs| - 1];
      assert vs == init + [v];
      HitRowSpec(h, b, init, ss, p);
      HitCellSpec(HitRow(h, b, init, ss), b, [v], ss, p);
      SomeOtherSnoc(init, v, Partner(p, b));
    }
  }

  /** The key of a (brick type, shape type) pair the hit loops register: the two types differ,
      and some finish line's type differs from the shape's. */
  predicate IsHitPair(bs: seq<int>, vs: seq<int>, ss: seq<int>, p: (int, int)) {
    p.0 < p.1 &&
    ((p.0 in bs && p.1 in ss && SomeOther(vs, p.1)) || (p.1 in bs && p.0 in ss && SomeOther(vs, p.0)))
  }

  /** The hit registration gives exactly the hit pairs' keys the hit handler and keeps the rest. */
  lemma {:induction false} HitsSpec(h: HandlerMap, bs: seq<int>, vs: seq<int>, ss: seq<int>, p: (int, int))
    ensures p in Hits(h, bs, vs, ss) <==> p in h || IsHitPair(bs, vs, ss, p)
    ensures p in Hits(h, bs, vs, ss) ==> Hits(h, bs, vs, ss)[p] == if IsHitPair(bs, vs, ss, p) then Hit else h[p]
    decreases |bs|
  {
    if bs != [] {
      var init, b := bs[..|bs| - 1], bs[|bs| - 1];
      assert bs == init + [b];
      HitsSpec(h, init, vs, ss, p);
      HitRowSpec(Hits(h, init, vs, ss), b, vs, ss, p);
    }
  }

  /** The handler table the two registrations leave on an empty one. */
  function Handlers(bs: seq<int>, vs: seq<int>, ss: seq<int>): HandlerMap {
    Hits(Wins(map[], bs, vs), bs, vs, ss)
  }

  /** What the two registrations leave, starting from no handlers: every key is a sorted pair,
      exactly the win and hit pairs are registered, a hit pair overrides a win pair, and no hit
      pair joins a type to itself. */
  lemma RegisteredPairs(bs: seq<int>, vs: seq<int>, ss: seq<int>, p: (int, int))
    ensures var r := Handlers(bs, vs, ss);
      (p in r ==> p.0 <= p.1) &&
      (p in r <==> IsWinPair(bs, vs, p) || IsHitPair(bs, vs, ss, p)) &&
      (IsHitPair(bs, vs, ss, p) ==> r[p] == Hit && p.0 != p.1) &&
      (IsWinPair(bs, vs, p) && !IsHitPair(bs, vs, ss, p) ==> r[p] == Win)
  {
    WinsSpec(map[], bs, vs, p);
    HitsSpec(Wins(map[], bs, vs), bs, vs, ss, p);
  }

  /** With a single finish-line type that no brick shares (the editor writes one line of group 2
      and bricks of groups 3, 4, ...), every brick passes through the finish line: the contact
      is not processed. */
  lemma WinPairsSurvive(bs: seq<int>, vs: seq<int>, ss: seq<int>, b: int, v: int)
    requires forall w :: w in vs ==> w == v
    requires v !in bs
    requires b in bs && v in vs
    ensures !Processes(Handlers(bs, vs, ss), b, v)
  {
    RegisteredPairs(bs, vs, ss, Key(b, v));
    SingleTypeOther(vs, v, v);
  }

  /** With two finish-line types, the hit loops register (brick type, line type) while they
      are at the other line; that replaces the line's win handler, so a brick bounces off every
      finish line whose shape is in the space. */
  lemma WinLostWithTwoLineTypes(bs: seq<int>, vs: seq<int>, ss: seq<int>, b: int, v: int)
    requires b in bs && v in vs && v in ss && v != b
    requires SomeOther(vs, v)
    ensures var r := Handlers(bs, vs, ss); Key(b, v) in r && r[Key(b, v)] == Hit
    ensures Processes(Handlers(bs, vs, ss), b, v)
  {
    RegisteredPairs(bs, vs, ss, Key(b, v));
  }

  /** The level of two finish lines of types 2 and 5 and one brick of type 3: no finish line
      stops the brick any more. */
  lemma TwoLineTypesLoseTheWin()
    ensures var r := Handlers([3], [2, 5], [3, 2, 5]);
      (2, 3) in r && r[(2, 3)] == Hit && (3, 5) in r && r[(3, 5)] == Hit &&
      Processes(r, 3, 2) && Processes(r, 3, 5)
  {
    var vs := [2, 5];
    assert 5 in vs && 2 in vs;
    assert Key(3, 2) == (2, 3) && Key(3, 5) == (3, 5);
    WinLostWithTwoLineTypes([3], vs, [3, 2, 5], 3, 2);
    WinLostWithTwoLineTypes([3], vs, [3, 2, 5], 3, 5);
    var r := Handlers([3], vs, [3, 2, 5]);
    assert (2, 3) in r && (3, 5) in r;
  }

  // ---- the intended hit registration ----

  /** The middle loop with every finish line's type skipped, not only the current one's. */
  function HitRowFixed(h: HandlerMap, b: int, ws: seq<int>, vs: seq<int>, ss: seq<int>): HandlerMap
    decreases |ws|
  {
    if ws == [] then h else HitCell(HitRowFixed(h, b, ws[..|ws| - 1], vs, ss), b, vs, ss)
  }

  /** All three loops with that skip. */
  function HitsFixed(h: HandlerMap, bs: seq<int>, vs: seq<int>, ss: seq<int>): HandlerMap
    decreases |bs|
  {
    if bs == [] then h else HitRowFixed(HitsFixed(h, bs[..|bs| - 1], vs, ss), bs[|bs| - 1], vs, vs, ss)
  }

  lemma {:induction false} HitRowFixedSpec(h: HandlerMap, b: int, ws: seq<int>, vs: seq<int>, ss: seq<int>, p: (int, int))
    ensures p in HitRowFixed(h, b, ws, vs, ss) <==>
      p in h || (ws != [] && HasSide(p, b) && Partner(p, b) in ss && Partner(p, b) != b && Partner(p, b) !in vs)
    ensures p in HitRowFixed(h, b, ws, vs, ss) ==>
      HitRowFixed(h, b, ws, vs, ss)[p] == (if ws != [] && HasSide(p, b) && Partner(p, b) in ss && Partner(p, b) != b && Partner(p, b) !in vs then Hit else h[p])
    decreases |ws|
  {
    if ws != [] {
      HitRowFixedSpec(h, b, ws[..|ws| - 1], vs, ss, p);
      HitCellSpec(HitRowFixed(h, b, ws[..|ws| - 1], vs, ss), b, vs, ss, p);
    }
  }

  /** The key of a (brick type, shape type) pair the intended loops register: there is a finish
      line, the two types differ and the shape's type is no finish line's. */
  predicate IsHitPairFixed(bs: seq<int>, vs: seq<int>, ss: seq<int>, p: (int, int)) {
    vs != [] && p.0 < p.1 &&
    ((p.0 in bs && p.1 in ss && p.1 !in vs) || (p.1 in bs && p.0 in ss && p.0 !in vs))
  }

  lemma {:induction false} HitsFixedSpec(h: HandlerMap, bs: seq<int>, vs: seq<int>, ss: seq<int>, p: (int, int))
    ensures p in HitsFixed(h, bs, vs, ss) <==> p in h || IsHitPairFixed(bs, vs, ss, p)
    ensures p in HitsFixed(h, bs, vs, ss) ==>
      HitsFixed(h, bs, vs, ss)[p] == if IsHitPairFixed(bs, vs, ss, p) then Hit else h[p]
    decreases |bs|
  {
    if bs != [] {
      var init, b := bs[..|bs| - 1], bs[|bs| - 1];
      assert bs == init + [b];
      HitsFixedSpec(h, init, vs, ss, p);
      HitRowFixedSpec(HitsFixed(h, init, vs, ss), b, vs, vs, ss, p);
    }
  }

  /** The handler table the intended registrations leave on an empty one. */
  function HandlersFixed(bs: seq<int>, vs: seq<int>, ss: seq<int>): HandlerMap {
    HitsFixed(Wins(map[], bs, vs), bs, vs, ss)
  }

  /** With the intended skip, every brick passes through every finish line, however many
      finish-line types there are, as long as no brick shares one. */
  lemma WinPairsSurviveFixed(bs: seq<int>, vs: seq<int>, ss: seq<int>, b: int, v: int)
    requires forall w :: w in vs ==> w !in bs
    requires b in bs && v in vs
    ensures var r := HandlersFixed(bs, vs, ss); Key(b, v) in r && r[Key(b, v)] == Win
    ensures !Processes(HandlersFixed(bs, vs, ss), b, v)
  {
    var p := Key(b, v);
    WinsSpec(map[], bs, vs, p);
    HitsFixedSpec(Wins(map[], bs, vs), bs, vs, ss, p);
  }

  /** With a single finish-line type, the intended registrations leave the very table the code
      leaves: the correction changes nothing for the levels the editor writes. */
  lemma FixAgreesWithOneLineType(bs: seq<int>, vs: seq<int>, ss: seq<int>, v: int)
    requires v in vs && forall w :: w in vs ==> w == v
    ensures HandlersFixed(bs, vs, ss) == Handlers(bs, vs, ss)
  {
    var r, f := Handlers(bs, vs, ss), HandlersFixed(bs, vs, ss);
    forall p ensures (p in r <==> p in f) && (p in r ==> r[p] == f[p]) {
      WinsSpec(map[], bs, vs, p);
      HitsSpec(Wins(map[], bs, vs), bs, vs, ss, p);
      HitsFixedSpec(Wins(map[], bs, vs), bs, vs, ss, p);
      SingleTypeOther(vs, v, p.0);
      SingleTypeOther(vs, v, p.1);
    }
    assert r.Keys == f.Keys;
  }

  /** With one finish-line type v, some line's type differs from t exactly when t is not v. */
  lemma SingleTypeOther(vs: seq<int>, v: int, t: int)
    requires v in vs && forall w :: w in vs ==> w == v
    ensures SomeOther(vs, t) <==> t !in vs
  {
    if SomeOther(vs, t) {
      var w :| w in vs && w != t;
    }
  }

  /** `_add_victory_line_collision_handler`: for each brick and each finish line, the pair
      (line type, brick type) gets the win handler. The loops build the space's new handler
      table, which the caller stores. */
  method AddVictoryLineCollisionHandler(handlers: HandlerMap, bricks: seq<Element>, victoryLines: seq<Element>)
    returns (r: HandlerMap)
    ensures r == Wins(handlers, ShapeTypes(ElementShapes(bricks)), ShapeTypes(ElementShapes(victoryLines)))
  {
    ghost var bs := ShapeTypes(ElementShapes(bricks));
    ghost var vs := ShapeTypes(ElementShapes(victoryLines));
    r := handlers;
    var i := 0;
    while i < |bricks|
      invariant 0 <= i <= |bricks|
      invariant r == Wins(handlers, bs[..i], vs)
    {
      var j := 0;
      while j < |victoryLines|
        invariant 0 <= j <= |victoryLines|
        invariant r == WinRow(Wins(handlers, bs[..i], vs), bs[i], vs[..j])
      {
        assert vs[..j + 1][..j] == vs[..j];
        r := r[Key(victoryLines[j].shape.collisionType, bricks[i].shape.collisionType) := Win];
        j := j + 1;
      }
      assert vs[..j] == vs;
      assert bs[..i + 1][..i] == bs[..i];
      i := i + 1;
    }
    assert bs[..i] == bs;
  }

  /** `_add_brick_collision_handler`: for each brick, each finish line and each shape of the
      space whose type is neither the brick's nor that line's, the pair (brick type, shape
      type) gets the hit handler. */
  method AddBrickCollisionHandler(handlers: HandlerMap, bricks: seq<Element>, victoryLines: seq<Element>, shapes: seq<Shape>)
    returns (r: HandlerMap)
    ensures r == Hits(handlers, ShapeTypes(ElementShapes(bricks)), ShapeTypes(ElementShapes(victoryLines)), ShapeTypes(shapes))
  {
    ghost var bs := ShapeTypes(ElementShapes(bricks));
    ghost var vs := ShapeTypes(ElementShapes(victoryLines));
    ghost var ss := ShapeTypes(shapes);
    r := handlers;
    var i := 0;
    while i < |bricks|
      invariant 0 <= i <= |bricks|
      invariant r == Hits(handlers, bs[..i], vs, ss)
    {
      var j := 0;
      while j < |victoryLines|
        invariant 0 <= j <= |victoryLines|
        invariant r == HitRow(Hits(handlers, bs[..i], vs, ss), bs[i], vs[..j], ss)
      {
        var k := 0;
        while k < |shapes|
          invariant 0 <= k <= |shapes|
          invariant r == HitCell(HitRow(Hits(handlers, bs[..i], vs, ss), bs[i], vs[..j], ss), bs[i], [vs[j]], ss[..k])
        {
          assert ss[..k + 1][..k] == ss[..k];
          var t := shapes[k].collisionType;
          if t == bricks[i].shape.collisionType || t == victoryLines[j].shape.collisionType {
            k := k + 1;
            continue;
          }
          r := r[Key(bricks[i].shape.collisionType, t) := Hit];
          k := k + 1;
        }
        assert ss[..k] == ss;
        assert vs[..j + 1][..j] == vs[..j];
        j := j + 1;
      }
      assert vs[..j] == vs;
      assert bs[..i + 1][..i] == bs[..i];
      i := i + 1;
    }
    assert bs[..i] == bs;
  }

  /** The space `__init__` leaves: a new pymunk space holding the items, and the two
      registrations on its empty handler table. */
  method FillSpace(items: seq<Item>, bricks: seq<Element>, victoryLines: seq<Element>) returns (space: Space)
    ensures fresh(space)
    ensures space.bodies == Bodies(items) && space.shapes == Shapes(items)
    ensures space.handlers == Handlers(ShapeTypes(ElementShapes(bricks)), ShapeTypes(ElementShapes(victoryLines)),
      ShapeTypes(Shapes(items)))
  {
    space := new Space();
    // `self._space.add(*Element.items)`
    space.bodies, space.shapes := space.bodies + Bodies(items), space.shapes + Shapes(items);
    var h := AddVictoryLineCollisionHandler(space.handlers, bricks, victoryLines);
    h := AddBrickCollisionHandler(h, bricks, victoryLines, space.shapes);
    space.handlers := h;
  }

  /** `GameBase.__init__` with this game's name. */
  method NewBase(n: int, recording: bool, upload: bool, dataFiles: seq<string>, playersColor: seq<Colors.Rgba>)
    returns (base: GameBase.Game)
    ensures fresh(base) && base.name == GameName
    ensures base.number == GameBase.GameNumber(n, SnakeName, dataFiles)
    ensures base.uploader.Some? <==> recording && upload
    ensures base.uploader.Some? ==> base.uploader.value.colors == Some(playersColor)
  {
    SnakeNameOfGame(GameName);
    base := new GameBase.Game(GameName, n, recording, upload, dataFiles, playersColor);
  }

  /** The game: the base game's state plus the level's elements and the physics space. */
  class Game {
    const base: GameBase.Game
    const victoryLines: seq<Element>
    const boundaries: seq<Element>
    const boundariesLines: seq<Element>
    const bricks: seq<Element>
    const space: Space

    /** `SquareRaceGame.__init__` on the level stored in the data file. */
    constructor (level: Level, n: int, recording: bool, upload: bool, dataFiles: seq<string>, registry: Registry)
      modifies registry
      ensures fresh(base) && fresh(space)
      ensures base.name == GameName
      ensures base.number == GameBase.GameNumber(n, SnakeName, dataFiles)
      ensures base.uploader.Some? <==> recording && upload
      ensures base.uploader.Some? ==> base.uploader.value.colors == Some(PlayersColor(level.bricks))
      ensures ElementsBuilt(victoryLines, VictoryLinesParams(level.victoryLines))
      ensures ElementsBuilt(boundaries, BoundariesParams(level.boundaries))
      ensures ElementsBuilt(boundariesLines, BoundaryLinesParams(level.boundariesLines))
      ensures ElementsBuilt(bricks, BricksParams(level.bricks))
      ensures registry.items == old(registry.items) + ElementItems(victoryLines) + ElementItems(boundaries) +
        ElementItems(boundariesLines) + ElementItems(bricks)
      ensures space.bodies == Bodies(registry.items) && space.shapes == Shapes(registry.items)
      ensures forall i :: 0 <= i < |bricks| ==> bricks[i].body in space.bodies
      ensures space.handlers == Handlers(CollisionTypes(BricksParams(level.bricks)),
        CollisionTypes(VictoryLinesParams(level.victoryLines)), ShapeTypes(space.shapes))
    {
      var b := NewBase(n, recording, upload, dataFiles, PlayersColor(level.bricks));
      var vl, bd, bl, bk := BuildLevel(VictoryLinesParams(level.victoryLines),
        BoundariesParams(level.boundaries), BoundaryLinesParams(level.boundariesLines), BricksParams(level.bricks), registry);
      MatchedTypes(bk, BricksParams(level.bricks));
      MatchedTypes(vl, VictoryLinesParams(level.victoryLines));
      var sp := FillSpace(registry.items, bk, vl);
      base, space, victoryLines, boundaries, boundariesLines, bricks := b, sp, vl, bd, bl, bk;
    }

    /** `_stop_game`: every body of the space comes to rest. */
    method StopGame()
      modifies space.bodies
      ensures forall i :: 0 <= i < |space.bodies| ==>
        space.bodies[i].velocity == Vec2(0.0, 0.0) && Rest(space.bodies[i]) == old(Rest(space.bodies[i]))
    {
      var bodies := space.bodies;
      var i := 0;
      while i < |bodies|
        invariant 0 <= i <= |bodies|
        invariant forall k :: 0 <= k < i ==> bodies[k].velocity == Vec2(0.0, 0.0)
        invariant forall k :: 0 <= k < |bodies| ==> Rest(bodies[k]) == old(Rest(bodies[k]))
      {
        bodies[i].velocity := Vec2(0.0, 0.0);
        i := i + 1;
      }
    }
  }
}
