/** The per-frame hero step shared by `DigGame.updateHero` and the
    refactored `entities.Hero.update`: everything after the `deltaTime == 0`
    guard. Input arrives as an `Intent` instead of key and touch queries, the
    hero's size (`Hero.WIDTH`, `Hero.HEIGHT`, set from the texture at start-up)
    as a parameter, and the collision layer as a value that the step returns
    updated. */
module HeroStep {
  import opened Geometry
  import opened TileLayer

  const MAX_VELOCITY: real := 10.0
  const JUMP_VELOCITY: real := 25.0
  const DAMPING: real := 0.975
  const ACCEL: real := 15.0
  /** Added to velocity.y once per frame, whatever the frame's length. */
  const GRAVITY: real := -1.0

  datatype MotionState = Standing | Walking | Jumping

  datatype Hero = Hero(
    position: Vec2,
    velocity: Vec2,
    state: MotionState,
    stateTime: real,
    facesRight: bool,
    grounded: bool)

  /** What the player asks for this frame (keys or touch bands). */
  datatype Intent = Intent(jump: bool, left: bool, right: bool)

  datatype Size = Size(width: real, height: real)

  /** The hero and the collision layer after a frame. */
  datatype Frame = Frame(hero: Hero, layer: Layer)

  // ---------------------------------------------------------------------
  // Input and integration
  // ---------------------------------------------------------------------

  function Jump(h: Hero, jump: bool): Hero {
    if jump && h.grounded then
      h.(velocity := Vec2(h.velocity.x, h.velocity.y + JUMP_VELOCITY), state := Jumping, grounded := false)
    else h
  }

  function MoveLeft(h: Hero, left: bool, dt: real): Hero {
    if left then
      h.(velocity := Vec2(h.velocity.x - ACCEL * dt, h.velocity.y),
         state := if h.grounded then Walking else h.state,
         facesRight := false)
    else h
  }

  function MoveRight(h: Hero, right: bool, dt: real): Hero {
    if right then
      h.(velocity := Vec2(h.velocity.x + ACCEL * dt, h.velocity.y),
         state := if h.grounded then Walking else h.state,
         facesRight := true)
    else h
  }

  /** Jump, then left, then right, each reading the flags the previous one
      left behind. */
  function ApplyInput(h: Hero, input: Intent, dt: real): (r: Hero)
    ensures r.position == h.position && r.stateTime == h.stateTime
    // the jump impulse and the loss of ground contact need ground contact
    ensures r.grounded == (h.grounded && !input.jump)
    ensures r.velocity.y == h.velocity.y + (if input.jump && h.grounded then JUMP_VELOCITY else 0.0)
    // left and right accumulate, so pressing both cancels out
    ensures r.velocity.x == h.velocity.x
                            + (if input.right then ACCEL * dt else 0.0)
                            - (if input.left then ACCEL * dt else 0.0)
    // right wins when both are pressed
    ensures r.facesRight == (input.right || (!input.left && h.facesRight))
    // a jump this frame leaves no ground contact for Walking to be set
    ensures r.state == (if input.jump && h.grounded then Jumping
                        else if h.grounded && (input.left || input.right) then Walking
                        else h.state)
  {
    MoveRight(MoveLeft(Jump(h, input.jump), input.left, dt), input.right, dt)
  }

  /** The x-axis clamp: `signum(v) * MAX_VELOCITY` once |v| exceeds it. */
  function ClampX(vx: real): (r: real)
    ensures Abs(r) <= MAX_VELOCITY
    ensures Abs(vx) <= MAX_VELOCITY ==> r == vx
    ensures Abs(vx) > MAX_VELOCITY ==> Abs(r) == MAX_VELOCITY && (r > 0.0 <==> vx > 0.0)
  {
    if Abs(vx) > MAX_VELOCITY then Signum(vx) * MAX_VELOCITY else vx
  }

  /** Input, then gravity, then the clamp: the velocity (a rate) the
      collision passes start from. */
  function Prepare(h: Hero, input: Intent, dt: real): (r: Hero)
    ensures var a := ApplyInput(h, input, dt);
      && r.(velocity := a.velocity) == a
      && Abs(r.velocity.x) <= MAX_VELOCITY
      && r.velocity.x == ClampX(a.velocity.x)
      // gravity is added once and velocity.y is never clamped
      && r.velocity.y == a.velocity.y + GRAVITY
  {
    var a := ApplyInput(h, input, dt);
    var g := a.(velocity := Vec2(a.velocity.x, a.velocity.y + GRAVITY));
    g.(velocity := Vec2(ClampX(g.velocity.x), g.velocity.y))
  }

  /** A frame with no input changes nothing before the collision passes
      but velocity.y, which gains gravity (velocity.x already within the
      clamp is left alone). */
  lemma PrepareIdle(h: Hero, dt: real)
    requires Abs(h.velocity.x) <= MAX_VELOCITY
    ensures Prepare(h, Intent(false, false, false), dt)
            == h.(velocity := Vec2(h.velocity.x, h.velocity.y + GRAVITY))
  {
    assert ApplyInput(h, Intent(false, false, false), dt) == h;
  }

  /** An airborne hero keeps its state whatever the input, and velocity.y
      gains only gravity: no jump impulse, no switch to Jumping or Walking. */
  lemma AirborneInput(h: Hero, input: Intent, dt: real)
    requires !h.grounded
    ensures var p := Prepare(h, input, dt);
      && p.state == h.state
      && p.velocity.y == h.velocity.y + GRAVITY
      && !p.grounded
  {
  }

  /** Without ground contact the jump flag changes nothing: the input
      handling comes out the same with or without it. */
  lemma AirborneInputIgnoresJump(h: Hero, input: Intent, dt: real)
    requires !h.grounded
    ensures ApplyInput(h, input, dt) == ApplyInput(h, input.(jump := false), dt)
    ensures Prepare(h, input, dt) == Prepare(h, input.(jump := false), dt)
  {
    assert Jump(h, input.jump) == h == Jump(h, false);
  }

  // ---------------------------------------------------------------------
  // Collision passes
  // ---------------------------------------------------------------------

  /** An inclusive cell span handed to the tile query. */
  datatype Span = Span(startX: int, startY: int, endX: int, endY: int)

  /** The hero's bounding box where it stands now. */
  function HeroRect(pos: Vec2, size: Size): Rect {
    Rect(pos.x, pos.y, size.width, size.height)
  }

  /** The coordinate of the edge leading a move by `d` along one axis: the
      far edge `p + extent` when moving forward, the near edge `p` otherwise,
      each shifted by `d`. */
  function LeadingEdge(p: real, extent: real, d: real): real {
    if d > 0.0 then p + extent + d else p + d
  }

  /** The X pass sweeps the single column holding the leading edge after the
      move, over the rows the hero spans now. Where the edge is a
      non-negative coordinate that fits in an int, that column is the cell
      whose unit interval contains the edge. */
  function SweptColumn(pos: Vec2, size: Size, dx: real): (s: Span)
    ensures s.startX == s.endX == JavaIntCast(LeadingEdge(pos.x, size.width, dx))
    ensures dx > 0.0 && 0.0 <= pos.x + size.width + dx < INT_MAX as real ==>
              s.startX as real <= pos.x + size.width + dx < s.startX as real + 1.0
    ensures dx <= 0.0 && 0.0 <= pos.x + dx < INT_MAX as real ==>
              s.startX as real <= pos.x + dx < s.startX as real + 1.0
    ensures s.startY == JavaIntCast(pos.y) && s.endY == JavaIntCast(pos.y + size.height)
    ensures size.height >= 0.0 ==> s.startY <= s.endY
  {
    var col := JavaIntCast(LeadingEdge(pos.x, size.width, dx));
    var s := Span(col, JavaIntCast(pos.y), col, JavaIntCast(pos.y + size.height));
    if size.height >= 0.0 then JavaIntCastMonotone(pos.y, pos.y + size.height); s else s
  }

  /** The Y pass sweeps the single row holding the leading edge after the
      move, over the columns the hero spans now. Where the edge is a
      non-negative coordinate that fits in an int, that row is the cell
      whose unit interval contains the edge. */
  function SweptRow(pos: Vec2, size: Size, dy: real): (s: Span)
    ensures s.startY == s.endY == JavaIntCast(LeadingEdge(pos.y, size.height, dy))
    ensures dy > 0.0 && 0.0 <= pos.y + size.height + dy < INT_MAX as real ==>
              s.startY as real <= pos.y + size.height + dy < s.startY as real + 1.0
    ensures dy <= 0.0 && 0.0 <= pos.y + dy < INT_MAX as real ==>
              s.startY as real <= pos.y + dy < s.startY as real + 1.0
    ensures s.startX == JavaIntCast(pos.x) && s.endX == JavaIntCast(pos.x + size.width)
    ensures size.width >= 0.0 ==> s.startX <= s.endX
  {
    var row := JavaIntCast(LeadingEdge(pos.y, size.height, dy));
    var s := Span(JavaIntCast(pos.x), row, JavaIntCast(pos.x + size.width), row);
    if size.width >= 0.0 then JavaIntCastMonotone(pos.x, pos.x + size.width); s else s
  }

  function Query(layer: Layer, s: Span): seq<Rect> {
    TilesIn(layer, s.startX, s.startY, s.endX, s.endY)
  }

  /** The hero's rectangle shifted by the x displacement only. */
  function XMoved(pos: Vec2, size: Size, dx: real): Rect {
    HeroRect(pos, size).(x := pos.x + dx)
  }

  /** The hero's rectangle shifted by the y displacement only (the x shift
      is undone before the Y pass). */
  function YMoved(pos: Vec2, size: Size, dy: real): Rect {
    HeroRect(pos, size).(y := pos.y + dy)
  }

  ghost predicate AnyOverlap(r: Rect, tiles: seq<Rect>) {
    exists i :: 0 <= i < |tiles| && Overlaps(r, tiles[i])
  }

  /** The index of the first tile `r` overlaps, or |tiles| when none does. */
  function FirstOverlap(r: Rect, tiles: seq<Rect>): (k: nat)
    ensures k <= |tiles|
    ensures forall j :: 0 <= j < k ==> !Overlaps(r, tiles[j])
    ensures k < |tiles| ==> Overlaps(r, tiles[k])
    ensures k < |tiles| <==> AnyOverlap(r, tiles)
  {
    if |tiles| == 0 then 0
    else if Overlaps(r, tiles[0]) then 0
    else 1 + FirstOverlap(r, tiles[1..])
  }

  /** The X pass loop: the first overlapping tile zeroes the displacement
      and stops the loop. */
  function ResolveX(tiles: seq<Rect>, moved: Rect, dx: real): (r: real)
    ensures AnyOverlap(moved, tiles) ==> r == 0.0
    ensures !AnyOverlap(moved, tiles) ==> r == dx
  {
    if |tiles| == 0 then dx
    else if Overlaps(moved, tiles[0]) then 0.0
    else ResolveX(tiles[1..], moved, dx)
  }

  /** What the Y pass writes: position.y, the y displacement, the grounded
      flag and the collision layer. */
  datatype YOutcome = YOutcome(posY: real, dy: real, grounded: bool, layer: Layer)

  /** The cell `setCell((int) tile.x, (int) tile.y, null)` clears. */
  function CastCell(t: Rect): Cell {
    (JavaIntCast(t.x), JavaIntCast(t.y))
  }

  /** The Y pass loop. Every tile examined before the first overlap clears
      `grounded`; the first overlap snaps the hero above the tile (falling,
      and sets `grounded`) or below it (rising, and clears that one cell),
      zeroes the displacement and stops the loop. */
  function ResolveY(tiles: seq<Rect>, moved: Rect, height: real,
                    posY: real, dy: real, grounded: bool, layer: Layer): (r: YOutcome)
    ensures var k := FirstOverlap(moved, tiles);
      && (k == |tiles| ==>
            r == YOutcome(posY, dy, grounded && k == 0, layer))
      && (k < |tiles| && dy > 0.0 ==>
            r == YOutcome(tiles[k].y - height, 0.0, grounded && k == 0, layer - {CastCell(tiles[k])}))
      && (k < |tiles| && dy <= 0.0 ==>
            r == YOutcome(tiles[k].y + tiles[k].height, 0.0, true, layer))
  {
    if |tiles| == 0 then YOutcome(posY, dy, grounded, layer)
    else
      var tile := tiles[0];
      if Overlaps(moved, tile) then
        if dy > 0.0 then YOutcome(tile.y - height, 0.0, grounded, layer - {CastCell(tile)})
        else YOutcome(tile.y + tile.height, 0.0, true, layer)
      else ResolveY(tiles[1..], moved, height, posY, dy, false, layer)
  }

  /** A tile reported by a query whose span fits in an int sits in a
      present cell that `(int)` on its corner names exactly. */
  lemma QueriedTileCell(layer: Layer, s: Span, i: int)
    requires InIntRange(s.startX) && InIntRange(s.endX)
    requires InIntRange(s.startY) && InIntRange(s.endY)
    requires 0 <= i < |Query(layer, s)|
    ensures var t := Query(layer, s)[i];
      && CellAt(t) in layer
      && CastCell(t) == CellAt(t)
      && t.height == 1.0
  {
    TilesInSpec(layer, s.startX, s.startY, s.endX, s.endY);
    var t := Query(layer, s)[i];
    var c := CellAt(t);
    assert t == UnitTile(c.0, c.1);
    JavaIntCastOfInt(c.0);
    JavaIntCastOfInt(c.1);
  }

  /** `velocity.scl(deltaTime)`: a rate turned into this frame's
      displacement. */
  function Scaled(v: Vec2, dt: real): Vec2 {
    Vec2(v.x * dt, v.y * dt)
  }

  /** `velocity.scl(1 / deltaTime)`: a displacement turned back into a rate. */
  function Unscaled(d: Vec2, dt: real): Vec2
    requires dt != 0.0
  {
    Vec2(d.x * (1.0 / dt), d.y * (1.0 / dt))
  }

  /** Scaling and unscaling are inverse on each axis in real arithmetic,
      and a zeroed axis stays zero. */
  lemma UnscaledScaled(d: Vec2, v: Vec2, dt: real)
    requires dt != 0.0
    ensures d.x == Scaled(v, dt).x ==> Unscaled(d, dt).x == v.x
    ensures d.y == Scaled(v, dt).y ==> Unscaled(d, dt).y == v.y
    ensures d.x == 0.0 ==> Unscaled(d, dt).x == 0.0
    ensures d.y == 0.0 ==> Unscaled(d, dt).y == 0.0
  {
    assert dt * (1.0 / dt) == 1.0;
    assert v.x * dt * (1.0 / dt) == v.x * (dt * (1.0 / dt));
    assert v.y * dt * (1.0 / dt) == v.y * (dt * (1.0 / dt));
  }

  // ---------------------------------------------------------------------
  // The step
  // ---------------------------------------------------------------------

  /** The displacement the hero would make this frame without collisions. */
  function Displacement(h: Hero, input: Intent, dt: real): Vec2 {
    Scaled(Prepare(h, input, dt).velocity, dt)
  }

  /** Whether the X pass stops the hero. */
  ghost predicate XBlocked(layer: Layer, pos: Vec2, size: Size, dx: real) {
    AnyOverlap(XMoved(pos, size, dx), Query(layer, SweptColumn(pos, size, dx)))
  }

  /** The X pass: the displacement is zeroed exactly when the shifted
      rectangle overlaps a tile of the swept column. */
  function CollideX(layer: Layer, pos: Vec2, size: Size, dx: real): (r: real)
    ensures XBlocked(layer, pos, size, dx) ==> r == 0.0
    ensures !XBlocked(layer, pos, size, dx) ==> r == dx
  {
    ResolveX(Query(layer, SweptColumn(pos, size, dx)), XMoved(pos, size, dx), dx)
  }

  /** The Y pass, stated on the first tile of the swept row the shifted
      rectangle overlaps. The layer loses at most that one cell, and only
      when moving up. */
  function CollideY(layer: Layer, pos: Vec2, size: Size, dy: real, grounded: bool): (r: YOutcome)
    ensures var ys := Query(layer, SweptRow(pos, size, dy));
      var k := FirstOverlap(YMoved(pos, size, dy), ys);
      && (k == |ys| ==>
            r == YOutcome(pos.y, dy, grounded && |ys| == 0, layer))
      && (k < |ys| && dy <= 0.0 ==>
            r == YOutcome(ys[k].y + 1.0, 0.0, true, layer))
      && (k < |ys| && dy > 0.0 ==>
            && CellAt(ys[k]) in layer
            && r == YOutcome(ys[k].y - size.height, 0.0, grounded && k == 0, layer - {CellAt(ys[k])}))
  {
    var span := SweptRow(pos, size, dy);
    var ys := Query(layer, span);
    var moved := YMoved(pos, size, dy);
    var k := FirstOverlap(moved, ys);
    if k < |ys| then
      QueriedTileCell(layer, span, k);
      ResolveY(ys, moved, size.height, pos.y, dy, grounded, layer)
    else
      ResolveY(ys, moved, size.height, pos.y, dy, grounded, layer)
  }

  /** The Y pass never adds or alters a cell and loses at most one, and
      only when moving up. */
  lemma CollideYLayer(layer: Layer, pos: Vec2, size: Size, dy: real, grounded: bool)
    ensures var r := CollideY(layer, pos, size, dy, grounded);
      && r.layer.Keys <= layer.Keys
      && |layer.Keys - r.layer.Keys| <= 1
      && (forall c :: c in r.layer ==> r.layer[c] == layer[c])
      && (r.layer != layer ==> dy > 0.0)
  {
    var ys := Query(layer, SweptRow(pos, size, dy));
    var k := FirstOverlap(YMoved(pos, size, dy), ys);
    if k < |ys| && dy > 0.0 {
      ClearCell(layer, CellAt(ys[k]));
    } else {
      assert layer.Keys - layer.Keys == {};
    }
  }

  /** One frame after the zero-delta guard: input, gravity, clamp, scale,
      X pass, Y pass, move, unscale, damp. */
  function Step(h: Hero, input: Intent, dt: real, layer: Layer, size: Size): (r: Frame)
    requires dt != 0.0
    // collisions never touch state, facing or the animation clock
    ensures var p := Prepare(h, input, dt);
      && r.hero.state == p.state
      && r.hero.facesRight == p.facesRight
      && r.hero.stateTime == h.stateTime
    // the layer loses at most one cell, only when moving up, and keeps
    // every other cell as it was
    ensures r.layer.Keys <= layer.Keys
    ensures |layer.Keys - r.layer.Keys| <= 1
    ensures forall c :: c in r.layer ==> r.layer[c] == layer[c]
    ensures r.layer != layer ==> Displacement(h, input, dt).y > 0.0
  {
    var p := Prepare(h, input, dt);
    CollideYLayer(layer, p.position, size, Scaled(p.velocity, dt).y, p.grounded);
    Move(p, dt, layer, size)
  }

  /** What the collision passes write: position, velocity, the grounded
      flag and the collision layer. */
  datatype Motion = Motion(position: Vec2, velocity: Vec2, grounded: bool, layer: Layer)

  /** Scale, X pass, Y pass, move, unscale and damp, from the prepared
      position, velocity and grounded flag. */
  function Collide(pos: Vec2, vel: Vec2, grounded: bool, dt: real, layer: Layer, size: Size): Motion
    requires dt != 0.0
  {
    var d := Scaled(vel, dt);
    var dx := CollideX(layer, pos, size, d.x);
    var y := CollideY(layer, pos, size, d.y, grounded);
    var v := Unscaled(Vec2(dx, y.dy), dt);
    Motion(Vec2(pos.x + dx, y.posY + y.dy), Vec2(v.x * DAMPING, v.y), y.grounded, y.layer)
  }

  /** The prepared hero `p` after the collision passes: only what `Collide`
      writes changes. */
  function Move(p: Hero, dt: real, layer: Layer, size: Size): Frame
    requires dt != 0.0
  {
    var m := Collide(p.position, p.velocity, p.grounded, dt, layer, size);
    Frame(p.(position := m.position, velocity := m.velocity, grounded := m.grounded), m.layer)
  }

  /** Two frames that prepare the same hero end the same way: the collision
      passes see nothing of the input but what `Prepare` made of it. */
  lemma StepCongruence(h1: Hero, i1: Intent, h2: Hero, i2: Intent, dt: real, layer: Layer, size: Size)
    requires dt != 0.0
    requires Prepare(h1, i1, dt) == Prepare(h2, i2, dt)
    ensures Step(h1, i1, dt, layer, size) == Step(h2, i2, dt, layer, size)
  {
    assert Step(h1, i1, dt, layer, size) == Move(Prepare(h1, i1, dt), dt, layer, size);
    assert Step(h2, i2, dt, layer, size) == Move(Prepare(h2, i2, dt), dt, layer, size);
  }

  /** The collision passes neither read nor write the animation clock. */
  lemma MoveIgnoresStateTime(p: Hero, dt: real, layer: Layer, size: Size, t: real)
    requires dt != 0.0
    ensures var r := Move(p, dt, layer, size);
      Move(p.(stateTime := t), dt, layer, size) == r.(hero := r.hero.(stateTime := t))
  {
    var q := p.(stateTime := t);
    assert q.position == p.position && q.velocity == p.velocity && q.grounded == p.grounded;
  }

  /** The step neither reads nor writes the animation clock: starting it
      from another clock value changes only that value in the result. */
  lemma StepIgnoresStateTime(h: Hero, input: Intent, dt: real, layer: Layer, size: Size, t: real)
    requires dt != 0.0
    ensures var r := Step(h, input, dt, layer, size);
      Step(h.(stateTime := t), input, dt, layer, size) == r.(hero := r.hero.(stateTime := t))
  {
    var p := Prepare(h, input, dt);
    assert ApplyInput(h.(stateTime := t), input, dt) == ApplyInput(h, input, dt).(stateTime := t);
    assert Prepare(h.(stateTime := t), input, dt) == p.(stateTime := t);
    MoveIgnoresStateTime(p, dt, layer, size, t);
  }

  /** The X outcome of a frame: velocity.x survives (damped) unless the
      swept column blocks, and position.x is never snapped. */
  lemma StepHorizontal(h: Hero, input: Intent, dt: real, layer: Layer, size: Size)
    requires dt != 0.0
    ensures var r := Step(h, input, dt, layer, size);
      var p := Prepare(h, input, dt); var d := Displacement(h, input, dt);
      if XBlocked(layer, h.position, size, d.x)
      then r.hero.velocity.x == 0.0 && r.hero.position.x == h.position.x
      else r.hero.velocity.x == DAMPING * p.velocity.x && r.hero.position.x == h.position.x + d.x
  {
    var p := Prepare(h, input, dt);
    var d := Displacement(h, input, dt);
    var dx := CollideX(layer, p.position, size, d.x);
    var y := CollideY(layer, p.position, size, d.y, p.grounded);
    var r := Step(h, input, dt, layer, size);
    var v := Unscaled(Vec2(dx, y.dy), dt);
    var m := Collide(p.position, p.velocity, p.grounded, dt, layer, size);
    assert r.hero.velocity == m.velocity && r.hero.position == m.position;
    assert m.velocity.x == v.x * DAMPING;
    assert m.position.x == p.position.x + dx;
    assert p.position == h.position;
    UnscaledScaled(Vec2(dx, y.dy), p.velocity, dt);
  }

  /** Right after the clamp |velocity.x| <= MAX_VELOCITY, so after damping
      the frame ends with |velocity.x| <= DAMPING * MAX_VELOCITY. */
  lemma StepSpeedBound(h: Hero, input: Intent, dt: real, layer: Layer, size: Size)
    requires dt != 0.0
    ensures Abs(Step(h, input, dt, layer, size).hero.velocity.x) <= DAMPING * MAX_VELOCITY
  {
    StepHorizontal(h, input, dt, layer, size);
  }

  /** The Y outcome of a frame, on the first tile of the swept row that the
      shifted rectangle overlaps: no hit keeps the fall (and leaves
      `grounded` alone only if the row is empty); a downward hit lands on the
      tile; an upward hit bumps under it and clears its cell. */
  lemma StepVertical(h: Hero, input: Intent, dt: real, layer: Layer, size: Size)
    requires dt != 0.0
    ensures var r := Step(h, input, dt, layer, size);
      var p := Prepare(h, input, dt); var d := Displacement(h, input, dt);
      var ys := Query(layer, SweptRow(h.position, size, d.y));
      var k := FirstOverlap(YMoved(h.position, size, d.y), ys);
      && (k == |ys| ==>
            && r.hero.position.y == h.position.y + d.y
            && r.hero.velocity.y == p.velocity.y
            && r.hero.grounded == (p.grounded && |ys| == 0)
            && r.layer == layer)
      && (k < |ys| && d.y <= 0.0 ==>
            && r.hero.position.y == ys[k].y + 1.0
            && r.hero.velocity.y == 0.0
            && r.hero.grounded
            && r.layer == layer)
      && (k < |ys| && d.y > 0.0 ==>
            && r.hero.position.y == ys[k].y - size.height
            && r.hero.velocity.y == 0.0
            && r.hero.grounded == (p.grounded && k == 0)
            && CellAt(ys[k]) in layer
            && r.layer == layer - {CellAt(ys[k])})
  {
    var p := Prepare(h, input, dt);
    var d := Displacement(h, input, dt);
    var dx := CollideX(layer, p.position, size, d.x);
    var y := CollideY(layer, p.position, size, d.y, p.grounded);
    var r := Step(h, input, dt, layer, size);
    var m := Collide(p.position, p.velocity, p.grounded, dt, layer, size);
    assert r.hero.velocity == m.velocity && r.hero.position == m.position;
    assert r.hero.grounded == m.grounded && r.layer == m.layer;
    assert m.velocity.y == Unscaled(Vec2(dx, y.dy), dt).y;
    assert m.position.y == y.posY + y.dy;
    assert m.grounded == y.grounded && m.layer == y.layer;
    assert p.position == h.position;
    UnscaledScaled(Vec2(dx, y.dy), p.velocity, dt);
  }
}
