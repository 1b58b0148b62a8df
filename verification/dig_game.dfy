/** `DigGame.updateHero` and the frame loop that calls it from `render`. */
module DigGame {
  import opened Geometry
  import opened TileLayer
  import opened HeroStep

  /** The hero with its animation clock advanced by dt. */
  function Advance(h: Hero, dt: real): Hero {
    h.(stateTime := h.stateTime + dt)
  }

  /** A frame with no elapsed time is skipped entirely; otherwise the
      animation clock advances by the frame's length and the hero steps. */
  function UpdateHero(h: Hero, input: Intent, dt: real, layer: Layer, size: Size): (r: Frame)
    ensures dt == 0.0 ==> r == Frame(h, layer)
    ensures dt != 0.0 ==> r.hero.stateTime == h.stateTime + dt
    // no jump, no Jumping and no Walking without ground contact
    ensures !h.grounded ==> r.hero.state == h.state
    ensures dt != 0.0 ==> Abs(r.hero.velocity.x) <= DAMPING * MAX_VELOCITY
    ensures r.layer.Keys <= layer.Keys
    ensures |layer.Keys - r.layer.Keys| <= 1
    ensures forall c :: c in r.layer ==> r.layer[c] == layer[c]
  {
    if dt == 0.0 then Frame(h, layer)
    else
      StepSpeedBound(Advance(h, dt), input, dt, layer, size);
      Step(Advance(h, dt), input, dt, layer, size)
  }

  /** While airborne the jump input has no effect at all: the frame is the
      same as without it. */
  lemma AirborneJumpIgnored(h: Hero, input: Intent, dt: real, layer: Layer, size: Size)
    requires !h.grounded
    ensures UpdateHero(h, input, dt, layer, size) == UpdateHero(h, input.(jump := false), dt, layer, size)
  {
    if dt != 0.0 {
      var started := Advance(h, dt);
      AirborneInputIgnoresJump(started, input, dt);
      StepCongruence(started, input, started, input.(jump := false), dt, layer, size);
      UpdateHeroSteps(h, input, dt, layer, size);
      UpdateHeroSteps(h, input.(jump := false), dt, layer, size);
    }
  }

  /** A jump from the ground adds JUMP_VELOCITY before gravity and ends the
      frame in `Jumping`, whatever the horizontal input. */
  lemma GroundedJump(h: Hero, input: Intent, dt: real, layer: Layer, size: Size)
    requires h.grounded && input.jump && dt != 0.0
    ensures Prepare(h, input, dt).velocity.y == h.velocity.y + JUMP_VELOCITY + GRAVITY
    ensures UpdateHero(h, input, dt, layer, size).hero.state == Jumping
  {
    var started := Advance(h, dt);
    assert Prepare(started, input, dt).state == Jumping;
  }

  /** One frame's input and elapsed time. */
  datatype Tick = Tick(input: Intent, dt: real)

  /** `render` calls `updateHero` once per frame. */
  function Run(h: Hero, ticks: seq<Tick>, layer: Layer, size: Size): Frame
    decreases |ticks|
  {
    if |ticks| == 0 then Frame(h, layer)
    else
      var f := UpdateHero(h, ticks[0].input, ticks[0].dt, layer, size);
      Run(f.hero, ticks[1..], f.layer, size)
  }

  /** Over any run of frames, |velocity.x| never exceeds MAX_VELOCITY once
      it starts within it. */
  lemma {:induction false} RunKeepsSpeedBound(h: Hero, ticks: seq<Tick>, layer: Layer, size: Size)
    requires Abs(h.velocity.x) <= MAX_VELOCITY
    ensures Abs(Run(h, ticks, layer, size).hero.velocity.x) <= MAX_VELOCITY
    decreases |ticks|
  {
    if |ticks| > 0 {
      var f := UpdateHero(h, ticks[0].input, ticks[0].dt, layer, size);
      RunKeepsSpeedBound(f.hero, ticks[1..], f.layer, size);
    }
  }

  /** Over any run of frames the layer only loses cells, at most one per
      frame, and never changes a cell it keeps: a cleared cell stays
      cleared. */
  lemma {:induction false} RunOnlyClearsCells(h: Hero, ticks: seq<Tick>, layer: Layer, size: Size)
    ensures var f := Run(h, ticks, layer, size);
      && f.layer.Keys <= layer.Keys
      && |layer.Keys - f.layer.Keys| <= |ticks|
      && forall c :: c in f.layer ==> f.layer[c] == layer[c]
    decreases |ticks|
  {
    if |ticks| > 0 {
      var f := UpdateHero(h, ticks[0].input, ticks[0].dt, layer, size);
      RunOnlyClearsCells(f.hero, ticks[1..], f.layer, size);
      var g := Run(h, ticks, layer, size);
      assert g == Run(f.hero, ticks[1..], f.layer, size);
      assert layer.Keys - g.layer.Keys <= (layer.Keys - f.layer.Keys) + (f.layer.Keys - g.layer.Keys);
      SubsetCardinality(layer.Keys - g.layer.Keys, (layer.Keys - f.layer.Keys) + (f.layer.Keys - g.layer.Keys));
    }
  }

  lemma SubsetCardinality<T>(a: set<T>, b: set<T>)
    requires a <= b
    ensures |a| <= |b|
  {
    assert b == a + (b - a);
  }

  /** The cell spans a hero of size 0.5 at (5, 10) sweeps when falling by
      0.3: nothing in its column, the cell (5, 9) under it. */
  lemma LandingSweeps(layer: Layer)
    requires layer == map[(5, 9) := 0]
    ensures Query(layer, SweptColumn(Vec2(5.0, 10.0), Size(0.5, 0.5), 0.0)) == []
    ensures !XBlocked(layer, Vec2(5.0, 10.0), Size(0.5, 0.5), 0.0)
    ensures Query(layer, SweptRow(Vec2(5.0, 10.0), Size(0.5, 0.5), -0.3)) == [UnitTile(5, 9)]
    ensures FirstOverlap(YMoved(Vec2(5.0, 10.0), Size(0.5, 0.5), -0.3), [UnitTile(5, 9)]) == 0
  {
    JavaIntCastNonNegative(5.0, 5);
    JavaIntCastNonNegative(10.0, 10);
    JavaIntCastNonNegative(10.5, 10);
    JavaIntCastNonNegative(9.7, 9);
    JavaIntCastNonNegative(5.5, 5);
    assert SweptColumn(Vec2(5.0, 10.0), Size(0.5, 0.5), 0.0) == Span(5, 10, 5, 10);
    TilesInNoCells(layer, 5, 10, 5, 10);
    assert SweptRow(Vec2(5.0, 10.0), Size(0.5, 0.5), -0.3) == Span(5, 9, 5, 9);
    assert RowTiles(layer, 9, 5, 5) == RowTiles(layer, 9, 5, 4) + [UnitTile(5, 9)];
    assert TilesIn(layer, 5, 9, 5, 9) == TilesIn(layer, 5, 9, 5, 8) + RowTiles(layer, 9, 5, 5);
  }

  /** A frame of non-zero length is the shared step of the hero with its
      animation clock already advanced. */
  lemma UpdateHeroSteps(h: Hero, input: Intent, dt: real, layer: Layer, size: Size)
    requires dt != 0.0
    ensures UpdateHero(h, input, dt, layer, size)
            == Step(Advance(h, dt), input, dt, layer, size)
  {
  }

  /** The step of the landing scenario, on the hero whose clock has already
      advanced. */
  lemma LandingStep(h: Hero, layer: Layer, size: Size)
    requires h == Hero(Vec2(5.0, 10.0), Vec2(0.0, -2.0), Walking, 0.1, true, false)
    requires layer == map[(5, 9) := 0] && size == Size(0.5, 0.5)
    ensures var f := Step(h, Intent(false, false, false), 0.1, layer, size);
      && f.hero.position == Vec2(5.0, 10.0)
      && f.hero.velocity == Vec2(0.0, 0.0)
      && f.hero.grounded
      && f.layer == layer
  {
    var input := Intent(false, false, false);
    PrepareIdle(h, 0.1);
    assert Displacement(h, input, 0.1) == Vec2(0.0, -0.3) by {
      assert Prepare(h, input, 0.1).velocity == Vec2(0.0, -3.0);
    }
    LandingSweeps(layer);
    StepHorizontal(h, input, 0.1, layer, size);
    StepVertical(h, input, 0.1, layer, size);
  }

  /** Falling onto a tile: a hero at (5, 10) falling at 2 units a second
      above the cell (5, 9) lands on it at y = 10, stops and is grounded. */
  lemma LandingOnTile()
    ensures var h := Hero(Vec2(5.0, 10.0), Vec2(0.0, -2.0), Walking, 0.0, true, false);
      var f := UpdateHero(h, Intent(false, false, false), 0.1, map[(5, 9) := 0], Size(0.5, 0.5));
      && f.hero.position == Vec2(5.0, 10.0)
      && f.hero.velocity == Vec2(0.0, 0.0)
      && f.hero.grounded
      && f.layer == map[(5, 9) := 0]
  {
    var layer: Layer := map[(5, 9) := 0];
    var input := Intent(false, false, false);
    var size := Size(0.5, 0.5);
    var h := Hero(Vec2(5.0, 10.0), Vec2(0.0, -2.0), Walking, 0.0, true, false);
    var started := Hero(Vec2(5.0, 10.0), Vec2(0.0, -2.0), Walking, 0.1, true, false);
    assert UpdateHero(h, input, 0.1, layer, size) == Step(started, input, 0.1, layer, size) by {
      UpdateHeroSteps(h, input, 0.1, layer, size);
    }
    LandingStep(started, layer, size);
  }

  /** Over a layer without cells every swept row is empty. */
  lemma EmptyLayerSweeps(layer: Layer, pos: Vec2, size: Size, dy: real)
    requires |layer| == 0
    ensures Query(layer, SweptRow(pos, size, dy)) == []
  {
    var row := SweptRow(pos, size, dy);
    TilesInNoCells(layer, row.startX, row.startY, row.endX, row.endY);
  }

  /** Over a layer without cells every swept column is empty, so the X
      pass is never blocked. */
  lemma EmptyLayerColumn(layer: Layer, pos: Vec2, size: Size, dx: real)
    requires |layer| == 0
    ensures Query(layer, SweptColumn(pos, size, dx)) == []
    ensures !XBlocked(layer, pos, size, dx)
  {
    var col := SweptColumn(pos, size, dx);
    TilesInNoCells(layer, col.startX, col.startY, col.endX, col.endY);
  }

  /** When the swept row holds no cell, the Y pass examines no tile: the
      hero moves by the whole vertical displacement and `grounded` keeps
      what the input handling left it, even though nothing is underneath. */
  lemma GroundedOverEmptyRow(h: Hero, input: Intent, dt: real, layer: Layer, size: Size)
    requires dt != 0.0
    requires Query(layer, SweptRow(h.position, size, Displacement(h, input, dt).y)) == []
    ensures var r := Step(h, input, dt, layer, size);
      && r.hero.position.y == h.position.y + Displacement(h, input, dt).y
      && r.hero.velocity.y == Prepare(h, input, dt).velocity.y
      && r.hero.grounded == Prepare(h, input, dt).grounded
      && r.layer == layer
  {
    StepVertical(h, input, dt, layer, size);
  }

  /** Over a layer without cells the hero moves freely: it moves by the
      whole displacement on both axes and `grounded` stays what the input
      left it. */
  lemma FreeFallOverEmptyLayer(h: Hero, input: Intent, dt: real, layer: Layer, size: Size)
    requires dt != 0.0 && |layer| == 0
    ensures var r := Step(h, input, dt, layer, size);
      && r.hero.position.x == h.position.x + Displacement(h, input, dt).x
      && r.hero.position.y == h.position.y + Displacement(h, input, dt).y
      && r.hero.grounded == Prepare(h, input, dt).grounded
  {
    var d := Displacement(h, input, dt);
    EmptyLayerColumn(layer, h.position, size, d.x);
    EmptyLayerSweeps(layer, h.position, size, d.y);
    StepHorizontal(h, input, dt, layer, size);
    GroundedOverEmptyRow(h, input, dt, layer, size);
  }

  /** With no input, a hero that is not rising keeps its `grounded` flag
      through the input handling and is displaced downward. */
  lemma IdleDisplacement(h: Hero, dt: real)
    requires dt > 0.0 && h.velocity.y <= 0.0
    ensures Displacement(h, Intent(false, false, false), dt).y < 0.0
    ensures Prepare(h, Intent(false, false, false), dt).grounded == h.grounded
  {
    var p := Prepare(h, Intent(false, false, false), dt);
    assert p.velocity.y == h.velocity.y + GRAVITY;
    MulNegPos(p.velocity.y, dt);
  }

  /** With no input and nothing around, a hero that is not rising falls
      and keeps its `grounded` flag, even when that flag is set. */
  lemma IdleOverEmptyLayer(h: Hero, dt: real, layer: Layer, size: Size)
    requires dt > 0.0 && |layer| == 0 && h.velocity.y <= 0.0
    ensures var r := Step(h, Intent(false, false, false), dt, layer, size);
      && r.hero.position.y < h.position.y
      && r.hero.grounded == h.grounded
  {
    FreeFallOverEmptyLayer(h, Intent(false, false, false), dt, layer, size);
    IdleDisplacement(h, dt);
  }

  lemma MulNegPos(a: real, b: real)
    requires a < 0.0 && b > 0.0
    ensures a * b < 0.0
  {
  }
}
