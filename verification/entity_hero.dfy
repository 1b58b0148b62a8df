/** `entities.Hero.update`, the refactoring of `DigGame.updateHero` onto the
    entity classes. It runs the same step after the same `deltaTime == 0`
    guard but never advances the animation clock, and takes its gravity from
    `GameConstants.GRAVITY`, which is not part of this model and is taken to
    equal `DigGame.GRAVITY`. */
module EntityHero {
  import opened Geometry
  import opened TileLayer
  import opened HeroStep
  import DigGame

  /** One frame of the entity hero. */
  function Update(h: Hero, input: Intent, dt: real, layer: Layer, size: Size): (r: Frame)
    ensures dt == 0.0 ==> r == Frame(h, layer)
    ensures r.hero.stateTime == h.stateTime
    ensures !h.grounded ==> r.hero.state == h.state
    ensures dt != 0.0 ==> Abs(r.hero.velocity.x) <= DAMPING * MAX_VELOCITY
    ensures r.layer.Keys <= layer.Keys
    ensures |layer.Keys - r.layer.Keys| <= 1
    ensures forall c :: c in r.layer ==> r.layer[c] == layer[c]
  {
    if dt == 0.0 then Frame(h, layer)
    else
      StepSpeedBound(h, input, dt, layer, size);
      Step(h, input, dt, layer, size)
  }

  /** The two versions of the update agree on everything but the animation
      clock: the same layer, and the same hero once its clock is put back. */
  lemma AgreesWithDigGame(h: Hero, input: Intent, dt: real, layer: Layer, size: Size)
    ensures var a := Update(h, input, dt, layer, size);
      var b := DigGame.UpdateHero(h, input, dt, layer, size);
      && a.layer == b.layer
      && a.hero == b.hero.(stateTime := h.stateTime)
  {
    if dt != 0.0 {
      var started := DigGame.Advance(h, dt);
      DigGame.UpdateHeroSteps(h, input, dt, layer, size);
      assert Update(h, input, dt, layer, size) == Step(h, input, dt, layer, size);
      StepIgnoresStateTime(started, input, dt, layer, size, h.stateTime);
      assert started.(stateTime := h.stateTime) == h;
    }
  }
}
