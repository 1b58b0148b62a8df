# Hero update of the dig platformer, in Dafny

This project models the per-frame hero update of a small libGDX tile
platformer. The game engine, input devices and textures are outside the
model. One frame does the following:

1. Skip the frame when no time has passed.
2. Apply the jump, gated on ground contact.
3. Accelerate left and right.
4. Add gravity once.
5. Clamp the horizontal speed.
6. Scale velocity to this frame's displacement.
7. Resolve collisions against the solid cells of the collision layer, first on X and then on Y.
8. On a Y hit, snap to the tile. Landing on it grounds the hero; bumping into it from below destroys it.
9. Add the displacement, unscale, and damp the horizontal speed.

The update exists twice in the source: `DigGame.updateHero`, and a
refactoring onto the entity classes, `entities.Hero.update`. Both are modelled
on one shared step. The model also covers the grid query `getTiles` and the
rectangle query `EntityContainer.getEntities`.

Modules:

- `Geometry`: vectors and rectangles.
  - libGDX's `Rectangle.overlaps` (strict) and `Rectangle.contains` (inclusive), stated as assumptions about the library.
  - Java's `(int)` cast of a float: it truncates toward zero and saturates at the 32-bit bounds.
- `TileLayer`: the collision layer is a map from integer cell coordinates to tiles. A missing key is an empty cell, and clearing a cell removes its key.
  - `TilesIn` is the reference for `getTiles`.
  - `GetTiles` is the source's nested loop, proved equal to `TilesIn`.
- `HeroStep`: the hero record and everything after the zero-time guard.
  - `Prepare`: input, gravity and the clamp.
  - `SweptColumn` and `SweptRow`: the one-cell-wide spans each pass queries, taken at the leading edge through the `(int)` cast.
  - `CollideX` and `CollideY`: the two collision passes.
  - `Collide` and `Move`: the collision passes, moving, unscaling and damping. They touch only position, velocity, `grounded` and the layer.
  - `Step`: the whole step.
- `DigGame`: `updateHero`, which advances the animation clock. Also the frame loop (`Run`) and two concrete frames.
- `EntityHero`: `Hero.update`. It runs the same step but never advances the clock.
- `EntityContainer`: bounds from two corners, and the order-preserving filter of entities by position.

Inputs are parameters:

- The key and touch queries become an `Intent(jump, left, right)`.
- `deltaTime` becomes `dt`.
- The hero's size (`Hero.WIDTH` and `Hero.HEIGHT`, which `create` sets from a texture) becomes a `Size`.
- The collision layer (layer 1 of the tiled map) is passed in, and the updated layer is returned in a `Frame`.

The Y pass (`DigGame.java` lines 308-336) clears `grounded` once for each
tile it examines without a hit. When the swept row holds no cell, no tile is
examined and `grounded` keeps its value, so a hero who walks off a ledge can
still jump in the next frame. See `DigGame.GroundedOverEmptyRow` and the
`grounded` clauses of `HeroStep.ResolveY` and `HeroStep.StepVertical`.

## Model

| member | source | states |
|---|---|---|
| Geometry.JavaIntCast | src/dig/DigGame.java:274-281 | The cast of a float coordinate to a cell index always gives a 32-bit int. It truncates toward zero: the floor for non-negative values, the ceiling for negative ones. It saturates at Integer.MIN_VALUE and Integer.MAX_VALUE |
| Geometry.JavaIntCastTruncatesTowardZero | src/dig/DigGame.java:302 | `(int)` of -0.5 is 0, which differs from the floor, -1 |
| Geometry.JavaIntCastMonotone | src/dig/DigGame.java:280-281 | The cast keeps the order of two floats, so a span from `(int) y` to `(int) (y + HEIGHT)` never runs backwards |
| TileLayer.TilesInSpec | src/dig/DigGame.java:366-384 | The query holds exactly the present cells of the inclusive span, each as its unit rectangle, in strictly row-major order (rows bottom to top, each row left to right). It is empty when start > end on either axis |
| TileLayer.GetTiles | src/dig/DigGame.java:366-384 | The nested loop (y outer, x inner, appending a unit rectangle per present cell) returns exactly the reference query, so it has every property of TilesInSpec |
| TileLayer.ClearedCellNotQueried | src/dig/DigGame.java:375-380 | A cell missing from the layer is never reported, so a destroyed tile is never collided with again |
| TileLayer.TilesInNoCells | src/dig/DigGame.java:371-383 | A span holding no cell yields no rectangles |
| HeroStep.ApplyInput | src/dig/DigGame.java:217-240 | Position and clock are untouched. Jump adds JUMP_VELOCITY, sets Jumping and clears grounded, and only when grounded. Left and right accumulate ±ACCEL·dt, so both together cancel. Right wins facing. Walking is set only with ground contact and no jump this frame |
| HeroStep.AirborneInput | src/dig/DigGame.java:217-245 | With grounded false, state is unchanged and velocity.y gains only gravity, whatever the input |
| HeroStep.AirborneInputIgnoresJump | src/dig/DigGame.java:217-222 | With grounded false, the input handling is the same with or without the jump flag |
| HeroStep.ClampX | src/dig/DigGame.java:248-251 | The clamped speed is at most MAX_VELOCITY in magnitude. A speed within the bound is kept. A speed beyond it becomes exactly MAX_VELOCITY with its sign |
| HeroStep.Prepare | src/dig/DigGame.java:245-251 | After input, only velocity changes. velocity.x is the clamp of the input's value, so it is bounded by MAX_VELOCITY. velocity.y gains gravity exactly once and is never clamped |
| HeroStep.PrepareIdle | src/dig/DigGame.java:245-251 | With no input and a speed already within the clamp, the only change before collisions is gravity on velocity.y |
| HeroStep.FirstOverlap | src/dig/DigGame.java:308-311 | The index of the first tile the shifted rectangle overlaps: none before it overlaps; it is the length exactly when no tile overlaps |
| HeroStep.ResolveX | src/dig/DigGame.java:284-291 | The X loop yields 0 when some tile overlaps the shifted rectangle and the displacement otherwise |
| HeroStep.ResolveY | src/dig/DigGame.java:308-336 | The Y loop's outcome is fixed by the first overlapping tile. No hit: position and displacement kept, and grounded survives only if no tile was examined. Hit while falling: snap onto the tile, displacement 0, grounded. Hit while rising: snap below the tile, displacement 0, clear the cell `(int)` names, grounded survives only if it was the first tile |
| HeroStep.QueriedTileCell | src/dig/DigGame.java:319-320 | For a tile the query returned, `(int) tile.x, (int) tile.y` names exactly its present cell, and its height is 1 |
| HeroStep.UnscaledScaled | src/dig/DigGame.java:342 | Unscaling by 1/dt undoes scaling by dt on each axis (in real arithmetic), and a zeroed axis stays zero |
| HeroStep.SweptColumn | src/dig/DigGame.java:272-281 | The X pass queries one column, `(int)` of the leading edge after the move (the right edge when dx > 0, the left edge otherwise); for a non-negative edge within int range that is the cell holding the edge. It covers rows `(int) y` to `(int) (y + HEIGHT)`, which are in order for a non-negative height |
| HeroStep.SweptRow | src/dig/DigGame.java:296-305 | The Y pass queries one row, `(int)` of the leading edge after the move (the top edge when dy > 0, the bottom edge otherwise); for a non-negative edge within int range that is the cell holding the edge. It covers columns `(int) x` to `(int) (x + WIDTH)`, which are in order for a non-negative width |
| HeroStep.CollideX | src/dig/DigGame.java:272-292 | The X pass zeroes the displacement if and only if the rectangle shifted by it overlaps a tile of the swept column; otherwise the displacement is kept |
| HeroStep.CollideY | src/dig/DigGame.java:294-336 | The Y pass on the swept row, by first overlap. Nothing overlapping: position and displacement kept, grounded kept only if the row is empty. Landing: snap to the tile top, displacement 0, grounded. Bump: snap under the tile, displacement 0, and remove exactly that cell, which was present |
| HeroStep.CollideYLayer | src/dig/DigGame.java:315-330 | The Y pass never adds or alters a cell. It loses at most one, and only when moving up |
| HeroStep.Step | src/dig/DigGame.java:216-346 | Collisions never touch state, facing or the clock. The layer loses at most one cell, keeps the others unchanged, and changes only when the frame's displacement is upward |
| HeroStep.StepCongruence | src/dig/DigGame.java:262-346 | The collision passes see nothing of the input but the prepared hero: two frames that prepare the same hero end identically |
| HeroStep.MoveIgnoresStateTime | src/dig/DigGame.java:262-346 | The collision and integration part of the frame neither reads nor writes the animation clock |
| HeroStep.StepIgnoresStateTime | src/dig/DigGame.java:216-346 | The step neither reads nor writes the animation clock |
| HeroStep.StepHorizontal | src/dig/DigGame.java:264-346 | Blocked on X: final velocity.x is 0 and position.x unchanged. Otherwise final velocity.x is DAMPING times the clamped velocity and position.x moves by the displacement. position.x is never snapped |
| HeroStep.StepSpeedBound | src/dig/DigGame.java:248-346 | After any frame, abs(velocity.x) is at most DAMPING·MAX_VELOCITY |
| HeroStep.StepVertical | src/dig/DigGame.java:294-342 | The final position.y, velocity.y, grounded and layer for no hit, a landing (snap to tile.y + 1, velocity.y 0, grounded) and a bump (snap to tile.y - HEIGHT, velocity.y 0, exactly that cell cleared) |
| DigGame.UpdateHero | src/dig/DigGame.java:210-348 | A zero-length frame changes nothing (hero and layer). Otherwise the clock advances by dt and the speed bound holds. State changes only with ground contact. The layer loses at most one cell and keeps the rest |
| DigGame.AirborneJumpIgnored | src/dig/DigGame.java:217-222 | While airborne, a frame with the jump input equals the same frame without it |
| DigGame.GroundedJump | src/dig/DigGame.java:217-245 | A jump from the ground adds JUMP_VELOCITY before gravity and ends the frame in Jumping |
| DigGame.RunKeepsSpeedBound | src/dig/DigGame.java:187 | Over any sequence of frames driven by `render`, abs(velocity.x) stays within MAX_VELOCITY once it starts there |
| DigGame.RunOnlyClearsCells | src/dig/DigGame.java:319-320 | Over any sequence of frames the layer only loses cells, at most one per frame. A cleared cell stays cleared, and kept cells are unchanged |
| DigGame.LandingSweeps | src/dig/DigGame.java:272-306 | For a 0.5 × 0.5 hero at (5, 10) falling by 0.3, the swept column holds no cell (so the X pass is not blocked) and the swept row is exactly the cell (5, 9), which the shifted rectangle overlaps first |
| DigGame.LandingStep | src/dig/DigGame.java:308-331 | The step that lands that hero on the cell (5, 9) ends at y = 10, with velocity 0, grounded, and the layer unchanged |
| DigGame.LandingOnTile | src/dig/DigGame.java:210-348 | A hero at (5, 10) falling at 2 units/s above the cell (5, 9) lands at y = 10, stops and is grounded, and the layer is unchanged |
| DigGame.EmptyLayerSweeps | src/dig/DigGame.java:302-306 | Over a layer with no cells, the swept row is empty |
| DigGame.EmptyLayerColumn | src/dig/DigGame.java:272-292 | Over a layer with no cells, the swept column is empty, so the X pass never zeroes the displacement |
| DigGame.GroundedOverEmptyRow | src/dig/DigGame.java:308-336 | When the swept row holds no cell, the Y pass examines no tile. The hero moves by the whole vertical displacement, keeps its prepared velocity.y and layer, and grounded keeps the value the input handling left it, even with nothing underneath |
| DigGame.FreeFallOverEmptyLayer | src/dig/DigGame.java:284-341 | Over an empty layer the hero moves by its whole displacement on both axes, and grounded is what the input left it |
| DigGame.IdleDisplacement | src/dig/DigGame.java:217-264 | For a positive frame length, with no input and velocity.y not positive, the frame's displacement is downward and grounded is unchanged by the input handling |
| DigGame.IdleOverEmptyLayer | src/dig/DigGame.java:308-336 | For a positive frame length, with no input and no cells, a hero not rising falls and keeps its grounded flag, even when that flag is true |
| EntityHero.Update | src/entities/Hero.java:28-167 | A zero-length frame changes nothing. The clock is never advanced. State changes only with ground contact. The speed bound holds after a frame. The layer loses at most one cell |
| EntityHero.AgreesWithDigGame | src/entities/Hero.java:31-166 | The entity hero's frame equals DigGame's frame in layer and hero, except for the animation clock |
| EntityContainer.Bounds | src/entities/EntityContainer.java:49 | The normalised bounds have non-negative width and height. Their edges are exactly the two corners' coordinates, in either order |
| EntityContainer.ContainsBounds | src/entities/EntityContainer.java:49-50 | A point is inside the bounds exactly when each coordinate lies between the corners' coordinates |
| EntityContainer.BoundsCornerOrder | src/entities/EntityContainer.java:48-51 | Swapping the corners, or mixing their coordinates, gives the same bounds and the same entities |
| EntityContainer.InBounds | src/entities/EntityContainer.java:53-63 | The filter is no longer than the container. It holds an entity exactly when the container holds it and its position is inside the bounds |
| EntityContainer.InBoundsCounts | src/entities/EntityContainer.java:56-60 | Every entity inside the bounds is kept as often as the container holds it, and every other entity is dropped |
| EntityContainer.InBoundsAppend | src/entities/EntityContainer.java:54-62 | The filter keeps the container's order: filtering a concatenation is concatenating the filters |
| EntityContainer.GetEntities | src/entities/EntityContainer.java:53-63 | The loop returns exactly the order-preserving filter: an entity is returned exactly when it is in the container and the rectangle contains its position |
| EntityContainer.GetEntitiesBetween | src/entities/EntityContainer.java:48-51 | The corner query returns the filter over the normalised bounds: exactly the entities whose coordinates lie between the corners' coordinates |

## Left out

- Rendering, the camera and animation lookup (`render`, `renderHero`, `renderExplosion`, `EntityContainer.render`): graphics glue with no checkable logic.
- `create`, asset and map loading, `EntityFactory`, `DigLauncher`: start-up I/O and a global singleton. `Hero.WIDTH` and `Hero.HEIGHT` are set there from a texture, so they are a parameter here.
- Key queries and `isTouched`: input I/O, replaced by the `Intent` record. The touch bands are intent sources only: jump for 0.75–1 of the screen width, left for 0–0.25, right for 0.25–0.5.
- The logging calls and the `rectPool` pooling: no effect on the outcome.
- `Entity.java`: getters only. `EntityContainer.update` and the container's singleton are also left out. The base `Entity.update()` does nothing, and the hero's update needs input the container does not pass.
- Float rounding: positions and velocities are reals. The identity x·dt·(1/dt) = x, which the final velocity relies on, holds only in this abstraction.
- Hero.java members that it uses but does not declare (`rectPool`, `tiles`, `map`, `getTiles`, `setState`, `State`, `WIDTH`, `HEIGHT`, the bare `velocity` field) and its `super.update(deltaTime)` call: `Entity` has no such method, so the call is not modelled. Only the algorithm is modelled.
- `GameConstants` is not part of this model. `EntityHero.Update` takes its `GameConstants.GRAVITY` to be -1, the same as `DigGame.GRAVITY`.
- `EntityHero.Update` takes Hero.java's undeclared `getTiles` (lines 102 and 126) to be `DigGame.getTiles` over the same collision layer, and `setState(State.…)` (lines 38, 47 and 57) to assign the state. `EntityHero.AgreesWithDigGame` holds under these readings.
- EntityHero.Update: the animation clock is never advanced, because Hero.java has no counterpart of `hero.stateTime += deltaTime`.
- TileLayer.GetTiles: the Java loop counters are 32-bit. A span ending at Integer.MAX_VALUE would overflow `x++` or `y++` and never terminate, whereas the model's unbounded counters stop. Reaching that needs a swept edge at about 2^31 units: a hero that far out, or a long frame with a large vertical speed, since velocity.y is never clamped.
- HeroStep.Step: requires a non-zero `dt`, because both callers return before the step when `deltaTime == 0`. `1 / deltaTime` is therefore never taken at 0.
- The layer's map bounds are not modelled separately: libGDX's `getCell` returns null outside the map, which is a missing key here.
