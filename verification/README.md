# Maze game core in Dafny

This project models the game logic of a small first-person 3D maze game written in C on top of raylib. Two parts are modelled.

From `src/main.c`, the player's side of the game:
- the float clamp;
- the circle-versus-rectangle wall test and the test against every wall rectangle;
- the axis-separated sliding move (X first, then Z from the new X);
- jump, gravity and the ceiling clamp;
- mouse look with its pitch limit;
- level (re)initialisation, including its failure paths;
- one pass of the frame loop while the game is PLAYING or WON.

From `src/assets.c`, the two dynamic asset systems:
- torch placement along maze walls, and the torch flicker update;
- the fixed-capacity fire-particle buffer: creation, emission from a fractional accumulator, and the in-place update that removes dead particles by swap-with-last.

The modules follow the source:
- `Geometry`: vectors, points and rectangles.
- `Collision`: `clampf`, `CircleRectIntersect`, `CollidesAny` and the sliding move.
- `Player`: the vertical step and mouse look.
- `Game`: `InitGame` and the frame loop.
- `Torches`: `Torches_Generate` and `Torches_Update`.
- `Particles`: `ParticleSystem_Create` and `ParticleSystem_Update`.

Modelling choices:
- C `float` arithmetic is modelled as exact `real` arithmetic.
- The results of `rand()` are parameters. Torch k uses the (2k)-th and (2k+1)-th values of the stream `rand`. Particle i of a frame uses the six values `draw(i)`.
- The maze library is a set of parameters:
  - `hasWall` stands for `Maze_HasWall`;
  - `isExitAt` stands for `Maze_WorldToCell` followed by `Maze_IsExit`;
  - `LevelBuild` holds the outcome of `Maze_Create`, of the rectangle allocation, of `Maze_GetWallRects` and of `Maze_CellToWorld`.
- Whether `malloc` succeeds is also a parameter.

How the code is structured:
- The torch buffer and the particle buffer are Dafny arrays updated in place, and the particle system is a class.
- Each loop is a method proved against a specification function:
  - torch placement against `AllSlots`, the list of every torch slot in visiting order;
  - particle emission against `Spawned`;
  - the particle update against `Compacted`. `Compacted` is the swap-with-last loop on sequences. It is related by `CompactedKeepsSurvivors` to the order-preserving filter `Survivors`.
- The frame loop keeps its state in `main`'s locals, so it is modelled as a function from one `Game` value to the next.

## Model

| member | source | states |
|---|---|---|
| Collision.Clamp | src/main.c:30-32 | below `lo` gives `lo`; above `hi` (and not below `lo`) gives `hi`; the result lies in `[lo, hi]` when that interval is non-empty; the value is returned unchanged exactly when it already lies in `[lo, hi]` |
| Collision.ClampIsNearest | src/main.c:30-32 | the clamped value is at least as close to `v` as any point of `[lo, hi]` |
| Collision.CircleRectIntersect | src/main.c:35-41 | a circle whose centre lies inside the rectangle always intersects it |
| Collision.IntersectIffNearPoint | src/main.c:35-41 | for a rectangle with non-negative size, the clamp-based test is true exactly when some point of the closed rectangle lies within distance `r` of the centre |
| Collision.CollidesAny | src/main.c:44-49 | the loop reports a hit exactly when one of the first `count` rectangles intersects the circle; with `count <= 0` there is never a hit |
| Collision.ClearMeansOutside | src/main.c:44-49 | when no wall is hit, every point of every counted wall rectangle lies strictly farther than the radius from the centre |
| Collision.SlideMove | src/main.c:267-285 | the result is one of the four candidate positions; the X step is taken exactly when its test position is clear; the Z step is tested from the already updated X and taken exactly when clear; a player clear of walls stays clear; a blocked X step with a clear Z step slides along Z |
| Player.VerticalStep | src/main.c:287-306 | `onGround` holds exactly when the feet were within 0.0001 of the floor and no jump was pressed; grounded: feet at 0 and velocity 0; jump: velocity `JumpSpeed` and rise `JumpSpeed*dt`, unless the ceiling clamp applies; airborne: gravity is applied before the position update; the feet never end above `WallHeight - EyeHeight`, and a clamped upward velocity becomes 0 |
| Player.MouseLook | src/main.c:222-228 | yaw decreases by `dx * MouseSens`; the new pitch is the old pitch minus `dy * MouseSens`, clamped to `±89°` |
| Game.InitGameAsWritten | src/main.c:52-92 | the maze is loaded exactly when `Maze_Create` succeeds; on success, the new rectangles with their count, the player at the start cell on the floor, yaw and pitch 0 and state PLAYING; when `Maze_Create` or the allocation fails, the buffer is released but the wall count is left as it was, together with the player, the camera angles and the game state; vertical velocity, grounded flag and mouse capture are never changed |
| Game.StaleWallCountAfterFailedRestart | src/main.c:55-79 | a load followed by a restart whose `Maze_Create` fails leaves a PLAYING game with no maze, no buffer and a positive wall count |
| Game.InitGame | src/main.c:52-92 | the buffer and the count always agree; on success, the new rectangles, the player at the start cell on the floor, yaw and pitch 0 and state PLAYING; on failure, no buffer and count 0, with the player, camera and state untouched; vertical velocity, grounded flag and mouse capture are never changed |
| Game.Frame | src/main.c:206-314 | the frame loop with the corrected `InitGame` of the Findings table, whose movement step runs only while PLAYING on a loaded maze: the buffer and the count keep agreeing; F toggles capture; an in-range pitch stays in range; only a restart makes a WON game PLAYING; WON is only reached on a loaded maze; a WON game without restart does not move; without a maze the player and the state stay as they are; a PLAYING frame on a maze without restart keeps the walls, never moves a clear player into a wall, keeps the feet under the ceiling, and ends WON exactly when the new position is an exit cell |
| Torches.PerWallCounts | src/assets.c:152 | the number of torches per wall counts exactly the offsets `0.5 + 12k` that are below the cell size |
| Torches.WallOffsets | src/assets.c:149-162 | the k-th torch of a wall exists exactly when `0.5 + 12k < cellSize`, and it sits at that offset along the wall |
| Torches.MakeTorch | src/assets.c:153-160 | a placed torch takes its slot's position and normal; its phase lies in `[0, 6.28)` and its base intensity in `[0.8, 0.99]`, whatever `rand()` returns |
| Torches.SlotFacesCell | src/assets.c:151-206 | the slot at a given offset on a side of a cell is at height 2, that offset along the wall from the wall's starting corner, with the unit axis normal of its side (N +Z, S −Z, W +X, E −X), and `cellSize/2 + 0.11` from the cell centre along that normal |
| Torches.PlaceOnWall | src/assets.c:149-163 | the offset loop of one wall appends that wall's torches to the buffer, stopping when the buffer is full |
| Torches.PlaceOnSide | src/assets.c:149-163 | a side with a wall appends that wall's torches, stopping when the buffer is full; a side without a wall appends nothing (the same for the blocks at lines 166, 182 and 198) |
| Torches.PlaceInCell | src/assets.c:143-211 | one cell appends its north, south, west and east torches in that order, stopping when the buffer is full |
| Torches.PlaceRow | src/assets.c:142-212 | one row appends the torches of its cells from left to right, stopping when the buffer is full |
| Torches.GenerateTorches | src/assets.c:129-216 | NULL maze, NULL output or `maxTorches <= 0` returns 0 without touching the output; a failed allocation returns 0 with a NULL buffer; otherwise the count is `min(maxTorches, number of slots)`, and torch k is built from the k-th slot in row, cell and side order using the k-th pair of random draws |
| Torches.CellSlotsCount | src/assets.c:147-211 | a cell holds `PerWall(cellSize)` torches for each side that has a wall |
| Torches.RowSlotsCount | src/assets.c:142-212 | the cells from x to the end of a row hold `PerWall(cellSize)` torches per wall |
| Torches.GridSlotsCount | src/assets.c:141-213 | the rows from y to the bottom hold `PerWall(cellSize)` torches per wall |
| Torches.AllSlotsCount | src/assets.c:141-213 | the maze offers exactly `PerWall(cellSize)` times the number of walls as torch slots |
| Torches.SlotsComeFromWalls | src/assets.c:141-213 | every torch slot lies on a wall that `Maze_HasWall` reports, in a cell inside the maze |
| Torches.TorchFacesIntoCell | src/assets.c:143-206 | a torch is at height 2; its normal is the unit axis vector of its side (N +Z, S −Z, W +X, E −X); the torch sits `cellSize/2 + 0.11` from the cell centre along that normal, facing into the cell |
| Torches.AdvancePhase | src/assets.c:221-224 | the phase advances by `8·dt`, minus one period when it passes 6.28; it stays above the period only when the advanced phase exceeded two periods; a phase in `[0, 6.28]` advanced by at most one period stays in `[0, 6.28]` |
| Torches.UpdateTorches | src/assets.c:219-226 | each of the first `count` torches gets its phase advanced by `AdvancePhase`; every other field and every later torch is unchanged |
| Particles.Trunc | src/assets.c:276 | float-to-int conversion truncates toward zero, with bounds for both signs |
| Particles.Accumulate | src/assets.c:275-277 | the whole part emitted plus the carry equals the accumulator plus `rate·dt`; a non-negative total gives a non-negative count and a carry in `[0, 1)`; a negative total gives a non-positive count and a carry in `(-1, 0]` |
| Particles.Spawn | src/assets.c:280-296 | a new particle starts 0.25 above the emitter with life 1; whatever `rand()` returns, its horizontal velocity is in `[-0.2, 0.2)` and its vertical velocity in `[0.2, 0.8)`, its max life is in `[0.5, 1)` and its size in `[0.05, 0.08)`, and its colour is (255, 150..199, 0, 255) |
| Particles.Spawned | src/assets.c:279-298 | the n particles emitted in a frame, the i-th of them built from the i-th draw |
| Particles.Emitted | src/assets.c:279 | no more particles are emitted than requested or than there are free slots; none when the request is not positive; fewer than requested only when the buffer is then full |
| Particles.Advance | src/assets.c:305-311 | gravity lowers the vertical velocity by `2·dt` and leaves the horizontal velocity alone; the position moves by the new velocity times `dt`; the life drops by exactly `dt`; max life, size and colour are unchanged |
| Particles.Survivors | src/assets.c:301-319 | the reference filter: at most as many particles as before, all alive |
| Particles.SurvivorsAndDeaths | src/assets.c:301-319 | every particle is either a survivor or a death |
| Particles.SurvivorsAppend | src/assets.c:301-319 | the survivors of a concatenation are the concatenation of the survivors |
| Particles.DropStep | src/assets.c:314-317 | replacing a dead particle by the last particle of the pending part leaves the multiset of survivors unchanged |
| Particles.Compacted | src/assets.c:301-319 | the swap-with-last loop on sequences leaves no more particles than before, all alive |
| Particles.CompactedKeepsSurvivors | src/assets.c:301-319 | swap-with-last yields the same multiset of particles as the order-preserving filter, and its length is the old length minus the deaths |
| Particles.ParticleSystem.constructor | src/assets.c:246-258 | an empty buffer of `capacity` slots, emit rate 15, accumulator 0, emitter at the origin |
| Particles.ParticleSystem.Emit | src/assets.c:279-298 | the particles in use become the old ones followed by `Emitted(...)` new particles built from the draws; the buffer stays valid |
| Particles.ParticleSystem.StoreAdvanced | src/assets.c:302-311 | storing the advanced particle in place moves it from the pending part to the kept prefix |
| Particles.ParticleSystem.RemoveDead | src/assets.c:314-317 | the dead slot takes the last particle in use and the count drops by one; the pending part becomes its last element followed by its middle |
| Particles.ParticleSystem.AdvanceAll | src/assets.c:301-319 | after the loop, the particles in use are exactly `Compacted` of the old ones, all alive |
| Particles.ParticleSystem.Update | src/assets.c:269-320 | the emitter moves; the accumulator keeps only the fractional carry, even when capacity cut emission short; the particles in use are `Compacted` of the old particles followed by the emitted ones; the capacity, the emit rate and the buffer stay the same |
| Particles.CreateParticleSystem | src/assets.c:241-259 | NULL exactly when the system or the array cannot be allocated (a negative capacity counts as an array failure); otherwise a valid, empty system with capacity `maxParticles`, rate 15, accumulator 0 and the emitter at the origin |
| Particles.UpdateParticleSystem | src/assets.c:269-320 | NULL is ignored; on a live system, the same outcome as `Update`: the emitter moves, the accumulator keeps the carry, the particles in use are `Compacted` of the old ones followed by the emitted ones, and the buffer, the capacity and the rate stay the same |

## Left out

- Rendering, textures, meshes, lighting, shaders, window management and asset loading are not modelled. They are drawing and I/O, not game state.
- Camera updates (`src/main.c:316-324`) and the trigonometric forward and right vectors (`src/main.c:231-236`) are not modelled. They only feed rendering and the key-to-step computation.
- The keyboard-to-displacement computation is not modelled: WASD, run multiplier, `sqrtf` normalisation (`src/main.c:240-269`). `FrameInput.step` is the already scaled displacement, because real square roots and trigonometry cannot be written exactly over `real`.
- The maze library is not part of this model. `Maze_Create`, `Maze_Generate`, `Maze_GetWallRects`, `Maze_CellToWorld`, `Maze_HasWall`, `Maze_WorldToCell` and `Maze_IsExit` appear only through parameters (`LevelBuild`, `hasWall`, `isExitAt`).
- Single-precision floating-point rounding is not modelled. All float arithmetic is exact `real` arithmetic, so accumulated rounding in offsets and phases is not captured.
- `ParticleSystem_Destroy` is not modelled: it only releases memory, and Dafny has no explicit deallocation. In the same way, the freeing of the old maze and buffer in `InitGame` is modelled only as the buffer becoming absent.
- `GetFrameTime`, `IsKeyPressed`, `IsKeyDown`, `GetMouseDelta` and `rand()` are inputs (`dt`, `FrameInput`, `rand`, `draw`). The seeding of the generator is outside the model.
- Particles.Spawn: the C compound literals that build the velocity and the colour call `rand()` several times in one initializer, and C leaves the order of those calls unspecified. The model assigns the draws in textual order. Any other order is another choice of `draw`.
- Particles.CreateParticleSystem: `malloc` of a negative size is modelled as a failed allocation. `maxParticles * sizeof(Particle)` overflowing is not modelled.
- Game.Frame: models the frame loop with the corrected `InitGame` and with the movement step guarded by a loaded maze. The as-written loop after a failed restart dereferences NULL, which has no Dafny counterpart; it is exhibited only through `Game.StaleWallCountAfterFailedRestart`. How `Maze_WorldToCell` and `Maze_IsExit` treat a NULL maze is not part of this model.
- Torches.GenerateTorches: the size computation `maxTorches * sizeof(Torch)` is not checked for overflow, as in the source.

## Findings

| source | as written | input that shows it | evidently intended | confidence | as-written member | corrected member |
|---|---|---|---|---|---|---|
| src/main.c:55-79 | when `Maze_Create` (line 66) or the rectangle allocation (line 76) fails, `InitGame` returns after releasing the old buffer and setting it to NULL, but leaves `*wallCount` and the game state as they were; after a failed `Maze_Create` the maze pointer is NULL too | a successful level load followed by a restart (R, line 218) whose `Maze_Create` fails: the game stays PLAYING with `walls == NULL`, a positive `wallCount` and a NULL maze, so later in the same pass of the frame loop `CollidesAny` (line 273) reads `walls[0]` through the NULL pointer, and `Maze_WorldToCell`/`Maze_IsExit` (lines 310-311) are handed the NULL maze | reset the wall count to 0 whenever the buffer is released, and run the movement and exit test only while a maze is loaded | not executed | Game.InitGameAsWritten, Game.StaleWallCountAfterFailedRestart | Game.InitGame, Game.Frame |
