# Flow-field dots, modelled in Dafny

The simulation pushes a cloud of dots around a canvas. Each frame:

- a dot may spawn at the right edge;
- the dots are filed into a spatial hash of 50-pixel cells;
- every dot is pushed by a time-varying force field, built from Ken Perlin's "improved noise" (2002), and by a constant wind;
- the dots move and are damped by first-order friction;
- when collisions are on, the 3 x 3 cell neighbourhood of every cell is scanned and overlapping pairs are resolved with a mass-weighted elastic impulse and a position correction;
- when trails are on, the alpha channel of the trail buffer fades linearly.

The model covers the noise generator (`js/perlin.js`) and the non-drawing state updates of `Game` (`js/game.js`). JavaScript numbers are exact `real`s. The noise tables and the trail buffer are `array`s, changed in place as the source does. The dot list and the grid Map are fields of a `Game` class, reassigned by its methods:

- each dot is a `Physics.Dot` value;
- the Map is a sequence of `SpatialGrid.Bucket`s, kept in insertion order, holding the indices of the dots (object identity `===` between dots is index equality).

Modules:

- `Options`: the `Option` type.
- `CellKeys`: the `"gx,gy"` string keys of the grid and their parse back with `split(',').map(Number)`.
- `PerlinNoise`: `fade`, `lerp`, `grad`, the doubled permutation table and `noise`.
- `Physics`: the dot record, the three integration passes for one dot, and the collision response `resolveCollision`.
- `SpatialGrid`: the grid rebuild and the facts the neighbour scan relies on.
- `Seeding`: the start-up grid of dots and the dot spawned at the right edge.
- `Trail`: the alpha-decay loop of `render`, including the clamped byte store of the pixel array.
- `Game`: the `Game` class with `update`, `updateSpatialGrid`, the collision scan, `resolveCollision`, the spawn check and trail fade of `loop`/`render`, and the lemmas that tie them to the modules above.

Outside inputs are parameters:

- `Math.random()` draws are `real`s in [0, 1).
- `performance.now()` timestamps are `real`s.
- `Math.sqrt` is a function `sqrt` known only through its defining property, `IsSqrt`.
- `Math.cos`, `Math.sin` and `Math.PI` come in as a `Game.Trig` value.
- `getForceAt` is `Game.FieldForce` over the game's own Perlin table. The three integration passes take it as a function of position and field time, `Game.NoiseField`.

## Model

| member | source | states |
|---|---|---|
| PerlinNoise.Mask255 | js/perlin.js:30-32 | `n & 255` lies in 0..255 and differs from n by a multiple of 256 |
| PerlinNoise.RandomByte | js/perlin.js:21 | `Math.floor(r * 256)` for r in [0, 1) is a byte b with b <= 256r < b + 1 |
| PerlinNoise.Fade | js/perlin.js:63-65 | fade(0) = 0 and fade(1) = 1 |
| PerlinNoise.FadeInUnitInterval | js/perlin.js:63-65 | fade maps [0, 1] into [0, 1] |
| PerlinNoise.FadeSymmetric | js/perlin.js:63-65 | fade(1 - t) = 1 - fade(t) for every t |
| PerlinNoise.Lerp | js/perlin.js:67-69 | lerp(0, a, b) = a and lerp(1, a, b) = b |
| PerlinNoise.LerpBetween | js/perlin.js:67-69 | for t in [0, 1], lerp(t, a, b) lies between a and b, whichever is larger |
| PerlinNoise.GradIsTableDotProduct | js/perlin.js:71-76 | grad(hash, x, y, z) depends only on hash & 15 and equals the dot product of (x, y, z) with gradient `h` of the constructor's grad3 table (js/perlin.js:4-8), or with one of Perlin's four padding directions for h = 12..15 |
| PerlinNoise.GradBounded | js/perlin.js:71-76 | with \|x\|, \|y\|, \|z\| <= 1 the gradient value lies in [-2, 2] |
| PerlinNoise.GradAtOrigin | js/perlin.js:71-76 | every gradient is 0 at offset (0, 0, 0) |
| PerlinNoise.Frac | js/perlin.js:35-37 | `x - Math.floor(x)` lies in [0, 1), and x minus it is an integer |
| PerlinNoise.HashCorners | js/perlin.js:45-50 | over a byte table, the corner hashes AA, AB, BA, BB are at most 510, so they and their successors index the 512-entry perm |
| PerlinNoise.FaceBounded | js/perlin.js:53-60 | one face of the cell, blended with weights in [0, 1] from four gradient values, lies in [-2, 2] |
| PerlinNoise.BlendBounded | js/perlin.js:53-60 | the trilinear blend of the eight gradient values, with offsets in [0, 1), lies in [-2, 2] |
| PerlinNoise.NoiseOf | js/perlin.js:28-61 | over any 512-entry byte table, noise(x, y, z) lies in [-2, 2] |
| PerlinNoise.Perlin.constructor | js/perlin.js:3-17 | allocates p (256) and perm (512), runs init, and leaves p[k] = floor(256 * draw k) and perm[i] = p[i & 255] |
| PerlinNoise.Perlin.Init | js/perlin.js:19-26 | the two loops leave p[k] = floor(256 * draw k) for k < 256 and perm[i] = p[i & 255] for i < 512 |
| PerlinNoise.Perlin.TableShape | js/perlin.js:20-25 | after init every perm entry is a byte, and perm is p twice: perm[k] = perm[k + 256] = p[k] |
| PerlinNoise.Perlin.NoiseZeroAtLattice | js/perlin.js:28-61 | noise is exactly 0 at every integer lattice point |
| PerlinNoise.Perlin.NoisePeriodic | js/perlin.js:30-37 | noise repeats with period 256 along each axis, because of `& 255` |
| CellKeys.NatToString | js/game.js:354 | the decimal form of a natural number is a non-empty string of digits |
| CellKeys.DigitsRoundTrip | js/game.js:365 | reading back the digits of a natural number gives the number |
| CellKeys.IntRoundTrip | js/game.js:365 | `Number` of the template-literal form of any integer, negatives included, gives the integer back |
| CellKeys.SplitWithoutSeparator | js/game.js:365 | `split` of a string without the separator gives the one-piece list [s] |
| CellKeys.SplitAfterPrefix | js/game.js:365 | `split` of u + w, with no separator in u, glues u onto the first piece of w's split and keeps the rest |
| CellKeys.KeyRoundTrip | js/game.js:365 | `"${gx},${gy}".split(',').map(Number)` gives back (gx, gy) for all integers |
| CellKeys.KeyInjective | js/game.js:370 | two cells have the same key exactly when their coordinates are equal |
| SpatialGrid.CellKeyParses | js/game.js:352-365 | the key a dot is filed under parses back to (floor(x / gridSize), floor(y / gridSize)) |
| SpatialGrid.SameCell | js/game.js:352-359 | two dots are filed under the same key exactly when both their floored coordinates agree |
| SpatialGrid.Find | js/game.js:356-358 | `grid.has(key)` / `grid.get(key)`: the found bucket carries the key and is its first occurrence; None exactly when no bucket does |
| SpatialGrid.PlacePreservesPartition | js/game.js:356-359 | filing the next dot under its key, in a new bucket or at the end of an existing one, keeps the grid a partition |
| SpatialGrid.GridOfPartitions | js/game.js:350-360 | after the rebuild, the buckets have distinct keys in first-seen order; each bucket lists, in increasing order, exactly the dots whose cell is its key; bucket sizes sum to the number of dots |
| SpatialGrid.EachDotInOneBucket | js/game.js:350-360 | in a partition, dot i is in bucket b exactly when b's key is dot i's cell, so each dot is in exactly one bucket |
| SpatialGrid.Neighbourhood | js/game.js:368-370 | the scan looks up nine keys around a cell, and the cell's own key is the middle one |
| SpatialGrid.NeighbourAt | js/game.js:368-370 | offset (x, y) in -1..1 x -1..1 is looked up as entry 3(x + 1) + (y + 1), x outer and y inner, so every neighbour key is among the nine |
| SpatialGrid.CloseDotsAreNeighbours | js/game.js:363-377 | two positions less than a cell apart on both axes lie in cells that are in each other's 3 x 3 neighbourhood |
| SpatialGrid.BetweenPairsMembers | js/game.js:379-402 | the pairs `checkCollisionsBetween` visits are exactly the ordered pairs with the first dot from the first list and the second from the second |
| SpatialGrid.ScanVisitsNeighbours | js/game.js:363-377 | over the rebuilt grid, the scan visits the pair (i, j) exactly when dot j's cell is in the 3 x 3 neighbourhood of dot i's cell |
| SpatialGrid.ScanReachesClosePairs | js/game.js:345-402 | two dots less than a cell apart on both axes when the grid is rebuilt are visited by the scan in both orders, (i, j) and (j, i) |
| Physics.StepClosedForm | js/game.js:315-337 | one frame gives v1 = v + force * strength * dt + constantForce * dt, then x' = x + v1 * dt, then v' = v1 * (1 - friction * dt); nothing else about the dot changes |
| Physics.DriftScenario | js/game.js:315-337 | with strength 0, friction 0, v = 0, the default wind (-200, 0) and dt = 1, x falls by exactly 200 and y is unchanged |
| Physics.FreeFlight | js/game.js:329-337 | with no force and no friction, the dot moves in a straight line at constant velocity |
| Physics.FrictionSlows | js/game.js:335-336 | with no force and 0 < friction * dt <= 1, a moving dot loses speed and keeps the sign of each velocity component |
| Physics.FrictionOvershoots | js/game.js:335-336 | with no force and friction * dt > 2, a moving dot speeds up, each velocity component turns against its old sign, and at least one strictly reverses |
| Physics.Collide | js/game.js:567-606 | `resolveCollision` conserves the momentum m1 v1 + m2 v2 and the position sum x1 + x2, keeps size, mass and friction, and changes nothing when the dots move apart along the normal |
| Physics.Respond | js/game.js:592-605 | the impulse and correction branch conserves momentum and the position sum and keeps each dot's body |
| Physics.Approaching | js/game.js:589-605 | when the normal speed is not positive (zero included) the impulse and the position correction are both applied |
| Physics.CollisionConservesEnergy | js/game.js:592-603 | the impulse (-2 * speed) / (m1 + m2) keeps the kinetic energy m1 \|v1\|^2 + m2 \|v2\|^2 |
| Physics.CollisionExchangesNormalVelocity | js/game.js:592-603 | tangential velocities are unchanged, and with equal masses the normal components of the two velocities are swapped |
| Physics.CollisionLeavesDotsTouching | js/game.js:600-605 | after the position correction the centres are exactly r1 + r2 apart |
| Seeding.CeilSqrt | js/game.js:240 | `Math.ceil(Math.sqrt(n))`: the least c with c * c >= n |
| Seeding.CeilDiv | js/game.js:241 | `Math.ceil(n / d)`: the least r with r * d >= n |
| Seeding.Layout | js/game.js:240-241 | for n > 0, cols and rows are positive and cols * rows >= n |
| Seeding.SeededDotsInside | js/game.js:238-266 | `initializeDots` makes n dots; dot k sits at column k % cols < cols and row k / cols < rows, strictly inside (0, width) x (0, height), at rest, with mass sizeScale^3 and the current settings |
| Seeding.SeededDotsDistinct | js/game.js:249-264 | no two seeded dots share a position |
| Seeding.SpawnedDot | js/game.js:613-632 | the spawned dot sits on the right edge x = width with 0 <= y < height, moves with vx = -100 and vy in [-25, 25), and has the current settings and mass sizeScale^3 |
| Trail.ToUint8Clamped | js/game.js:446 | storing into the pixel array clamps to 0..255 and rounds to the nearest byte |
| Trail.FadeTrail | js/game.js:444-446 | the loop from index 3 in steps of 4 changes only the alpha bytes (index = 3 mod 4), each to the stored value of max(0, alpha - fadeAmount) with fadeAmount = (1 - trailFade) * 255, and keeps the colour bytes and the length |
| Trail.DecayKeepsBytes | js/game.js:439-446 | the faded buffer still holds bytes |
| Trail.DecayNeverBrightens | js/game.js:446 | with fadeAmount >= 0 no byte ever increases or goes below 0 |
| Trail.DecayByWholeAmount | js/game.js:446 | with a whole fadeAmount n the alpha drops by exactly n, stopping at 0 |
| Trail.DecayStallsBelowHalf | js/game.js:439-446 | a fadeAmount below one half never changes the buffer, because the store rounds the alpha back |
| Trail.DefaultDecayStep | js/game.js:439-446 | at the default trailFade 0.98 (set in the constructor) every alpha drops by 5 per frame, stopping at 0 |
| Game.Separation | js/game.js:575-577 | the centre distance is positive for distinct centres, and its square is dx^2 + dy^2 |
| Game.DistanceTest | js/game.js:388-397 | the test `distance < radius1 + radius2` on the square-rooted distance, with the model's extra guard distance > 0, holds exactly when the discs overlap with distinct centres |
| Game.CoincidentPassesSourceTest | js/game.js:388-397 | two dots at the same centre have distance 0 and pass the unguarded test `distance < radius1 + radius2`, though they are not Overlapping |
| Game.ResolvePreserves | js/game.js:567-606 | one resolution keeps the totals over all dots of momentum, position and energy |
| Game.PairStep | js/game.js:382-400 | visiting a pair keeps the number of dots and their soundness, and changes nothing when the two are the same dot or do not overlap |
| Game.PairStepResolves | js/game.js:393-399 | visiting two different overlapping dots rewrites exactly those two with the outcome of `resolveCollision` at their centre distance |
| Game.PairStepPreserves | js/game.js:382-400 | visiting one pair keeps the totals of momentum, position and kinetic energy and every dot's body |
| Game.ApplyPairsPreserves | js/game.js:363-402 | however many pairs the scan visits, the totals of momentum, position and kinetic energy over all dots are kept and no dot changes its body |
| Game.ApplyPairsAppend | js/game.js:363-377 | visiting one list of pairs and then another is visiting their concatenation, so the scan composes bucket by bucket |
| Game.FieldForce | js/game.js:501-533 | each component of `getForceAt` lies in [-1, 1] whatever the noise gives, and without a usable noise table the force is (0, 0) |
| Game.ApplyFieldForce | js/game.js:315-321 | the first loop adds force * strength * dt to each velocity, sampled at the dot's position |
| Game.ApplyConstantForce | js/game.js:323-327 | the second loop adds constantForce * dt to each velocity |
| Game.Move | js/game.js:329-337 | the third loop moves each dot by its velocity * dt, then damps the velocity by 1 - friction * dt |
| Game.Integrate | js/game.js:315-337 | the three loops together give the per-dot `Step`, dot by dot, keeping number and order |
| Game.IntegratedSound | js/game.js:315-337 | integration keeps every dot sound (positive size, mass == sizeScale^3), since it never touches size, mass or friction |
| Game.Game.constructor | js/game.js:3-236 | the constants (radius 5 * pixelRatio, cell size 50, field scale, speed and strength, wind (-200, 0), spawn interval 1, trailFade 0.98), collisions and trails off, 1000 seeded dots, a transparent trail buffer |
| Game.Game.InitializeDots | js/game.js:238-266 | appends exactly the `Seeded` dots for initialDotCount |
| Game.Game.SpawnDotOnRight | js/game.js:613-632 | appends exactly one `SpawnedDot` |
| Game.Game.UpdateSpatialGrid | js/game.js:345-361 | the Map is rebuilt as `GridOf(dots)` and partitions the dots by cell |
| Game.Game.MoveDots | js/game.js:312-337 | the field clock advances by dt * forceFieldSpeed, and each dot becomes its integrated version under `getForceAt` at its position and the new field time |
| Game.Game.Update | js/game.js:305-343 | the grid is rebuilt from the positions before the move; the clock advances; the dots are the integrated dots, and with collisions on they then become the outcome of visiting the scan's pairs in order over that grid; no dot is added or dropped |
| Game.Game.CheckPair | js/game.js:382-400 | the dot list becomes `PairStep` of the old one: a dot is never paired with itself, an overlapping pair is resolved, and otherwise nothing changes |
| Game.Game.CheckCollisionsBetween | js/game.js:379-402 | the dot list becomes the outcome of visiting, in loop order, every ordered pair of the two lists |
| Game.Game.CheckBucket | js/game.js:364-376 | one bucket's pass parses its key and visits, x offset outer and y offset inner, its pairs with every neighbour bucket that exists; the dot list becomes the outcome of those visits |
| Game.Game.CheckCollisionsWithGrid | js/game.js:363-377 | the dot list becomes the outcome of visiting, bucket after bucket in Map order, the pairs of each bucket's pass |
| Game.Game.ResolveCollision | js/game.js:567-606 | dots i and j become the two halves of `Collide` at their centre distance; nothing else changes |
| Game.Game.ToggleCollisions | js/game.js:609-611 | sets enableCollisions |
| Game.Game.SetTrails | js/game.js:175-181 | turning trails off clears the trail buffer to 0; turning them on keeps it |
| Game.Game.Start | js/game.js:224-227 | lastTime becomes the first timestamp |
| Game.Game.SpawnIfDue | js/game.js:295-298 | at most one dot is spawned per frame, exactly when more than spawnInterval has passed since the last spawn, and then lastSpawnTime is now |
| Game.Game.FadeTrails | js/game.js:437-446 | with trails on, the trail buffer's alpha bytes fade as `FadeTrail` states; with trails off it is untouched |
| Game.Game.UpdateAndRender | js/game.js:299-300 | `update(deltaTime)` as `Update` states, then the trail fade of `render` |
| Game.Game.Frame | js/game.js:289-303 | deltaTime = (now - lastTime) / 1000 and lastTime becomes now; the optional spawn; then `update` from the grown dot list (grid, clock, integration and collision scan as in `Update`); then the trail fade of `render` |

## Left out

- Drawing is not modelled. This covers the DOM, the canvas, the widget, and the slider, checkbox and colour listeners. It also covers `resize`, `renderDot`, `drawForceField`, the stamping of the dots onto the trail canvas with `arc` and `fill` (js/game.js:451-458), and the copy of the trail canvas onto the main canvas with `drawImage` (js/game.js:462). They have no algorithmic content. Only the decay of the trail buffer is modelled.
- `Game.Game.FadeTrails`: because stamping is left out, nothing ever writes a non-zero byte into the model's trail buffer. It starts transparent and is only cleared and faded. `Trail.FadeTrail` and the decay lemmas are stated for an arbitrary buffer.
- `currentSettings` and `constantForce` are constants of the model. Only slider listeners change them.
- The exponential `trailFade` slider mapping (`Math.pow`), `trailAlpha` and the colours are UI values. Only `trailFade` itself is a field.
- `Math.random`, `performance.now`, `setTimeout` and `requestAnimationFrame` are inputs. Random draws and timestamps are parameters, and `Frame` models one pass of `loop`.
- `Math.cos`, `Math.sin` and `Math.PI` are an abstract `Trig`. The model assumes only that they give cosines and sines in [-1, 1].
- IEEE-754 rounding is not modelled: all arithmetic is exact. The one rounding that is modelled is the store into the trail's byte array.
- `Game.Game.CheckPair`: a pair at distance 0 is skipped. The source's test at js/game.js:397 admits it, and `resolveCollision` then divides by zero and writes NaN into both dots.
- `Game.Game.ResolveCollision` requires distinct centres and a non-zero mass sum. These are the cases where the source divides by zero.
- `CellKeys.ParseKey`: `Number` is modelled only for an optional '-' followed by digits, and any other text parses to None. Only such keys are ever stored.
- `PerlinNoise.NoiseOf` proves the bound [-2, 2]. The tighter bound that improved noise is known to meet is not proved.
- The fallback branches are not modelled: `!this.grid` in `update` and `updateSpatialGrid`, `!this.perlin.noise` and the try/catch in `getForceAt`. The model's constructor always builds the table and the grid. `Game.FieldForce` does return (0, 0) for a table that is not a 512-entry byte table, as the `!this.perlin` branch does.
- `lastTime` is undefined in the source until the delayed start. The model lets it hold any value until `Start`.
- `initializeDots` with `initialDotCount = 0` gives cols = 0 and runs no iteration. The model returns without adding dots.
- Canvas width and height are natural numbers of pixels.
- The Map's keys are strings in insertion order, as in JavaScript. The buckets hold dot indices, not object references.
- Switching trails off calls `clearRect`, modelled as setting every byte of the trail buffer to 0.

## Findings

| source | as written | input that shows it | evidently intended | confidence | as-written member | corrected member |
|---|---|---|---|---|---|---|
| js/game.js:397 | `if (distance < radius1 + radius2)` lets a pair at distance 0 through, and `resolveCollision` then computes `dx / distance` and `dy / distance` with distance 0 (js/game.js:575-576), writing NaN into both dots | two dots with the same x and y, for example two spawns at the right edge with equal random y | resolve only pairs whose centres differ; a coincident pair is left alone | high, by reading the code; not executed | Game.CoincidentPassesSourceTest | Game.DistanceTest |
