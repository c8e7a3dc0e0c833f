# LetsPool ball spawner, modelled in Dafny

LetsPool is a browser demo. It drops textured pool balls onto a table and
simulates them with the cannon-es physics library, rendering them with three.js.
The only logic of its own is the spawner in `Game.initScene`. Every 300 ms it
builds a sphere body with a random position and orientation and a random
texture number. It registers the body with the physics world, adds a mesh, and
pushes the body onto a list of live bodies. When the list grows past 30
entries, the oldest body is shifted off and removed from both the visual
helper and the world.

The model has three modules:

- `Sampling` (`sampling.dfy`) covers `Game.random(min, max)` and the texture
  index expression. Each draw from `Math.random` is a parameter `u` of type
  `Sample`, a real number in [0, 1).
- `Spawn` (`spawn.dfy`) is the ball built on one tick: mass 1, collider
  radius 0.3, mesh radius 0.5, spawn height 5, a random position and
  orientation, and a texture number.
- `Spawner` (`spawner.dfy`) treats one interval callback as a pure transition
  `Tick` over an abstract state. The state holds the tick counter, the
  insertion-ordered live list, the set of bodies in the physics world, and the
  log of `removeVisual`/`removeBody` requests. `Run` folds `Tick` over a
  sequence of sample records. `Valid` is the invariant of reachable states,
  and `RunTicks` is the interval driver written as a loop.

Bodies are identified by the tick that spawned them. This is the source's
counter `i`, which the source increments on every tick but never reads. The
model uses it as the body's identity.

Two consequences of the code are easy to miss:

- Spawn x and z come from `random(-5, 5)` and `random(-2, 2)`. With a sample in
  [0, 1) these give the half-open ranges [-5, 5) and [-2, 2), not closed ones.
- The texture index `floor(u * (15 - 1) + 1)` ranges over 1..14. Texture 15
  is never chosen, although the expression is written against 15 (`15 - 1`,
  Game.js:79).

The physics collider has radius 0.3 (`size`, line 49), but the sphere mesh
drawn for it has radius 0.5 (line 68). The model records both values.

## Model

| member | source | states |
|---|---|---|
| Sampling.Random | src/libs/home/Game.js:104-107 | the range mapping lies in [min, max) for increasing bounds, in (max, min] for reversed bounds, and equals the bound when both are equal |
| Sampling.Unrandom | src/libs/home/Game.js:104-107 | every value on the reachable side of the interval is produced by some sample, so the mapping covers its whole range |
| Sampling.TextureIndex | src/libs/home/Game.js:79 | the texture number is an integer from 1 to 14 and is never 15 |
| Sampling.TextureIndexCovers | src/libs/home/Game.js:79 | each texture number 1..14 is drawn by some sample |
| Spawn.SpawnBody | src/libs/home/Game.js:49-65 | a spawned body has mass 1, collider radius 0.3, y = 5, x in [-5, 5), z in [-2, 2), orientation components in (-10, 10] except the second in [70, 100), and a texture number in 1..14 |
| Spawn.SpawnOrientationNotUnit | src/libs/home/Game.js:65 | the orientation is not normalised by the spawner before it is passed to the body: its squared norm is at least 4900 |
| Spawn.SpawnCoversArea | src/libs/home/Game.js:61 | every point of the rectangle [-5, 5) x [-2, 2) at height 5 is a possible spawn position |
| Spawner.Tick | src/libs/home/Game.js:54-100 | a tick spawns the next id; the evicted front followed by the new list equals the old list with the new id appended; at most one body is evicted, exactly when the list already held 30; the world gains the new id and loses the evicted one; the log gains both requests for the evicted body; a list of at most 30 stays at most 30 |
| Spawner.InitValid | src/libs/home/Game.js:50-51 | the empty start state satisfies the reachability invariant |
| Spawner.TickValid | src/libs/home/Game.js:66-100 | a tick preserves the invariant: the list is the min(ticks, 30) newest ids in spawn order, the world equals the set of live ids, and every older id has had both removal requests sent, in order |
| Spawner.RunValid | src/libs/home/Game.js:52-101 | after n ticks from the start the state has counted n ticks, holds exactly min(n, 30) live bodies (so never more than 30), and satisfies the invariant |
| Spawner.ValidSpawnOrder | src/libs/home/Game.js:94 | live ids are strictly increasing in list order, so the list has no duplicates and is in spawn order, and it holds only ids already spawned |
| Spawner.ValidLiveRange | src/libs/home/Game.js:94-97 | a body is live exactly when its id lies between the oldest live id and the latest tick |
| Spawner.TickEvictsOldest | src/libs/home/Game.js:94-97 | from a reachable state a tick evicts exactly when 30 ticks have already run; the evicted body is the front of the list, the earliest spawned and at least as old as every live body; the survivors keep their order with the new body at the back |
| Spawner.TickSparesNewcomer | src/libs/home/Game.js:94-97 | the spawned id was not live before, is never the one its own tick evicts, and ends up at the back of the list and in the world |
| Spawner.EvictionLogContents | src/libs/home/Game.js:97-99 | the log for ids 1..n names exactly those ids, each as a helper request immediately followed by a world request |
| Spawner.ValidRemovals | src/libs/home/Game.js:97-99 | in a reachable state a body has had a removeVisual request, and equally a removeBody request, exactly when it was spawned and is no longer live |
| Spawner.ValidUnique | src/libs/home/Game.js:52-101 | the invariant determines the state: two reachable states with the same tick count are equal |
| Spawner.EvictedNeverReturns | src/libs/home/Game.js:96-100 | an evicted body is never listed or in the world again, whatever ticks follow |
| Spawner.FillingEvictsNothing | src/libs/home/Game.js:96 | during the first 30 ticks every spawned body stays live and no removal request is sent |
| Spawner.ValidOnePastCapacity | src/libs/home/Game.js:94-100 | any reachable state after 31 ticks has live ids 2 to 31, body 1 out of the world, and exactly body 1's two removal requests in the log |
| Spawner.ThirtyFirstTick | src/libs/home/Game.js:94-100 | after 31 ticks, 30 bodies (ids 2 to 31) are live; body 1 is out of the world, and exactly its two removal requests have been sent |
| Spawner.RunTicks | src/libs/home/Game.js:52-101 | the interval loop reaches the state `Run` describes, which is valid with min(n, 30) live bodies, and body k + 1 is the one built from the k-th sample record |

## Left out

- The three.js scene, camera, lights, renderer, resize handler and animation loop (src/libs/home/Game.js:13-37, 109-119) are rendering and DOM code over a foreign library.
- cannon-es `World.step` and body dynamics (src/libs/home/Game.js:39-46, 116) are floating-point physics in a foreign engine. The world appears only as a set of body ids.
- `CannonHelper` is not part of this model. Only the `removeVisual` request is recorded, not the scene contents, so the model does not say whether the mesh added through `helper.scene.add` (line 93) really leaves the scene.
- Asynchronous texture loading and the material update in its callback (lines 75-82) are fire-and-forget I/O. Only the texture number is modelled, not the file name `/pool-table/<n>ball.png`.
- `setInterval` timing (lines 52, 101) is host timer behaviour. The model counts discrete ticks and leaves out the 300 ms period.
- Quaternion normalisation and mesh transform copying (lines 65, 88-89) are float vector maths done by the libraries. The model keeps the raw orientation components the source passes.
- Arithmetic is over exact reals. The model does not capture IEEE double rounding of `u * range + min`, so it does not exclude a result rounding onto the open bound.
- The route table and title hook (src/router/index.ts) are navigation glue with no logic of their own.
- The static table body (src/libs/scene-1/Table.js) is one constructor call with constants and has no behaviour to state.
