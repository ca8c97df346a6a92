# Particle system of JSGame, modelled in Dafny

This project models the particle pool of the JSGame engine
(`src/lib/GameObjects/ParticleSystem.js`) and the particle record it manages
(`src/lib/GameObjects/Particle.js`).

A particle system owns an ordered pool of particles. On every frame (`__update`) it:

- resamples a transient emission speed;
- reconciles the pool length toward its target `count`, appending spawned particles or popping the tail;
- sets the compositing mode;
- visits the slots in index order. For each slot it computes the particle's alpha. A NaN alpha respawns the slot. Otherwise it draws a radial gradient circle, takes one unit off the remaining life and the radius, and moves the particle by its speed. An expired particle is respawned in place when `loop` is set and spliced out otherwise.

At the fixed rate (`__fixedUpdate`) it makes width and height equal to the diameter. A changed width or height redefines the radius, and a changed height wins over a changed width.

The project has four files:

- `js_number.dfy` has the JavaScript number behaviour the alpha computation depends on: `Math.round`, and `*` and `/` with their infinities and NaN. Module `Optional` holds option values.
- `particle.dfy` (module `Particles`) has the Particle record and its constructor: defaults, then the options merge, then `remainingLife := life`.
- `particle_sim.dfy` (module `ParticleSim`) states each step of the system as a function of the values it reads. It proves the properties about those functions:
  - the emission speed;
  - spawning and the ranges of spawned values;
  - alpha, the gradient stops, the draw and the step of one particle;
  - the per-particle pass over the pool;
  - reconciliation;
  - the fixed-rate geometry step.
- `particle_system.dfy` (module `ParticleSystems`) has the `ParticleSystem` class. Its fields are those of the source object, plus the closure variables `speed`, `width` and `height` as fields. Its methods mutate the pool in place with push, pop, index write and splice, and each method is proved against the functions of `ParticleSim`.

`Math.random()` is not called. Its draws are parameters in [0, 1):

- the two radial draws of a frame are `radialRandom`;
- the seven draws of the k-th spawn of a frame are `rand(k)`, in the order the source makes them.

Numbers are exact reals. Alpha is the one place where NaN and the infinities matter, so it is a `Number` (finite, ±infinity or NaN).

Three points where the code does not do what its documentation and guards suggest. The model follows the code in each:

- The JSDoc at line 23 describes `count` as "the number of particles", and the guards at lines 93 and 98 compare the pool length with it. The loops at lines 94-96 and 99-101 re-read `particles.length` in their bound while their counter also advances. Both therefore run ⌈gap/2⌉ times, where gap is the distance between the length and `count`. Growing leaves ⌈(n + count)/2⌉ particles; shrinking leaves ⌊(n + count)/2⌋. For example, n = 5 and count = 0 pops three particles and leaves two. `ReconciledLength` is that length.
- Lines 86-91 resample the closure variable `speed` on every frame, and `addParticle` reads that variable, not the configured `self.speed` (lines 67-68). Spawned speeds are therefore jittered from the transient emission speed. `Emitter.speed` is that value.
- The JSDoc at line 24 presents `color` as the particles' colour, and lines 73-75 draw each channel as `Math.round(Math.random() * c)`. That value can exceed a base channel that is not a whole number: for c = 10.6 and u·c = 10.55 it gives 11. The bound [0, c] is proved for whole, non-negative channels, such as the default 255. For any non-negative channel the proved bound is [0, c + 0.5].

Across frames the model keeps one invariant, `ParticleSim.AllLive`: every particle's remaining life lies between 0 and its life. Spawns start live when the base life is non-negative, and a frame keeps the pool live (`ParticleSim.FrameKeepsLive`, `ParticleSystems.ParticleSystem.Update`). So `ParticleSim.AlphaWithinUnit` applies to every particle in the pool.

## Model

| member | source | states |
|---|---|---|
| JsNumber.RoundHalfUp | src/lib/GameObjects/ParticleSystem.js:124 | `Math.round` of a finite value is the integer within half a unit of it, ties going up |
| JsNumber.Round | src/lib/GameObjects/ParticleSystem.js:110 | `Math.round` keeps finiteness, NaN and the infinities; a finite result is whole and within half a unit of the argument |
| JsNumber.Times | src/lib/GameObjects/ParticleSystem.js:110 | a product by a finite factor is finite exactly for a finite operand, NaN exactly for NaN or infinity times zero, and otherwise the real product |
| JsNumber.Over | src/lib/GameObjects/ParticleSystem.js:110 | a quotient is finite exactly for a finite dividend and a non-zero divisor, NaN exactly for NaN or 0/0, and a finite quotient times the divisor gives back the dividend |
| Particles.NewParticle | src/lib/GameObjects/Particle.js:22-35 | every field given in the options is taken from them, every absent one keeps its default (at rest, radius 1, life 1, opaque white), and remainingLife equals life |
| Particles.DefaultParticle | src/lib/GameObjects/Particle.js:24-33 | without options a particle has speed zero, radius 1, life 1, remainingLife 1 and colour (255, 255, 255) with alpha 1 |
| Particles.RemainingLifeOptionIgnored | src/lib/GameObjects/Particle.js:34-35 | a remainingLife passed in the options never changes the constructed particle |
| ParticleSim.EmitSpeed | src/lib/GameObjects/ParticleSystem.js:86-92 | without radial the emission speed is the configured speed exactly; with radial each component of a non-negative configured s lies in [-s, s), closed at s = 0 |
| ParticleSim.JitterUp | src/lib/GameObjects/ParticleSystem.js:67-71 | `b + Math.random() * b` for b >= 0 lies in [b, 2b), closed at b = 0 |
| ParticleSim.JitterDown | src/lib/GameObjects/ParticleSystem.js:67-68 | `b + Math.random() * b` for b <= 0 lies in (2b, b], closed at b = 0 |
| ParticleSim.JitterBounds | src/lib/GameObjects/ParticleSystem.js:67-71 | a jittered value keeps the sign of its base and moves away from zero by less than the base |
| ParticleSim.RescaleBounds | src/lib/GameObjects/ParticleSystem.js:73-75 | `Math.round(Math.random() * c)` is whole; for c >= 0 it lies in [0, c + 0.5], and in [0, c] for a whole c |
| ParticleSim.Spawn | src/lib/GameObjects/ParticleSystem.js:63-78 | a spawned particle copies the system's transform, starts with its full life, and has speed `t + u*t` per axis from the transient speed t, radius and life `b + u*b` from the system's, and each colour channel `Math.round(u * c)` |
| ParticleSim.SpawnRanges | src/lib/GameObjects/ParticleSystem.js:63-78 | with draws in [0, 1), radius in [R, 2R), life in [L, 2L), each speed component between t and 2t, whole colour channels in [0, base] for a whole base, and remainingLife == life |
| ParticleSim.Alpha | src/lib/GameObjects/ParticleSystem.js:110 | the alpha `round(remainingLife / life * count) / count` is NaN exactly when count is 0 or both life and remainingLife are 0, and finite exactly when count and life are non-zero |
| ParticleSim.AlphaWithinUnit | src/lib/GameObjects/ParticleSystem.js:110-114 | for count > 0 and 0 <= remainingLife <= life, alpha is NaN exactly for life 0 and otherwise lies in [0, 1] |
| ParticleSim.OverWithinUnit | src/lib/GameObjects/ParticleSystem.js:110 | a value in [0, b] over a positive b is finite and lies in [0, 1] |
| ParticleSim.TimesWithin | src/lib/GameObjects/ParticleSystem.js:110 | a value in [0, 1] times a positive c is finite and lies in [0, c] |
| ParticleSim.RoundWithinCount | src/lib/GameObjects/ParticleSystem.js:110 | a value in [0, count] rounds to a value in [0, count] |
| ParticleSim.Stops | src/lib/GameObjects/ParticleSystem.js:116-122 | three stops at offsets 0, 0.5 and 1 in the particle's colour; the outer one is transparent with glow and keeps the alpha without it |
| ParticleSim.DrawOf | src/lib/GameObjects/ParticleSystem.js:115-124 | the gradient is centred on the particle with outer radius its radius; the arc's centre and radius are those values rounded to the nearest integer |
| ParticleSim.Advance | src/lib/GameObjects/ParticleSystem.js:126-128 | remainingLife and radius drop by exactly 1, the position moves by exactly the speed, and life, speed and colour are unchanged |
| ParticleSim.VisitSlot | src/lib/GameObjects/ParticleSystem.js:108-136 | one iteration moves on to index i + 1, draws at most one circle, leaves the slots before i alone, and keeps the pool length except for one removal without loop |
| ParticleSim.VisitSlotOutcome | src/lib/GameObjects/ParticleSystem.js:108-136 | a NaN alpha respawns slot i with nothing drawn, decremented or moved; otherwise exactly one circle is drawn, DrawOf the particle with its alpha set and the system's glow, and the particle ends processed, or respawned in place (loop), or spliced out with the later slots shifted down (no loop); no other slot changes |
| ParticleSim.Pass | src/lib/GameObjects/ParticleSystem.js:107-137 | the loop from index i never grows the pool, draws at most one circle per slot from i on, and consumes at most one spawn draw per slot, starting from the k-th |
| ParticleSim.PassKeepsVisited | src/lib/GameObjects/ParticleSystem.js:107-137 | the loop from index i never changes the slots before i |
| ParticleSim.PassLoopKeepsLength | src/lib/GameObjects/ParticleSystem.js:130-133 | with loop set the pass leaves the pool length unchanged |
| ParticleSim.PassLoopFirstSlot | src/lib/GameObjects/ParticleSystem.js:107-137 | with loop set the slot the pass starts at ends respawned (NaN alpha or expired) or processed exactly once |
| ParticleSim.PassLoopSlots | src/lib/GameObjects/ParticleSystem.js:107-137 | with loop set every slot ends the frame either respawned, when its alpha was NaN or it expired, or advanced exactly one step |
| ParticleSim.SpliceSkipsNextParticle | src/lib/GameObjects/ParticleSystem.js:134 | as written, when the first of two particles expires without loop, the second moves to slot 0 and is neither drawn nor advanced that frame |
| ParticleSim.PassRevisiting | src/lib/GameObjects/ParticleSystem.js:107-137 | the pass that revisits index i after a splice draws one circle for every slot from i on when every alpha is defined |
| ParticleSim.RevisitingProcessesSplicedFollower | src/lib/GameObjects/ParticleSystem.js:134 | with the revisit, the particle that moves into the spliced slot is drawn and advanced in the same frame |
| ParticleSim.ReconciledLength | src/lib/GameObjects/ParticleSystem.js:93-102 | the reconciled length moves toward count and never past it; it grows strictly when short, shrinks strictly when over (unless the pool is empty), and is unchanged at count |
| ParticleSim.GrowCount | src/lib/GameObjects/ParticleSystem.js:93-97 | when the pool is short, the grow loop runs until twice its count covers the gap, and stops the first time it does, so it runs ⌈gap/2⌉ times; it runs no times when the pool is not short |
| ParticleSim.Spawns | src/lib/GameObjects/ParticleSystem.js:94-96 | the n spawns of the grow loop are the first n spawns of the frame, in order |
| ParticleSim.Reconciled | src/lib/GameObjects/ParticleSystem.js:93-102 | reconciliation keeps the surviving prefix, appends only fresh spawns in order, drops only from the tail, and has length ReconciledLength |
| ParticleSim.ReconcileFallsShort | src/lib/GameObjects/ParticleSystem.js:93-97 | an empty pool with count 2 holds one particle after the frame's reconciliation, where filling to count gives two |
| ParticleSim.FilledToCount | src/lib/GameObjects/ParticleSystem.js:93-102 | the intended reconciliation has exactly count particles (none for a negative count), with the same prefix and tail behaviour |
| ParticleSim.SpawnLive | src/lib/GameObjects/ParticleSystem.js:71 | with draws in [0, 1) and a non-negative base life, a spawned particle is live: 0 <= remainingLife <= life |
| ParticleSim.SpawnerLive | src/lib/GameObjects/ParticleSystem.js:63-78 | every spawn of a frame whose draws are all in [0, 1) is live |
| ParticleSim.VisitKeepsLive | src/lib/GameObjects/ParticleSystem.js:108-136 | one iteration over a live pool with a live spawn leaves the pool live |
| ParticleSim.PassKeepsLive | src/lib/GameObjects/ParticleSystem.js:107-137 | the per-particle pass keeps a pool live when every spawn is live |
| ParticleSim.ReconciledLive | src/lib/GameObjects/ParticleSystem.js:93-102 | reconciliation keeps a pool live when every spawn is live |
| ParticleSim.FrameKeepsLive | src/lib/GameObjects/ParticleSystem.js:93-137 | reconciliation followed by the pass keeps a pool live when every spawn is live |
| ParticleSim.Composite | src/lib/GameObjects/ParticleSystem.js:104-106 | the compositing mode is set exactly when blendMode is non-empty, and to blendMode |
| ParticleSim.FixedStep | src/lib/GameObjects/ParticleSystem.js:141-151 | width and height end equal to twice the radius; a changed height sets the radius to half of it and wins over a changed width; with neither changed the radius stays; the tracked width and height become the current ones |
| ParticleSim.FixedStepSettles | src/lib/GameObjects/ParticleSystem.js:141-151 | a second fixed step with no change in between leaves radius, width and height unchanged |
| ParticleSystems.ParticleSystem.constructor | src/lib/GameObjects/ParticleSystem.js:35-61 | the defaults are count 50, speed (2, 2), white, no loop, 'lighter', glow, life 100, radius 10, radial, an empty pool; options override them; the closure speed, width and height are captured before the options |
| ParticleSystems.ParticleSystem.AddParticle | src/lib/GameObjects/ParticleSystem.js:63-84 | without an index one spawn is appended at the end; with an index only that slot is replaced and the length and every other slot are unchanged |
| ParticleSystems.ParticleSystem.Grow | src/lib/GameObjects/ParticleSystem.js:93-97 | the grow loop appends exactly the first ReconciledLength - n spawns of the frame and reports how many draws it consumed |
| ParticleSystems.ParticleSystem.Shrink | src/lib/GameObjects/ParticleSystem.js:98-102 | the shrink loop pops from the tail only, leaving the prefix of length ReconciledLength |
| ParticleSystems.ParticleSystem.Reconcile | src/lib/GameObjects/ParticleSystem.js:93-102 | the pool becomes Reconciled(old pool, count, this frame's spawns) and the number of spawn draws used is GrowCount |
| ParticleSystems.ParticleSystem.VisitParticle | src/lib/GameObjects/ParticleSystem.js:108-136 | the in-place iteration (index write, respawn, splice) leaves the pool, draws and spawn flag that VisitSlot gives |
| ParticleSystems.ParticleSystem.TickSlot | src/lib/GameObjects/ParticleSystem.js:107-137 | visiting slot i and then running the pass from i + 1 is the pass from i; the pool does not grow |
| ParticleSystems.ParticleSystem.TickParticles | src/lib/GameObjects/ParticleSystem.js:107-137 | the index loop leaves exactly the pool, the draws and the draw count of Pass from index 0 |
| ParticleSystems.ParticleSystem.Tick | src/lib/GameObjects/ParticleSystem.js:93-137 | the frame's pool is the pass over the reconciled pool; its length is at most ReconciledLength, and equal to it with loop |
| ParticleSystems.ParticleSystem.Update | src/lib/GameObjects/ParticleSystem.js:85-137 | the emission speed is EmitSpeed of the frame's draws, and the pool and frame are those of Tick with that speed; with a non-negative base life and draws in [0, 1), a live pool stays live |
| ParticleSystems.ParticleSystem.FixedUpdate | src/lib/GameObjects/ParticleSystem.js:141-151 | radius, width, height and the tracked width and height become FixedStep of their old values |

## Left out

- `src/lib/Class/GameObject.js`, `Vector2.js`, `Color.js` and `Transform.js` are not part of this model.
  - The fields a particle system inherits from GameObject (transform, width, height) are a constructor parameter.
  - The option merge is taken to be a field-by-field override.
  - A particle without a transform option starts at the origin.
  - A `Color` built without an alpha is taken to have alpha 1. The system overwrites it before any use.
  - The `parent` option is dropped.
- `count` is taken to be a whole number (`int`), though the source accepts any number. With a fractional count, one frame's grow loop can push particles that its shrink loop then pops, spending their draws: for n = 2 and count = 2.5, one particle is pushed and popped again. `ParticleSystems.ParticleSystem.Reconcile` does not model that case.
- The source as written assumes two things that it does not say, and the model assumes them too:
  - `ParticleSystem` extends `GameObject`. Its class declaration at line 34 has no `extends`, yet line 36 calls `super(options)`.
  - `Color` is in scope in `Particle.js`. Line 28 uses it, but lines 10-11 import only `Vector2` and `GameObject`.
- The hooks `onUpdate`, `onFixedUpdate` and `__init` (lines 138, 140, 152) are external callbacks and are not modelled.
- Canvas drawing is reduced to a record.
  - `beginPath`, `createRadialGradient`, `addColorStop`, `fillStyle`, `arc`, `fill` and `globalCompositeOperation` (lines 103-125) become a `Frame`: the compositing mode set and one `DrawCall` per circle.
  - The `rgba(...)` strings are `Stop` records.
- `Math.random()` is replaced by its draws as parameters in [0, 1).
- Floating point is modelled as exact reals.
  - Rounding error, overflow and signed zero are not modelled.
  - NaN and the infinities are kept only for alpha. The test `typeof p.color.alpha !== 'number'` at line 111 is always false for the result of a division, so only the NaN test remains.
- Particles are values in a sequence, not shared objects.
  - Every spawned particle is a new object that no other slot references, so the in-place writes at lines 110 and 126-128 are modelled as writing the updated record back into its slot.
- ParticleSystems.ParticleSystem.AddParticle: requires an index inside the pool. JavaScript's write past the end of an array, which leaves holes, is not modelled. Every call in the source passes an index of an existing slot.
- The extra GameObject fields a particle carries (its width, height and parent) are not modelled.
- The class runs the source's loops as written, keeping the half-gap reconciliation and the splice skip. The corrected definitions under Findings stand beside it and are not what `Update` does.

## Findings

| source | as written | input that shows it | evidently intended | confidence | as-written member | corrected member |
|---|---|---|---|---|---|---|
| src/lib/GameObjects/ParticleSystem.js:93-102 | the loop bound `count - particles.length` is re-read after every push or pop while `i` also advances, so one frame closes only half the gap | an empty pool with count 2: one particle after reconciliation | the pool holds exactly `count` particles after reconciliation | not executed | ParticleSim.ReconcileFallsShort | ParticleSim.FilledToCount |
| src/lib/GameObjects/ParticleSystem.js:134 | `splice(i, 1)` does not step `i` back, so the particle shifted into slot `i` is skipped for the frame | two particles without loop whose first expires this frame: the second is neither drawn nor advanced | every particle present is visited once per frame | not executed | ParticleSim.SpliceSkipsNextParticle | ParticleSim.PassRevisiting |
