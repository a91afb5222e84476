# Button-disintegration transition and screen navigator

A Dafny model of the two pieces of logic in the platformer's front end.

- **Title-screen transition.** Pressing START rasterizes the start button into a grid of square particles. Each particle gets a colour, a centre and a radial launch velocity. Every animation frame moves, damps and fades the particles. The phase goes `idle -> exploding -> fading`. When no particle is visible any more, the host's `onStart` callback is called.
- **Navigator.** The top-level component switches between the title, level-select and game screens and remembers the chosen level.

Files:

- `particle.dfy` (module `Particle`): the `Pixel` record and the integrator of one tick (`Step`, `Advance`, the source-shaped `Integrate`). It also holds the liveness and mean-speed checks and the lemmas about repeated ticks: the exact fade, completion on tick 159, and the settle threshold.
- `rasterizer.dfy` (module `Rasterizer`): the grid walk `Rasterize` (nested loops, running id) and the specification `Raster` it is proved against. It also holds the cell classification and the lemmas on count, order, fresh particles, launch velocity and colours.
- `title_screen.dfy` (module `Title`): class `TitleScreen` with the fields `phase`, `pixels`, `buttonHidden`, `scheduled` (a frame is requested) and `completions` (calls of `onStart`). Its methods are `HandleStart`, `Tick` and `RunFrames`, the frame chain.
- `navigator.dfy` (module `Navigator`): class `PlatformerGame` with `screen` and `levelIndex` and the four event callbacks.

Modelling choices:

- All arithmetic is exact `real` arithmetic.
- The `Math.random()` draws are a parameter `rnd: nat -> Draw`. It supplies the four draws of the particle with that id, each in [0, 1).
- `Math.sqrt(..) || 1` is a parameter `dist` whose result is positive.
- The measured button rectangle is an `Option<Rect>` in container coordinates. `None` means the button or the container reference is missing.
- A frame is one call of `Tick`, which requires `scheduled`.

Behaviour of the code the model follows:

- Completion fires on tick 159. The liveness test is opacity > 0.05, and 1 − 0.006·159 ≤ 0.05 < 1 − 0.006·158.
- Friction is drawn from [0.96, 0.98), a half-open band.
- The phase never returns to idle after a run. The host replaces the screen instead.
- The cleanup returned by the click handler is discarded, so a run cannot be cancelled.
- The edge band is one pitch wide on the left and top. On the right and bottom it covers every cell whose corner lies less than two pitches from that side: one or two columns or rows, depending on the extent mod 5.

## Model

| member | source | states |
|---|---|---|
| `Particle.Advance` | 2-d-platformer-game/components/game/title-screen.tsx:119-132 | one tick keeps length and order, and keeps each particle's id, size, colour and friction; every opacity strictly drops |
| `Particle.Integrate` | 2-d-platformer-game/components/game/title-screen.tsx:119-134 | the map followed by the in-place `vy *= friction` loop yields exactly `Advance` of the old field |
| `Particle.AdvanceRule` | 2-d-platformer-game/components/game/title-screen.tsx:119-132 | x' = x + vx and y' = y + vy use the old velocities; vx' = vx·f and vy' = (vy + 0.04)·f; opacity' = opacity − 0.006; nothing else changes |
| `Particle.HorizontalDamping` | 2-d-platformer-game/components/game/title-screen.tsx:124 | with friction in [0, 1] a tick never increases \|vx\| |
| `Particle.IterateFades` | 2-d-platformer-game/components/game/title-screen.tsx:119-134 | after k ticks, length, ids, size, colour and friction are unchanged and each opacity has dropped by exactly 0.006·k |
| `Particle.VisibleIsNonEmpty` | 2-d-platformer-game/components/game/title-screen.tsx:137-141 | a live field is non-empty, so the mean speed is never a division by zero |
| `Particle.FadedVisible` | 2-d-platformer-game/components/game/title-screen.tsx:126-137 | 1 − 0.006·k is above the visibility threshold exactly when k < 159 |
| `Particle.UniformVisible` | 2-d-platformer-game/components/game/title-screen.tsx:137 | for equal opacities, some particle is visible iff the field is non-empty and that opacity is above 0.05 |
| `Particle.CompletesOnTick159` | 2-d-platformer-game/components/game/title-screen.tsx:137-148 | from a non-empty, fully opaque field, the field is live after k ticks iff k < 159, so liveness first fails on tick 159 |
| `Particle.FallingStaysFast` | 2-d-platformer-game/components/game/title-screen.tsx:123-132 | a particle with vy ≥ 0.3 and friction ≥ 0.96 still has vy ≥ 0.3 after a tick, because gravity outweighs damping |
| `Particle.IterateKeepsFalling` | 2-d-platformer-game/components/game/title-screen.tsx:119-134 | the same holds for every particle after any number of ticks |
| `Particle.SpeedSumLowerBound` | 2-d-platformer-game/components/game/title-screen.tsx:141 | if every particle has speed ≥ s, the reduced speed sum is ≥ s per particle |
| `Particle.NeverSettlesOnceFalling` | 2-d-platformer-game/components/game/title-screen.tsx:137-144 | once every particle falls at ≥ 0.3 per tick, the mean speed stays ≥ 0.3 forever, so the fading switch can no longer fire |
| `Rasterizer.StepsCount` | 2-d-platformer-game/components/game/title-screen.tsx:72-73 | `Steps(w)` is exactly the number of iterations of `for (p = 0; p < w; p += 5)` |
| `Rasterizer.StepsIsCeiling` | 2-d-platformer-game/components/game/title-screen.tsx:72-73 | for w > 0 that count is ⌈w/5⌉: 5·(n−1) < w ≤ 5·n |
| `Rasterizer.Rasterize` | 2-d-platformer-game/components/game/title-screen.tsx:41-116 | returns nothing when the button or container is missing, otherwise exactly the field `Raster` of the rectangle |
| `Rasterizer.RasterEmpty` | 2-d-platformer-game/components/game/title-screen.tsx:72-73 | the field is empty iff width ≤ 0 or height ≤ 0 |
| `Rasterizer.RasterTiles` | 2-d-platformer-game/components/game/title-screen.tsx:60-113 | every grid cell (c, r) inside the button appears at index c·rows + r, with that index as its id (outer loop over columns, inner over rows) |
| `Rasterizer.RasterCellInside` | 2-d-platformer-game/components/game/title-screen.tsx:72-113 | conversely, particle i is the particle of grid cell (i / rows, i mod rows), and that cell lies inside the button |
| `Rasterizer.FreshParticle` | 2-d-platformer-game/components/game/title-screen.tsx:91-110 | a fresh particle has the id it was given, opacity 1, size 4, friction in [0.96, 0.98) and centre (bx + px + 2.5, by + py + 2.5) |
| `Rasterizer.LaunchVelocity` | 2-d-platformer-game/components/game/title-screen.tsx:95-106 | launch speed is in [1.5, 5.0) and ×1.5 on the edge; vx is the radial component ±1; vy never exceeds the radial component |
| `Rasterizer.CharIndexNonNegative` | 2-d-platformer-game/components/game/title-screen.tsx:74-85 | inside the label region the stipple band index is ≥ 0, so JavaScript's `%` and Euclid's agree there |
| `Rasterizer.ColourRules` | 2-d-platformer-game/components/game/title-screen.tsx:74-89 | edge cells are neon; the dark stipple colour appears iff the cell is off the edge, in the label region and in band ≡ 1 (mod 3); the fill appears iff the cell is off the edge and outside the label region |
| `Rasterizer.StipplePeriod` | 2-d-platformer-game/components/game/title-screen.tsx:84-85 | inside the label the colour pattern repeats every 30 units (six pitches) |
| `Title.TitleScreen.constructor` | 2-d-platformer-game/components/game/title-screen.tsx:25-33 | starts idle, with no particles, the button shown, nothing scheduled and no completion |
| `Title.TitleScreen.HandleStart` | 2-d-platformer-game/components/game/title-screen.tsx:151-172 | ignored unless idle; a missing or zero-area button calls `onStart` once and stays idle; otherwise the phase becomes exploding, the field is `Raster`, the button is hidden and a frame is scheduled |
| `Title.TitleScreen.Tick` | 2-d-platformer-game/components/game/title-screen.tsx:118-149 | the field advances one tick; while some particle is visible, the next frame is scheduled and the phase becomes fading iff the mean speed is < 0.3; otherwise `onStart` is called once and nothing is scheduled; fading never reverts |
| `Title.TitleScreen.RunFrames` | 2-d-platformer-game/components/game/title-screen.tsx:139-148 | the frame chain of a started run always terminates, on tick 159, with `onStart` called exactly once more |
| `Navigator.PlatformerGame.constructor` | 2-d-platformer-game/components/game/platformer-game.tsx:13-14 | starts on the title screen with level index 0 |
| `Navigator.PlatformerGame.OnStart` | 2-d-platformer-game/components/game/platformer-game.tsx:27 | moves to the level-select screen and keeps the level index |
| `Navigator.PlatformerGame.OnSelect` | 2-d-platformer-game/components/game/platformer-game.tsx:40-43 | sets the level index to the chosen one and shows the game |
| `Navigator.PlatformerGame.OnBackFromLevels` | 2-d-platformer-game/components/game/platformer-game.tsx:44 | back to the title screen and keeps the level index |
| `Navigator.PlatformerGame.OnBackFromGame` | 2-d-platformer-game/components/game/platformer-game.tsx:60 | back to the level-select screen and keeps the level index |
| `Navigator.PlatformerGame.CurrentLevel` | 2-d-platformer-game/components/game/platformer-game.tsx:57-59 | on the game screen the level table is indexed in bounds |

## Left out

- Rendering is not modelled: the JSX, the framer-motion animations, the per-particle render filter and glow, and the fading overlay. They are visual only.
- `level-select.tsx`, `scanline-overlay.tsx`, `controls-help.tsx` and `app/page.tsx` are not modelled. They are display components. `OnSelect` requires the index to be in bounds because its only caller passes an index from the level table's `map`.
- DOM measurement (`getBoundingClientRect`) is not modelled. The button rectangle is an input.
- `Math.random` and `Math.sqrt` are not modelled. They are parameters: the draws are in [0, 1) and the distance is positive. Properties that need the distance to be the true Euclidean norm are not stated.
- `requestAnimationFrame`, the double-frame delay before the first tick and the `setTimeout` that reveals the content are not modelled. A frame is an explicit `Tick` call guarded by `scheduled`.
- IEEE floating-point rounding is not modelled. All arithmetic is exact `real`, so the tick-159 result holds for the exact decrements.
- The stale `phase` captured by the frame callback is not modelled as such. The fading switch is an idempotent assignment, which is what the stale guard amounts to.
- The unused `vy2` field written at title-screen.tsx:125 is not modelled.
- `onStart` is modelled as the counter `completions`. In the application it is `Navigator.PlatformerGame.OnStart`.
- The colour constants and the level table live in `constants`, which is not part of this model. The colours are an enumeration, and the level table is known only by its length `levelCount`.
- `game-session` is not part of this model.
