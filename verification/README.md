# Starfield scene model

This is a Dafny model of the starfield animation in `src/scripts/starfield.ts`.
A full-window canvas shows three kinds of stars:

- 200 twinkling **background stars**, scattered at random;
- **text stars**, one for every 6-pixel grid cell that the rasterised caption
  covers. Each is born after a delay that grows along a randomised reveal
  order, only loosely left to right, then pops in on an elastic curve and
  twinkles;
- a pool of five **shooting stars**, launched one at a time every 8 to 12
  seconds.

Background and text stars are pushed away by the pointer when it comes within
8 pixels of them. A weak spring then pulls them back to their base position,
and friction damps the motion. The per-frame step runs only while the page is
scrolled far enough that the canvas is visible. It latches the scene start
time on the first such frame. A resize or a click rebuilds the scene and
clears the start time, so the caption is revealed again.

The model is organised by module:

- `GlyphSampler` (sampler.dfy) scans an RGBA byte buffer on the 6-pixel grid.
  `ScanGrid` and `ScanRow` are the imperative nested scan, and `TextPoints` is
  its reference definition. `GetStarTextPoints` adds the missing-context case
  and the exception getImageData throws on a surface with no area.
- `Twinkle` (twinkle.dfy) holds the four affine twinkle remaps.
- `Repulsion` (repulsion.dfy) holds the push / spring / friction step as a
  function on values. It also holds the kick as the script writes it, for the
  finding below.
- `BackgroundStars`, `TextStars` and `ShootingStars` hold one class each. The
  fields are the script's fields, and `update` / `activate` are methods proved
  against the functions above.
  - `TextStars` also holds the birth latch and the pop-in schedule.
  - `ShootingStars` also holds the streak lifecycle as a function `Advance`.
- `StarScene` (scene.dfy) holds the scene object, `initStarScene`, the
  reveal-delay schedule, pool activation, the start-time latch over runs of
  frames, and `animateStars`.

The model takes these values as inputs:

- **Random draws.** Every `Math.random()` value is an input in [0, 1).
- **Trigonometry and powers.** Every `Math.sin`, `Math.cos` and `Math.pow`
  value is an input with its range stated: a sine or cosine in [-1, 1]
  (the twinkle sines and each shooting star's heading alike), and
  2^(-10 * progress) in (0, 1].
- **Square roots.** Every `Math.sqrt` value is an input `distance` with
  `distance >= 0` and `distance * distance == dx * dx + dy * dy`.
- **Visibility.** The visibility test of `animateStars` is an input: `visible`
  is `!(scroller && scroller.scrollTop < 4.8 * innerHeight)`.
- **Pointer and timestamp.** The pointer position and the frame timestamp are
  inputs.
- **Reveal order.** The script sorts the sampled points with a comparator that
  draws random numbers, so its result is not well defined. The model replaces
  that sort with an input `order`: any permutation of the sampled points. Star
  i of the reveal goes to point `order[i]`.

Numbers are `real`, and `Math.PI` is the decimal constant `Inputs.Pi`.

## Model

| member | source | states |
|---|---|---|
| GlyphSampler.GetStarTextPoints | src/scripts/starfield.ts:235-259 | Fails (`None`, the getImageData exception) iff a 2D context exists and the width or height is 0. Otherwise returns exactly `TextPoints`: nothing without a 2D context, else the cells (x, y) in row-major order. A point is emitted iff x and y are multiples of 6 inside the surface and the alpha byte at (y*width+x)*4+3 exceeds 128. |
| GlyphSampler.ScanGrid | src/scripts/starfield.ts:250-257 | The outer loop returns exactly `GridPoints` from row 0, which `TextPointsExactly` and `TextPointsRowMajor` show are the sampled cells, each once, in row-major order. |
| GlyphSampler.ScanRow | src/scripts/starfield.ts:251-256 | The inner loop on row y returns exactly `RowPoints` of that row from column 0. |
| GlyphSampler.TextPoints | src/scripts/starfield.ts:235-259 | A point is returned iff a 2D context exists and the point is a sampled cell. The points are in strict row-major order. |
| GlyphSampler.GridPoints | src/scripts/starfield.ts:250-256 | Rows from y on emit only opaque cells inside the surface, on rows >= y. |
| GlyphSampler.RowPoints | src/scripts/starfield.ts:251-255 | Row y from column x on emits only opaque cells of row y, at columns in [x, width). |
| GlyphSampler.TextPointsExactly | src/scripts/starfield.ts:250-256 | A point is in the grid scan iff it is a grid cell inside the surface whose alpha byte exceeds 128. |
| GlyphSampler.GridPointsExactly | src/scripts/starfield.ts:250-256 | Rows from y0 on emit exactly the sampled cells with y >= y0. |
| GlyphSampler.RowPointsExactly | src/scripts/starfield.ts:251-255 | Row y from column x0 on emits exactly the opaque cells of that row at columns >= x0 on the grid. |
| GlyphSampler.TextPointsRowMajor | src/scripts/starfield.ts:250-251 | The scan emits points in strictly increasing row-major order (y outer, x inner). |
| GlyphSampler.GridPointsRowMajor | src/scripts/starfield.ts:250-251 | Rows from y0 on come out in row-major order, all with y >= y0. |
| GlyphSampler.RowPointsRowMajor | src/scripts/starfield.ts:251 | One row comes out left to right, all in that row at columns >= x0. |
| GlyphSampler.RowMajorDistinct | src/scripts/starfield.ts:250-256 | Strict row-major order means no cell is emitted twice. |
| GlyphSampler.AlphaIndexInBounds | src/scripts/starfield.ts:252 | For every cell inside the surface, the alpha index lies inside a width*height*4 buffer. |
| Inputs.Spread | src/scripts/starfield.ts:40-41 | `Math.random() * extent` lies in [0, extent], and below extent when extent > 0. |
| Twinkle.Unit | src/scripts/starfield.ts:53 | `twinkle * 0.5 + 0.5` maps [-1, 1] onto [0, 1], inverted by 2u - 1. |
| Twinkle.Modulate | src/scripts/starfield.ts:53-54 | `value * (floor + (1 - floor) * unit)` lies in [floor * value, value], reaching value at sine 1 and floor * value at sine -1. |
| Twinkle.AmbientSize | src/scripts/starfield.ts:53 | Background size is in [0.5 * baseSize, baseSize]. |
| Twinkle.AmbientBrightness | src/scripts/starfield.ts:54 | Background brightness is in [0.4 * brightness, brightness]. |
| Twinkle.GlyphBrightness | src/scripts/starfield.ts:137 | Text-star brightness is in [0.7 * brightness, brightness]. |
| Twinkle.GlyphDisplaySize | src/scripts/starfield.ts:138 | Text-star display size is in [0.8 * size, size]. |
| Twinkle.ModulateMonotone | src/scripts/starfield.ts:53-54 | A larger sine value never gives a smaller remapped value. |
| Repulsion.Kick | src/scripts/starfield.ts:62-70 | No push outside the radius, and none at distance 0 (corrected, see Findings). |
| Repulsion.Step | src/scripts/starfield.ts:57-87 | The new position is the old position plus the new velocity. With the pointer out of range (or exactly on the star), the new velocity is the spring pull plus the old velocity, damped by friction. |
| Repulsion.FarStepIsSpring | src/scripts/starfield.ts:57-87 | With the pointer out of range, the step does not depend on where the pointer is. It is the damped linear map v' = f*v - k*f*offset, offset' = (1 - k*f)*offset + f*v on the offset from the base (k the spring constant, f the friction). |
| Repulsion.KickPushesAway | src/scripts/starfield.ts:62-70 | Inside the radius the added velocity points straight away from the pointer (positive dot product, parallel to (dx, dy)). Its length is push * (radius - distance) / radius. |
| Repulsion.RestIsFixedPoint | src/scripts/starfield.ts:57-87 | A star at rest on its base, with the pointer out of range, stays put. |
| Repulsion.SpringPullsHome | src/scripts/starfield.ts:72-87 | A displaced star released at rest, pointer out of range, moves strictly closer to its base on each axis without overshooting. |
| Repulsion.AmbientWellFormed | src/scripts/starfield.ts:60-82 | Background constants (radius 8, push 4, spring 0.002, friction 0.92) are a damped configuration. |
| Repulsion.GlyphWellFormed | src/scripts/starfield.ts:144-166 | Text-star constants (radius 8, push 5, spring 0.003, friction 0.90) are a damped configuration. |
| Repulsion.KickAsWritten | src/scripts/starfield.ts:62-70 | The unguarded kick: at distance 0 both components are NaN. |
| Repulsion.KickAgreesAwayFromPointer | src/scripts/starfield.ts:62-70 | At every distance > 0 the corrected kick equals the kick as written. |
| Repulsion.PointerOnStarAsWritten | src/scripts/starfield.ts:146-153 | A text star resting at (36, 120) with the pointer at (36, 120) gets a NaN kick as written. |
| Repulsion.PointerOnStarCorrected | src/scripts/starfield.ts:146-153 | With the guard, a star at rest under the pointer stays at rest on its base. |
| BackgroundStars.BackgroundStar.constructor | src/scripts/starfield.ts:38-49 | `init` puts the base in the surface and the star at rest on it. It sets size = baseSize in [0.5, 2.5), brightness in [0.4, 1.0) and currentBrightness 0. |
| BackgroundStars.BackgroundStar.Update | src/scripts/starfield.ts:50-88 | Size and brightness are the twinkle remaps, within their bands. The motion is one `Step` with the background constants from the old motion. |
| BackgroundStars.BackgroundStar.Drift | src/scripts/starfield.ts:56-87 | The physics half changes only x, y, vx and vy, to `Step(Ambient, ...)` of the old motion. |
| TextStars.Latch | src/scripts/starfield.ts:121-124 | After one update the star is born iff it was born or elapsed >= delay. A birth time, once set, is kept. A new birth time is that update's elapsed time. |
| TextStars.LatchAll | src/scripts/starfield.ts:121-124 | After a run of updates, a birth time is either the one set on entry or, for a star unborn on entry, at least the delay. |
| TextStars.BornNeverReverts | src/scripts/starfield.ts:121-124 | Once born, later updates keep the star born with the same birth time. |
| TextStars.BirthIsFirstReach | src/scripts/starfield.ts:121-125 | From unborn, a run of updates leaves the star born iff some elapsed time reached the delay. Its birth time is the first such elapsed time. |
| TextStars.PopIn | src/scripts/starfield.ts:126-135 | Size and brightness stay within [0, target] during the pop-in. From age >= popDuration on they are exactly the targets. |
| TextStars.Scaled | src/scripts/starfield.ts:130-131 | A target times a factor clamped at 1 never exceeds the target, and is non-negative for a non-negative factor. |
| TextStars.SineScaled | src/scripts/starfield.ts:129 | 2^(-10p) * cos(...) lies in [-1, 1], so the elastic curve lies in [0, 2]. |
| TextStars.PopStartsAtZero | src/scripts/starfield.ts:127-131 | At age 0 the star has size 0 and brightness 0. |
| TextStars.BrightnessSettlesFirst | src/scripts/starfield.ts:131 | Brightness reaches its target once age >= 2/3 of popDuration. |
| TextStars.BrightnessRises | src/scripts/starfield.ts:131-134 | Brightness never decreases with age. |
| TextStars.TextStar.constructor | src/scripts/starfield.ts:110-119 | A new text star is unborn and invisible, at rest on its base, with targets drawn in their ranges. |
| TextStars.TextStar.Update | src/scripts/starfield.ts:120-172 | The latch, the pop-in at age elapsed - birthTime, the twinkle and one glyph `Step`, as `UpdatedFrom`. Born never reverts. An unborn star below its delay is unchanged and not painted. Sizes and brightnesses stay in their bands and equal the targets after the pop-in. |
| TextStars.TextStar.Paints | src/scripts/starfield.ts:174 | The `draw` guard: a star that paints has a birth time. |
| TextStars.TextStar.Drift | src/scripts/starfield.ts:140-171 | The physics half changes only x, y, vx and vy, to `Step(Glyph, ...)` of the old motion. |
| ShootingStars.Launch | src/scripts/starfield.ts:194-203 | Activation gives an active streak with opacity 1 that starts in the upper-left 80% x 40%. Its length is in [50, 150), speed in [10, 25), thickness in [1, 3) and heading pi/4 +- 0.15. |
| ShootingStars.Advance | src/scripts/starfield.ts:204-212 | One `update`: a dormant streak is unchanged, and a streak left active was active before and has positive opacity. |
| ShootingStars.Fly | src/scripts/starfield.ts:204-212 | After any number of updates, a streak that is active was active at the start: updates never launch a streak. |
| ShootingStars.DormantIsInert | src/scripts/starfield.ts:205 | Any number of updates leaves a dormant streak unchanged. |
| ShootingStars.FadesByFixedStep | src/scripts/starfield.ts:206-211 | While active, opacity drops by exactly 0.015 per update and stays positive. Length, speed, heading and thickness never change. |
| ShootingStars.BurnsOut | src/scripts/starfield.ts:200-211 | A launched streak is dormant after at most 67 updates. |
| ShootingStars.ShootingStar.constructor | src/scripts/starfield.ts:191-192 | A new pool member has every field 0 and is dormant. |
| ShootingStars.ShootingStar.Activate | src/scripts/starfield.ts:194-203 | The fields become `Launch` of the draws: active, opacity 1. |
| ShootingStars.ShootingStar.Update | src/scripts/starfield.ts:204-212 | The fields become `Advance` of the old ones. A dormant star is unchanged. Otherwise opacity drops by 0.015, and the star goes dormant iff opacity <= 0, x > width + 100 or y > height + 100. |
| StarScene.RevealDelay | src/scripts/starfield.ts:271 | The un-jittered delay 2000 + (i / n) * 4000 lies in [2000, 6000). |
| StarScene.RevealDelayNonDecreasing | src/scripts/starfield.ts:271 | Later reveal positions never get an earlier un-jittered delay. |
| StarScene.FractionBelowOne | src/scripts/starfield.ts:271 | i / n lies in [0, 1) for i < n. |
| StarScene.JitteredDelay | src/scripts/starfield.ts:272 | The jittered delay is within 250 ms of the un-jittered one (>= -250, < +250). |
| StarScene.RevealOrderCoversEveryPoint | src/scripts/starfield.ts:270-274 | Every sampled point is the spawn point of some text star. |
| StarScene.DistinctImageSize | src/scripts/starfield.ts:270 | A reveal order's first k positions hold k different points. |
| StarScene.LatchStart | src/scripts/starfield.ts:290-291 | The start a visible frame uses is the timestamp or the start already set, and a set non-zero start is kept. |
| StarScene.StartAfter | src/scripts/starfield.ts:285-290 | After a run of frames the start is unset iff it was unset and no frame was visible. |
| StarScene.HiddenFramesKeepStart | src/scripts/starfield.ts:285-290 | Hidden frames never change the start time, set or not. |
| StarScene.StartStaysLatched | src/scripts/starfield.ts:290 | A start time latched to a non-zero timestamp never moves. |
| StarScene.StartIsFirstLatchingFrame | src/scripts/starfield.ts:290 | From an unset (or zero) start, the start ends at the timestamp of the first visible frame with a non-zero timestamp. |
| StarScene.StartWithoutLatchingFrame | src/scripts/starfield.ts:290 | Without such a frame, the start becomes 0 if any frame was visible and stays as it was otherwise. |
| StarScene.FirstInactive | src/scripts/starfield.ts:295 | `find(s => !s.active)`: the least index of a dormant member, or none iff all are active. |
| StarScene.AdvanceAll | src/scripts/starfield.ts:301 | One streak per input streak. Dormant streaks are unchanged. Active ones lose 0.015 opacity, and stay active only with positive opacity. |
| StarScene.NewBackgroundStars | src/scripts/starfield.ts:266-267 | One fresh, distinct background star per draw, each in its `init` state. |
| StarScene.NewTextStars | src/scripts/starfield.ts:268-274 | One fresh, distinct text star per sampled point. Star i sits on point order[i] with delay `JitteredDelay(i, n, jitter[i])`. |
| StarScene.NewPool | src/scripts/starfield.ts:276-277 | Five fresh, distinct, dormant shooting stars. |
| StarScene.Elapsed | src/scripts/starfield.ts:291 | The elapsed time of a visible frame, from the latched start. |
| StarScene.Scene.InitStarScene | src/scripts/starfield.ts:265-278 | Completes iff the sampler does not throw. Then: exactly 200 background stars in their `init` state, one text star per sampled point in reveal order with its jittered delay, and 5 dormant shooting stars, all fresh. On the throw, the background stars are already rebuilt, the text stars are cleared and the pool is untouched. |
| StarScene.Scene.SpawnGlyphsAndPool | src/scripts/starfield.ts:268-277 | Once the sampler has returned: one fresh, valid text star per sampled point in reveal order with its jittered delay, then a pool of five fresh dormant shooting stars. |
| StarScene.Scene.constructor | src/scripts/starfield.ts:280-283 | `initStarfield` up to line 283: whenever the sampler does not throw, the scene is built on the window-sized surface, with no start time and last launch at 0. The first frame, at line 318, is a separate `AnimateStars` call. |
| StarScene.Scene.Resize | src/scripts/starfield.ts:307-311 | The surface takes the new size, the scene is rebuilt for it and the start time is cleared. The last launch time is kept. If the rebuild throws (context present, new width or height 0), the scene is left half-rebuilt and the start time is kept. |
| StarScene.Scene.Restart | src/scripts/starfield.ts:313-316 | A click rebuilds the scene on the same surface and clears the start time. The last launch time is kept. If the rebuild throws, the scene is left half-rebuilt and the start time is kept. |
| StarScene.Scene.LaunchStreak | src/scripts/starfield.ts:294-300 | If more than 8000 + gap * 4000 ms have passed and a dormant member exists, only the first dormant member is activated, and the launch time becomes the timestamp. Otherwise nothing changes. |
| StarScene.Scene.UpdateShootingStars | src/scripts/starfield.ts:301 | Every shooting star advances once along its own heading. Nothing else changes. |
| StarScene.Scene.UpdateBackgroundStars | src/scripts/starfield.ts:302 | Every background star took one `Update` step from its previous motion. |
| StarScene.Scene.UpdateTextStars | src/scripts/starfield.ts:303 | Every text star took one `update` at the frame's elapsed time. |
| StarScene.Scene.StepStreaks | src/scripts/starfield.ts:294-301 | The pool after a frame is `AdvanceAll` of the pool after the launch rule. The launch time follows the launch rule. |
| StarScene.Scene.StepGlyphs | src/scripts/starfield.ts:302-303 | Background, then text stars, step from their state on entry. The pool and launch time are untouched. |
| StarScene.Scene.LatchStartTime | src/scripts/starfield.ts:290-291 | `!starStartTime` latch: an unset or zero start becomes the timestamp. Elapsed is timestamp minus the latched start, and no star changes. |
| StarScene.Scene.StepStars | src/scripts/starfield.ts:294-303 | Shooting stars, then background and text stars, each as their step says, from the state on entry. |
| StarScene.Scene.VisibleFrame | src/scripts/starfield.ts:290-303 | A visible frame latches the start, launches at most one streak and steps every star with elapsed = timestamp - start. |
| StarScene.Scene.AnimateStars | src/scripts/starfield.ts:285-305 | A hidden frame changes nothing: start time, launch time and every star stay as they were. A visible frame is `VisibleFrame`. |

## Left out

- Drawing is not modelled: every `draw` method, `fillRect`, arcs and gradients. They only paint. The text-star `draw` guard is kept as `TextStar.Paints`.
- The caption rasteriser is not modelled: font size, `fillText` and `getImageData`. Its output, the RGBA buffer, is an input to `GetStarTextPoints`. Only the IndexSizeError that `getImageData` throws on a zero width or height is kept.
- StarScene.Scene.constructor: requires that the sampler does not throw. Start-up throws inside `getImageData` only when an off-screen 2D context exists and the window has zero width or height. Then no scene comes to exist, and that aborted start-up is not modelled. Without such a context, a zero-sized window builds and runs a scene as usual.
- StarScene.Scene.constructor: stops at line 283. Start-up then calls `animateStars(0)` directly at line 318. Here that first frame is the caller's `AnimateStars(visible, 0.0, ...)` on the new scene. When the scene is visible at load, that frame latches a start time of 0 and steps every star once.
- DOM lookup is not modelled: `getElementById`, the early returns when the canvas or its context is missing, and setting the canvas size from the window. The surface size is a parameter, and the scene is built only when canvas and context exist.
- The `mousemove` listener and its initial pointer (-1000, -1000) are not modelled. The pointer position is a per-frame parameter.
- `requestAnimationFrame` scheduling and the scroll-position read are not modelled. `animateStars` is one frame; visibility is a parameter.
- The random-comparator sort of the sampled points is not modelled. Its order is not well defined, so a caller-supplied permutation `order` stands in for it.
- `Math.random`, `Math.sin`, `Math.cos`, `Math.pow` and `Math.sqrt` are inputs with their ranges, not computed. No claim is made about their accuracy.
- IEEE floating point is not modelled. Arithmetic is exact `real`, and `Math.PI` is a 16-digit decimal. NaN appears only in the as-written kick of the finding below.
- The order of `Math.random` calls between the constructors, the sort and the jitter is not modelled. Each draw is a separate input, so it does not matter.

## Findings

| source | as written | input that shows it | evidently intended | confidence | as-written member | corrected member |
|---|---|---|---|---|---|---|
| src/scripts/starfield.ts:62-69 | The push divides dx and dy by `distance`, guarded only by `distance < radius`. At distance 0 this is 0 / 0 = NaN, and a NaN velocity makes the star's position NaN from then on. The same code is at lines 146-153. | A born text star resting on its base at grid cell (36, 120), with the pointer at (36, 120). | No push when the pointer is exactly on the star: the direction is undefined there. | high, not executed | Repulsion.PointerOnStarAsWritten | Repulsion.PointerOnStarCorrected |
