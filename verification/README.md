# TwirlTastic particle simulation in Dafny

A model of the simulation core of TwirlTastic, a page that animates 150
particles on a canvas. A "twirl" button pulls them towards the centre while it
is held, and after three seconds of holding it turns on a "black hole". The
black hole puts every particle near the centre at the centre with a random
velocity. It does this again on every frame, so such a particle stays at the
centre until the button is released. Releasing the button gives every particle
a new random velocity. An RGB button recolours the particles, and the pointer
nudges particles near it.

The model covers what happens to the particles and the mode flags. Nothing is
drawn. Numbers are mathematical reals. Random draws and the trigonometric
heading are values the caller supplies.

- `particles.dfy` (`Particles`): the particle, its colour, the canvas, and the
  random draw stream. A draw is a real in [0, 1) standing for one
  `Math.random()` call.
- `boundary.dfy` (`Boundary`): the reflect-and-clamp boundary, with the four
  checks in source order.
- `modes.dfy` (`Modes`): the three flags `isMouseDown`, `isTwirlActive` and
  `blackHoleActive`, driven by press, timer and release events. It states the
  reachable-state invariant and characterises the reachable states exactly.
- `motion.dfy` (`Motion`): one particle's frame step. The step is absorption,
  or spin followed by integration, or plain integration, and then the
  boundary.
- `population.dfy` (`Population`): `createParticles`, the frame loop, the RGB
  recolour, the twirl release and the cursor impulse. Each is a map over the
  particle sequence.
- `simulation.dfy` (`Simulation`): the page as one state changed by events,
  and the invariant that every reachable state satisfies.

Facts about `script.js` that the model keeps as written:
- The spin impulse is `(cos a, sin a) * 0.05` with `a = atan2(dy, dx)`, where
  `(dx, dy)` is the offset from the particle to the centre. So the impulse
  points straight at the centre. `Motion.SpinImpulseTowardCenter` proves
  this. The swirl comes from the particle's existing velocity, not from the
  impulse.
- Re-drawn velocities lie in half-open ranges: [-2, 2) on absorption and
  [-3, 3) on release. `Math.random()` never returns 1.
- The frame applies no force other than the twirl. Outside the frame,
  velocities change in two places only: the cursor push on `mousemove`, and
  the redraw of every velocity on `mouseup`.
- An absorbed particle is placed at the centre and is not moved further in
  that frame. On the next frame it is at distance 0, so it is absorbed again.
  It stays at the centre until the release.

## Model

| member | source | states |
|---|---|---|
| Boundary.Reflect | script.js:72-87 | After the boundary the particle lies in [0, width] x [0, height]. Each coordinate equals the reference clamp of the old one. A velocity component is negated exactly when its coordinate was out of range, so at most once per axis. Radius, angle and colour are kept. An in-bounds particle is returned unchanged. |
| Boundary.ReflectKeepsSpeed | script.js:72-87 | The boundary changes only the sign of each velocity component, never its magnitude. |
| Boundary.ReflectIdempotent | script.js:72-87 | Applying the boundary twice is the same as applying it once. |
| Boundary.ReflectFlipsOnlyWhenClamped | script.js:72-87 | A coordinate moves if and only if it was out of range. A velocity component changes only on an axis whose coordinate moved, and there it is exactly negated. |
| Motion.Advance | script.js:44-69 | With the twirl off, the position advances by the velocity and the velocity is kept. With the twirl and black hole on and squared distance below 50², the particle goes to the centre with new velocity in [-2, 2)², and `Motion.AbsorbCoversRange` shows every such velocity occurs. Otherwise the velocity gains 0.05 times the heading, and then the position advances by the updated velocity. |
| Motion.StepParticle | script.js:40-88 | A frame step always ends inside the canvas. It keeps radius, angle and colour. It clamps the pre-boundary position and at most negates each pre-boundary velocity component. It is exactly the pre-boundary result when that already lies inside the canvas. |
| Motion.PlainStep | script.js:65-87 | With the twirl off, the new position is the clamp of (x + vx, y + vy). Each velocity component is negated exactly when that sum was out of range. |
| Motion.DriftExample | script.js:65-87 | On an 800 x 600 canvas with the twirl off, a particle at (10, 10) moving at (5, 5) reaches (15, 15) with the same velocity. |
| Motion.AbsorbedStep | script.js:44-87 | An absorbed particle ends the frame exactly as absorption left it: at (width/2, height/2), with each velocity component in [-2, 2). The boundary changes neither its position nor its drawn velocity. |
| Motion.AbsorbCoversRange | script.js:50-55 | Conversely, every velocity in [-2, 2)² is one an absorbed particle can leave the frame with, so the new velocity is really drawn over the whole range. |
| Motion.AbsorbedStaysAtCentre | script.js:44-55 | With the twirl and black hole on, a particle at the centre ends the frame at the centre and is still inside the black-hole radius. So it is absorbed again on the next frame. |
| Motion.TrappedAtCentre | script.js:40-88 | With the twirl and black hole on, a particle at the centre is still at the centre after any number of frames, whatever the draws. |
| Motion.SpinImpulseTowardCenter | script.js:46-61 | When the heading is the true (cos, sin) of atan2, the spin impulse has length 0.05. It is parallel to the offset to the centre and points towards the centre. |
| Motion.SpinImpulseBounded | script.js:56-61 | With a true unit heading, the spin changes each velocity component by at most 0.05. |
| Population.Spawn | script.js:19-27 | A created particle has x in [0, width) and y in [0, height), or 0 on a zero-size axis. It has vx, vy in [-2, 2), angle in [0, 2π), radius in [3, 8) and colour #ffffff. |
| Population.SpawnCoversRanges | script.js:19-27 | Conversely, every particle within those ranges is produced by some choice of draws, so the ranges are exact. |
| Population.CreateParticles | script.js:18-27 | `createParticles` yields exactly 150 particles. Each is within the creation ranges, and all lie on the canvas. `Population.CreateCovers` shows that every such population occurs, so no two particles are tied together. |
| Population.CreateCovers | script.js:18-27 | Conversely, every population of 150 particles, each within the creation ranges, is produced by some draws. Each particle takes its own six draws, so the particles are independent of one another. |
| Population.UpdateParticles | script.js:40-94 | One frame keeps the population's size and order. Particle i becomes exactly its own step, so no particle influences another. Every particle ends on the canvas, with its radius, angle and colour kept. |
| Population.Recolour | script.js:129-133 | Every particle gets an hsl colour with hue in [0, 360), saturation 100 and lightness 50. Nothing else about any particle changes, and the count stays the same. |
| Population.RecolourCovers | script.js:129-133 | Conversely, every recolouring that keeps everything but the colour and gives each particle some hsl(h, 100%, 50%) with h in [0, 360) is produced by some draws. Each hue is really drawn over the whole range. |
| Population.ReleaseTwirl | script.js:159-162 | Every particle gets vx, vy in [-3, 3). Nothing else about any particle changes, and the count stays the same. |
| Population.ReleaseCovers | script.js:159-162 | Conversely, every release that keeps everything but the velocity and gives each particle a velocity in [-3, 3)² is produced by some draws. The velocities are really drawn over the whole range. |
| Population.CursorImpulse | script.js:173-183 | A particle with squared distance to the pointer below 100² gains 0.01 times its offset to the pointer in velocity. Every other particle is unchanged. Positions, radii, colours and the count never change. |
| Population.PushBounded | script.js:173-183 | The cursor impulse changes each velocity component by strictly less than 1. Each component moves towards the pointer, never away from it. |
| Modes.OnMouseDown | script.js:138-140 | Pressing the twirl button sets isMouseDown and isTwirlActive and leaves blackHoleActive as it was. |
| Modes.OnTimerFired | script.js:143-147 | The timer turns the black hole on only when the button is still held. It touches nothing else. |
| Modes.OnMouseUp | script.js:150-153 | Releasing the button clears all three flags. |
| Modes.NextPreservesConsistent | script.js:138-156 | Each of the three events keeps the invariant: twirl active ⇔ mouse down, and black hole ⇒ twirl active. |
| Modes.ReachableConsistent | script.js:138-156 | Every flag state reachable from page load satisfies the invariant. |
| Modes.ConsistentReachable | script.js:138-156 | Every flag state satisfying the invariant is reachable, so the invariant is exactly the set of reachable states. |
| Modes.MouseDownIffUnreleasedPress | script.js:138-153 | isMouseDown holds exactly when some press has not been followed by a release. |
| Modes.BlackHoleIffTimerDuringHold | script.js:138-156 | blackHoleActive holds exactly when, in the event trace, some timer fired after a press that had not yet been released, with no release since. A timer that fires after a release has no effect. |
| Simulation.Start | script.js:7-27 | The page-load state has all flags clear and a full, valid population. |
| Simulation.ApplyPreservesValid | script.js:40-183 | Every event keeps the state valid: consistent flags, 150 particles, all on the canvas, radii in [3, 8). No event changes the canvas. |
| Simulation.ReachableValid | script.js:7-187 | Every state reachable from page load, under any sequence of events, is valid. |
| Simulation.FlagsFollowModeEvents | script.js:128-183 | Only the twirl-button events and the timer change the flags. The flags after any event sequence are those the flag machine reaches on those events alone. |

## Left out

- Drawing: the fading overlay, the particle circles and the vortex with its gradient and rotating lines. None of it affects the particles.
- Scheduling: `requestAnimationFrame` and the timing of `setTimeout`/`clearTimeout`. The timer is an event that may fire at any moment, which also covers a timer that escaped cancellation.
- The resize handler. The canvas is fixed for the life of a model state, and re-creating the population is `createParticles` itself.
- Floating point. Arithmetic is over reals, and the `Math.sqrt` distance tests become squared-distance comparisons, which are equivalent over reals.
- `Math.random`. Each draw is an arbitrary real in [0, 1) supplied by the caller. `createParticles`, the release and the recolour use the draws in the order the code makes them. In a frame, absorbed particle i takes draws 2i and 2i + 1. The code draws in call order instead, but since the draws are arbitrary the set of possible outcomes is the same.
- `Math.atan2`, `Math.cos`, `Math.sin`. The heading is a function the caller supplies. Lemmas that depend on trigonometry assume `IsHeading`: a unit vector along the offset, or (1, 0) for a zero offset.
- `Math.PI` is the decimal 3.141592653589793. It only bounds the unused `angle` field.
- Colour strings. A colour is modelled by its components, `Hex(code)` or `Hsl(hue, saturation, lightness)`, not by the CSS string such as `hsl(${h}, 100%, 50%)` that the code builds.
- The body background colour set by the RGB button. It is page styling, not particle state.
