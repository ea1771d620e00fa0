/**
 One particle's frame step: the twirl branch (absorption by the black hole, or a
 spin impulse followed by integration) or plain integration, and then the
 reflect-and-clamp boundary.
 */
module Motion {
  import opened Particles
  import opened Boundary
  import opened Modes

  /** Distance from the canvas centre below which the black hole absorbs a particle. */
  const BlackHoleRadius: real := 50.0

  /** Size of the per-frame spin impulse. */
  const SpinForce: real := 0.05

  /** The direction (cos a, sin a) with a = atan2(dy, dx), supplied by the caller:
      the model does not compute trigonometric functions. */
  type Heading = (real, real) -> Vec

  /** What the trigonometry promises of `d` for the offset (dx, dy): a unit
      vector pointing along the offset, and angle 0 for the zero offset. */
  predicate IsHeading(d: Vec, dx: real, dy: real)
  {
    && d.x * d.x + d.y * d.y == 1.0
    && (if dx == 0.0 && dy == 0.0 then d == Vec(1.0, 0.0)
        else d.x * dy == d.y * dx && d.x * dx + d.y * dy > 0.0)
  }

  /** Plain integration: the position advances by the velocity. */
  function Drift(p: Particle): Particle
  {
    p.(x := p.x + p.vx, y := p.y + p.vy)
  }

  /** The black hole takes the particle: it lies strictly inside the black-hole radius. */
  predicate Absorbed(p: Particle, c: Canvas, f: Flags)
  {
    f.blackHoleActive && Dist2(p, c.CenterX(), c.CenterY()) < BlackHoleRadius * BlackHoleRadius
  }

  /** Absorption: the particle moves to the centre with a fresh velocity drawn
      as `Math.random() * 4 - 2` on each axis. */
  function Absorb(p: Particle, c: Canvas, ux: Draw, uy: Draw): Particle
  {
    p.(x := c.CenterX(), y := c.CenterY(), vx := ux * 4.0 - 2.0, vy := uy * 4.0 - 2.0)
  }

  /** The spin impulse along `d`, then integration with the updated velocity. */
  function Spin(p: Particle, d: Vec): Particle
  {
    var vx := p.vx + d.x * SpinForce;
    var vy := p.vy + d.y * SpinForce;
    p.(vx := vx, vy := vy, x := p.x + vx, y := p.y + vy)
  }

  /** The part of the step before the boundary. `ux`, `uy` are the two draws
      an absorbed particle consumes. */
  function Advance(p: Particle, c: Canvas, f: Flags, heading: Heading, ux: Draw, uy: Draw): (q: Particle)
    ensures q.angle == p.angle && q.radius == p.radius && q.color == p.color
    ensures !f.isTwirlActive ==>
      q.x == p.x + p.vx && q.y == p.y + p.vy && q.vx == p.vx && q.vy == p.vy
    ensures f.isTwirlActive && Absorbed(p, c, f) ==>
      && q.x == c.CenterX() && q.y == c.CenterY()
      && -2.0 <= q.vx < 2.0 && -2.0 <= q.vy < 2.0
    ensures f.isTwirlActive && !Absorbed(p, c, f) ==>
      var d := heading(c.CenterX() - p.x, c.CenterY() - p.y);
      && q.vx == p.vx + SpinForce * d.x && q.vy == p.vy + SpinForce * d.y
      && q.x == p.x + q.vx && q.y == p.y + q.vy
  {
    if f.isTwirlActive then
      if Absorbed(p, c, f) then Absorb(p, c, ux, uy)
      else Spin(p, heading(c.CenterX() - p.x, c.CenterY() - p.y))
    else Drift(p)
  }

  /** The whole step of one particle in one frame. */
  function StepParticle(p: Particle, c: Canvas, f: Flags, heading: Heading, ux: Draw, uy: Draw): (q: Particle)
    ensures InBounds(q, c)
    ensures q.angle == p.angle && q.radius == p.radius && q.color == p.color
    ensures var a := Advance(p, c, f, heading, ux, uy);
      && q.x == Clamp(a.x, c.Width()) && q.y == Clamp(a.y, c.Height())
      && (q.vx == a.vx || q.vx == -a.vx) && (q.vy == a.vy || q.vy == -a.vy)
      && (InBounds(a, c) ==> q == a)
  {
    Reflect(Advance(p, c, f, heading, ux, uy), c)
  }

  /** With the twirl off, a particle moves by its velocity and only the boundary
      can change it further. */
  lemma PlainStep(p: Particle, c: Canvas, f: Flags, heading: Heading, ux: Draw, uy: Draw)
    requires !f.isTwirlActive
    ensures var q := StepParticle(p, c, f, heading, ux, uy);
      && q.x == Clamp(p.x + p.vx, c.Width()) && q.y == Clamp(p.y + p.vy, c.Height())
      && q.vx == (if OutOfRange(p.x + p.vx, c.Width()) then -p.vx else p.vx)
      && q.vy == (if OutOfRange(p.y + p.vy, c.Height()) then -p.vy else p.vy)
  {
  }

  /** A particle at (10, 10) moving at (5, 5) on an 800 x 600 canvas with the
      twirl off is at (15, 15) one frame later, with the same velocity. */
  lemma DriftExample(heading: Heading, ux: Draw, uy: Draw)
    ensures var p := Particle(10.0, 10.0, 5.0, 5.0, 0.0, 4.0, White);
      var q := StepParticle(p, Canvas(800, 600), Initial, heading, ux, uy);
      q == p.(x := 15.0, y := 15.0)
  {
  }

  /** An absorbed particle ends the frame exactly at the centre with a velocity
      in [-2, 2) on each axis: the centre is inside the canvas, so the boundary
      leaves the absorbed particle, drawn velocity included, exactly as it is. */
  lemma AbsorbedStep(p: Particle, c: Canvas, f: Flags, heading: Heading, ux: Draw, uy: Draw)
    requires f.isTwirlActive && Absorbed(p, c, f)
    ensures var q := StepParticle(p, c, f, heading, ux, uy);
      && q == Absorb(p, c, ux, uy)
      && q.x == c.CenterX() && q.y == c.CenterY()
      && -2.0 <= q.vx < 2.0 && -2.0 <= q.vy < 2.0
  {
  }

  /** Conversely, every velocity in [-2, 2) on each axis is one an absorbed
      particle can leave the frame with: the new velocity really is drawn over
      the whole range. */
  lemma AbsorbCoversRange(p: Particle, c: Canvas, f: Flags, heading: Heading, vx: real, vy: real)
    requires f.isTwirlActive && Absorbed(p, c, f)
    requires -2.0 <= vx < 2.0 && -2.0 <= vy < 2.0
    ensures exists ux: Draw, uy: Draw ::
      StepParticle(p, c, f, heading, ux, uy) == p.(x := c.CenterX(), y := c.CenterY(), vx := vx, vy := vy)
  {
    var ux: Draw := (vx + 2.0) / 4.0;
    var uy: Draw := (vy + 2.0) / 4.0;
    AbsorbedStep(p, c, f, heading, ux, uy);
    assert StepParticle(p, c, f, heading, ux, uy) == p.(x := c.CenterX(), y := c.CenterY(), vx := vx, vy := vy);
  }

  /** The black hole traps what it takes: a particle at the centre is absorbed
      again every frame, so it ends each frame back at the centre, still inside
      the black-hole radius. Only its velocity is redrawn. */
  lemma AbsorbedStaysAtCentre(p: Particle, c: Canvas, f: Flags, heading: Heading, ux: Draw, uy: Draw)
    requires f.isTwirlActive && f.blackHoleActive
    requires p.x == c.CenterX() && p.y == c.CenterY()
    ensures var q := StepParticle(p, c, f, heading, ux, uy);
      && q.x == c.CenterX() && q.y == c.CenterY()
      && Absorbed(q, c, f)
  {
  }

  /** `n` frames of one particle under fixed flags; frame j draws `rand(2j)`
      and `rand(2j + 1)` should the particle be absorbed. */
  function StepFrames(p: Particle, c: Canvas, f: Flags, heading: Heading, rand: Random, n: nat): Particle
    decreases n
  {
    if n == 0 then p
    else StepParticle(StepFrames(p, c, f, heading, rand, n - 1), c, f, heading, rand(2 * (n - 1)), rand(2 * (n - 1) + 1))
  }

  /** While the button stays held with the black hole on, a particle at the
      centre stays there for any number of frames: only the release frees it. */
  lemma {:induction false} TrappedAtCentre(p: Particle, c: Canvas, f: Flags, heading: Heading, rand: Random, n: nat)
    requires f.isTwirlActive && f.blackHoleActive
    requires p.x == c.CenterX() && p.y == c.CenterY()
    ensures var q := StepFrames(p, c, f, heading, rand, n);
      q.x == c.CenterX() && q.y == c.CenterY()
    decreases n
  {
    if n > 0 {
      TrappedAtCentre(p, c, f, heading, rand, n - 1);
      AbsorbedStaysAtCentre(StepFrames(p, c, f, heading, rand, n - 1), c, f, heading, rand(2 * (n - 1)), rand(2 * (n - 1) + 1));
    }
  }

  /** When the heading is what `atan2`, `cos` and `sin` give, the spin impulse has
      size `SpinForce` and points straight at the canvas centre. */
  lemma SpinImpulseTowardCenter(p: Particle, c: Canvas, f: Flags, heading: Heading, ux: Draw, uy: Draw)
    requires f.isTwirlActive && !Absorbed(p, c, f)
    requires IsHeading(heading(c.CenterX() - p.x, c.CenterY() - p.y), c.CenterX() - p.x, c.CenterY() - p.y)
    requires p.x != c.CenterX() || p.y != c.CenterY()
    ensures var q := Advance(p, c, f, heading, ux, uy);
      var dx, dy := c.CenterX() - p.x, c.CenterY() - p.y;
      var ix, iy := q.vx - p.vx, q.vy - p.vy;
      && ix * ix + iy * iy == SpinForce * SpinForce
      && ix * dy == iy * dx
      && ix * dx + iy * dy > 0.0
  {
  }

  /** With a unit heading, the spin changes each velocity component by at most
      `SpinForce`. */
  lemma SpinImpulseBounded(p: Particle, c: Canvas, f: Flags, heading: Heading, ux: Draw, uy: Draw)
    requires f.isTwirlActive && !Absorbed(p, c, f)
    requires IsHeading(heading(c.CenterX() - p.x, c.CenterY() - p.y), c.CenterX() - p.x, c.CenterY() - p.y)
    ensures var q := Advance(p, c, f, heading, ux, uy);
      && -SpinForce <= q.vx - p.vx <= SpinForce
      && -SpinForce <= q.vy - p.vy <= SpinForce
  {
  }
}
