/**
 The particle data model of the TwirlTastic canvas: a particle, its colour, the
 canvas it lives on, and the stream of random draws that the operations consume.

 Numbers are modelled as mathematical reals; the browser's doubles are not.
 */
module Particles {

  /** A 2-vector, used for directions and pointer positions. */
  datatype Vec = Vec(x: real, y: real)

  /** A particle colour: the CSS hex colour given at creation, or the
      `hsl(hue, saturation%, lightness%)` colour the RGB button assigns. */
  datatype Color = Hex(code: string) | Hsl(hue: real, saturation: nat, lightness: nat)

  /** The colour every particle starts with. */
  const White: Color := Hex("#ffffff")

  /** One particle. `angle` is drawn at creation and never read again. */
  datatype Particle = Particle(x: real, y: real, vx: real, vy: real, angle: real, radius: real, color: Color)

  /** The drawing surface. Its dimensions are the DOM canvas' unsigned integer sizes. */
  datatype Canvas = Canvas(width: nat, height: nat)
  {
    function Width(): real { width as real }
    function Height(): real { height as real }
    function CenterX(): real { width as real / 2.0 }
    function CenterY(): real { height as real / 2.0 }
  }

  /** One value returned by `Math.random()`: a real in [0, 1). */
  type Draw = u: real | 0.0 <= u < 1.0 witness 0.0

  /** A stream of random draws: the k-th call to `Math.random()` made by an operation. */
  type Random = nat -> Draw

  /** `Math.PI`, written as the shortest decimal that reads back as that double. */
  const Pi: real := 3.141592653589793

  /** The particle lies inside the closed rectangle [0, width] x [0, height]. */
  predicate InBounds(p: Particle, c: Canvas)
  {
    0.0 <= p.x <= c.Width() && 0.0 <= p.y <= c.Height()
  }

  /** Every particle of the population lies inside the canvas. */
  predicate AllInBounds(ps: seq<Particle>, c: Canvas)
  {
    forall i :: 0 <= i < |ps| ==> InBounds(ps[i], c)
  }

  /** Squared Euclidean distance from the particle to the point (px, py). The
      source compares `Math.sqrt` of this against a radius; over the reals that
      is the same as comparing this against the radius squared. */
  function Dist2(p: Particle, px: real, py: real): (d: real)
    ensures d >= 0.0
  {
    (px - p.x) * (px - p.x) + (py - p.y) * (py - p.y)
  }
}
