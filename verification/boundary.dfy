/**
 The reflect-and-clamp boundary that ends every particle's frame step: on each
 axis, a coordinate below 0 is set to 0 and one above the canvas size is set to
 that size, and in either case the velocity on that axis changes sign.
 */
module Boundary {
  import opened Particles

  /** Reference clamp of a coordinate into [0, hi]. */
  function Clamp(v: real, hi: real): real
  {
    if v < 0.0 then 0.0 else if v > hi then hi else v
  }

  /** The coordinate lies outside [0, hi], so the boundary acts on that axis. */
  predicate OutOfRange(v: real, hi: real)
  {
    v < 0.0 || v > hi
  }

  /** The four checks exactly in the order the frame performs them: left, right,
      top, bottom. Each test sees the result of the ones before it. */
  function Reflect(p: Particle, c: Canvas): (q: Particle)
    ensures InBounds(q, c)
    ensures q.x == Clamp(p.x, c.Width()) && q.y == Clamp(p.y, c.Height())
    ensures q.vx == (if OutOfRange(p.x, c.Width()) then -p.vx else p.vx)
    ensures q.vy == (if OutOfRange(p.y, c.Height()) then -p.vy else p.vy)
    ensures q.angle == p.angle && q.radius == p.radius && q.color == p.color
    ensures InBounds(p, c) ==> q == p
  {
    var left := if p.x < 0.0 then p.(x := 0.0, vx := p.vx * -1.0) else p;
    var right := if left.x > c.Width() then left.(x := c.Width(), vx := left.vx * -1.0) else left;
    var top := if right.y < 0.0 then right.(y := 0.0, vy := right.vy * -1.0) else right;
    if top.y > c.Height() then top.(y := c.Height(), vy := top.vy * -1.0) else top
  }

  /** Reflection changes only the sign of a velocity component, never its size. */
  lemma ReflectKeepsSpeed(p: Particle, c: Canvas)
    ensures var q := Reflect(p, c); q.vx * q.vx == p.vx * p.vx && q.vy * q.vy == p.vy * p.vy
  {
  }

  /** Applying the boundary a second time changes nothing. */
  lemma ReflectIdempotent(p: Particle, c: Canvas)
    ensures Reflect(Reflect(p, c), c) == Reflect(p, c)
  {
  }

  /** A coordinate moves exactly when it was out of range, and a velocity
      component changes only on an axis whose coordinate moved, where it is
      negated. */
  lemma ReflectFlipsOnlyWhenClamped(p: Particle, c: Canvas)
    ensures var q := Reflect(p, c);
      && (q.x != p.x <==> OutOfRange(p.x, c.Width()))
      && (q.y != p.y <==> OutOfRange(p.y, c.Height()))
      && (q.vx != p.vx ==> q.x != p.x) && (q.x != p.x ==> q.vx == -p.vx)
      && (q.vy != p.vy ==> q.y != p.y) && (q.y != p.y ==> q.vy == -p.vy)
  {
  }
}
