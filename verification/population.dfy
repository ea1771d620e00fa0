/**
 Operations on the whole particle population: creating it, advancing it one
 frame, recolouring it, releasing it from the twirl, and the cursor impulse.
 Each works on every particle independently and keeps the population's size
 and order.
 */
module Population {
  import opened Particles
  import opened Boundary
  import opened Modes
  import opened Motion

  /** The number of particles `createParticles` makes. */
  const ParticleCount: nat := 150

  /** Radius below which the pointer pushes a particle. */
  const CursorRadius: real := 100.0

  /** Fraction of the offset to the pointer added to the velocity. */
  const CursorPull: real := 0.01

  /** What a freshly created particle looks like: position on the canvas
      (strictly below the size when the size is positive), velocity in
      [-2, 2), angle in [0, 2 pi), radius in [3, 8), white. */
  predicate FreshlySpawned(p: Particle, c: Canvas)
  {
    && 0.0 <= p.x <= c.Width() && (c.Width() > 0.0 ==> p.x < c.Width())
    && 0.0 <= p.y <= c.Height() && (c.Height() > 0.0 ==> p.y < c.Height())
    && -2.0 <= p.vx < 2.0 && -2.0 <= p.vy < 2.0
    && 0.0 <= p.angle < 2.0 * Pi
    && 3.0 <= p.radius < 8.0
    && p.color == White
  }

  /** The particle built from the six draws starting at `k`, in the order the
      object literal evaluates its fields: x, y, vx, vy, angle, radius. */
  function Spawn(c: Canvas, rand: Random, k: nat): (p: Particle)
    ensures FreshlySpawned(p, c)
  {
    Particle(
      x := Scale(rand(k), c.Width()),
      y := Scale(rand(k + 1), c.Height()),
      vx := rand(k + 2) * 4.0 - 2.0,
      vy := rand(k + 3) * 4.0 - 2.0,
      angle := rand(k + 4) * Pi * 2.0,
      radius := rand(k + 5) * 5.0 + 3.0,
      color := White)
  }

  /** `Math.random() * size`: in [0, size], strictly below a positive size. */
  function Scale(u: Draw, w: real): (r: real)
    requires w >= 0.0
    ensures 0.0 <= r <= w && (w > 0.0 ==> r < w)
  {
    var rest := 1.0 - u;
    assert rest > 0.0;
    assert rest * w >= 0.0;
    assert w - u * w == rest * w;
    u * w
  }

  /** The ranges are exact: every particle they admit is what some draws produce. */
  lemma SpawnCoversRanges(p: Particle, c: Canvas)
    requires FreshlySpawned(p, c)
    ensures exists rand: Random :: Spawn(c, rand, 0) == p
  {
    var ds := SpawnDraws(p, c);
    var rand: Random := (k: nat) => if k < |ds| then ds[k] else 0.0;
    SpawnFrom(p, c, rand, 0);
  }

  /** The six draws, in creation order, from which `Spawn` rebuilds `p`. */
  function SpawnDraws(p: Particle, c: Canvas): (ds: seq<Draw>)
    requires FreshlySpawned(p, c)
    ensures |ds| == 6
    ensures Scale(ds[0], c.Width()) == p.x && Scale(ds[1], c.Height()) == p.y
    ensures ds[2] as real * 4.0 - 2.0 == p.vx && ds[3] as real * 4.0 - 2.0 == p.vy
    ensures ds[4] as real * Pi * 2.0 == p.angle && ds[5] as real * 5.0 + 3.0 == p.radius
  {
    var ua: Draw := p.angle / (2.0 * Pi);
    assert ua * Pi * 2.0 == p.angle;
    [Unscale(p.x, c.Width()), Unscale(p.y, c.Height()),
     (p.vx + 2.0) / 4.0, (p.vy + 2.0) / 4.0, ua, (p.radius - 3.0) / 5.0]
  }

  /** Draws k to k + 5 being `SpawnDraws(p, c)` make `Spawn` rebuild `p`. */
  lemma SpawnFrom(p: Particle, c: Canvas, rand: Random, k: nat)
    requires FreshlySpawned(p, c)
    requires var ds := SpawnDraws(p, c);
      && rand(k) == ds[0] && rand(k + 1) == ds[1] && rand(k + 2) == ds[2]
      && rand(k + 3) == ds[3] && rand(k + 4) == ds[4] && rand(k + 5) == ds[5]
    ensures Spawn(c, rand, k) == p
  {
  }

  /** The draw that scales to `v` on an axis of size `w`. */
  function Unscale(v: real, w: real): (u: Draw)
    requires 0.0 <= v <= w && (w > 0.0 ==> v < w)
    ensures Scale(u, w) == v
  {
    if w > 0.0 then
      assert v / w < 1.0 by { RatioBelowOne(v, w); }
      v / w
    else 0.0
  }

  lemma RatioBelowOne(v: real, w: real)
    requires 0.0 <= v < w
    ensures v / w < 1.0
  {
  }

  /** `createParticles`: a fresh population of exactly `ParticleCount`
      particles, particle i made from draws 6i to 6i + 5. */
  function CreateParticles(c: Canvas, rand: Random): (ps: seq<Particle>)
    ensures |ps| == ParticleCount
    ensures forall i :: 0 <= i < |ps| ==> FreshlySpawned(ps[i], c)
    ensures AllInBounds(ps, c)
  {
    seq(ParticleCount, i requires 0 <= i => Spawn(c, rand, 6 * i))
  }

  /** Conversely, every population of `ParticleCount` particles within the
      creation ranges is what some draws produce: each particle is drawn on its
      own, so no two are forced to coincide. */
  lemma CreateCovers(c: Canvas, ps: seq<Particle>)
    requires |ps| == ParticleCount
    requires forall i :: 0 <= i < |ps| ==> FreshlySpawned(ps[i], c)
    ensures exists rand: Random :: CreateParticles(c, rand) == ps
  {
    var dss := seq(|ps|, i requires 0 <= i < |ps| => SpawnDraws(ps[i], c));
    var rand: Random := (k: nat) => if k / 6 < |dss| then dss[k / 6][k % 6] else 0.0;
    var rs := CreateParticles(c, rand);
    forall i | 0 <= i < |ps|
      ensures rs[i] == ps[i]
    {
      var k := 6 * i;
      assert k / 6 == i && (k + 1) / 6 == i && (k + 2) / 6 == i;
      assert (k + 3) / 6 == i && (k + 4) / 6 == i && (k + 5) / 6 == i;
      SpawnFrom(ps[i], c, rand, k);
    }
    assert rs == ps;
  }

  /** One frame: every particle takes its step, in order; an absorbed particle
      i uses draws 2i and 2i + 1. No particle interacts with another, so each
      result depends only on its own particle. */
  function UpdateParticles(ps: seq<Particle>, c: Canvas, f: Flags, heading: Heading, rand: Random): (qs: seq<Particle>)
    ensures |qs| == |ps|
    ensures forall i :: 0 <= i < |ps| ==>
      qs[i] == StepParticle(ps[i], c, f, heading, rand(2 * i), rand(2 * i + 1))
    ensures AllInBounds(qs, c)
    ensures forall i :: 0 <= i < |ps| ==>
      qs[i].radius == ps[i].radius && qs[i].color == ps[i].color && qs[i].angle == ps[i].angle
    decreases |ps|
  {
    if |ps| == 0 then []
    else
      var k := |ps| - 1;
      UpdateParticles(ps[..k], c, f, heading, rand) + [StepParticle(ps[k], c, f, heading, rand(2 * k), rand(2 * k + 1))]
  }

  /** The RGB button: every particle gets the colour `hsl(h, 100%, 50%)` with
      h = `Math.random() * 360`, and nothing else about it changes. */
  function Recolour(ps: seq<Particle>, rand: Random): (qs: seq<Particle>)
    ensures |qs| == |ps|
    ensures forall i :: 0 <= i < |ps| ==>
      && qs[i].color.Hsl? && 0.0 <= qs[i].color.hue < 360.0
      && qs[i].color.saturation == 100 && qs[i].color.lightness == 50
      && qs[i].(color := ps[i].color) == ps[i]
  {
    seq(|ps|, i requires 0 <= i < |ps| => ps[i].(color := Hsl(rand(i) * 360.0, 100, 50)))
  }

  /** Conversely, every recolouring that keeps everything but the colour and
      gives each particle some `hsl(h, 100%, 50%)` with h in [0, 360) is what
      some draws produce: each hue really is drawn over the whole range. */
  lemma RecolourCovers(ps: seq<Particle>, qs: seq<Particle>)
    requires |qs| == |ps|
    requires forall i :: 0 <= i < |ps| ==>
      && qs[i].color.Hsl? && 0.0 <= qs[i].color.hue < 360.0
      && qs[i].color.saturation == 100 && qs[i].color.lightness == 50
      && qs[i].(color := ps[i].color) == ps[i]
    ensures exists rand: Random :: Recolour(ps, rand) == qs
  {
    var rand: Random := (k: nat) => if k < |qs| then qs[k].color.hue / 360.0 else 0.0;
    var rs := Recolour(ps, rand);
    forall i | 0 <= i < |ps|
      ensures rs[i] == qs[i]
    {
      assert rand(i) * 360.0 == qs[i].color.hue;
      assert qs[i] == ps[i].(color := qs[i].color);
    }
    assert rs == qs;
  }

  /** Releasing the twirl button: every particle gets a velocity drawn as
      `Math.random() * 6 - 3` on each axis, and nothing else about it changes. */
  function ReleaseTwirl(ps: seq<Particle>, rand: Random): (qs: seq<Particle>)
    ensures |qs| == |ps|
    ensures forall i :: 0 <= i < |ps| ==>
      && -3.0 <= qs[i].vx < 3.0 && -3.0 <= qs[i].vy < 3.0
      && qs[i].(vx := ps[i].vx, vy := ps[i].vy) == ps[i]
  {
    seq(|ps|, i requires 0 <= i < |ps| =>
      ps[i].(vx := rand(2 * i) * 6.0 - 3.0, vy := rand(2 * i + 1) * 6.0 - 3.0))
  }

  /** Conversely, every release that keeps everything but the velocity and
      gives each particle a velocity in [-3, 3) on each axis is what some draws
      produce: the new velocities really are drawn over the whole range. */
  lemma ReleaseCovers(ps: seq<Particle>, qs: seq<Particle>)
    requires |qs| == |ps|
    requires forall i :: 0 <= i < |ps| ==>
      && -3.0 <= qs[i].vx < 3.0 && -3.0 <= qs[i].vy < 3.0
      && qs[i].(vx := ps[i].vx, vy := ps[i].vy) == ps[i]
    ensures exists rand: Random :: ReleaseTwirl(ps, rand) == qs
  {
    var us: seq<Draw> := seq(|qs|, i requires 0 <= i < |qs| => Unrelease(qs[i].vx));
    var ws: seq<Draw> := seq(|qs|, i requires 0 <= i < |qs| => Unrelease(qs[i].vy));
    var rand := Interleave(us, ws);
    var rs := ReleaseTwirl(ps, rand);
    forall i | 0 <= i < |ps|
      ensures rs[i] == qs[i]
    {
      InterleaveAt(us, ws, i);
      ReleaseTwirlAt(ps, rand, i);
      ReleaseOne(ps[i], qs[i], us[i], ws[i]);
    }
    assert rs == qs;
  }

  /** Particle i of the release, unfolded. */
  lemma ReleaseTwirlAt(ps: seq<Particle>, rand: Random, i: nat)
    requires i < |ps|
    ensures ReleaseTwirl(ps, rand)[i] == ps[i].(vx := rand(2 * i) * 6.0 - 3.0, vy := rand(2 * i + 1) * 6.0 - 3.0)
  {
  }

  /** The draw stream us[0], ws[0], us[1], ws[1], ..., then zeros. */
  function Interleave(us: seq<Draw>, ws: seq<Draw>): Random
    requires |us| == |ws|
  {
    (k: nat) => if k / 2 >= |us| then 0.0 else if k % 2 == 0 then us[k / 2] else ws[k / 2]
  }

  /** Draws 2i and 2i + 1 of the interleaved stream are us[i] and ws[i]. */
  lemma InterleaveAt(us: seq<Draw>, ws: seq<Draw>, i: nat)
    requires |us| == |ws| && i < |us|
    ensures Interleave(us, ws)(2 * i) == us[i] && Interleave(us, ws)(2 * i + 1) == ws[i]
  {
  }

  /** One particle of the release witness: the drawn velocity is the target's. */
  lemma ReleaseOne(p: Particle, q: Particle, u: Draw, w: Draw)
    requires q.(vx := p.vx, vy := p.vy) == p
    requires u * 6.0 - 3.0 == q.vx && w * 6.0 - 3.0 == q.vy
    ensures p.(vx := u * 6.0 - 3.0, vy := w * 6.0 - 3.0) == q
  {
  }

  /** The draw that `Math.random() * 6 - 3` turns into `v`. */
  function Unrelease(v: real): (u: Draw)
    requires -3.0 <= v < 3.0
    ensures u * 6.0 - 3.0 == v
  {
    (v + 3.0) / 6.0
  }

  /** The pointer is close enough to push the particle. */
  predicate NearPointer(p: Particle, px: real, py: real)
  {
    Dist2(p, px, py) < CursorRadius * CursorRadius
  }

  /** Pointer movement: a particle within `CursorRadius` of the pointer gains
      `CursorPull` times its offset to the pointer; the others are untouched. */
  function CursorImpulse(ps: seq<Particle>, px: real, py: real): (qs: seq<Particle>)
    ensures |qs| == |ps|
    ensures forall i :: 0 <= i < |ps| ==> qs[i].(vx := ps[i].vx, vy := ps[i].vy) == ps[i]
    ensures forall i :: 0 <= i < |ps| && !NearPointer(ps[i], px, py) ==> qs[i] == ps[i]
    ensures forall i :: 0 <= i < |ps| && NearPointer(ps[i], px, py) ==>
      && qs[i].vx - ps[i].vx == CursorPull * (px - ps[i].x)
      && qs[i].vy - ps[i].vy == CursorPull * (py - ps[i].y)
  {
    seq(|ps|, i requires 0 <= i < |ps| => Push(ps[i], px, py))
  }

  /** The cursor impulse on one particle. */
  function Push(p: Particle, px: real, py: real): Particle
  {
    if NearPointer(p, px, py) then p.(vx := p.vx + (px - p.x) * CursorPull, vy := p.vy + (py - p.y) * CursorPull)
    else p
  }

  /** A number whose square is below r squared lies strictly between -r and r. */
  lemma SquareBelow(a: real, r: real)
    requires r > 0.0 && a * a < r * r
    ensures -r < a < r
  {
  }

  /** The cursor impulse pulls towards the pointer and changes each velocity
      component by less than 1. */
  lemma PushBounded(p: Particle, px: real, py: real)
    ensures var q := Push(p, px, py);
      && -1.0 < q.vx - p.vx < 1.0 && -1.0 < q.vy - p.vy < 1.0
      && (q.vx - p.vx) * (px - p.x) >= 0.0 && (q.vy - p.vy) * (py - p.y) >= 0.0
  {
    if NearPointer(p, px, py) {
      var dx, dy := px - p.x, py - p.y;
      assert dx * dx >= 0.0 && dy * dy >= 0.0;
      assert Dist2(p, px, py) == dx * dx + dy * dy;
      assert dx * dx < CursorRadius * CursorRadius && dy * dy < CursorRadius * CursorRadius;
      SquareBelow(dx, CursorRadius);
      SquareBelow(dy, CursorRadius);
    }
  }
}
