/**
 The whole page as one state: the canvas, the three mode flags and the particle
 population, changed only by the page's events. A frame is one run of the
 particle loop of `updateParticles`; the other events are the button, pointer
 and timer handlers.
 */
module Simulation {
  import opened Particles
  import opened Modes
  import opened Motion
  import opened Population

  datatype Event =
    | MouseDown                             // mousedown on the twirl button
    | TimerFired                            // the three-second black-hole timer
    | MouseUp(release: Random)              // mouseup on the twirl button
    | RgbClick(hues: Random)                // click on the RGB button
    | MouseMove(px: real, py: real)         // mousemove over the canvas
    | Frame(heading: Heading, rand: Random) // one animation frame

  datatype Sim = Sim(canvas: Canvas, flags: Flags, particles: seq<Particle>)

  /** What every reachable state satisfies: consistent flags, the full
      population, every particle on the canvas with a radius in [3, 8). */
  predicate Valid(s: Sim)
  {
    && Consistent(s.flags)
    && |s.particles| == ParticleCount
    && AllInBounds(s.particles, s.canvas)
    && forall i :: 0 <= i < |s.particles| ==> 3.0 <= s.particles[i].radius < 8.0
  }

  /** Page load: the flags start cleared and `createParticles` runs. */
  function Start(c: Canvas, rand: Random): (s: Sim)
    ensures Valid(s)
    ensures s.canvas == c && s.flags == Initial
  {
    Sim(c, Initial, CreateParticles(c, rand))
  }

  function Apply(s: Sim, e: Event): Sim
  {
    match e
    case MouseDown => s.(flags := OnMouseDown(s.flags))
    case TimerFired => s.(flags := OnTimerFired(s.flags))
    case MouseUp(release) => s.(flags := OnMouseUp(s.flags), particles := ReleaseTwirl(s.particles, release))
    case RgbClick(hues) => s.(particles := Recolour(s.particles, hues))
    case MouseMove(px, py) => s.(particles := CursorImpulse(s.particles, px, py))
    case Frame(heading, rand) => s.(particles := UpdateParticles(s.particles, s.canvas, s.flags, heading, rand))
  }

  /** The state after the events, oldest first, have been handled in order. */
  function Run(s: Sim, es: seq<Event>): Sim
    decreases |es|
  {
    if |es| == 0 then s else Apply(Run(s, es[..|es| - 1]), es[|es| - 1])
  }

  /** Every event keeps the state valid and leaves the canvas alone. */
  lemma ApplyPreservesValid(s: Sim, e: Event)
    requires Valid(s)
    ensures Valid(Apply(s, e)) && Apply(s, e).canvas == s.canvas
  {
  }

  /** Every state reachable from page load is valid: in particular every
      particle is always on the canvas and the black hole is only ever on
      while the twirl button is held. */
  lemma {:induction false} ReachableValid(c: Canvas, rand: Random, es: seq<Event>)
    ensures Valid(Run(Start(c, rand), es)) && Run(Start(c, rand), es).canvas == c
    decreases |es|
  {
    if |es| > 0 {
      ReachableValid(c, rand, es[..|es| - 1]);
      ApplyPreservesValid(Run(Start(c, rand), es[..|es| - 1]), es[|es| - 1]);
    }
  }

  /** The flag events among `es`, in order. */
  function ModeEvents(es: seq<Event>): seq<ModeEvent>
    decreases |es|
  {
    if |es| == 0 then []
    else
      var front := ModeEvents(es[..|es| - 1]);
      match es[|es| - 1]
      case MouseDown => front + [Press]
      case TimerFired => front + [Timeout]
      case MouseUp(_) => front + [Release]
      case _ => front
  }

  /** Only the three twirl events touch the flags: the flags after any run of
      events are those the flag machine reaches on the twirl events alone. */
  lemma {:induction false} FlagsFollowModeEvents(s: Sim, es: seq<Event>)
    ensures Run(s, es).flags == RunEvents(s.flags, ModeEvents(es))
    decreases |es|
  {
    if |es| > 0 {
      var front := es[..|es| - 1];
      FlagsFollowModeEvents(s, front);
      var ms := ModeEvents(front);
      var last := es[|es| - 1];
      if last.MouseDown? {
        RunEventsSnoc(s.flags, ms, Press);
      } else if last.TimerFired? {
        RunEventsSnoc(s.flags, ms, Timeout);
      } else if last.MouseUp? {
        RunEventsSnoc(s.flags, ms, Release);
      }
    }
  }
}
