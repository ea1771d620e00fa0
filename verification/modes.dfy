/**
 The twirl / black-hole mode: three flags driven by the twirl button. Pressing
 the button turns the twirl on and starts a three-second timer; when the timer
 fires while the button is still held, the black hole turns on; releasing the
 button turns everything off and cancels the timer.

 The timer is an event that may arrive at any moment. That covers every
 schedule the browser can produce, including a timer whose handle was
 overwritten by a second press and so escaped cancellation.
 */
module Modes {

  datatype Flags = Flags(isMouseDown: bool, isTwirlActive: bool, blackHoleActive: bool)

  /** The flags as the page loads. */
  const Initial: Flags := Flags(false, false, false)

  /** `mousedown` on the twirl button, the black-hole timer firing, `mouseup`
      on the twirl button. */
  datatype ModeEvent = Press | Timeout | Release

  function OnMouseDown(f: Flags): (g: Flags)
    ensures g.isMouseDown && g.isTwirlActive
    ensures g.blackHoleActive == f.blackHoleActive
  {
    f.(isMouseDown := true, isTwirlActive := true)
  }

  function OnTimerFired(f: Flags): (g: Flags)
    ensures g.blackHoleActive <==> f.blackHoleActive || f.isMouseDown
    ensures g.isMouseDown == f.isMouseDown && g.isTwirlActive == f.isTwirlActive
  {
    if f.isMouseDown then f.(blackHoleActive := true) else f
  }

  function OnMouseUp(f: Flags): (g: Flags)
    ensures !g.isMouseDown && !g.isTwirlActive && !g.blackHoleActive
  {
    Flags(false, false, false)
  }

  function Next(f: Flags, e: ModeEvent): Flags
  {
    match e
    case Press => OnMouseDown(f)
    case Timeout => OnTimerFired(f)
    case Release => OnMouseUp(f)
  }

  /** The flags after the events, oldest first, have been handled in order. */
  function RunEvents(f: Flags, es: seq<ModeEvent>): Flags
    decreases |es|
  {
    if |es| == 0 then f else Next(RunEvents(f, es[..|es| - 1]), es[|es| - 1])
  }

  /** Handling one more event extends the run by one step. */
  lemma RunEventsSnoc(f: Flags, ms: seq<ModeEvent>, m: ModeEvent)
    ensures RunEvents(f, ms + [m]) == Next(RunEvents(f, ms), m)
  {
    assert (ms + [m])[..|ms|] == ms;
  }

  /** The reachable-state invariant: the twirl is on exactly while the button is
      held, and the black hole is only ever on during a twirl. */
  predicate Consistent(f: Flags)
  {
    (f.isTwirlActive <==> f.isMouseDown) && (f.blackHoleActive ==> f.isTwirlActive)
  }

  lemma NextPreservesConsistent(f: Flags, e: ModeEvent)
    requires Consistent(f)
    ensures Consistent(Next(f, e))
  {
  }

  /** Every state reachable from page load satisfies the invariant. */
  lemma {:induction false} ReachableConsistent(es: seq<ModeEvent>)
    ensures Consistent(RunEvents(Initial, es))
    decreases |es|
  {
    if |es| > 0 {
      ReachableConsistent(es[..|es| - 1]);
      NextPreservesConsistent(RunEvents(Initial, es[..|es| - 1]), es[|es| - 1]);
    }
  }

  /** Conversely, every state satisfying the invariant is reachable, so the
      invariant describes the reachable states exactly. */
  lemma ConsistentReachable(f: Flags)
    requires Consistent(f)
    ensures exists es :: RunEvents(Initial, es) == f
  {
    if !f.isMouseDown {
      assert RunEvents(Initial, []) == f;
    } else if !f.blackHoleActive {
      assert RunEvents(Initial, [Press]) == f by {
        assert [Press][..0] == [];
      }
    } else {
      assert RunEvents(Initial, [Press, Timeout]) == f by {
        assert [Press, Timeout][..1] == [Press];
        assert [Press][..0] == [];
      }
    }
  }

  /** The button was pressed at position i and not released afterwards. */
  predicate HeldSince(es: seq<ModeEvent>, i: int)
  {
    0 <= i < |es| && es[i] == Press && forall j :: i < j < |es| ==> es[j] != Release
  }

  /** The button is held exactly when some press has not been followed by a release. */
  lemma {:induction false} MouseDownIffUnreleasedPress(es: seq<ModeEvent>)
    ensures RunEvents(Initial, es).isMouseDown <==> exists i :: HeldSince(es, i)
    decreases |es|
  {
    if |es| > 0 {
      var k := |es| - 1;
      var front := es[..k];
      MouseDownIffUnreleasedPress(front);
      if es[k] == Press {
        assert HeldSince(es, k);
      } else if es[k] == Release {
        forall i | 0 <= i < |es|
          ensures !HeldSince(es, i)
        {
          if i < k { assert es[k] == Release; }
        }
      } else {
        forall i | 0 <= i < k
          ensures HeldSince(es, i) <==> HeldSince(front, i)
        {
        }
        assert !HeldSince(es, k);
      }
    }
  }

  /** The timer fired at position i while the button was held (some earlier
      press had not been released), and the button has not been released since. */
  predicate ArmedSince(es: seq<ModeEvent>, i: int)
  {
    && 0 <= i < |es|
    && es[i] == Timeout
    && (exists h :: 0 <= h < i && HeldSince(es[..i], h))
    && forall j :: i < j < |es| ==> es[j] != Release
  }

  /** The black hole is on exactly when a timer fired during a hold that has
      not ended: a timer firing after the release has no effect. */
  lemma {:induction false} BlackHoleIffTimerDuringHold(es: seq<ModeEvent>)
    ensures RunEvents(Initial, es).blackHoleActive <==> exists i :: ArmedSince(es, i)
    decreases |es|
  {
    if |es| > 0 {
      var k := |es| - 1;
      var front := es[..k];
      BlackHoleIffTimerDuringHold(front);
      assert forall i :: 0 <= i < k ==> es[..i] == front[..i];
      if es[k] == Release {
        forall i | 0 <= i < |es|
          ensures !ArmedSince(es, i)
        {
          if i < k { assert es[k] == Release; }
        }
      } else if es[k] == Press {
        forall i | 0 <= i < k
          ensures ArmedSince(es, i) <==> ArmedSince(front, i)
        {
        }
        assert !ArmedSince(es, k);
      } else {
        forall i | 0 <= i < k
          ensures ArmedSince(es, i) <==> ArmedSince(front, i)
        {
        }
        MouseDownIffUnreleasedPress(front);
        if RunEvents(Initial, front).isMouseDown {
          assert ArmedSince(es, k);
        } else {
          assert !ArmedSince(es, k);
        }
      }
    }
  }
}
