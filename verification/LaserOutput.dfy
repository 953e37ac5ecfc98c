/** A laser output that refuses frames while disarmed and drops its frame when disarmed. */
module LaserOutput {

  datatype OutputPoint = OutputPoint(x: real, y: real, r: real, g: real, b: real)

  type OutputFrame = seq<OutputPoint>

  /** The observable state of an output. */
  datatype Output = Output(armed: bool, lastFrame: OutputFrame, frameCount: nat, blankCount: nat)

  function AfterSetArmed(o: Output, armed: bool): Output {
    o.(armed := armed, lastFrame := if armed then o.lastFrame else [])
  }

  function AfterSend(o: Output, points: OutputFrame): Output {
    if o.armed then o.(lastFrame := points, frameCount := o.frameCount + 1) else o
  }

  function AfterBlank(o: Output): Output {
    o.(lastFrame := [], blankCount := o.blankCount + 1)
  }

  function NewOutput(): Output { Output(false, [], 0, 0) }

  /** A disarmed output holds no frame. */
  predicate Gated(o: Output) {
    !o.armed ==> o.lastFrame == []
  }

  /** Neither armed nor holding a frame. */
  predicate Dark(o: Output) { !o.armed && o.lastFrame == [] }

  class MockLaserOutput {
    var armed: bool
    var lastFrame: OutputFrame
    var frameCount: nat
    var blankCount: nat

    ghost function View(): Output
      reads this
    {
      Output(armed, lastFrame, frameCount, blankCount)
    }

    constructor ()
      ensures View() == NewOutput()
    {
      armed, lastFrame, frameCount, blankCount := false, [], 0, 0;
    }

    method SetArmed(on: bool)
      modifies this
      ensures View() == AfterSetArmed(old(View()), on)
      ensures armed == on && frameCount == old(frameCount) && blankCount == old(blankCount)
      ensures lastFrame == if on then old(lastFrame) else []
      ensures Gated(old(View())) ==> Gated(View())
    {
      armed := on;
      if !armed {
        lastFrame := [];
      }
    }

    method SendFrame(points: OutputFrame)
      modifies this
      ensures View() == AfterSend(old(View()), points)
      ensures !old(armed) ==> View() == old(View())
      ensures old(armed) ==> armed && lastFrame == points && frameCount == old(frameCount) + 1
      ensures blankCount == old(blankCount)
      ensures Gated(old(View())) ==> Gated(View())
    {
      if !armed {
        return;
      }
      lastFrame := points;
      frameCount := frameCount + 1;
    }

    method Blank()
      modifies this
      ensures View() == AfterBlank(old(View()))
      ensures armed == old(armed) && lastFrame == [] && frameCount == old(frameCount)
      ensures blankCount == old(blankCount) + 1
    {
      lastFrame := [];
      blankCount := blankCount + 1;
    }
  }
}
