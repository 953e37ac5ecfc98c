/** When the watchdog fires and when it does not, told from the outside: from the times of the
    heartbeats, armings and frames of a run. */
module SafetyWatch {
  import opened LaserOutput
  import opened SafetySupervisor
  import opened SafetyRuns

  /** When the interface last gave a sign of life, and when a frame was last produced. */
  datatype Seen = Seen(alive: int, framed: bool, frame: int)

  function NothingSeen(): Seen { Seen(0, false, 0) }

  /** What an onlooker notes of an event that takes effect: a heartbeat and a successful arming
      are signs of life. */
  function Note(s: System, g: Seen, e: Event): Seen {
    match e
    case HeartbeatStep(beat) => if beat && s.main.AtHeartbeat? && s.lock.Free? then g.(alive := s.now) else g
    case ArmCommand => if s.lock.Free? && s.sup.state != EStopLatched then g.(alive := s.now) else g
    case NotifyStep => if s.main.AtNotify? && s.lock.Free? then g.(framed := true, frame := s.now) else g
    case _ => g
  }

  function NoteRun(c: Config, s: System, g: Seen, es: seq<Event>): Seen
    decreases |es|
  {
    if |es| == 0 then g else NoteRun(c, Next(c, s, es[0]), Note(s, g, es[0]), es[1..])
  }

  /** The watchdog looks at an armed supervisor. */
  predicate Looks(s: System, e: Event) {
    e == TickStep && s.main.AtTick? && s.lock.Free? && s.sup.state == Armed
  }

  /** Somewhere in the run the watchdog looks after more than the timeout without a sign of life. */
  predicate BeatLateIn(c: Config, s: System, g: Seen, es: seq<Event>)
    decreases |es|
  {
    |es| > 0 &&
    ((Looks(s, es[0]) && s.now > g.alive + c.uiHeartbeatTimeout)
     || BeatLateIn(c, Next(c, s, es[0]), Note(s, g, es[0]), es[1..]))
  }

  /** Somewhere the watchdog looks, the interface alive, after more than the timeout without a
      new frame. */
  predicate FrameLateIn(c: Config, s: System, g: Seen, es: seq<Event>)
    decreases |es|
  {
    |es| > 0 &&
    ((Looks(s, es[0]) && s.now <= g.alive + c.uiHeartbeatTimeout && g.framed && s.now > g.frame + c.frameStallTimeout)
     || FrameLateIn(c, Next(c, s, es[0]), Note(s, g, es[0]), es[1..]))
  }

  /** The supervisor's clocks are what the onlooker noted. */
  predicate Agrees(s: System, g: Seen) {
    && (s.sup.haveUiHeartbeat ==> s.sup.lastUiHeartbeat == g.alive)
    && (s.sup.state == Armed ==> s.sup.haveUiHeartbeat)
    && s.sup.haveFrame == g.framed && (g.framed ==> s.sup.lastFrame == g.frame)
  }

  lemma NoteAgrees(c: Config, s: System, g: Seen, e: Event)
    requires Agrees(s, g)
    ensures Agrees(Next(c, s, e), Note(s, g, e))
  {}

  /** What one event reports of the watchdog, and what it does to an armed supervisor. */
  lemma StepReports(c: Config, s: System, g: Seen, e: Event)
    requires Agrees(s, g)
    ensures var late := s.now > g.alive + c.uiHeartbeatTimeout;
            var stalled := g.framed && s.now > g.frame + c.frameStallTimeout;
            var s' := Next(c, s, e);
            && (UiHeartbeatLost in s'.reported <==> UiHeartbeatLost in s.reported || (Looks(s, e) && late))
            && (FrameStall in s'.reported <==> FrameStall in s.reported || (Looks(s, e) && !late && stalled))
            && (s.sup.state == Armed && e != EStopCommand && !(Looks(s, e) && (late || stalled)) ==>
                  s'.sup.state == Armed)
  {}

  lemma {:induction false} WatchedFrom(c: Config, s: System, g: Seen, es: seq<Event>)
    requires Agrees(s, g)
    ensures Agrees(Run(c, s, es), NoteRun(c, s, g, es))
    ensures UiHeartbeatLost in Run(c, s, es).reported <==> UiHeartbeatLost in s.reported || BeatLateIn(c, s, g, es)
    ensures FrameStall in Run(c, s, es).reported <==> FrameStall in s.reported || FrameLateIn(c, s, g, es)
    ensures s.sup.state == Armed && EStopCommand !in es && !BeatLateIn(c, s, g, es) && !FrameLateIn(c, s, g, es) ==>
              Run(c, s, es).sup.state == Armed
    decreases |es|
  {
    hide Next, Note, Agrees;
    if |es| == 0 {
    } else {
      assert es[0] in es;
      StepReports(c, s, g, es[0]);
      NoteAgrees(c, s, g, es[0]);
      WatchedFrom(c, Next(c, s, es[0]), Note(s, g, es[0]), es[1..]);
    }
  }

  /** In every run from start-up the watchdog reports a lost heartbeat exactly when it looked at an
      armed supervisor more than the heartbeat timeout after the last heartbeat or arming, and a
      stall exactly when it looked in time for that, but more than the frame timeout after the
      last frame. */
  lemma ReportsExactly(c: Config, n: nat, es: seq<Event>)
    ensures UiHeartbeatLost in Run(c, Init(n), es).reported <==> BeatLateIn(c, Init(n), NothingSeen(), es)
    ensures FrameStall in Run(c, Init(n), es).reported <==> FrameLateIn(c, Init(n), NothingSeen(), es)
  {
    assert Agrees(Init(n), NothingSeen());
    WatchedFrom(c, Init(n), NothingSeen(), es);
  }

  /** While heartbeats and frames come in time, an armed supervisor stays armed until an
      emergency stop. */
  lemma StaysArmed(c: Config, n: nat, before: seq<Event>, after: seq<Event>)
    requires Run(c, Init(n), before).sup.state == Armed && EStopCommand !in after
    ensures var s, g := Run(c, Init(n), before), NoteRun(c, Init(n), NothingSeen(), before);
            !BeatLateIn(c, s, g, after) && !FrameLateIn(c, s, g, after) ==> Run(c, s, after).sup.state == Armed
  {
    assert Agrees(Init(n), NothingSeen());
    WatchedFrom(c, Init(n), NothingSeen(), before);
    WatchedFrom(c, Run(c, Init(n), before), NoteRun(c, Init(n), NothingSeen(), before), after);
  }

  // ---- commands take effect ------------------------------------------------

  lemma {:induction false} LatchedUntilCleared(c: Config, s: System, es: seq<Event>)
    requires s.sup.state == EStopLatched && ClearCommand !in es
    ensures Run(c, s, es).sup.state == EStopLatched
    decreases |es|
  {
    if |es| == 0 {
    } else {
      assert es[0] in es;
      LatchedUntilCleared(c, Next(c, s, es[0]), es[1..]);
    }
  }

  /** An emergency stop that gets the lock latches at once, whatever the state, and stays latched in
      every continuation without a clear, with all outputs dark whenever the lock is free. */
  lemma StopTakesEffect(c: Config, n: nat, before: seq<Event>, after: seq<Event>)
    requires Run(c, Init(n), before).lock.Free? && ClearCommand !in after
    ensures var s := Run(c, Run(c, Init(n), before), [EStopCommand] + after);
            && s.sup.state == EStopLatched
            && (s.lock.Free? ==> forall i :: 0 <= i < |s.outputs| ==> Dark(s.outputs[i]))
  {
    hide Next, Dark;
    var s0 := Run(c, Init(n), before);
    StopLatches(c, s0);
    RunFrom(c, s0, EStopCommand, after);
    LatchedUntilCleared(c, Next(c, s0, EStopCommand), after);
    RunJoin(c, Init(n), before, [EStopCommand] + after);
    DarkUnlessArmed(c, n, before + ([EStopCommand] + after));
  }

  lemma StopLatches(c: Config, s: System)
    requires s.lock.Free?
    ensures Next(c, s, EStopCommand).sup.state == EStopLatched
    ensures EmergencyStop in Next(c, s, EStopCommand).reported
  {}

  /** Left alone, a stop that got the lock has darkened everything once its calls are made. */
  lemma StopCompletes(c: Config, s: System)
    requires s.lock.Free?
    ensures var s' := Run(c, s, [EStopCommand] + LockedSteps(2 * |s.outputs| + 1));
            && s'.lock.Free? && s'.sup.state == EStopLatched && |s'.outputs| == |s.outputs|
            && forall i :: 0 <= i < |s.outputs| ==>
                 Dark(s'.outputs[i]) && s'.outputs[i].frameCount == s.outputs[i].frameCount
  {
    hide Run;
    StopLatches(c, s);
    RunFrom(c, s, EStopCommand, LockedSteps(2 * |s.outputs| + 1));
    UninterruptedStop(c, Next(c, s, EStopCommand), 0);
  }

  /** The same of arming: refused while latched, otherwise everything ends armed. */
  lemma ArmCompletes(c: Config, s: System)
    requires s.lock.Free?
    ensures s.sup.state == EStopLatched ==> Next(c, s, ArmCommand) == s
    ensures s.sup.state != EStopLatched ==>
      var s' := Run(c, s, [ArmCommand] + LockedSteps(|s.outputs| + 1));
      && s'.lock.Free? && s'.sup.state == Armed && |s'.outputs| == |s.outputs|
      && s'.sup.haveUiHeartbeat && s'.sup.lastUiHeartbeat == s.now
      && s'.sup.haveFrame == s.sup.haveFrame && s'.sup.lastFrame == s.sup.lastFrame
      && forall i :: 0 <= i < |s.outputs| ==>
           s'.outputs[i].armed && s'.outputs[i].frameCount == s.outputs[i].frameCount
  {
    hide Run;
    if s.sup.state != EStopLatched {
      RunFrom(c, s, ArmCommand, LockedSteps(|s.outputs| + 1));
      UninterruptedArm(c, Next(c, s, ArmCommand), 0);
    }
  }

  lemma {:induction false} UninterruptedArm(c: Config, s: System, k: nat)
    requires s.lock == Arming(k) && k <= |s.outputs| && forall i :: 0 <= i < k ==> s.outputs[i].armed
    ensures var s' := Run(c, s, LockedSteps(|s.outputs| - k + 1));
            && s' == s.(lock := Free, outputs := s'.outputs) && |s'.outputs| == |s.outputs|
            && forall i :: 0 <= i < |s.outputs| ==>
                 s'.outputs[i].armed && s'.outputs[i].frameCount == s.outputs[i].frameCount
    decreases |s.outputs| - k
  {
    var n := |s.outputs| - k + 1;
    var es := LockedSteps(n);
    var s1 := Next(c, s, LockedStep);
    assert es[1..] == LockedSteps(n - 1);
    assert Run(c, s, es) == Run(c, s1, es[1..]);
    if k == |s.outputs| {
    } else {
      UninterruptedArm(c, s1, k + 1);
    }
  }

  /** A clear leaves the latch for Blanked and is reported; without a latch it does nothing. */
  lemma ClearTakesEffect(c: Config, s: System)
    requires s.lock.Free?
    ensures var s' := Next(c, s, ClearCommand);
            if s.sup.state == EStopLatched then
              s' == s.(sup := s.sup.(state := Blanked), reported := s.reported + [ManualReArm])
            else s' == s
  {}
}
