/** Every interleaving of the command threads, the clock and the engine's main loop.
    The supervisor lock is held while outputs are visited one call at a time; the main
    loop's send does not take it. */
module SafetyRuns {
  import opened LaserOutput
  import opened SafetySupervisor

  /** Who holds the supervisor lock and how far its loop over the outputs has come. */
  datatype Lock =
    | Free
    | Arming(i: nat)
    | Disarming(i: nat, blanking: bool, byTick: bool)

  datatype Main =
    | AtHeartbeat
    | AtTick
    | InTick
    | AtCheck
    | AtSend(frame: OutputFrame)
    | AtNotify

  /** `lastTick` and `reported` record history: when the watchdog last ran and what every
      call reported. No step reads them. */
  datatype System = System(sup: Supervisor, outputs: seq<Output>, lock: Lock, main: Main, now: int,
                           lastTick: int, reported: seq<EventCode>)

  datatype Rendered = NoFrame | Rendered(frame: OutputFrame)

  datatype Event =
    | Elapse(d: nat)
    | ArmCommand
    | EStopCommand
    | ClearCommand
    | LockedStep                    // the lock holder makes its next call to an output
    | HeartbeatStep(beat: bool)     // the main loop's statements, in order
    | TickStep
    | CheckStep(rendered: Rendered)
    | SendStep(target: nat)
    | NotifyStep

  /** The lock holder's next call; the last one releases the lock. */
  function LockedNext(s: System): System {
    match s.lock
    case Free => s
    case Arming(i) =>
      if i < |s.outputs| then s.(outputs := s.outputs[i := AfterSetArmed(s.outputs[i], true)], lock := Arming(i + 1))
      else s.(lock := Free)
    case Disarming(i, blanking, byTick) =>
      if i < |s.outputs| then
        if blanking then
          s.(outputs := s.outputs[i := AfterBlank(s.outputs[i])], lock := Disarming(i + 1, false, byTick))
        else
          s.(outputs := s.outputs[i := AfterSetArmed(s.outputs[i], false)], lock := Disarming(i, true, byTick))
      else s.(lock := Free, main := if byTick then AtCheck else s.main)
  }

  function MainNext(c: Config, s: System, e: Event): System {
    match e
    case HeartbeatStep(beat) =>
      if !s.main.AtHeartbeat? || (beat && !s.lock.Free?) then s
      else s.(sup := if beat then Heartbeat(s.sup, s.now) else s.sup, main := AtTick)
    case TickStep =>
      if !s.main.AtTick? || !s.lock.Free? then s
      else
        var reason := TripReason(s.sup, c, s.now);
        var ticked := s.(lastTick := s.now);
        if reason == NoEvent then ticked.(main := AtCheck)
        else ticked.(sup := s.sup.(state := Blanked), lock := Disarming(0, false, true), main := InTick,
                     reported := s.reported + [reason])
    case CheckStep(rendered) =>
      if !s.main.AtCheck? || !s.lock.Free? then s
      else if s.sup.state == Armed && rendered.Rendered? then s.(main := AtSend(rendered.frame))
      else s.(main := AtHeartbeat)
    case SendStep(target) =>
      if !s.main.AtSend? then s
      else if target < |s.outputs| then
        s.(outputs := s.outputs[target := AfterSend(s.outputs[target], s.main.frame)], main := AtNotify)
      else s.(main := AtNotify)
    case NotifyStep =>
      if !s.main.AtNotify? || !s.lock.Free? then s
      else s.(sup := FrameProduced(s.sup, s.now), main := AtHeartbeat)
    case _ => s
  }

  /** One event; an event whose thread is elsewhere or blocked on the lock changes nothing. */
  function Next(c: Config, s: System, e: Event): System {
    match e
    case Elapse(d) => s.(now := s.now + d)
    case ArmCommand =>
      if !s.lock.Free? || s.sup.state == EStopLatched then s
      else s.(sup := Arm(s.sup, s.now), lock := Arming(0), reported := s.reported + [ManualArm])
    case EStopCommand =>
      if !s.lock.Free? then s
      else s.(sup := s.sup.(state := EStopLatched), lock := Disarming(0, false, false),
              reported := s.reported + [EmergencyStop])
    case ClearCommand =>
      if !s.lock.Free? || s.sup.state != EStopLatched then s
      else s.(sup := Clear(s.sup), reported := s.reported + [ManualReArm])
    case LockedStep => LockedNext(s)
    case _ => MainNext(c, s, e)
  }

  function Run(c: Config, s: System, es: seq<Event>): System
    decreases |es|
  {
    if |es| == 0 then s else Run(c, Next(c, s, es[0]), es[1..])
  }

  /** Start-up with n outputs registered while disarmed. */
  function Init(n: nat): System {
    System(Startup(), seq(n, i => NewOutput()), Free, AtHeartbeat, 0, 0, [])
  }

  // ---- safety over every run -----------------------------------------------

  ghost predicate Safe(s: System) {
    && (forall i :: 0 <= i < |s.outputs| ==> Gated(s.outputs[i]))
    && (s.main.InTick? <==> s.lock.Disarming? && s.lock.byTick)
    && match s.lock
       case Free => forall i :: 0 <= i < |s.outputs| ==> (s.outputs[i].armed <==> s.sup.state == Armed)
       case Arming(k) =>
         s.sup.state == Armed && k <= |s.outputs| && forall i :: 0 <= i < k ==> s.outputs[i].armed
       case Disarming(k, blanking, _) =>
         && s.sup.state != Armed && k <= |s.outputs| && (forall i :: 0 <= i < k ==> !s.outputs[i].armed)
         && (blanking ==> k < |s.outputs| && !s.outputs[k].armed)
  }

  lemma SafeStep(c: Config, s: System, e: Event)
    requires Safe(s)
    ensures Safe(Next(c, s, e))
  {}

  lemma {:induction false} SafeRun(c: Config, s: System, es: seq<Event>)
    requires Safe(s)
    ensures Safe(Run(c, s, es))
    decreases |es|
  {
    hide Safe, Next;
    if |es| == 0 {
    } else {
      SafeStep(c, s, es[0]);
      SafeRun(c, Next(c, s, es[0]), es[1..]);
    }
  }

  /** In every run from start-up: with the lock free, outputs are armed exactly when the
      supervisor is, and a supervisor that is not armed leaves every output dark; while a
      stop is under way every output already visited is dark. */
  lemma DarkUnlessArmed(c: Config, n: nat, es: seq<Event>)
    ensures var s := Run(c, Init(n), es);
            && (s.lock.Free? ==> forall i :: 0 <= i < |s.outputs| ==> (s.outputs[i].armed <==> s.sup.state == Armed))
            && (s.lock.Free? && s.sup.state != Armed ==> forall i :: 0 <= i < |s.outputs| ==> Dark(s.outputs[i]))
            && (s.lock.Disarming? ==>
                  s.sup.state != Armed && forall i :: 0 <= i < s.lock.i && i < |s.outputs| ==> Dark(s.outputs[i]))
  {
    assert Safe(Init(n));
    SafeRun(c, Init(n), es);
  }

  // ---- after an emergency stop ---------------------------------------------

  /** Nothing armed, and no arming under way. */
  ghost predicate Quiet(s: System) {
    && s.sup.state != Armed && !s.lock.Arming?
    && forall i :: 0 <= i < |s.outputs| ==> Dark(s.outputs[i])
  }

  /** The same outputs, still dark, with not one frame more. */
  ghost predicate NothingShown(s: System, s': System) {
    && Quiet(s') && |s'.outputs| == |s.outputs|
    && forall i :: 0 <= i < |s.outputs| ==> s'.outputs[i].frameCount == s.outputs[i].frameCount
  }

  predicate ClearThenArm(es: seq<Event>) {
    exists i, j :: 0 <= i < j < |es| && es[i] == ClearCommand && es[j] == ArmCommand
  }

  lemma ClearThenArmTail(es: seq<Event>)
    requires |es| > 0
    ensures ClearThenArm(es[1..]) ==> ClearThenArm(es)
    ensures es[0] == ClearCommand && ArmCommand in es[1..] ==> ClearThenArm(es)
  {}

  lemma QuietStep(c: Config, s: System, e: Event)
    requires Quiet(s) && (e == ArmCommand ==> s.sup.state == EStopLatched)
    ensures NothingShown(s, Next(c, s, e))
    ensures s.sup.state == EStopLatched && e != ClearCommand ==> Next(c, s, e).sup.state == EStopLatched
  {}

  lemma {:induction false} QuietWithoutArm(c: Config, s: System, es: seq<Event>)
    requires Quiet(s) && ArmCommand !in es
    ensures NothingShown(s, Run(c, s, es))
    decreases |es|
  {
    hide Next, Quiet;
    if |es| == 0 {
    } else {
      assert es[0] in es;
      QuietStep(c, s, es[0]);
      QuietWithoutArm(c, Next(c, s, es[0]), es[1..]);
    }
  }

  lemma {:induction false} LatchedHolds(c: Config, s: System, es: seq<Event>)
    requires Quiet(s) && s.sup.state == EStopLatched && !ClearThenArm(es)
    ensures NothingShown(s, Run(c, s, es))
    decreases |es|
  {
    hide Next, Quiet;
    if |es| == 0 {
    } else {
      var s1 := Next(c, s, es[0]);
      QuietStep(c, s, es[0]);
      ClearThenArmTail(es);
      if es[0] == ClearCommand {
        QuietWithoutArm(c, s1, es[1..]);
      } else {
        LatchedHolds(c, s1, es[1..]);
      }
    }
  }

  /** Once an emergency stop has completed, no output accepts a frame, in any continuation,
      until a clear and after it an arm command. */
  lemma NoFrameAfterEStop(c: Config, n: nat, before: seq<Event>, after: seq<Event>)
    requires var s := Run(c, Init(n), before); s.lock.Free? && s.sup.state == EStopLatched
    requires !ClearThenArm(after)
    ensures NothingShown(Run(c, Init(n), before), Run(c, Run(c, Init(n), before), after))
  {
    DarkUnlessArmed(c, n, before);
    LatchedHolds(c, Run(c, Init(n), before), after);
  }

  // ---- the watchdog's latency ----------------------------------------------

  ghost predicate Watched(c: Config, s: System) {
    && s.lastTick <= s.now
    && (s.sup.state == Armed ==>
          s.sup.haveUiHeartbeat && s.lastTick - s.sup.lastUiHeartbeat <= c.uiHeartbeatTimeout)
  }

  lemma {:induction false} WatchedRun(c: Config, s: System, es: seq<Event>)
    requires Watched(c, s)
    ensures Watched(c, Run(c, s, es))
    decreases |es|
  {
    if |es| == 0 {
    } else {
      WatchedRun(c, Next(c, s, es[0]), es[1..]);
    }
  }

  /** In every run, if the watchdog last ran at most `period` ago, an armed supervisor has
      heard a heartbeat (or been armed) within the timeout plus the period; past that, once
      the lock is free every output is dark. */
  lemma HeartbeatLossBound(c: Config, n: nat, es: seq<Event>, period: nat)
    requires var s := Run(c, Init(n), es); s.now - s.lastTick <= period
    ensures var s := Run(c, Init(n), es);
            && (s.sup.state == Armed ==>
                  s.sup.haveUiHeartbeat && s.now <= s.sup.lastUiHeartbeat + c.uiHeartbeatTimeout + period)
            && (s.now > s.sup.lastUiHeartbeat + c.uiHeartbeatTimeout + period && s.lock.Free? ==>
                  forall i :: 0 <= i < |s.outputs| ==> Dark(s.outputs[i]))
  {
    WatchedRun(c, Init(n), es);
    DarkUnlessArmed(c, n, es);
  }

  // ---- the frame-stall watchdog --------------------------------------------

  lemma RunFrom(c: Config, s: System, e: Event, es: seq<Event>)
    ensures Run(c, s, [e] + es) == Run(c, Next(c, s, e), es)
    ensures es == [] ==> Run(c, s, [e] + es) == Next(c, s, e)
  {}

  /** Without a frame ever produced the stall watchdog never fires. */
  lemma {:induction false} DormantRun(c: Config, s: System, es: seq<Event>)
    requires !s.sup.haveFrame && FrameStall !in s.reported && NotifyStep !in es
    ensures !Run(c, s, es).sup.haveFrame && FrameStall !in Run(c, s, es).reported
    decreases |es|
  {
    if |es| == 0 {
    } else {
      assert es[0] in es;
      DormantRun(c, Next(c, s, es[0]), es[1..]);
    }
  }

  lemma NoFramesNoStall(c: Config, n: nat, es: seq<Event>)
    requires NotifyStep !in es
    ensures FrameStall !in Run(c, Init(n), es).reported
  {
    DormantRun(c, Init(n), es);
  }

  /** A frame was produced once, too long ago. */
  ghost predicate Stale(c: Config, s: System) {
    FrameStale(s.sup, c, s.now)
  }

  lemma {:induction false} StaleRun(c: Config, s: System, es: seq<Event>)
    requires Stale(c, s) && NotifyStep !in es
    ensures Stale(c, Run(c, s, es))
    decreases |es|
  {
    if |es| == 0 {
    } else {
      assert es[0] in es;
      StaleRun(c, Next(c, s, es[0]), es[1..]);
    }
  }

  lemma {:induction false} LastFrameKept(c: Config, s: System, es: seq<Event>)
    requires NotifyStep !in es
    ensures Run(c, s, es).sup.haveFrame == s.sup.haveFrame && Run(c, s, es).sup.lastFrame == s.sup.lastFrame
    ensures Run(c, s, es).now >= s.now
    decreases |es|
  {
    if |es| == 0 {
    } else {
      assert es[0] in es;
      LastFrameKept(c, Next(c, s, es[0]), es[1..]);
    }
  }

  /** Re-arming does not reset the frame clock: in any run without a produced frame, an
      armed supervisor survives the watchdog exactly while the interface is alive and the
      last frame, however long before the arming, is within the timeout. */
  lemma ArmUndoneByNextTick(c: Config, s: System, es: seq<Event>)
    requires s.sup.haveFrame && NotifyStep !in es
    ensures var s' := Run(c, s, es);
            s'.main.AtTick? && s'.lock.Free? && s'.sup.state == Armed ==>
              (Next(c, s', TickStep).sup.state == Armed <==>
                 !HeartbeatStale(s'.sup, c, s'.now) && s'.now <= s.sup.lastFrame + c.frameStallTimeout)
    ensures var s' := Run(c, s, es);
            Stale(c, s) && s'.main.AtTick? && s'.lock.Free? ==> Next(c, s', TickStep).sup.state != Armed
  {
    hide Run;
    LastFrameKept(c, s, es);
  }

  // ---- exactly when the watchdog is dormant --------------------------------

  /** Without a frame produced, it never reports a stall. */
  ghost predicate Dormant(c: Config, s: System) {
    !CanStall(c, s)
  }

  ghost predicate CanStall(c: Config, s: System) {
    exists es :: StallsIn(c, s, es)
  }

  /** The run reports a stall and produces no frame. */
  ghost predicate StallsIn(c: Config, s: System, es: seq<Event>) {
    NotifyStep !in es && FrameStall in Run(c, s.(reported := []), es).reported
  }

  lemma EarlierReport(c: Config, s: System, r: seq<EventCode>, e: Event)
    ensures Next(c, s.(reported := r + s.reported), e)
         == Next(c, s, e).(reported := r + Next(c, s, e).reported)
  {
    assert Next(c, s.(reported := r + s.reported), e).reported == r + Next(c, s, e).reported;
  }

  /** What was reported before does not matter to a run. */
  lemma {:induction false} EarlierReports(c: Config, s: System, r: seq<EventCode>, es: seq<Event>)
    ensures Run(c, s.(reported := r + s.reported), es)
         == Run(c, s, es).(reported := r + Run(c, s, es).reported)
    decreases |es|
  {
    hide Next;
    if |es| == 0 {
    } else {
      EarlierReport(c, s, r, es[0]);
      EarlierReports(c, Next(c, s, es[0]), r, es[1..]);
    }
  }

  /** If a stall is possible after an event, it was possible before. */
  lemma StallAhead(c: Config, s: System, e: Event)
    requires e != NotifyStep && CanStall(c, Next(c, s, e))
    ensures CanStall(c, s)
  {
    hide Next;
    var es :| StallsIn(c, Next(c, s, e), es);
    var s0 := s.(reported := []);
    var s1 := Next(c, s0, e);
    SameButReports(c, s, e);
    EarlierReports(c, s1.(reported := []), s1.reported, es);
    RunFrom(c, s0, e, es);
    assert s1.reported + [] == s1.reported;
    assert s1.(reported := []).(reported := s1.reported) == s1;
    assert StallsIn(c, s, [e] + es);
  }

  lemma SameButReports(c: Config, s: System, e: Event)
    ensures Next(c, s.(reported := []), e).(reported := []) == Next(c, s, e).(reported := [])
  {}

  /** Calls the lock holder has yet to make. */
  function CallsLeft(s: System): nat {
    match s.lock
    case Free => 0
    case Arming(i) => if i < |s.outputs| then |s.outputs| - i + 1 else 1
    case Disarming(i, blanking, _) =>
      if i < |s.outputs| then 2 * (|s.outputs| - i) + (if blanking then 1 else 2) else 1
  }

  /** How far a run is from a stall report: each stage is passed once. */
  function StagesLeft(c: Config, s: System): nat {
    var ready := s.sup.state == Armed && FrameStale(s.sup, c, s.now);
    match s.main
    case AtTick => if ready && !HeartbeatStale(s.sup, c, s.now) then 0 else 7
    case InTick => 6
    case AtCheck => 5
    case AtHeartbeat => if ready then 1 else if s.sup.state == Armed then 2 else if s.sup.state == Blanked then 3 else 4
    case AtSend(_) => 8
    case AtNotify => 9
  }

  /** The event that brings the next stage: finish with the lock, leave the loop pass
      without a frame, clear, arm, wait out the timeout, beat, tick. */
  function TowardsStall(c: Config, s: System): Event {
    if !s.lock.Free? then LockedStep
    else
      match s.main
      case AtTick => TickStep
      case AtCheck => CheckStep(NoFrame)
      case _ =>
        if s.sup.state == EStopLatched then ClearCommand
        else if s.sup.state == Blanked then ArmCommand
        else if !FrameStale(s.sup, c, s.now) then
          Elapse(if s.now <= s.sup.lastFrame then s.sup.lastFrame - s.now + c.frameStallTimeout + 1
                 else c.frameStallTimeout + 1)
        else HeartbeatStep(true)
  }

  lemma StageNears(c: Config, s: System)
    requires Safe(s) && s.sup.haveFrame && !s.main.AtSend? && !s.main.AtNotify?
    requires !(s.lock.Free? && StagesLeft(c, s) == 0)
    ensures var s1 := Next(c, s, TowardsStall(c, s));
            && s1.sup.haveFrame && !s1.main.AtSend? && !s1.main.AtNotify?
            && (StagesLeft(c, s1) < StagesLeft(c, s)
                || (StagesLeft(c, s1) == StagesLeft(c, s) && CallsLeft(s1) < CallsLeft(s)))
  {}

  lemma {:induction false} StallPossible(c: Config, s: System)
    requires Safe(s) && s.sup.haveFrame && !s.main.AtSend? && !s.main.AtNotify?
    ensures CanStall(c, s)
    decreases StagesLeft(c, s), CallsLeft(s)
  {
    hide Safe, CanStall;
    var e := TowardsStall(c, s);
    if s.lock.Free? && StagesLeft(c, s) == 0 {
      TickReports(c, s);
    } else {
      SafeStep(c, s, e);
      StageNears(c, s);
      StallPossible(c, Next(c, s, e));
      StallAhead(c, s, e);
    }
  }

  lemma TickReports(c: Config, s: System)
    requires s.main.AtTick? && s.lock.Free? && TripReason(s.sup, c, s.now) == FrameStall
    ensures CanStall(c, s)
  {
    RunFrom(c, s.(reported := []), TickStep, []);
    assert StallsIn(c, s, [TickStep]);
  }

  /** A loop pass that is about to show a frame waits for it to be produced. */
  lemma {:induction false} SendingNeverTicks(c: Config, s: System, es: seq<Event>)
    requires s.main.AtSend? || s.main.AtNotify?
    requires Safe(s) && NotifyStep !in es && FrameStall !in s.reported
    ensures FrameStall !in Run(c, s, es).reported
    decreases |es|
  {
    hide Safe;
    if |es| == 0 {
    } else {
      assert es[0] in es;
      InTickBlanked(s);
      SafeStep(c, s, es[0]);
      SendingNeverTicks(c, Next(c, s, es[0]), es[1..]);
    }
  }

  /** In every state a run can reach: no further run without a produced frame reports a stall
      exactly when no frame was produced so far, or the loop is just showing one. */
  lemma DormantExactly(c: Config, s: System)
    requires Safe(s)
    ensures Dormant(c, s) <==> !s.sup.haveFrame || s.main.AtSend? || s.main.AtNotify?
  {
    hide Safe;
    if !s.sup.haveFrame {
      forall es | NotifyStep !in es ensures FrameStall !in Run(c, s.(reported := []), es).reported {
        DormantRun(c, s.(reported := []), es);
      }
    } else if s.main.AtSend? || s.main.AtNotify? {
      SafeIgnoresReports(s);
      forall es | NotifyStep !in es ensures FrameStall !in Run(c, s.(reported := []), es).reported {
        SendingNeverTicks(c, s.(reported := []), es);
      }
    } else {
      StallPossible(c, s);
    }
  }

  lemma SafeIgnoresReports(s: System)
    ensures Safe(s.(reported := [])) <==> Safe(s)
  {}

  /** The same, of runs from start-up. */
  lemma DormantUntilFirstFrame(c: Config, n: nat, es: seq<Event>)
    ensures var s := Run(c, Init(n), es);
            Dormant(c, s) <==> !s.sup.haveFrame || s.main.AtSend? || s.main.AtNotify?
  {
    assert Safe(Init(n));
    SafeRun(c, Init(n), es);
    DormantExactly(c, Run(c, Init(n), es));
  }

  /** The main loop cannot be about to show a frame. */
  ghost predicate LockedOut(c: Config, s: System) {
    && Stale(c, s) && Safe(s) && !s.main.AtSend? && !s.main.AtNotify?
    && (s.main.AtCheck? ==> s.sup.state != Armed)
  }

  /** No arm command lands between the watchdog call and the state check of one loop pass. */
  ghost predicate ArmsMissWindow(c: Config, s: System, es: seq<Event>)
    decreases |es|
  {
    |es| > 0 ==> (es[0] == ArmCommand ==> !s.main.AtCheck?) && ArmsMissWindow(c, Next(c, s, es[0]), es[1..])
  }

  lemma LockedOutStep(c: Config, s: System, e: Event)
    requires LockedOut(c, s) && (e == ArmCommand ==> !s.main.AtCheck?)
    ensures LockedOut(c, Next(c, s, e))
    ensures |Next(c, s, e).outputs| == |s.outputs|
    ensures forall i :: 0 <= i < |s.outputs| ==> Next(c, s, e).outputs[i].frameCount == s.outputs[i].frameCount
  {
    hide Safe;
    SafeStep(c, s, e);
    InTickBlanked(s);
  }

  lemma InTickBlanked(s: System)
    requires Safe(s)
    ensures s.main.InTick? ==> s.lock.Disarming? && s.sup.state != Armed
    ensures s.lock.Disarming? && s.lock.byTick ==> s.main.InTick?
  {}

  /** After a frame stall the engine stays dark for ever, however often it is armed, unless
      an arm command falls in the window between tick and state check. */
  lemma {:induction false} StallLocksOut(c: Config, s: System, es: seq<Event>)
    requires LockedOut(c, s) && ArmsMissWindow(c, s, es)
    ensures LockedOut(c, Run(c, s, es)) && |Run(c, s, es).outputs| == |s.outputs|
    ensures forall i :: 0 <= i < |s.outputs| ==> Run(c, s, es).outputs[i].frameCount == s.outputs[i].frameCount
    decreases |es|
  {
    hide LockedOut, Next;
    if |es| == 0 {
    } else {
      LockedOutStep(c, s, es[0]);
      StallLocksOut(c, Next(c, s, es[0]), es[1..]);
    }
  }

  /** A stall trip is how the engine gets there. */
  lemma StallTripLocksOut(c: Config, s: System)
    requires Safe(s) && s.main.AtTick? && s.lock.Free? && TripReason(s.sup, c, s.now) == FrameStall
    ensures LockedOut(c, Next(c, s, TickStep))
  {}

  /** Any gap beyond the timeout gets there too, whatever the supervisor's state: a stop and
      a clear do not reset the frame clock either. */
  lemma GapLocksOut(c: Config, s: System, d: nat)
    requires Safe(s) && s.sup.haveFrame && (s.main.AtHeartbeat? || s.main.AtTick?)
    requires s.now + d > s.sup.lastFrame + c.frameStallTimeout
    ensures LockedOut(c, Next(c, s, Elapse(d)))
  {}

  lemma {:induction false} RunJoin(c: Config, s: System, a: seq<Event>, b: seq<Event>)
    ensures Run(c, s, a + b) == Run(c, Run(c, s, a), b)
    decreases |a|
  {
    hide Next;
    if |a| == 0 {
      assert a + b == b;
    } else {
      assert (a + b)[1..] == a[1..] + b;
      RunJoin(c, Next(c, s, a[0]), a[1..], b);
    }
  }

  /** From start-up: arm, and one frame goes out. */
  lemma FirstFrame(c: Config, frame: OutputFrame) returns (es: seq<Event>)
    ensures Run(c, Init(1), es) == System(Supervisor(Armed, 0, true, 0, true), [Output(true, frame, 1, 0)],
                                          Free, AtHeartbeat, 0, 0, [ManualArm])
  {
    hide Run;
    var t1 := [NotifyStep] + [];
    var t2 := [SendStep(0)] + t1;
    var t3 := [CheckStep(Rendered(frame))] + t2;
    var t4 := [TickStep] + t3;
    var t5 := [HeartbeatStep(false)] + t4;
    var t6 := [LockedStep] + t5;
    var t7 := [LockedStep] + t6;
    es := [ArmCommand] + t7;
    var s0 := Init(1);
    var s1 := Next(c, s0, ArmCommand);
    var s2 := Next(c, s1, LockedStep);
    var s3 := Next(c, s2, LockedStep);
    var s4 := Next(c, s3, HeartbeatStep(false));
    var s5 := Next(c, s4, TickStep);
    var s6 := Next(c, s5, CheckStep(Rendered(frame)));
    var s7 := Next(c, s6, SendStep(0));
    RunFrom(c, s7, NotifyStep, []);
    RunFrom(c, s6, SendStep(0), t1);
    RunFrom(c, s5, CheckStep(Rendered(frame)), t2);
    RunFrom(c, s4, TickStep, t3);
    RunFrom(c, s3, HeartbeatStep(false), t4);
    RunFrom(c, s2, LockedStep, t5);
    RunFrom(c, s1, LockedStep, t6);
    RunFrom(c, s0, ArmCommand, t7);
  }

  /** A run from start-up in which the watchdog trips: one frame, then none for longer than
      the timeout. */
  lemma StallReached(c: Config, frame: OutputFrame) returns (es: seq<Event>)
    ensures var s := Run(c, Init(1), es);
            && s.reported == [ManualArm, FrameStall] && LockedOut(c, s)
            && |s.outputs| == 1 && s.outputs[0].frameCount == 1
  {
    hide Run, LockedOut;
    var before := FirstFrame(c, frame);
    var gap := Elapse(c.frameStallTimeout + 1);
    var t1 := [TickStep] + [];
    var t2 := [HeartbeatStep(true)] + t1;
    var late := [gap] + t2;
    es := before + late;
    var s0 := Run(c, Init(1), before);
    var s1 := Next(c, s0, gap);
    var s2 := Next(c, s1, HeartbeatStep(true));
    StallTripLocksOut(c, s2);
    RunFrom(c, s2, TickStep, []);
    RunFrom(c, s1, HeartbeatStep(true), t1);
    RunFrom(c, s0, gap, t2);
    RunJoin(c, Init(1), before, late);
  }

  /** An arm inside the window does get one frame out, which restarts the frame clock. */
  lemma WindowRecovers(c: Config, s: System, frame: OutputFrame) returns (es: seq<Event>)
    requires LockedOut(c, s) && s.main.AtCheck? && s.lock.Free? && s.sup.state == Blanked && |s.outputs| == 1
    ensures var s' := Run(c, s, es);
            && |s'.outputs| == 1 && s'.outputs[0].frameCount == s.outputs[0].frameCount + 1
            && s'.outputs[0].lastFrame == frame && s'.sup.state == Armed && !Stale(c, s')
  {
    hide Run, Safe;
    var t1 := [NotifyStep] + [];
    var t2 := [SendStep(0)] + t1;
    var t3 := [CheckStep(Rendered(frame))] + t2;
    var t4 := [LockedStep] + t3;
    var t5 := [LockedStep] + t4;
    es := [ArmCommand] + t5;
    var s1 := Next(c, s, ArmCommand);
    var s2 := Next(c, s1, LockedStep);
    var s3 := Next(c, s2, LockedStep);
    var s4 := Next(c, s3, CheckStep(Rendered(frame)));
    var s5 := Next(c, s4, SendStep(0));
    var s6 := Next(c, s5, NotifyStep);
    RunFrom(c, s5, NotifyStep, []);
    RunFrom(c, s4, SendStep(0), t1);
    RunFrom(c, s3, CheckStep(Rendered(frame)), t2);
    RunFrom(c, s2, LockedStep, t3);
    RunFrom(c, s1, LockedStep, t4);
    RunFrom(c, s, ArmCommand, t5);
  }

  // ---- the interleaved calls against the uninterrupted ones ----------------

  /** The lock holder moving k times with no other thread moving. */
  function LockedSteps(k: nat): seq<Event> {
    if k == 0 then [] else [LockedStep] + LockedSteps(k - 1)
  }

  /** Left alone, a stop's step-by-step loop does exactly what the sequential call does. */
  lemma {:induction false} UninterruptedStop(c: Config, s: System, k: nat)
    requires s.lock == Disarming(k, false, false) && k <= |s.outputs|
    ensures var s' := Run(c, s, LockedSteps(2 * (|s.outputs| - k) + 1));
            s' == s.(lock := Free, outputs := s.outputs[..k] + DarkenAll(s.outputs[k..]))
    decreases |s.outputs| - k
  {
    var n := 2 * (|s.outputs| - k) + 1;
    var es := LockedSteps(n);
    assert es[1..] == LockedSteps(n - 1);
    if k == |s.outputs| {
      assert Run(c, s, es) == Run(c, Next(c, s, LockedStep), []);
      assert s.outputs[..k] + DarkenAll(s.outputs[k..]) == s.outputs;
    } else {
      var s1 := Next(c, s, LockedStep);
      var s2 := Next(c, s1, LockedStep);
      assert es[1..][1..] == LockedSteps(n - 2);
      assert Run(c, s, es) == Run(c, s1, es[1..]) == Run(c, s2, es[1..][1..]);
      UninterruptedStop(c, s2, k + 1);
      assert s2.outputs[..k + 1] + DarkenAll(s2.outputs[k + 1..]) == s.outputs[..k] + DarkenAll(s.outputs[k..]);
    }
  }
}
