/** The arm / blank / emergency-stop supervisor and its watchdog, one call at a time. */
module SafetySupervisor {
  import opened LaserOutput

  datatype SafetyState = Blanked | Armed | EStopLatched

  datatype EventCode = NoEvent | UiHeartbeatLost | FrameStall | EmergencyStop | ManualArm | ManualReArm

  /** Timeouts in clock ticks. */
  datatype Config = Config(uiHeartbeatTimeout: nat, frameStallTimeout: nat)

  datatype Supervisor = Supervisor(state: SafetyState, lastUiHeartbeat: int, haveUiHeartbeat: bool,
                                   lastFrame: int, haveFrame: bool)

  function Startup(): Supervisor { Supervisor(Blanked, 0, false, 0, false) }

  function Heartbeat(s: Supervisor, now: int): Supervisor {
    s.(lastUiHeartbeat := now, haveUiHeartbeat := true)
  }

  function FrameProduced(s: Supervisor, now: int): Supervisor {
    s.(lastFrame := now, haveFrame := true)
  }

  /** Arming counts as a heartbeat and leaves the frame clock alone; a latched stop refuses it. */
  function Arm(s: Supervisor, now: int): Supervisor {
    if s.state == EStopLatched then s else Heartbeat(s, now).(state := Armed)
  }

  function Clear(s: Supervisor): Supervisor {
    if s.state == EStopLatched then s.(state := Blanked) else s
  }

  function HeartbeatStale(s: Supervisor, c: Config, now: int): bool {
    s.haveUiHeartbeat && now - s.lastUiHeartbeat > c.uiHeartbeatTimeout
  }

  function FrameStale(s: Supervisor, c: Config, now: int): bool {
    s.haveFrame && now - s.lastFrame > c.frameStallTimeout
  }

  /** Why the watchdog trips, if it does; a lost heartbeat is reported first. */
  function TripReason(s: Supervisor, c: Config, now: int): EventCode {
    if s.state != Armed then NoEvent
    else if HeartbeatStale(s, c, now) then UiHeartbeatLost
    else if FrameStale(s, c, now) then FrameStall
    else NoEvent
  }

  function ArmAll(os: seq<Output>): (r: seq<Output>)
    ensures |r| == |os|
  {
    seq(|os|, i requires 0 <= i < |os| => AfterSetArmed(os[i], true))
  }

  function DarkenAll(os: seq<Output>): (r: seq<Output>)
    ensures |r| == |os|
  {
    seq(|os|, i requires 0 <= i < |os| => AfterBlank(AfterSetArmed(os[i], false)))
  }

  class SafetySupervisor {
    const config: Config
    var state: SafetyState
    var lastUiHeartbeat: int
    var haveUiHeartbeat: bool
    var lastFrame: int
    var haveFrame: bool
    var outputs: seq<MockLaserOutput>

    ghost predicate Valid()
      reads this
    {
      forall i, j :: 0 <= i < j < |outputs| ==> outputs[i] != outputs[j]
    }

    ghost function View(): Supervisor
      reads this
    {
      Supervisor(state, lastUiHeartbeat, haveUiHeartbeat, lastFrame, haveFrame)
    }

    ghost function Views(): seq<Output>
      reads this, outputs
    {
      seq(|outputs|, i requires 0 <= i < |outputs| reads this, outputs => outputs[i].View())
    }

    constructor (config: Config)
      ensures Valid() && View() == Startup() && outputs == [] && this.config == config
    {
      this.config := config;
      state, lastUiHeartbeat, haveUiHeartbeat, lastFrame, haveFrame := Blanked, 0, false, 0, false;
      outputs := [];
    }

    method RegisterOutput(out: MockLaserOutput)
      requires Valid() && out !in outputs
      modifies this
      ensures Valid() && outputs == old(outputs) + [out] && View() == old(View())
    {
      outputs := outputs + [out];
    }

    method NotifyUiHeartbeat(now: int)
      modifies this
      ensures View() == Heartbeat(old(View()), now) && outputs == old(outputs)
      ensures haveUiHeartbeat && lastUiHeartbeat == now && state == old(state)
    {
      lastUiHeartbeat := now;
      haveUiHeartbeat := true;
    }

    method NotifyFrameProduced(now: int)
      modifies this
      ensures View() == FrameProduced(old(View()), now) && outputs == old(outputs)
      ensures haveFrame && lastFrame == now && state == old(state)
    {
      lastFrame := now;
      haveFrame := true;
    }

    method SetAll(on: bool, alsoBlank: bool)
      requires Valid()
      modifies outputs
      ensures forall i :: 0 <= i < |outputs| ==>
        outputs[i].View() == var v := AfterSetArmed(old(outputs[i].View()), on);
                             if alsoBlank then AfterBlank(v) else v
    {
      var i := 0;
      while i < |outputs|
        invariant 0 <= i <= |outputs|
        invariant forall k :: 0 <= k < i ==>
          outputs[k].View() == var v := AfterSetArmed(old(outputs[k].View()), on);
                               if alsoBlank then AfterBlank(v) else v
        invariant forall k :: i <= k < |outputs| ==> outputs[k].View() == old(outputs[k].View())
      {
        outputs[i].SetArmed(on);
        if alsoBlank {
          outputs[i].Blank();
        }
        i := i + 1;
      }
    }

    method RequestArm(now: int) returns (ok: bool)
      requires Valid()
      modifies this, outputs
      ensures Valid() && outputs == old(outputs) && View() == Arm(old(View()), now)
      ensures ok == (old(state) != EStopLatched)
      ensures Views() == if ok then ArmAll(old(Views())) else old(Views())
      ensures ok ==> state == Armed && forall i :: 0 <= i < |outputs| ==> outputs[i].armed
      ensures ok ==> haveUiHeartbeat && lastUiHeartbeat == now
      ensures haveFrame == old(haveFrame) && lastFrame == old(lastFrame)
      ensures !ok ==> View() == old(View())
    {
      if state == EStopLatched {
        return false;
      }
      state := Armed;
      lastUiHeartbeat := now;
      haveUiHeartbeat := true;
      SetAll(true, false);
      ok := true;
    }

    method TriggerEmergencyStop()
      requires Valid()
      modifies this, outputs
      ensures Valid() && outputs == old(outputs) && View() == old(View()).(state := EStopLatched)
      ensures Views() == DarkenAll(old(Views()))
      ensures forall i :: 0 <= i < |outputs| ==> Dark(outputs[i].View())
    {
      state := EStopLatched;
      SetAll(false, true);
    }

    method ClearEmergencyStop() returns (ok: bool)
      requires Valid()
      modifies this
      ensures Valid() && outputs == old(outputs) && View() == Clear(old(View()))
      ensures ok == (old(state) == EStopLatched)
      ensures ok ==> View() == old(View()).(state := Blanked)
      ensures !ok ==> View() == old(View())
    {
      if state != EStopLatched {
        return false;
      }
      state := Blanked;
      ok := true;
    }

    method Tick(now: int) returns (reason: EventCode)
      requires Valid()
      modifies this, outputs
      ensures Valid() && outputs == old(outputs)
      ensures reason == TripReason(old(View()), config, now)
      ensures old(state) != Armed ==> reason == NoEvent
      ensures old(state) == Armed ==>
        var beatLate := old(haveUiHeartbeat) && now > old(lastUiHeartbeat) + config.uiHeartbeatTimeout;
        var frameLate := old(haveFrame) && now > old(lastFrame) + config.frameStallTimeout;
        && (reason == UiHeartbeatLost <==> beatLate)
        && (reason == FrameStall <==> !beatLate && frameLate)
        && (reason == NoEvent <==> !beatLate && !frameLate)
      ensures reason == NoEvent ==> View() == old(View()) && Views() == old(Views())
      ensures reason != NoEvent ==>
        View() == old(View()).(state := Blanked) && Views() == DarkenAll(old(Views()))
      ensures reason != NoEvent ==> forall i :: 0 <= i < |outputs| ==> Dark(outputs[i].View())
    {
      reason := NoEvent;
      if state != Armed {
        return;
      }
      if haveUiHeartbeat && now - lastUiHeartbeat > config.uiHeartbeatTimeout {
        reason := UiHeartbeatLost;
      } else if haveFrame && now - lastFrame > config.frameStallTimeout {
        reason := FrameStall;
      }
      if reason == NoEvent {
        return;
      }
      state := Blanked;
      SetAll(false, true);
    }
  }
}
