/** The locomotion controller's per-tick bookkeeping: the gait clock, the
    stop/resume handshake driven by the swing semaphore, and the merge of the
    swing and stance controllers' joint commands. The gait generator, ground
    estimator, planners and leg controllers are collaborators: their outputs
    (leg-state vectors, command maps, the force solution) are inputs here and
    the times handed to them are outputs. */
module LocomotionController {
  import opened LegStates
  import opened Algebra

  datatype Option<T> = None | Some(value: T)

  /** Controller state. `robotStop` is the robot's `stop` flag, which the
      controller raises and clears; `stop` is the controller's own flag. */
  datatype Controller = Controller(
    resetTime: real,
    timeSinceReset: real,
    swingSemaphore: int,
    stopTick: real,
    stop: bool,
    robotStop: bool)

  /** The times given to the collaborators during one Update; the centre of
      mass planner is only updated in position mode. */
  datatype TickTimes = TickTimes(
    gait: real,
    ground: real,
    comPlanner: Option<real>,
    swing: real,
    stance: real)

  datatype TickResult = TickResult(next: Controller, times: TickTimes)

  /** The robot clock is read up to three times during one Update: for the
      gait time, when the stop tick is latched, and for the stance
      controller's time. The clock keeps running in between, so the three
      readings may differ. */
  datatype ClockReads = ClockReads(atGait: real, atStop: real, atStance: real)

  /** Reset re-anchors the gait clock at the robot's current time `now`.
      The handshake state (semaphore, stop flags, stop tick) is left as is. */
  function Reset(c: Controller, now: real): (r: Controller)
    ensures r.resetTime == now && r.timeSinceReset == 0.0
    ensures r.swingSemaphore == c.swingSemaphore && r.stopTick == c.stopTick
    ensures r.stop == c.stop && r.robotStop == c.robotStop
  {
    c.(resetTime := now, timeSinceReset := 0.0)
  }

  /** A leg starts to swing when the gait generator moves it from stance to
      swing, or when it is put in a user-defined swing. */
  predicate StartsSwing(newState: LegState, curState: LegState)
  {
    (newState == Swing && curState == Stance) || newState == UserDefinedSwing
  }

  /** The scan over the legs that stops at the first leg starting to swing. */
  function SwitchToSwingFrom(newLeg: seq<LegState>, curLeg: seq<LegState>, legId: nat): (found: bool)
    requires IsLegVector(newLeg) && IsLegVector(curLeg) && legId <= NumLegs
    ensures found <==> exists j :: legId <= j < NumLegs && StartsSwing(newLeg[j], curLeg[j])
    decreases NumLegs - legId
  {
    if legId == NumLegs then false
    else if StartsSwing(newLeg[legId], curLeg[legId]) then true
    else SwitchToSwingFrom(newLeg, curLeg, legId + 1)
  }

  function SwitchToSwing(newLeg: seq<LegState>, curLeg: seq<LegState>): bool
    requires IsLegVector(newLeg) && IsLegVector(curLeg)
  {
    SwitchToSwingFrom(newLeg, curLeg, 0)
  }

  /** The semaphore step taken in walk mode once the swing test is known;
      `stopNow` is the clock reading latched as the stop tick. */
  function Handshake(c: Controller, stopNow: real, switchToSwing: bool): Controller
  {
    if !switchToSwing then c
    else if c.swingSemaphore > 0 then c.(swingSemaphore := c.swingSemaphore - 1)
    else if c.swingSemaphore == 0 then c.(swingSemaphore := -1, stopTick := stopNow, robotStop := true)
    else c
  }

  /** One control tick with the clock readings `clock`. `newLeg` and
      `curLeg` are the gait generator's new and current leg states after it
      has been advanced. */
  function Update(c: Controller, clock: ClockReads, mode: LocomotionMode,
                  newLeg: seq<LegState>, curLeg: seq<LegState>): (r: TickResult)
    requires IsLegVector(newLeg) && IsLegVector(curLeg)
    // the gait clock runs unless the robot is stopped, then it is frozen
    ensures !c.robotStop ==> r.next.timeSinceReset == clock.atGait - c.resetTime
    ensures c.robotStop ==> r.next.timeSinceReset == c.timeSinceReset
    ensures r.next.resetTime == c.resetTime && r.next.stop == c.stop
    // every collaborator sees the (possibly frozen) gait time, the stance
    // controller always sees the running clock
    ensures r.times.gait == r.times.ground == r.times.swing == r.next.timeSinceReset
    ensures r.times.stance == clock.atStance - c.resetTime
    ensures r.times.comPlanner.Some? <==> mode == PositionLocomotion
    ensures r.times.comPlanner.Some? ==> r.times.comPlanner.value == r.next.timeSinceReset
    // outside walk mode, and in walk mode without a leg starting to swing,
    // the handshake is untouched
    ensures (mode != WalkLocomotion || !(exists j :: 0 <= j < NumLegs && StartsSwing(newLeg[j], curLeg[j])))
            ==> r.next.swingSemaphore == c.swingSemaphore && r.next.stopTick == c.stopTick
                && r.next.robotStop == c.robotStop
    // a leg starting to swing in walk mode consumes one semaphore unit,
    // stops the robot when none is left, and is ignored once stopped
    ensures mode == WalkLocomotion && (exists j :: 0 <= j < NumLegs && StartsSwing(newLeg[j], curLeg[j])) ==>
            && (c.swingSemaphore > 0 ==>
                  r.next.swingSemaphore == c.swingSemaphore - 1
                  && r.next.stopTick == c.stopTick && r.next.robotStop == c.robotStop)
            && (c.swingSemaphore == 0 ==>
                  r.next.swingSemaphore == -1 && r.next.stopTick == clock.atStop && r.next.robotStop)
            && (c.swingSemaphore < 0 ==>
                  r.next.swingSemaphore == c.swingSemaphore
                  && r.next.stopTick == c.stopTick && r.next.robotStop == c.robotStop)
  {
    var timeSinceReset := if !c.robotStop then clock.atGait - c.resetTime else c.timeSinceReset;
    var ticked := c.(timeSinceReset := timeSinceReset);
    var next := if mode == WalkLocomotion then Handshake(ticked, clock.atStop, SwitchToSwing(newLeg, curLeg)) else ticked;
    var comPlanner := if mode == PositionLocomotion then Some(timeSinceReset) else None;
    TickResult(next, TickTimes(timeSinceReset, timeSinceReset, comPlanner, timeSinceReset, clock.atStance - c.resetTime))
  }

  /** The resume step at robot time `now`: clears both stop flags and adds
      one semaphore unit. Leaving the stopped state (-1) skips 0 and ends at
      1, and shifts the gait origin by the time spent stopped. */
  function ForwardOne(c: Controller, now: real): (r: Controller)
    ensures !r.robotStop && !r.stop
    ensures c.swingSemaphore == -1 ==> r.swingSemaphore == 1 && r.resetTime == c.resetTime + (now - c.stopTick)
    ensures c.swingSemaphore != -1 ==> r.swingSemaphore == c.swingSemaphore + 1 && r.resetTime == c.resetTime
    ensures r.swingSemaphore != 0
    ensures r.timeSinceReset == c.timeSinceReset && r.stopTick == c.stopTick
  {
    var bumped := c.(robotStop := false, stop := false, swingSemaphore := c.swingSemaphore + 1);
    if bumped.swingSemaphore == 0 then
      bumped.(swingSemaphore := bumped.swingSemaphore + 1,
              resetTime := bumped.resetTime + (now - bumped.stopTick))
    else bumped
  }

  /** The handshake invariant: the semaphore never drops below -1, and the
      robot is stopped exactly when the semaphore is -1. */
  predicate HandshakeInvariant(c: Controller)
  {
    c.swingSemaphore >= -1 && (c.robotStop <==> c.swingSemaphore == -1)
  }

  /** While stopped, the frozen gait time lags the stop tick by `lag`, the
      clock time that passed between the gait-time reading and the stop-tick
      reading of the tick that stopped the robot. */
  predicate FrozenAtStop(c: Controller, lag: real)
  {
    c.robotStop ==> c.timeSinceReset == c.stopTick - c.resetTime - lag
  }

  /** A tick keeps the handshake invariant. A tick that stops the robot
      freezes the gait time `clock.atStop - clock.atGait` before the stop
      tick; a stopped robot keeps whatever lag it had. */
  lemma UpdatePreservesInvariant(c: Controller, clock: ClockReads, mode: LocomotionMode,
                                 newLeg: seq<LegState>, curLeg: seq<LegState>)
    requires IsLegVector(newLeg) && IsLegVector(curLeg)
    requires HandshakeInvariant(c)
    ensures HandshakeInvariant(Update(c, clock, mode, newLeg, curLeg).next)
    ensures !c.robotStop ==> FrozenAtStop(Update(c, clock, mode, newLeg, curLeg).next, clock.atStop - clock.atGait)
    ensures forall lag :: FrozenAtStop(c, lag) && c.robotStop ==> FrozenAtStop(Update(c, clock, mode, newLeg, curLeg).next, lag)
  {
  }

  lemma ForwardOnePreservesInvariant(c: Controller, now: real)
    requires HandshakeInvariant(c)
    ensures HandshakeInvariant(ForwardOne(c, now))
    ensures !ForwardOne(c, now).robotStop
    ensures ForwardOne(c, now).swingSemaphore >= 1
  {
  }

  /** A stopped controller is a fixed point of Update: the clock stays
      frozen and further swing starts change nothing. */
  lemma StoppedUpdateIsIdle(c: Controller, clock: ClockReads, mode: LocomotionMode,
                            newLeg: seq<LegState>, curLeg: seq<LegState>)
    requires IsLegVector(newLeg) && IsLegVector(curLeg)
    requires HandshakeInvariant(c) && c.robotStop
    ensures Update(c, clock, mode, newLeg, curLeg).next == c
  {
  }

  /** After Reset at `t0`, a tick of a running robot measures both the gait
      time and the stance controller's time from `t0`. */
  lemma ResetThenUpdate(c: Controller, t0: real, clock: ClockReads, mode: LocomotionMode,
                        newLeg: seq<LegState>, curLeg: seq<LegState>)
    requires IsLegVector(newLeg) && IsLegVector(curLeg)
    requires !c.robotStop
    ensures Update(Reset(c, t0), clock, mode, newLeg, curLeg).next.timeSinceReset == clock.atGait - t0
    ensures Update(Reset(c, t0), clock, mode, newLeg, curLeg).times.stance == clock.atStance - t0
  {
  }

  /** The events that drive the controller: a control tick, the resume call
      and a reset, each at a robot time. */
  datatype Event =
    | Tick(clock: ClockReads, mode: LocomotionMode, newLeg: seq<LegState>, curLeg: seq<LegState>)
    | Resume(now: real)
    | ResetAt(now: real)

  predicate WellFormedEvent(e: Event)
  {
    e.Tick? ==> IsLegVector(e.newLeg) && IsLegVector(e.curLeg)
  }

  function Step(c: Controller, e: Event): Controller
    requires WellFormedEvent(e)
  {
    match e
    case Tick(clock, mode, newLeg, curLeg) => Update(c, clock, mode, newLeg, curLeg).next
    case Resume(now) => ForwardOne(c, now)
    case ResetAt(now) => Reset(c, now)
  }

  function Run(c: Controller, events: seq<Event>): Controller
    requires forall i :: 0 <= i < |events| ==> WellFormedEvent(events[i])
    decreases |events|
  {
    if |events| == 0 then c else Run(Step(c, events[0]), events[1..])
  }

  /** Whatever sequence of ticks, resumes and resets follows, the handshake
      invariant holds: the semaphore stays at -1 or above and the robot is
      stopped exactly when it is -1. */
  lemma {:induction false} RunPreservesInvariant(c: Controller, events: seq<Event>)
    requires forall i :: 0 <= i < |events| ==> WellFormedEvent(events[i])
    requires HandshakeInvariant(c)
    ensures HandshakeInvariant(Run(c, events))
    ensures Run(c, events).swingSemaphore >= -1
    decreases |events|
  {
    if |events| > 0 {
      match events[0] {
        case Tick(clock, mode, newLeg, curLeg) => UpdatePreservesInvariant(c, clock, mode, newLeg, curLeg);
        case Resume(now) => ForwardOnePreservesInvariant(c, now);
        case ResetAt(now) =>
      }
      RunPreservesInvariant(Step(c, events[0]), events[1..]);
    }
  }

  /** The semaphore bound on its own: whatever ticks, resumes and resets
      follow, a semaphore starting at -1 or above never drops below -1. */
  lemma {:induction false} RunKeepsSemaphoreBound(c: Controller, events: seq<Event>)
    requires forall i :: 0 <= i < |events| ==> WellFormedEvent(events[i])
    requires c.swingSemaphore >= -1
    ensures Run(c, events).swingSemaphore >= -1
    decreases |events|
  {
    if |events| > 0 {
      RunKeepsSemaphoreBound(Step(c, events[0]), events[1..]);
    }
  }

  /** Any number of ticks while stopped leaves the controller unchanged. */
  lemma {:induction false} StoppedTicksAreIdle(c: Controller, ticks: seq<Event>)
    requires forall i :: 0 <= i < |ticks| ==> WellFormedEvent(ticks[i]) && ticks[i].Tick?
    requires HandshakeInvariant(c) && c.robotStop
    ensures Run(c, ticks) == c
    decreases |ticks|
  {
    if |ticks| > 0 {
      var e := ticks[0];
      StoppedUpdateIsIdle(c, e.clock, e.mode, e.newLeg, e.curLeg);
      StoppedTicksAreIdle(c, ticks[1..]);
    }
  }

  /** Gait time across a stop and resume. A running controller with no
      semaphore unit left stops at the first swing start, on a tick whose
      clock readings are `ts`; ticks while stopped change nothing; the resume
      at `tResume` shifts the origin by the time since the latched stop tick.
      The next tick continues from the gait time frozen at the stop, advanced
      by `tNext.atGait - tResume` and by the clock time that passed inside
      the stopping tick between its gait-time and stop-tick readings. Only
      when those two readings coincide is the gait time continuous. */
  lemma {:induction false} GaitTimeAcrossStop(
    c: Controller, ts: ClockReads, stopNew: seq<LegState>, stopCur: seq<LegState>,
    stoppedTicks: seq<Event>, tResume: real,
    tNext: ClockReads, mode: LocomotionMode, newLeg: seq<LegState>, curLeg: seq<LegState>)
    requires HandshakeInvariant(c) && c.swingSemaphore == 0
    requires IsLegVector(stopNew) && IsLegVector(stopCur) && SwitchToSwing(stopNew, stopCur)
    requires IsLegVector(newLeg) && IsLegVector(curLeg)
    requires forall i :: 0 <= i < |stoppedTicks| ==> WellFormedEvent(stoppedTicks[i]) && stoppedTicks[i].Tick?
    ensures var stopped := Update(c, ts, WalkLocomotion, stopNew, stopCur).next;
            var waited := Run(stopped, stoppedTicks);
            var resumed := ForwardOne(waited, tResume);
            var after := Update(resumed, tNext, mode, newLeg, curLeg).next;
            && stopped.robotStop && stopped.swingSemaphore == -1 && stopped.stopTick == ts.atStop
            && stopped.timeSinceReset == ts.atGait - c.resetTime
            && waited == stopped
            && !resumed.robotStop && resumed.swingSemaphore == 1
            && after.timeSinceReset == stopped.timeSinceReset + (ts.atStop - ts.atGait) + (tNext.atGait - tResume)
            && (ts.atStop == ts.atGait && tNext.atGait == tResume ==> after.timeSinceReset == stopped.timeSinceReset)
  {
    var stopped := Update(c, ts, WalkLocomotion, stopNew, stopCur).next;
    UpdatePreservesInvariant(c, ts, WalkLocomotion, stopNew, stopCur);
    StoppedTicksAreIdle(stopped, stoppedTicks);
  }

  /** The swing command wins for a joint; otherwise the stance command, and
      a joint neither controller mentions gets the value-initialised command
      that `std::map::operator[]` inserts. */
  function PreferSwing(swingAction: map<int, MotorCommand>, stanceAction: map<int, MotorCommand>,
                       jointId: int): MotorCommand
  {
    if jointId in swingAction then swingAction[jointId]
    else if jointId in stanceAction then stanceAction[jointId]
    else ZeroCommand
  }

  /** The joint loop of GetAction: one command per motor, in joint order. */
  method MergeActions(numMotors: int, swingAction: map<int, MotorCommand>,
                      stanceAction: map<int, MotorCommand>) returns (action: seq<MotorCommand>)
    ensures |action| == if numMotors > 0 then numMotors else 0
    ensures forall j :: 0 <= j < |action| && j in swingAction ==> action[j] == swingAction[j]
    ensures forall j :: 0 <= j < |action| && j !in swingAction && j in stanceAction ==> action[j] == stanceAction[j]
    ensures forall j :: 0 <= j < |action| && j !in swingAction && j !in stanceAction ==> action[j] == ZeroCommand
  {
    action := [];
    var jointId := 0;
    while jointId < numMotors
      invariant 0 <= jointId && |action| == jointId
      invariant numMotors > 0 ==> jointId <= numMotors
      invariant numMotors <= 0 ==> jointId == 0
      invariant forall j :: 0 <= j < jointId ==> action[j] == PreferSwing(swingAction, stanceAction, j)
    {
      if jointId in swingAction {
        action := action + [swingAction[jointId]];
      } else {
        var stanceCommand := if jointId in stanceAction then stanceAction[jointId] else ZeroCommand;
        action := action + [stanceCommand];
      }
      jointId := jointId + 1;
    }
  }

  /** What GetAction leaves behind: the commands stored in the controller's
      `action` member, the command vector handed back to the caller, and the
      stance controller's 3 x 4 force solution. */
  datatype Action = Action(stored: seq<MotorCommand>, returned: seq<MotorCommand>, forces: Matrix)

  /** GetAction as written: the merged commands go to the member vector,
      but the vector returned is a fresh local one that is never filled. */
  method GetActionAsWritten(numMotors: int, swingAction: map<int, MotorCommand>,
                            stanceAction: map<int, MotorCommand>, qpSol: Matrix) returns (a: Action)
    requires IsMatrix(qpSol, 3, 4)
    ensures a.returned == []
    ensures |a.stored| == if numMotors > 0 then numMotors else 0
    ensures forall j :: 0 <= j < |a.stored| ==> a.stored[j] == PreferSwing(swingAction, stanceAction, j)
    ensures a.forces == qpSol
    ensures numMotors > 0 ==> a.returned != a.stored
  {
    var merged := MergeActions(numMotors, swingAction, stanceAction);
    var local: seq<MotorCommand> := [];
    a := Action(merged, local, qpSol);
  }

  /** GetAction as evidently intended: the caller receives the merged commands. */
  method GetAction(numMotors: int, swingAction: map<int, MotorCommand>,
                   stanceAction: map<int, MotorCommand>, qpSol: Matrix) returns (a: Action)
    requires IsMatrix(qpSol, 3, 4)
    ensures a.returned == a.stored
    ensures |a.returned| == if numMotors > 0 then numMotors else 0
    ensures forall j :: 0 <= j < |a.returned| && j in swingAction ==> a.returned[j] == swingAction[j]
    ensures forall j :: 0 <= j < |a.returned| && j !in swingAction && j in stanceAction ==> a.returned[j] == stanceAction[j]
    ensures forall j :: 0 <= j < |a.returned| && j !in swingAction && j !in stanceAction ==> a.returned[j] == ZeroCommand
    ensures forall j :: 0 <= j < |a.returned| ==> a.returned[j] == PreferSwing(swingAction, stanceAction, j)
    ensures a.forces == qpSol
  {
    var merged := MergeActions(numMotors, swingAction, stanceAction);
    a := Action(merged, merged, qpSol);
  }

  /** The zero 3 x 4 force matrix. */
  predicate IsZeroForces(m: Matrix)
  {
    IsMatrix(m, 3, 4) && forall i, j :: 0 <= i < 3 && 0 <= j < 4 ==> m[i][j] == 0.0
  }

  /** The joint loop of GetFakeAction: one all-zero command per motor. */
  method ZeroActions(numMotors: int) returns (action: seq<MotorCommand>)
    ensures |action| == if numMotors > 0 then numMotors else 0
    ensures forall j :: 0 <= j < |action| ==> action[j] == ZeroCommand
  {
    action := [];
    var jointId := 0;
    while jointId < numMotors
      invariant 0 <= jointId && |action| == jointId
      invariant numMotors > 0 ==> jointId <= numMotors
      invariant numMotors <= 0 ==> jointId == 0
      invariant forall j :: 0 <= j < jointId ==> action[j] == ZeroCommand
    {
      action := action + [ZeroCommand];
      jointId := jointId + 1;
    }
  }

  /** GetFakeAction as written: zero commands are stored, the returned vector
      is the unfilled local one, and the force matrix is zero. */
  method GetFakeActionAsWritten(numMotors: int) returns (a: Action)
    ensures a.returned == []
    ensures |a.stored| == if numMotors > 0 then numMotors else 0
    ensures forall j :: 0 <= j < |a.stored| ==> a.stored[j] == ZeroCommand
    ensures IsZeroForces(a.forces)
    ensures numMotors > 0 ==> a.returned != a.stored
  {
    var zeros := ZeroActions(numMotors);
    a := Action(zeros, [], [[0.0, 0.0, 0.0, 0.0], [0.0, 0.0, 0.0, 0.0], [0.0, 0.0, 0.0, 0.0]]);
  }

  /** GetFakeAction as evidently intended: the caller receives the zero commands. */
  method GetFakeAction(numMotors: int) returns (a: Action)
    ensures a.returned == a.stored
    ensures |a.returned| == if numMotors > 0 then numMotors else 0
    ensures forall j :: 0 <= j < |a.returned| ==> a.returned[j] == ZeroCommand
    ensures IsZeroForces(a.forces)
  {
    var zeros := ZeroActions(numMotors);
    a := Action(zeros, zeros, [[0.0, 0.0, 0.0, 0.0], [0.0, 0.0, 0.0, 0.0], [0.0, 0.0, 0.0, 0.0]]);
  }
}
