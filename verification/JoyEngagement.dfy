/** The joystick's hold on the drive (joy_teleop_node.cpp), told from the messages, parameters
    and ticks of a run alone, and from the raw axes and buttons. */
module JoyEngagement {

  import opened JoyLease
  import opened Options
  import opened Scaling

  // ---------------------------------------------------------------- reading a run

  /** The axis is there and not at rest: not zero, and at the edge of the dead zone or outside it. */
  predicate Deflected(axes: seq<real>, idx: int, deadzone: real)
  {
    0 <= idx < |axes| && axes[idx] != 0.0 && (axes[idx] <= -deadzone || deadzone <= axes[idx])
  }

  predicate Pressed(buttons: seq<int>, idx: int)
  {
    0 <= idx < |buttons| && buttons[idx] != 0
  }

  /** The mapping in force after the run. */
  function MappingAt(m: Mapping, run: seq<Action>): Mapping
    decreases |run|
  {
    if run == [] then m
    else if run[|run| - 1].Remap? then run[|run| - 1].m
    else MappingAt(m, run[..|run| - 1])
  }

  /** The last boolean given for "enabled" in a list of parameters, if any. */
  function LastFlag(params: seq<Param>): Option<bool>
    decreases |params|
  {
    if params == [] then None
    else if params[|params| - 1].name == "enabled" && params[|params| - 1].flag.Some? then params[|params| - 1].flag
    else LastFlag(params[..|params| - 1])
  }

  function EnabledAt(enabled: bool, run: seq<Action>): bool
    decreases |run|
  {
    if run == [] then enabled
    else if run[|run| - 1].OnParamSet? && LastFlag(run[|run| - 1].params).Some?
    then LastFlag(run[|run| - 1].params).value
    else EnabledAt(enabled, run[..|run| - 1])
  }

  predicate LatestJoy(run: seq<Action>, k: nat)
  {
    k < |run| && run[k].OnJoy? && forall j | k < j < |run| :: !run[j].OnJoy?
  }

  /** The node is switched on and the latest joystick message, k, is at most 0.5 s old. */
  predicate FreshAt(enabled: bool, run: seq<Action>, now: int, k: nat)
  {
    LatestJoy(run, k) && EnabledAt(enabled, run) && now - run[k].now <= 500000000
  }

  /** ... and that message has a drive stick deflected, or held the e-stop as it was mapped when
      the message came. */
  predicate UsedBy(m: Mapping, enabled: bool, run: seq<Action>, now: int, k: nat)
  {
    && FreshAt(enabled, run, now, k)
    && var map_ := MappingAt(m, run);
       && map_.deadman < 0
       && (|| Deflected(run[k].joy.axes, map_.axisSpeed, map_.deadzone)
           || Deflected(run[k].joy.axes, map_.axisSteering, map_.deadzone)
           || Pressed(run[k].joy.buttons, MappingAt(m, run[..k]).estopButton))
  }

  /** Step j is a tick, at or after time 0 and at most 0.3 s before `now`, at which the controls
      were in use. */
  ghost predicate UsedShortlyBefore(m: Mapping, enabled: bool, run: seq<Action>, now: int, j: nat)
  {
    && j < |run| && run[j].Tick? && run[j].now >= 0 && now - run[j].now <= 300000000
    && exists k: nat :: UsedBy(m, enabled, run[..j], run[j].now, k)
  }

  // ---------------------------------------------------------------- what the node remembers

  lemma {:induction false} FlagsDecide(s: State, params: seq<Param>)
    ensures DoParams(s, params).enabled == if LastFlag(params).Some? then LastFlag(params).value else s.enabled
    decreases |params|
  {
    if params != [] {
      FlagsDecide(s, params[..|params| - 1]);
    }
  }

  lemma {:induction false} SettingsAre(m: Mapping, enabled: bool, run: seq<Action>)
    ensures var s := After(Started(m, enabled), run);
            s.map_ == MappingAt(m, run) && s.enabled == EnabledAt(enabled, run)
    decreases |run|
  {
    if run != [] {
      var rest, a := run[..|run| - 1], run[|run| - 1];
      SettingsAre(m, enabled, rest);
      if a.OnParamSet? {
        FlagsDecide(After(Started(m, enabled), rest), a.params);
        ParamsKeepInput(After(Started(m, enabled), rest), a.params);
      }
    }
  }

  // What is remembered of the joystick: its latest message, when that came, and whether it held
  // the e-stop; nothing if there was none.
  lemma {:induction false} RemembersLatest(m: Mapping, enabled: bool, run: seq<Action>)
    ensures var s := After(Started(m, enabled), run);
            && (s.joy.Some? <==> exists k: nat :: LatestJoy(run, k))
            && forall k: nat | LatestJoy(run, k) ::
                 && s.joy == Some(run[k].joy) && s.joyTime == run[k].now
                 && (s.estop <==> Pressed(run[k].joy.buttons, MappingAt(m, run[..k]).estopButton))
    decreases |run|
  {
    if run != [] {
      var n := |run| - 1;
      var rest, a := run[..n], run[n];
      var s := After(Started(m, enabled), rest);
      if a.OnJoy? {
        SettingsAre(m, enabled, rest);
        assert LatestJoy(run, n);
        assert forall k: nat | LatestJoy(run, k) :: k == n;
      } else {
        RemembersLatest(m, enabled, rest);
        KeepsJoy(s, a);
        forall k: nat
          ensures LatestJoy(run, k) <==> LatestJoy(rest, k)
          ensures k < n ==> run[..k] == rest[..k]
        {
          LatestJoyStep(run, k);
        }
      }
    }
  }

  lemma KeepsJoy(s: State, a: Action)
    requires !a.OnJoy?
    ensures var s' := Do(s, a); s'.joy == s.joy && s'.joyTime == s.joyTime && s'.estop == s.estop
  {
    if a.OnParamSet? {
      ParamsKeepJoy(s, a.params);
    }
  }

  lemma {:induction false} ParamsKeepJoy(s: State, params: seq<Param>)
    ensures var s' := DoParams(s, params); s'.joy == s.joy && s'.joyTime == s.joyTime && s'.estop == s.estop
    decreases |params|
  {
    if params != [] {
      ParamsKeepJoy(s, params[..|params| - 1]);
    }
  }

  lemma LatestJoyStep(run: seq<Action>, k: nat)
    requires run != [] && !run[|run| - 1].OnJoy?
    ensures LatestJoy(run, k) <==> LatestJoy(run[..|run| - 1], k)
    ensures k < |run| - 1 ==> run[..k] == run[..|run| - 1][..k]
  {
    var n := |run| - 1;
    if LatestJoy(run[..n], k) {
      forall j | k < j < |run|
        ensures !run[j].OnJoy?
      {
        assert j < n ==> run[..n][j] == run[j];
      }
    }
  }

  // ---------------------------------------------------------------- when it is engaged

  lemma AxisAtRest(joy: Joy, idx: int, deadzone: real)
    ensures Axis(joy, idx, deadzone, false) != 0.0 <==> Deflected(joy.axes, idx, deadzone)
  {
  }

  lemma LiveMeans(m: Mapping, enabled: bool, run: seq<Action>, now: int)
    ensures Live(After(Started(m, enabled), run), now) <==> exists k: nat :: FreshAt(enabled, run, now, k)
  {
    SettingsAre(m, enabled, run);
    RemembersLatest(m, enabled, run);
    var s := After(Started(m, enabled), run);
    if s.joy.Some? {
      var k: nat :| LatestJoy(run, k);
      assert forall j: nat | LatestJoy(run, j) :: j == k;
      assert Live(s, now) <==> FreshAt(enabled, run, now, k);
    }
  }

  lemma OperatedMeans(m: Mapping, enabled: bool, run: seq<Action>, now: int)
    ensures Operated(After(Started(m, enabled), run), now) <==> exists k: nat :: UsedBy(m, enabled, run, now, k)
  {
    SettingsAre(m, enabled, run);
    RemembersLatest(m, enabled, run);
    var s := After(Started(m, enabled), run);
    if s.joy.Some? {
      AxisAtRest(s.joy.value, s.map_.axisSpeed, s.map_.deadzone);
      AxisAtRest(s.joy.value, s.map_.axisSteering, s.map_.deadzone);
      var k: nat :| LatestJoy(run, k);
      assert forall j: nat | LatestJoy(run, j) :: j == k;
      assert Operated(s, now) <==> UsedBy(m, enabled, run, now, k);
    }
  }

  // After every tick of every run, as the messages themselves say: without a fresh message of a
  // switched-on joystick it is not engaged; with no engage button it is engaged if and only if
  // a tick of the last 0.3 s, this one included, found a stick deflected or the e-stop held;
  // with one, if and only if the latest message has that button pressed.
  lemma EngagedFromInputs(m: Mapping, enabled: bool, run: seq<Action>)
    requires run != [] && run[|run| - 1].Tick? && TicksInOrder(run)
    ensures var rest, now := run[..|run| - 1], run[|run| - 1].now;
            After(Started(m, enabled), run).engaged <==>
              exists k: nat ::
                && FreshAt(enabled, rest, now, k)
                && if MappingAt(m, rest).deadman < 0
                   then exists j: nat :: UsedShortlyBefore(m, enabled, run, now, j)
                   else Pressed(rest[k].joy.buttons, MappingAt(m, rest).deadman)
  {
    var rest, now := run[..|run| - 1], run[|run| - 1].now;
    var s := After(Started(m, enabled), rest);
    LiveMeans(m, enabled, rest, now);
    SettingsAre(m, enabled, rest);
    if Live(s, now) {
      if s.map_.deadman < 0 {
        WithoutButton(m, enabled, run);
      } else {
        RemembersLatest(m, enabled, rest);
      }
    }
  }

  lemma WithoutButton(m: Mapping, enabled: bool, run: seq<Action>)
    requires run != [] && run[|run| - 1].Tick? && TicksInOrder(run)
    requires var s := After(Started(m, enabled), run[..|run| - 1]); Live(s, run[|run| - 1].now) && s.map_.deadman < 0
    ensures var now := run[|run| - 1].now;
            After(Started(m, enabled), run).engaged <==> exists j: nat :: UsedShortlyBefore(m, enabled, run, now, j)
  {
    var s0, now := Started(m, enabled), run[|run| - 1].now;
    EngagedIffOperatedRecently(m, enabled, run);
    forall j: nat | j < |run| && run[j].Tick?
      ensures UsedShortlyBefore(m, enabled, run, now, j) <==> OperatedAt(s0, run, j) && Recent(run, j)
    {
      OperatedMeans(m, enabled, run[..j], run[j].now);
    }
  }

  // ---------------------------------------------------------------- what a stick commands

  /** Nothing where it is not mapped or strictly inside the dead zone; otherwise in proportion,
      the full value from 1 on, and the other way if inverted. */
  function Wanted(axes: seq<real>, idx: int, deadzone: real, invert: bool, full: real): real
  {
    if idx < 0 || idx >= |axes| || (-deadzone < axes[idx] && axes[idx] < deadzone) then 0.0
    else
      var v := if invert then 0.0 - axes[idx] else axes[idx];
      if v >= 1.0 then full else if v <= -1.0 then -full else v * full
  }

  lemma StickCommands(joy: Joy, idx: int, deadzone: real, invert: bool, full: real)
    requires full > 0.0
    ensures Clip(Axis(joy, idx, deadzone, invert) * full, full) == Wanted(joy.axes, idx, deadzone, invert, full)
  {
    var v := Axis(joy, idx, deadzone, invert);
    if v > 1.0 {
      ScaleLess(1.0, v, full);
    } else if v < -1.0 {
      ScaleLess(v, -1.0, full);
    } else {
      if v < 1.0 {
        ScaleLess(v, 1.0, full);
      }
      if -1.0 < v {
        ScaleLess(-1.0, v, full);
      }
    }
  }

  // A live tick of an engaged joystick without e-stop sends the speed and the steering angle its
  // latest message asks for, and then its status.
  lemma TickCommands(m: Mapping, enabled: bool, run: seq<Action>, now: int, k: nat)
    requires FreshAt(enabled, run, now, k) && !Pressed(run[k].joy.buttons, MappingAt(m, run[..k]).estopButton)
    requires After(Started(m, enabled), run + [Tick(now)]).engaged
    requires MappingAt(m, run).maxSpeed > 0.0 && MappingAt(m, run).maxSteering > 0.0
    ensures var axes, map_ := run[k].joy.axes, MappingAt(m, run);
            After(Started(m, enabled), run + [Tick(now)]).sent == After(Started(m, enabled), run).sent + [
              Speed(Wanted(axes, map_.axisSpeed, map_.deadzone, map_.invertSpeed, map_.maxSpeed)),
              Steer(Wanted(axes, map_.axisSteering, map_.deadzone, map_.invertSteering, map_.maxSteering)),
              Status(true)]
  {
    var s, map_ := After(Started(m, enabled), run), MappingAt(m, run);
    SettingsAre(m, enabled, run);
    RemembersLatest(m, enabled, run);
    LiveMeans(m, enabled, run, now);
    assert (run + [Tick(now)])[..|run|] == run;
    CommandingTickSends(s, now);
    SpeedStickCommands(map_, run[k].joy);
    SteeringStickCommands(map_, run[k].joy);
  }

  lemma SpeedStickCommands(m: Mapping, joy: Joy)
    requires m.maxSpeed > 0.0
    ensures SpeedOf(m, joy) == Wanted(joy.axes, m.axisSpeed, m.deadzone, m.invertSpeed, m.maxSpeed)
  {
    StickCommands(joy, m.axisSpeed, m.deadzone, m.invertSpeed, m.maxSpeed);
  }

  lemma SteeringStickCommands(m: Mapping, joy: Joy)
    requires m.maxSteering > 0.0
    ensures SteeringOf(m, joy) == Wanted(joy.axes, m.axisSteering, m.deadzone, m.invertSteering, m.maxSteering)
  {
    StickCommands(joy, m.axisSteering, m.deadzone, m.invertSteering, m.maxSteering);
  }

  lemma CommandingTickSends(s: State, now: int)
    requires Live(s, now) && DoTick(s, now).engaged && !s.estop
    ensures DoTick(s, now).sent ==
              s.sent + [Speed(SpeedOf(s.map_, s.joy.value)), Steer(SteeringOf(s.map_, s.joy.value)), Status(true)]
  {
    var speed, steer := Speed(SpeedOf(s.map_, s.joy.value)), Steer(SteeringOf(s.map_, s.joy.value));
    assert DoTick(s, now).sent == s.sent + [speed, steer] + [Status(true)];
    assert [speed, steer] + [Status(true)] == [speed, steer, Status(true)];
  }
}
