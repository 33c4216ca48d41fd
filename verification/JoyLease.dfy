/** The joystick node (joy_teleop_node.cpp): when it takes the drive, when it lets go and what
    it sends, and the lease the driver keeps for it. The camera half is the same with other
    controls. */
module JoyLease {

  import D = DriverControl
  import opened Options
  import opened Scaling

  const ENGAGE_HOLD_NS := 300000000
  const STALE_NS := 500000000
  const STATUS_TIMEOUT := 0.5
  const SOURCE := "joy"

  datatype Joy = Joy(axes: seq<real>, buttons: seq<int>)

  /** The drive half of the mapping; an index of -1 is unmapped. */
  datatype Mapping = Mapping(
    axisSpeed: int, axisSteering: int, deadman: int, estopButton: int, deadzone: real,
    maxSpeed: real, maxSteering: real, invertSpeed: bool, invertSteering: bool)

  /** A parameter being set; no flag if it is not a boolean. */
  datatype Param = Param(name: string, flag: Option<bool>)

  datatype Message = Speed(v: real) | Steer(degrees: real) | Status(drive: bool)

  datatype State = State(
    map_: Mapping, enabled: bool, joy: Option<Joy>, joyTime: int, engaged: bool, inputNs: int, estop: bool,
    sent: seq<Message>)

  function Started(m: Mapping, enabled: bool): State
  {
    State(m, enabled, None, 0, false, -1, false, [])
  }

  // ---------------------------------------------------------------- reading the controls

  function Axis(joy: Joy, idx: int, deadzone: real, invert: bool): real
  {
    if idx < 0 || idx >= |joy.axes| then 0.0
    else
      var v := joy.axes[idx];
      if -deadzone < v < deadzone then 0.0 else if invert then -v else v
  }

  predicate Button(joy: Joy, idx: int)
  {
    0 <= idx < |joy.buttons| && joy.buttons[idx] != 0
  }

  function Clip(v: real, limit: real): real
  {
    if v > limit then limit else if v < -limit then -limit else v
  }

  predicate StickActive(joy: Joy, m: Mapping)
  {
    Axis(joy, m.axisSpeed, m.deadzone, false) != 0.0 || Axis(joy, m.axisSteering, m.deadzone, false) != 0.0
  }

  // ---------------------------------------------------------------- steps

  datatype Action =
    | OnJoy(joy: Joy, now: int)
    | Tick(now: int)
    | OnParamSet(params: seq<Param>)
    | Remap(m: Mapping)

  predicate Live(s: State, now: int)
  {
    s.enabled && s.joy.Some? && now - s.joyTime <= STALE_NS
  }

  /** The tick at this time finds the drive controls in use. */
  predicate Operated(s: State, now: int)
  {
    Live(s, now) && s.map_.deadman < 0 && (StickActive(s.joy.value, s.map_) || s.estop)
  }

  function SpeedOf(m: Mapping, joy: Joy): real
  {
    Clip(Axis(joy, m.axisSpeed, m.deadzone, m.invertSpeed) * m.maxSpeed, m.maxSpeed)
  }

  function SteeringOf(m: Mapping, joy: Joy): real
  {
    Clip(Axis(joy, m.axisSteering, m.deadzone, m.invertSteering) * m.maxSteering, m.maxSteering)
  }

  function DriveMessages(m: Mapping, joy: Joy, engaged: bool, estop: bool, was: bool): seq<Message>
  {
    if engaged && !estop then [Speed(SpeedOf(m, joy)), Steer(SteeringOf(m, joy))]
    else if was && !engaged then [Speed(0.0), Steer(0.0)]
    else if estop && engaged then [Speed(0.0)]
    else []
  }

  function Sending(s: State, messages: seq<Message>): State
  {
    s.(sent := s.sent + messages + [Status(s.enabled && s.engaged)])
  }

  function DoTick(s: State, now: int): State
  {
    if !Live(s, now) then Sending(s.(engaged := false), [])
    else
      var input := if Operated(s, now) then now else s.inputNs;
      var engaged := if s.map_.deadman < 0 then input >= 0 && now - input <= ENGAGE_HOLD_NS
                     else Button(s.joy.value, s.map_.deadman);
      Sending(s.(inputNs := input, engaged := engaged), DriveMessages(s.map_, s.joy.value, engaged, s.estop, s.engaged))
  }

  function DoParam(s: State, p: Param): State
  {
    if p.name != "enabled" || p.flag.None? then s
    else Sending(s.(enabled := p.flag.value), if s.enabled && !p.flag.value then [Speed(0.0), Steer(0.0)] else [])
  }

  function DoParams(s: State, params: seq<Param>): State
    decreases |params|
  {
    if params == [] then s else DoParam(DoParams(s, params[..|params| - 1]), params[|params| - 1])
  }

  function Do(s: State, a: Action): State
  {
    match a
    case OnJoy(joy, now) => s.(joy := Some(joy), joyTime := now, estop := Button(joy, s.map_.estopButton))
    case Tick(now) => DoTick(s, now)
    case OnParamSet(params) => DoParams(s, params)
    case Remap(m) => s.(map_ := m)
  }

  function After(s: State, run: seq<Action>): State
    decreases |run|
  {
    if run == [] then s else Do(After(s, run[..|run| - 1]), run[|run| - 1])
  }

  // ---------------------------------------------------------------- when it is engaged

  /** Action k of the run is a tick that found the drive controls in use. */
  predicate OperatedAt(s: State, run: seq<Action>, k: nat)
    requires k < |run|
  {
    run[k].Tick? && Operated(After(s, run[..k]), run[k].now)
  }

  predicate LastOperated(s: State, run: seq<Action>, k: nat)
  {
    k < |run| && OperatedAt(s, run, k) && forall j: nat | k < j < |run| :: !OperatedAt(s, run, j)
  }

  lemma ParamsKeepInput(s: State, params: seq<Param>)
    ensures var s' := DoParams(s, params);
            && s'.inputNs == s.inputNs && s'.engaged == s.engaged
            && s'.joy == s.joy && s'.map_ == s.map_ && s'.estop == s.estop
    decreases |params|
  {
  }

  lemma {:induction false} OperatedPrefix(s: State, run: seq<Action>, k: nat)
    requires run != [] && k < |run| - 1
    ensures OperatedAt(s, run[..|run| - 1], k) <==> OperatedAt(s, run, k)
  {
    assert run[..|run| - 1][..k] == run[..k];
  }

  // The remembered input time is that of the last operated tick, or -1 if there was none.
  lemma {:induction false} InputIsLastOperated(s0: State, run: seq<Action>)
    requires s0.inputNs == -1
    ensures forall k: nat | LastOperated(s0, run, k) :: After(s0, run).inputNs == run[k].now
    ensures (forall k: nat | k < |run| :: !OperatedAt(s0, run, k)) ==> After(s0, run).inputNs == -1
    decreases |run|
  {
    if run != [] {
      var n := |run| - 1;
      var rest := run[..n];
      InputIsLastOperated(s0, rest);
      forall k: nat | k < n
        ensures OperatedAt(s0, rest, k) <==> OperatedAt(s0, run, k)
      {
        OperatedPrefix(s0, run, k);
      }
      InputAfter(After(s0, rest), run[n]);
      if OperatedAt(s0, run, n) {
        assert forall k: nat | LastOperated(s0, run, k) :: k == n;
      } else {
        assert forall k: nat :: LastOperated(s0, run, k) <==> LastOperated(s0, rest, k);
      }
    }
  }

  lemma InputAfter(s: State, a: Action)
    ensures Do(s, a).inputNs == if a.Tick? && Operated(s, a.now) then a.now else s.inputNs
  {
    if a.OnParamSet? {
      ParamsKeepInput(s, a.params);
    }
  }

  lemma {:induction false} SomeIsLast(s0: State, run: seq<Action>, k: nat) returns (last: nat)
    requires k < |run| && OperatedAt(s0, run, k)
    ensures k <= last && LastOperated(s0, run, last)
    decreases |run| - k
  {
    last := k;
    if j: nat :| k < j < |run| && OperatedAt(s0, run, j) {
      last := SomeIsLast(s0, run, j);
    }
  }

  // With no engage button, a live tick engages the drive if and only if the last operated
  // tick, this one included, is at most 0.3 s old: in every run, whatever the clock did.
  lemma EngagedIffLastOperated(m: Mapping, enabled: bool, run: seq<Action>)
    requires run != [] && run[|run| - 1].Tick?
    requires var s := After(Started(m, enabled), run[..|run| - 1]); Live(s, run[|run| - 1].now) && s.map_.deadman < 0
    ensures After(Started(m, enabled), run).engaged <==>
              exists k: nat :: LastOperated(Started(m, enabled), run, k) && Recent(run, k)
  {
    var s0 := Started(m, enabled);
    InputIsLastOperated(s0, run);
    if exists k: nat :: k < |run| && OperatedAt(s0, run, k) {
      var k: nat :| k < |run| && OperatedAt(s0, run, k);
      var last := SomeIsLast(s0, run, k);
      assert After(s0, run).inputNs == run[last].now;
      assert forall j: nat :: LastOperated(s0, run, j) ==> j == last;
    }
  }

  predicate Recent(run: seq<Action>, k: nat)
    requires run != [] && run[|run| - 1].Tick?
  {
    k < |run| && run[k].Tick? && run[k].now >= 0 && run[|run| - 1].now - run[k].now <= ENGAGE_HOLD_NS
  }

  predicate TicksInOrder(run: seq<Action>)
  {
    && (forall i | 0 <= i < |run| && run[i].Tick? :: run[i].now >= 0)
    && (forall i, j | 0 <= i < j < |run| && run[i].Tick? && run[j].Tick? :: run[i].now <= run[j].now)
  }

  // With a clock that does not go back, that is: if and only if some operated tick lies within
  // the last 0.3 s.
  lemma EngagedIffOperatedRecently(m: Mapping, enabled: bool, run: seq<Action>)
    requires run != [] && run[|run| - 1].Tick? && TicksInOrder(run)
    requires var s := After(Started(m, enabled), run[..|run| - 1]); Live(s, run[|run| - 1].now) && s.map_.deadman < 0
    ensures After(Started(m, enabled), run).engaged <==>
              exists k: nat :: k < |run| && OperatedAt(Started(m, enabled), run, k) && Recent(run, k)
  {
    var s0 := Started(m, enabled);
    EngagedIffLastOperated(m, enabled, run);
    if exists k: nat :: k < |run| && OperatedAt(s0, run, k) && Recent(run, k) {
      var k: nat :| k < |run| && OperatedAt(s0, run, k) && Recent(run, k);
      var last := SomeIsLast(s0, run, k);
      assert Recent(run, last);
    }
  }

  // ---------------------------------------------------------------- what it sends

  /** The last speed sent, 0 before any. */
  function LastSpeed(sent: seq<Message>): real
  {
    if sent == [] then 0.0
    else if sent[|sent| - 1].Speed? then sent[|sent| - 1].v
    else LastSpeed(sent[..|sent| - 1])
  }

  lemma LastSpeedSnoc(sent: seq<Message>, m: Message)
    ensures LastSpeed(sent + [m]) == if m.Speed? then m.v else LastSpeed(sent)
  {
    assert (sent + [m])[..|sent|] == sent;
  }

  lemma LastSpeedOfSending(s: State, messages: seq<Message>)
    requires messages == [] || (messages[0].Speed? && |messages| <= 2 && (|messages| == 2 ==> messages[1].Steer?))
    ensures LastSpeed(Sending(s, messages).sent) == if messages == [] then LastSpeed(s.sent) else messages[0].v
  {
    LastSpeedSnoc(s.sent + messages, Status(s.enabled && s.engaged));
    if |messages| == 1 {
      LastSpeedSnoc(s.sent, messages[0]);
      assert messages == [messages[0]];
    } else if |messages| == 2 {
      LastSpeedSnoc(s.sent, messages[0]);
      LastSpeedSnoc(s.sent + [messages[0]], messages[1]);
      assert s.sent + messages == s.sent + [messages[0]] + [messages[1]];
    } else {
      assert s.sent + messages == s.sent;
    }
  }

  /** A tick that takes the drive away without a word: the joystick has gone stale. */
  predicate SilentRelease(s: State, a: Action)
  {
    a.Tick? && s.enabled && s.engaged && !Live(s, a.now)
  }

  predicate Inv(s: State)
  {
    (s.engaged ==> s.joy.Some?) && ((s.enabled && s.engaged) || LastSpeed(s.sent) == 0.0)
  }

  lemma TickKeepsInv(s: State, now: int)
    requires Inv(s) && !SilentRelease(s, Tick(now))
    ensures Inv(DoTick(s, now))
  {
    if !Live(s, now) {
      LastSpeedOfSending(s.(engaged := false), []);
    } else {
      var s1 := DoTick(s, now).(sent := s.sent);
      LastSpeedOfSending(s1, DriveMessages(s.map_, s.joy.value, s1.engaged, s.estop, s.engaged));
    }
  }

  lemma {:induction false} ParamsKeepInv(s: State, params: seq<Param>)
    requires Inv(s)
    ensures Inv(DoParams(s, params))
    decreases |params|
  {
    if params != [] {
      var p := params[|params| - 1];
      ParamsKeepInv(s, params[..|params| - 1]);
      var s1 := DoParams(s, params[..|params| - 1]);
      if p.name == "enabled" && p.flag.Some? {
        var zeros := if s1.enabled && !p.flag.value then [Speed(0.0), Steer(0.0)] else [];
        LastSpeedOfSending(s1.(enabled := p.flag.value), zeros);
      }
    }
  }

  // In every run without a silent release, whenever the joystick does not have the drive the
  // last speed it sent is 0: every release by input, by button and by switching it off sends
  // one.
  lemma {:induction false} ReleasedMeansStopped(m: Mapping, enabled: bool, run: seq<Action>)
    requires forall k: nat | k < |run| :: !SilentRelease(After(Started(m, enabled), run[..k]), run[k])
    ensures Inv(After(Started(m, enabled), run))
    decreases |run|
  {
    if run != [] {
      var n := |run| - 1;
      var rest := run[..n];
      forall k: nat | k < n
        ensures !SilentRelease(After(Started(m, enabled), rest[..k]), rest[k])
      {
        assert rest[..k] == run[..k];
      }
      ReleasedMeansStopped(m, enabled, rest);
      var s := After(Started(m, enabled), rest);
      match run[n] {
        case OnJoy(_, _) =>
        case Remap(_) =>
        case Tick(now) => TickKeepsInv(s, now);
        case OnParamSet(params) => ParamsKeepInv(s, params);
      }
    }
  }

  // A tick that releases the drive sends a zero speed if and only if it is live; a stale one
  // leaves the last speed as it was.
  lemma ReleaseSendsZeroIffLive(s: State, now: int)
    requires s.engaged && !DoTick(s, now).engaged
    ensures DoTick(s, now).sent == s.sent + (if Live(s, now) then [Speed(0.0), Steer(0.0)] else []) + [Status(false)]
    ensures !Live(s, now) ==> LastSpeed(DoTick(s, now).sent) == LastSpeed(s.sent)
  {
    if !Live(s, now) {
      LastSpeedOfSending(s.(engaged := false), []);
    }
  }

  // What a stick commands: nothing inside its dead zone or where it is not mapped, otherwise a
  // speed of its own direction (the opposite one if inverted), never above the maximum.
  lemma SpeedFollowsStick(m: Mapping, joy: Joy)
    requires m.maxSpeed > 0.0 && m.deadzone >= 0.0
    ensures -m.maxSpeed <= SpeedOf(m, joy) <= m.maxSpeed
    ensures SpeedOf(m, joy) == 0.0 <==> Axis(joy, m.axisSpeed, m.deadzone, false) == 0.0
    ensures SpeedOf(m, joy) > 0.0 <==>
              if m.invertSpeed then Axis(joy, m.axisSpeed, m.deadzone, false) < 0.0
              else Axis(joy, m.axisSpeed, m.deadzone, false) > 0.0
  {
    SignOfProduct(Axis(joy, m.axisSpeed, m.deadzone, m.invertSpeed), m.maxSpeed);
  }

  lemma SignOfProduct(a: real, k: real)
    requires k > 0.0
    ensures (a * k > 0.0 <==> a > 0.0) && (a * k < 0.0 <==> a < 0.0)
  {
    if a > 0.0 {
      ScaleLess(0.0, a, k);
    } else if a < 0.0 {
      ScaleLess(a, 0.0, k);
    }
  }

  // With no engage button a tick commands a speed only if it finds the controls in use: for the
  // rest of the 0.3 s hold it sends zeros.
  lemma HoldSendsOnlyZero(s: State, now: int)
    requires s.map_.maxSpeed > 0.0 && s.map_.deadzone >= 0.0 && s.map_.deadman < 0 && !Operated(s, now)
    ensures var sent := DoTick(s, now).sent;
            forall i | |s.sent| <= i < |sent| && sent[i].Speed? :: sent[i].v == 0.0
  {
    if Live(s, now) {
      SpeedFollowsStick(s.map_, s.joy.value);
    }
  }

  /** A stick pushed forward, one tick, and no word of it since: the next tick is 0.6 s later. */
  function DroppedJoystick(): seq<Action>
  {
    [OnJoy(Joy([1.0], []), 0), Tick(0), Tick(600000000)]
  }

  // Such a silent release is reached by a joystick that drops out while its stick is pushed: the
  // last speed it sent stays the full one.
  lemma DroppedJoystickKeepsSpeed(m: Mapping)
    requires m.axisSpeed == 0 && m.deadman == -1 && m.estopButton == -1 && !m.invertSpeed
    requires 0.0 <= m.deadzone < 1.0 && m.maxSpeed > 0.0
    ensures var s := After(Started(m, true), DroppedJoystick());
            !s.engaged && LastSpeed(s.sent) == m.maxSpeed
  {
    var run := DroppedJoystick();
    assert run[..2] == [run[0], run[1]] && run[..2][..1] == [run[0]] && run[..2][..1][..0] == [];
    var s1 := Do(Started(m, true), run[0]);
    assert After(Started(m, true), run[..2][..1]) == s1;
    var s2 := DoTick(s1, 0);
    assert After(Started(m, true), run[..2]) == s2;
    assert SpeedOf(m, s1.joy.value) == m.maxSpeed;
    LastSpeedOfSending(s1.(inputNs := 0, engaged := true), DriveMessages(m, s1.joy.value, true, false, false));
    assert s2.engaged && LastSpeed(s2.sent) == m.maxSpeed;
    ReleaseSendsZeroIffLive(s2, 600000000);
    assert After(Started(m, true), run) == Do(s2, run[2]);
  }

  // While the e-stop is held no tick sends a speed but 0, and with no engage button every live
  // tick sends it.
  lemma EstopSendsOnlyZero(s: State, now: int)
    requires s.estop
    ensures var sent := DoTick(s, now).sent;
            forall i | |s.sent| <= i < |sent| && sent[i].Speed? :: sent[i].v == 0.0
    ensures Live(s, now) && s.map_.deadman < 0 && now >= 0 ==>
              DoTick(s, now).engaged && LastSpeed(DoTick(s, now).sent) == 0.0
  {
    if Live(s, now) {
      var s1 := DoTick(s, now).(sent := s.sent);
      LastSpeedOfSending(s1, DriveMessages(s.map_, s.joy.value, s1.engaged, s.estop, s.engaged));
    }
  }

  // ---------------------------------------------------------------- with the driver

  datatype Pair = Pair(joystick: State, world: D.World)

  /** A step of the joystick node, or a callback of the driver that is not the joystick's. */
  datatype Step = Stick(a: Action, now: real, ns: int) | Driver(e: D.Event)

  function Handled(m: Message): D.Action
  {
    match m
    case Speed(v) => D.TeleopSpeed(v)
    case Steer(degrees) => D.TeleopSteering(degrees)
    case Status(drive) => D.Status(SOURCE, drive, STATUS_TIMEOUT)
  }

  ghost function Deliver(w: D.World, timeout: real, messages: seq<Message>, now: real, ns: int): D.World
    decreases |messages|
  {
    if messages == [] then w
    else
      var w1 := Deliver(w, timeout, messages[..|messages| - 1], now, ns);
      D.Do(w1, timeout, D.Event(Handled(messages[|messages| - 1]), now, ns))
  }

  /** The messages of a step of the joystick node. */
  function Said(s: State, a: Action): seq<Message>
  {
    var sent := Do(s, a).sent;
    if |sent| >= |s.sent| then sent[|s.sent|..] else []
  }

  ghost function DoPair(p: Pair, timeout: real, step: Step): Pair
  {
    match step
    case Stick(a, now, ns) =>
      Pair(Do(p.joystick, a), Deliver(p.world, timeout, Said(p.joystick, a), now, ns))
    case Driver(e) => if D.StatusOf(e, SOURCE) then p else p.(world := D.Do(p.world, timeout, e))
  }

  ghost function AfterPair(p: Pair, timeout: real, run: seq<Step>): Pair
    decreases |run|
  {
    if run == [] then p else DoPair(AfterPair(p, timeout, run[..|run| - 1]), timeout, run[|run| - 1])
  }

  /** The driver's entry for the joystick says what the joystick thinks. */
  ghost predicate Mirrored(p: Pair)
  {
    if SOURCE in p.world.sources then
      && p.world.sources[SOURCE].drive == (p.joystick.enabled && p.joystick.engaged)
      && p.world.sources[SOURCE].timeout == STATUS_TIMEOUT
    else
      !p.joystick.engaged
  }

  // What a step adds to the messages ends with the status it leaves, or it adds nothing and
  // changes neither switch.
  lemma {:induction false} ParamsSay(s: State, params: seq<Param>) returns (said: seq<Message>)
    ensures DoParams(s, params).sent == s.sent + said
    ensures EndsWithStatus(s, DoParams(s, params), said)
    decreases |params|
  {
    said := [];
    if params == [] {
      assert s.sent + [] == s.sent;
    } else {
      var p := params[|params| - 1];
      said := ParamsSay(s, params[..|params| - 1]);
      if p.name == "enabled" && p.flag.Some? {
        var s1 := DoParams(s, params[..|params| - 1]);
        var zeros := if s1.enabled && !p.flag.value then [Speed(0.0), Steer(0.0)] else [];
        said := said + zeros + [Status(p.flag.value && s1.engaged)];
      }
    }
  }

  predicate EndsWithStatus(s: State, s': State, said: seq<Message>)
  {
    if said == [] then s'.enabled == s.enabled && s'.engaged == s.engaged
    else said[|said| - 1] == Status(s'.enabled && s'.engaged)
  }

  lemma StepSays(s: State, a: Action) returns (said: seq<Message>)
    ensures Do(s, a).sent == s.sent + said
    ensures EndsWithStatus(s, Do(s, a), said)
  {
    said := [];
    match a
    case OnParamSet(params) => said := ParamsSay(s, params);
    case Tick(now) =>
      var s' := DoTick(s, now);
      if Live(s, now) {
        said := DriveMessages(s.map_, s.joy.value, s'.engaged, s.estop, s.engaged);
      }
      said := said + [Status(s'.enabled && s'.engaged)];
    case OnJoy(_, _) => assert s.sent + [] == s.sent;
    case Remap(_) => assert s.sent + [] == s.sent;
  }

  // Over every run of the two nodes, in any interleaving and whatever the clocks do, the
  // driver's entry for the joystick says whether the joystick has the drive.
  lemma {:induction false} EveryRunIsMirrored(m: Mapping, enabled: bool, timeout: real, run: seq<Step>)
    ensures Mirrored(AfterPair(Pair(Started(m, enabled), D.Boot()), timeout, run))
    decreases |run|
  {
    if run != [] {
      var rest := run[..|run| - 1];
      EveryRunIsMirrored(m, enabled, timeout, rest);
      PairStepKeepsMirrored(AfterPair(Pair(Started(m, enabled), D.Boot()), timeout, rest), timeout, run[|run| - 1]);
    }
  }

  lemma PairStepKeepsMirrored(p: Pair, timeout: real, step: Step)
    requires Mirrored(p)
    ensures Mirrored(DoPair(p, timeout, step))
  {
    match step
    case Driver(e) =>
    case Stick(a, now, ns) =>
      var said := StepSays(p.joystick, a);
      assert Do(p.joystick, a).sent[|p.joystick.sent|..] == said;
      if said != [] {
        var w := Deliver(p.world, timeout, said[..|said| - 1], now, ns);
        var last := D.Event(Handled(said[|said| - 1]), now, ns);
        assert Deliver(p.world, timeout, said, now, ns) == D.Do(w, timeout, last);
      }
  }

  // So the joystick's lease holds exactly while it has the drive and its last status is at
  // most 0.5 s old: a node that dies keeps the gate closed no longer than that.
  lemma LeaseExactly(m: Mapping, enabled: bool, timeout: real, run: seq<Step>, ns: int)
    ensures var p := AfterPair(Pair(Started(m, enabled), D.Boot()), timeout, run);
            SOURCE in p.world.sources ==>
              (D.Holds(p.world.sources[SOURCE], ns) <==>
               p.joystick.enabled && p.joystick.engaged && ns - p.world.sources[SOURCE].last <= 500000000)
  {
    EveryRunIsMirrored(m, enabled, timeout, run);
    assert (STATUS_TIMEOUT * 1000000000.0).Floor == 500000000;
  }

  // A live release reaches the driver as a zero target and an open gate, unless another
  // joystick holds it.
  lemma ReleaseStopsAndYields(p: Pair, timeout: real, tick: int, now: real, ns: int, later: int)
    requires p.joystick.engaged && Live(p.joystick, tick) && !DoTick(p.joystick, tick).engaged
    ensures var p' := DoPair(p, timeout, Stick(Tick(tick), now, ns));
            && p'.world.d.target == 0.0
            && p'.world.d.steering == 0.0
            && (D.Engaged(p'.world.sources, later) <==>
                exists k :: k != SOURCE && k in p.world.sources && D.Holds(p.world.sources[k], later))
  {
    var s' := DoTick(p.joystick, tick);
    var said := [Speed(0.0), Steer(0.0), Status(false)];
    ReleaseSendsZeroIffLive(p.joystick, tick);
    assert s'.sent[|p.joystick.sent|..] == said;
    assert said[..2] == [Speed(0.0), Steer(0.0)] && said[..2][..1] == [Speed(0.0)] && said[..2][..1][..0] == [];
    var w1 := D.Do(p.world, timeout, D.Event(D.TeleopSpeed(0.0), now, ns));
    var w2 := D.Do(w1, timeout, D.Event(D.TeleopSteering(0.0), now, ns));
    var w3 := D.Do(w2, timeout, D.Event(D.Status(SOURCE, false, STATUS_TIMEOUT), now, ns));
    assert Deliver(p.world, timeout, said[..2][..1][..0], now, ns) == p.world;
    assert Deliver(p.world, timeout, said[..2][..1], now, ns) == w1;
    assert Deliver(p.world, timeout, said[..2], now, ns) == w2;
    assert Deliver(p.world, timeout, said, now, ns) == w3;
    assert w3.sources == p.world.sources[SOURCE := D.Source(false, STATUS_TIMEOUT, ns)];
    if D.Engaged(w3.sources, later) {
      var k :| k in w3.sources && D.Holds(w3.sources[k], later);
      assert k != SOURCE && k in p.world.sources && D.Holds(p.world.sources[k], later);
    }
    if k :| k != SOURCE && k in p.world.sources && D.Holds(p.world.sources[k], later) {
      assert k in w3.sources && D.Holds(w3.sources[k], later);
    }
  }

  // ---------------------------------------------------------------- after a silent release

  /** No speed is sent by the joystick, and none from elsewhere gets through. */
  ghost predicate QuietStep(p: Pair, step: Step)
  {
    match step
    case Stick(a, _, _) => forall m | m in Said(p.joystick, a) :: !m.Speed?
    case Driver(e) => D.StatusOf(e, SOURCE) || !D.Accepted(p.world, e)
  }

  ghost predicate QuietRun(p: Pair, timeout: real, run: seq<Step>)
    decreases |run|
  {
    run == [] ||
    (QuietRun(p, timeout, run[..|run| - 1]) && QuietStep(AfterPair(p, timeout, run[..|run| - 1]), run[|run| - 1]))
  }

  // A joystick that goes stale is quiet: it gives the drive up without a speed.
  lemma StaleTickIsQuiet(p: Pair, tick: int, now: real, ns: int)
    requires !Live(p.joystick, tick)
    ensures Said(p.joystick, Tick(tick)) == [Status(false)] && QuietStep(p, Stick(Tick(tick), now, ns))
  {
  }

  /** Some tick of the watchdog comes more than the timeout after t. */
  predicate Lapses(run: seq<Step>, t: real, timeout: real)
  {
    timeout > 0.0 && exists j :: 0 <= j < |run| && LateTick(run[j], t, timeout)
  }

  predicate LateTick(step: Step, t: real, timeout: real)
  {
    step.Driver? && step.e.act.Tick? && step.e.now > t + timeout
  }

  lemma {:induction false} QuietDelivery(w: D.World, timeout: real, messages: seq<Message>, now: real, ns: int)
    requires forall m | m in messages :: !m.Speed?
    ensures var w' := Deliver(w, timeout, messages, now, ns); w'.d.target == w.d.target && w'.d.lastCmd == w.d.lastCmd
    decreases |messages|
  {
    if messages != [] {
      QuietDelivery(w, timeout, messages[..|messages| - 1], now, ns);
      assert !messages[|messages| - 1].Speed?;
    }
  }

  lemma LapsesSnoc(run: seq<Step>, t: real, timeout: real)
    requires run != []
    ensures Lapses(run, t, timeout) <==>
              Lapses(run[..|run| - 1], t, timeout) || (timeout > 0.0 && LateTick(run[|run| - 1], t, timeout))
  {
    var n := |run| - 1;
    if Lapses(run[..n], t, timeout) {
      var j :| 0 <= j < n && LateTick(run[..n][j], t, timeout);
      assert LateTick(run[j], t, timeout);
    }
    if Lapses(run, t, timeout) {
      var j :| 0 <= j < |run| && LateTick(run[j], t, timeout);
      assert j < n ==> LateTick(run[..n][j], t, timeout);
    }
  }

  // Over a quiet run the target stands until the first late tick and is 0 from then on.
  lemma {:induction false} QuietTarget(p: Pair, timeout: real, run: seq<Step>)
    requires QuietRun(p, timeout, run)
    ensures var d, d' := p.world.d, AfterPair(p, timeout, run).world.d;
            if D.Magnitude(d.target) >= D.SPEED_DEADZONE && Lapses(run, d.lastCmd, timeout) then d'.target == 0.0
            else d'.target == d.target && d'.lastCmd == d.lastCmd
    decreases |run|
  {
    if run != [] {
      var rest, step := run[..|run| - 1], run[|run| - 1];
      QuietTarget(p, timeout, rest);
      LapsesSnoc(run, p.world.d.lastCmd, timeout);
      var q := AfterPair(p, timeout, rest);
      match step
      case Stick(a, now, ns) => QuietDelivery(q.world, timeout, Said(q.joystick, a), now, ns);
      case Driver(e) => QuietDriver(q.world, timeout, e);
    }
  }

  lemma QuietDriver(w: D.World, timeout: real, e: D.Event)
    requires !D.Accepted(w, e)
    ensures var d' := D.Do(w, timeout, e).d;
            if e.act.Tick? && D.WatchdogFires(w.d, timeout, e.now) then d'.target == 0.0
            else d'.target == w.d.target && d'.lastCmd == w.d.lastCmd
  {
  }

  // After the last speed of a joystick that then drops out, or is released in silence, the car
  // is stopped by the first tick of the watchdog more than the timeout later, and not before,
  // unless somebody commands it in the meantime.
  lemma SilentJoystickIsStopped(p: Pair, timeout: real, tick: int, now: real, ns: int, after: seq<Step>)
    requires Live(p.joystick, tick) && DoTick(p.joystick, tick).engaged && !p.joystick.estop
    requires QuietRun(DoPair(p, timeout, Stick(Tick(tick), now, ns)), timeout, after)
    ensures var v := D.Clamp(SpeedOf(p.joystick.map_, p.joystick.joy.value), D.MAX_SPEED);
            AfterPair(DoPair(p, timeout, Stick(Tick(tick), now, ns)), timeout, after).world.d.target ==
              if D.Magnitude(v) >= D.SPEED_DEADZONE && Lapses(after, now, timeout) then 0.0 else v
  {
    CommandArrives(p, timeout, tick, now, ns);
    QuietTarget(DoPair(p, timeout, Stick(Tick(tick), now, ns)), timeout, after);
  }

  lemma CommandingTick(s: State, tick: int)
    requires Live(s, tick) && DoTick(s, tick).engaged && !s.estop
    ensures Said(s, Tick(tick)) ==
              [Speed(SpeedOf(s.map_, s.joy.value)), Steer(SteeringOf(s.map_, s.joy.value)), Status(true)]
  {
    var said := DriveMessages(s.map_, s.joy.value, true, false, s.engaged) + [Status(true)];
    assert DoTick(s, tick).sent == s.sent + said;
    assert Said(s, Tick(tick)) == said;
  }

  lemma CommandArrives(p: Pair, timeout: real, tick: int, now: real, ns: int)
    requires Live(p.joystick, tick) && DoTick(p.joystick, tick).engaged && !p.joystick.estop
    ensures var d := DoPair(p, timeout, Stick(Tick(tick), now, ns)).world.d;
            && d.target == D.Clamp(SpeedOf(p.joystick.map_, p.joystick.joy.value), D.MAX_SPEED)
            && d.lastCmd == now
  {
    var said := Said(p.joystick, Tick(tick));
    var speed := SpeedOf(p.joystick.map_, p.joystick.joy.value);
    var steer := SteeringOf(p.joystick.map_, p.joystick.joy.value);
    CommandingTick(p.joystick, tick);
    assert said[..2] == [Speed(speed), Steer(steer)] && said[..2][..1] == [Speed(speed)] && said[..2][..1][..0] == [];
    var w := Deliver(p.world, timeout, said[..2][..1], now, ns);
    assert w == D.Do(p.world, timeout, D.Event(D.TeleopSpeed(speed), now, ns)) by {
      assert Deliver(p.world, timeout, said[..2][..1][..0], now, ns) == p.world;
    }
    assert Deliver(p.world, timeout, said[..2], now, ns) == D.Do(w, timeout, D.Event(D.TeleopSteering(steer), now, ns));
  }

  // ---------------------------------------------------------------- the node

  class JoyTeleop {
    var mapping: Mapping
    var enabled: bool
    var lastJoy: Option<Joy>
    var lastJoyTime: int
    var driveEngaged: bool
    var driveInputNs: int
    var estopLatched: bool
    var sent: seq<Message>

    constructor (m: Mapping, enabled: bool)
      ensures Abs() == Started(m, enabled)
    {
      mapping, this.enabled, lastJoy, lastJoyTime := m, enabled, None, 0;
      driveEngaged, driveInputNs, estopLatched, sent := false, -1, false, [];
    }

    ghost function Abs(): State
      reads this
    {
      State(mapping, enabled, lastJoy, lastJoyTime, driveEngaged, driveInputNs, estopLatched, sent)
    }

    method PublishSpeed(v: real)
      modifies this`sent
      ensures sent == old(sent) + [Speed(v)]
    {
      sent := sent + [Speed(v)];
    }

    method PublishSteer(degrees: real)
      modifies this`sent
      ensures sent == old(sent) + [Steer(degrees)]
    {
      sent := sent + [Steer(degrees)];
    }

    method PublishStatus()
      modifies this`sent
      ensures sent == old(sent) + [Status(enabled && driveEngaged)]
    {
      sent := sent + [Status(enabled && driveEngaged)];
    }

    method OnJoyMessage(joy: Joy, now: int)
      modifies this
      ensures Abs() == Do(old(Abs()), OnJoy(joy, now))
    {
      lastJoy := Some(joy);
      lastJoyTime := now;
      var estopNow := Button(joy, mapping.estopButton);
      if estopNow != estopLatched {
        estopLatched := estopNow;
      }
    }

    /** Engagement without an engage button; the remembered input is a reference argument. */
    method EngagedByInput(operated: bool, now: int, inputNs: int) returns (engaged: bool, input: int)
      ensures input == if operated then now else inputNs
      ensures engaged <==> input >= 0 && now - input <= ENGAGE_HOLD_NS
    {
      input := inputNs;
      if operated {
        input := now;
      }
      engaged := input >= 0 && now - input <= ENGAGE_HOLD_NS;
    }

    method OnTick(now: int)
      modifies this
      ensures Abs() == Do(old(Abs()), Tick(now))
    {
      if lastJoy.None? || !enabled {
        driveEngaged := false;
        PublishStatus();
        return;
      }
      if now - lastJoyTime > STALE_NS {
        driveEngaged := false;
        PublishStatus();
        return;
      }
      LiveTick(lastJoy.value, now);
    }

    /** The rest of the tick, once the guards are passed. */
    method LiveTick(joy: Joy, now: int)
      requires lastJoy == Some(joy) && Live(Abs(), now)
      modifies this`driveEngaged, this`driveInputNs, this`sent
      ensures driveInputNs == if Operated(old(Abs()), now) then now else old(driveInputNs)
      ensures driveEngaged <==>
                if mapping.deadman < 0 then driveInputNs >= 0 && now - driveInputNs <= ENGAGE_HOLD_NS
                else Button(joy, mapping.deadman)
      ensures sent == old(sent) + DriveMessages(mapping, joy, driveEngaged, estopLatched, old(driveEngaged)) +
                      [Status(enabled && driveEngaged)]
    {
      var prevDrive := driveEngaged;
      if mapping.deadman < 0 {
        driveEngaged, driveInputNs := EngagedByInput(StickActive(joy, mapping) || estopLatched, now, driveInputNs);
      } else {
        driveEngaged := Button(joy, mapping.deadman);
      }
      PublishDrive(joy, prevDrive);
      PublishStatus();
    }

    method PublishBoth(v: real, degrees: real)
      modifies this`sent
      ensures sent == old(sent) + [Speed(v), Steer(degrees)]
    {
      PublishSpeed(v);
      PublishSteer(degrees);
    }

    method PublishDrive(joy: Joy, prevDrive: bool)
      modifies this`sent
      ensures sent == old(sent) + DriveMessages(mapping, joy, driveEngaged, estopLatched, prevDrive)
    {
      if driveEngaged && !estopLatched {
        PublishBoth(SpeedOf(mapping, joy), SteeringOf(mapping, joy));
      } else if prevDrive && !driveEngaged {
        PublishBoth(0.0, 0.0);
      } else if estopLatched && driveEngaged {
        PublishSpeed(0.0);
      }
    }

    method SetParameters(params: seq<Param>)
      modifies this
      ensures Abs() == Do(old(Abs()), OnParamSet(params))
    {
      var i := 0;
      while i < |params|
        invariant 0 <= i <= |params|
        invariant Abs() == DoParams(old(Abs()), params[..i])
      {
        var p := params[i];
        assert params[..i + 1][..i] == params[..i];
        ghost var before := Abs();
        if p.name == "enabled" && p.flag.Some? {
          if enabled && !p.flag.value {
            PublishSpeed(0.0);
            PublishSteer(0.0);
          }
          enabled := p.flag.value;
          PublishStatus();
          assert Abs().sent == DoParam(before, p).sent;
        }
        assert Abs() == DoParam(before, p);
        i := i + 1;
      }
      assert params[..|params|] == params;
    }
  }
}
