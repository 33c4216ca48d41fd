/** The drive side of the driver node (physicar_driver_node.cpp): speed commands, odometry
    feedback, braking, the command watchdog and the teleop lease, as callbacks of one executor. */
module DriverControl {

  const MAX_SPEED := 3.0
  const MAX_STEERING := 20.0
  const FEEDBACK_TIMEOUT := 0.5
  const FEEDBACK_LOOKAHEAD := 0.2
  const FEEDBACK_P_GAIN := 1.5
  const FEEDBACK_MAX_ADJUST := 0.5
  const SPEED_DEADZONE := 0.01
  const BRAKE_SPEED := 0.3

  function Clamp(v: real, limit: real): real
    requires limit >= 0.0
  {
    if v < -limit then -limit else if v > limit then limit else v
  }

  function Magnitude(v: real): real
  {
    if v < 0.0 then -v else v
  }

  function Copysign(magnitude: real, sign: real): real
  {
    if sign < 0.0 then -magnitude else magnitude
  }

  // ---------------------------------------------------------------- state

  /** The fields the drive callbacks use; `motor` is the speed last handed to the servo
      controller, `steering` the angle in degrees. */
  datatype Drive = Drive(
    target: real, adjust: real, brake: bool, motor: real, throttle: real, steering: real,
    actual: real, actualTime: real, prevActual: real, prevOdomTime: real, lastCmd: real)

  datatype Source = Source(drive: bool, timeout: real, last: int)

  datatype World = World(d: Drive, sources: map<string, Source>)

  function AtRest(): Drive
  {
    Drive(0.0, 0.0, false, 0.0, 0.0, 0.0, 0.0, 0.0, 0.0, 0.0, 0.0)
  }

  function Boot(): World
  {
    World(AtRest(), map[])
  }

  // ---------------------------------------------------------------- callbacks

  predicate Stale(d: Drive, now: real)
  {
    now - d.actualTime > FEEDBACK_TIMEOUT
  }

  /** The motor command for a target outside the dead zone. */
  function Adjusted(target: real, adjust: real): real
  {
    var sum := target + adjust;
    if target == 0.0 then 0.0
    else if target > 0.0 then if sum < SPEED_DEADZONE then SPEED_DEADZONE else sum
    else if sum > -SPEED_DEADZONE then -SPEED_DEADZONE else sum
  }

  function AfterSpeed(d: Drive, v: real, now: real): Drive
  {
    var s := Clamp(v, MAX_SPEED);
    var d1 := d.(lastCmd := now, target := s, throttle := s);
    if Magnitude(s) < SPEED_DEADZONE then
      if Stale(d, now) || Magnitude(d.actual) <= BRAKE_SPEED then d1.(motor := 0.0, adjust := 0.0, brake := false)
      else d1.(brake := true)
    else
      var a := if Stale(d, now) then 0.0 else d.adjust;
      d1.(brake := false, adjust := a, motor := Adjusted(s, a))
  }

  /** Where the speed will be after the look-ahead, from the last two samples. */
  function Predicted(d: Drive, actual: real, now: real): real
  {
    var dt := if d.prevOdomTime > 0.0 then now - d.prevOdomTime else 0.0;
    var accel := if dt > 0.001 then (actual - d.prevActual) / dt else 0.0;
    actual + accel * FEEDBACK_LOOKAHEAD
  }

  function AfterOdom(d: Drive, actual: real, now: real): Drive
  {
    var d1 := d.(prevActual := actual, prevOdomTime := now, actual := actual, actualTime := now);
    if Magnitude(d.target) < SPEED_DEADZONE then
      if !d.brake then d1
      else if Magnitude(actual) <= BRAKE_SPEED then d1.(motor := 0.0, adjust := 0.0, brake := false)
      else d1.(motor := -Copysign(BRAKE_SPEED, actual))
    else
      var a := Clamp((d.target - Predicted(d, actual, now)) * FEEDBACK_P_GAIN, FEEDBACK_MAX_ADJUST);
      d1.(adjust := a, motor := Adjusted(d.target, a))
  }

  predicate WatchdogFires(d: Drive, timeout: real, now: real)
  {
    timeout > 0.0 && Magnitude(d.target) >= SPEED_DEADZONE && now - d.lastCmd > timeout
  }

  function AfterTick(d: Drive, timeout: real, now: real): Drive
  {
    if WatchdogFires(d, timeout, now) then AfterSpeed(d, 0.0, now) else d
  }

  function AfterSteering(d: Drive, degrees: real): Drive
  {
    d.(steering := Clamp(degrees, MAX_STEERING))
  }

  /** The steering angle of a velocity command; `arc` stands for the arc tangent. */
  function TwistSteering(vx: real, wz: real, arc: real): real
  {
    if Magnitude(vx) > 0.01 then arc
    else if Magnitude(wz) > 0.01 then Copysign(MAX_STEERING, wz)
    else 0.0
  }

  // ---------------------------------------------------------------- the lease

  /** The lease of a source that has status s is still good at time ns. */
  predicate Holds(s: Source, ns: int)
  {
    s.drive && ns - s.last <= (s.timeout * 1000000000.0).Floor
  }

  ghost predicate Engaged(sources: map<string, Source>, ns: int)
  {
    exists k :: k in sources && Holds(sources[k], ns)
  }

  function SourceName(name: string): string
  {
    if name == "" then "unknown" else name
  }

  function LeaseLength(seconds: real): real
  {
    if seconds <= 0.0 then 0.5 else seconds
  }

  // ---------------------------------------------------------------- runs

  datatype Action =
    | Speed(v: real)
    | Steering(degrees: real)
    | TeleopSpeed(v: real)
    | TeleopSteering(degrees: real)
    | CmdVel(vx: real, wz: real, arc: real)
    | Odometry(actual: real)
    | Tick
    | Status(source: string, drive: bool, seconds: real)

  /** A callback with the two clocks it reads: the steady one in seconds, the node's own in
      nanoseconds. */
  datatype Event = Event(act: Action, now: real, ns: int)

  predicate Gated(a: Action)
  {
    a.Speed? || a.Steering? || a.CmdVel?
  }

  ghost function Do(w: World, timeout: real, e: Event): World
  {
    if Gated(e.act) && Engaged(w.sources, e.ns) then w
    else match e.act
      case Speed(v) => w.(d := AfterSpeed(w.d, v, e.now))
      case TeleopSpeed(v) => w.(d := AfterSpeed(w.d, v, e.now))
      case Steering(a) => w.(d := AfterSteering(w.d, a))
      case TeleopSteering(a) => w.(d := AfterSteering(w.d, a))
      case CmdVel(vx, wz, arc) => w.(d := AfterSteering(AfterSpeed(w.d, vx, e.now), TwistSteering(vx, wz, arc)))
      case Odometry(v) => w.(d := AfterOdom(w.d, v, e.now))
      case Tick => w.(d := AfterTick(w.d, timeout, e.now))
      case Status(name, drive, seconds) =>
        w.(sources := w.sources[SourceName(name) := Source(drive, LeaseLength(seconds), e.ns)])
  }

  ghost function After(w: World, timeout: real, run: seq<Event>): World
    decreases |run|
  {
    if run == [] then w else Do(After(w, timeout, run[..|run| - 1]), timeout, run[|run| - 1])
  }

  // ---------------------------------------------------------------- the control invariant

  predicate Bounded(d: Drive)
  {
    && -MAX_SPEED <= d.target <= MAX_SPEED
    && -FEEDBACK_MAX_ADJUST <= d.adjust <= FEEDBACK_MAX_ADJUST
    && d.throttle == d.target
    && -MAX_STEERING <= d.steering <= MAX_STEERING
  }

  predicate MotorFollows(d: Drive)
  {
    && (d.target >= SPEED_DEADZONE ==> SPEED_DEADZONE <= d.motor <= MAX_SPEED + FEEDBACK_MAX_ADJUST)
    && (d.target <= -SPEED_DEADZONE ==> -MAX_SPEED - FEEDBACK_MAX_ADJUST <= d.motor <= -SPEED_DEADZONE)
    && (d.brake ==> Magnitude(d.target) < SPEED_DEADZONE)
    && (Magnitude(d.target) < SPEED_DEADZONE && !d.brake ==> d.motor == 0.0)
  }

  predicate Inv(d: Drive)
  {
    Bounded(d) && MotorFollows(d)
  }

  lemma SetSpeedKeepsInv(d: Drive, v: real, now: real)
    requires Inv(d)
    ensures Inv(AfterSpeed(d, v, now))
  {
  }

  lemma OdomKeepsInv(d: Drive, actual: real, now: real)
    requires Inv(d)
    ensures Inv(AfterOdom(d, actual, now))
  {
    var error := d.target - Predicted(d, actual, now);
    assert -FEEDBACK_MAX_ADJUST <= Clamp(error * FEEDBACK_P_GAIN, FEEDBACK_MAX_ADJUST) <= FEEDBACK_MAX_ADJUST;
  }

  lemma StepKeepsInv(w: World, timeout: real, e: Event)
    requires Inv(w.d)
    ensures Inv(Do(w, timeout, e).d)
  {
    match e.act
    case Speed(v) => SetSpeedKeepsInv(w.d, v, e.now);
    case TeleopSpeed(v) => SetSpeedKeepsInv(w.d, v, e.now);
    case CmdVel(vx, _, _) => SetSpeedKeepsInv(w.d, vx, e.now);
    case Odometry(v) => OdomKeepsInv(w.d, v, e.now);
    case Tick => SetSpeedKeepsInv(w.d, 0.0, e.now);
    case _ =>
  }

  // Over every run of commands, odometry, ticks and status messages, whatever the clocks do:
  // target and adjustment stay in range; a target outside the dead zone has a motor command of
  // its own sign between 0.01 and 3.5; braking means a target in the dead zone; and a target
  // in the dead zone without braking means no motor command.
  lemma {:induction false} EveryRunKeepsInv(timeout: real, run: seq<Event>)
    ensures Inv(After(Boot(), timeout, run).d)
  {
    if run != [] {
      var rest := run[..|run| - 1];
      EveryRunKeepsInv(timeout, rest);
      StepKeepsInv(After(Boot(), timeout, rest), timeout, run[|run| - 1]);
    }
  }

  // ---------------------------------------------------------------- feedback

  // The correction pushes the right way: the motor is driven harder than the target exactly
  // when the predicted speed falls short of it.
  lemma OdomCorrects(d: Drive, actual: real, now: real)
    ensures d.target >= SPEED_DEADZONE ==>
              (AfterOdom(d, actual, now).motor > d.target <==> Predicted(d, actual, now) < d.target)
    ensures d.target <= -SPEED_DEADZONE ==>
              (AfterOdom(d, actual, now).motor < d.target <==> Predicted(d, actual, now) > d.target)
  {
    var p := Predicted(d, actual, now);
    var a := Clamp((d.target - p) * FEEDBACK_P_GAIN, FEEDBACK_MAX_ADJUST);
    assert a > 0.0 <==> p < d.target;
    assert a < 0.0 <==> p > d.target;
  }

  // An odometry sample while braking: at walking pace or below the brake ends with the motor
  // off, above it the motor opposes the motion at the brake speed.
  lemma BrakeOpposesMotion(d: Drive, actual: real, now: real)
    requires Inv(d) && d.brake
    ensures var d' := AfterOdom(d, actual, now);
            if -0.3 <= actual <= 0.3 then !d'.brake && d'.motor == d'.adjust == 0.0
            else d'.brake && d'.motor == if actual > 0.0 then -0.3 else 0.3
  {
  }

  // The prediction is exact for a car that accelerates evenly: two samples of the same line of
  // speed over time give the speed on that line after the look-ahead.
  lemma PredictsAlongLine(d: Drive, actual: real, now: real, accel: real)
    requires d.prevOdomTime > 0.0 && now - d.prevOdomTime > 0.001
    requires actual == d.prevActual + accel * (now - d.prevOdomTime)
    ensures Predicted(d, actual, now) == d.prevActual + accel * (now + FEEDBACK_LOOKAHEAD - d.prevOdomTime)
  {
    var dt := now - d.prevOdomTime;
    assert actual - d.prevActual == accel * dt;
    assert (actual - d.prevActual) / dt == accel;
    assert accel * (dt + FEEDBACK_LOOKAHEAD) == accel * dt + accel * FEEDBACK_LOOKAHEAD;
  }

  // A stop command turns the motor off at once if and only if the measured speed is out of
  // date or at most the brake speed (or the motor was off); otherwise it leaves the motor
  // command exactly as it was and only arms the brake.
  lemma StopIsImmediateIff(d: Drive, v: real, now: real)
    requires -0.01 < v < 0.01
    ensures AfterSpeed(d, v, now).motor == 0.0 <==>
              now - d.actualTime > 0.5 || -0.3 <= d.actual <= 0.3 || d.motor == 0.0
    ensures AfterSpeed(d, v, now).brake <==> now - d.actualTime <= 0.5 && !(-0.3 <= d.actual <= 0.3)
    ensures AfterSpeed(d, v, now).brake ==> AfterSpeed(d, v, now).motor == d.motor
  {
  }

  predicate Commands(a: Action)
  {
    a.Speed? || a.TeleopSpeed? || a.CmdVel?
  }

  /** A speed command that is let through. */
  ghost predicate Accepted(w: World, e: Event)
  {
    Commands(e.act) && !(Gated(e.act) && Engaged(w.sources, e.ns))
  }

  function Commanded(a: Action): real
    requires Commands(a)
  {
    if a.CmdVel? then a.vx else a.v
  }

  ghost predicate AcceptedAt(w: World, timeout: real, run: seq<Event>, k: nat)
    requires k < |run|
  {
    Accepted(After(w, timeout, run[..k]), run[k])
  }

  // While braking, only odometry or another speed command moves the motor: however many ticks
  // of the watchdog pass, and however late, the last command stands.
  lemma {:induction false} BrakeWaitsForOdometry(w: World, timeout: real, run: seq<Event>)
    requires Inv(w.d) && w.d.brake
    requires forall k: nat | k < |run| :: !run[k].act.Odometry? && !AcceptedAt(w, timeout, run, k)
    ensures After(w, timeout, run).d.brake && After(w, timeout, run).d.motor == w.d.motor
    ensures After(w, timeout, run).d.target == w.d.target
  {
    if run != [] {
      var n := |run| - 1;
      var rest := run[..n];
      forall k: nat | k < n
        ensures !rest[k].act.Odometry? && !AcceptedAt(w, timeout, rest, k)
      {
        assert rest[..k] == run[..k];
        assert !AcceptedAt(w, timeout, run, k);
      }
      BrakeWaitsForOdometry(w, timeout, rest);
      assert !AcceptedAt(w, timeout, run, n);
    }
  }

  // Such a state is reached by driving off, one odometry message and a stop command: the car is
  // commanded 0 and still driven at 1 m/s, and is for as long as odometry stays away.
  lemma MovingCarKeepsDriving(timeout: real, later: seq<Event>)
    requires forall k: nat | k < |later| ::
               !later[k].act.Odometry? && !AcceptedAt(After(Boot(), timeout, StopWhileMoving()), timeout, later, k)
    ensures var w := After(After(Boot(), timeout, StopWhileMoving()), timeout, later);
            w.d.target == 0.0 && w.d.motor == 1.0
  {
    StopLeavesMotor(timeout);
    EveryRunKeepsInv(timeout, StopWhileMoving());
    BrakeWaitsForOdometry(After(Boot(), timeout, StopWhileMoving()), timeout, later);
  }

  /** Drive off, one odometry message, stop. */
  function StopWhileMoving(): seq<Event>
  {
    [Event(TeleopSpeed(1.0), 1.0, 0), Event(Odometry(1.0), 1.1, 0), Event(TeleopSpeed(0.0), 1.2, 0)]
  }

  lemma StopLeavesMotor(timeout: real)
    ensures var d := After(Boot(), timeout, StopWhileMoving()).d;
            d.target == 0.0 && d.brake && d.motor == 1.0
  {
    var run := StopWhileMoving();
    assert run[..2][..1][..0] == [] && run[..2][..1] == [run[0]] && run[..2] == [run[0], run[1]];
    var w1 := Do(Boot(), timeout, run[0]);
    assert After(Boot(), timeout, run[..2][..1]) == w1;
    assert w1.d == AfterSpeed(AtRest(), 1.0, 1.0) && w1.d.motor == 1.0 && w1.d.target == 1.0;
    var w2 := Do(w1, timeout, run[1]);
    assert After(Boot(), timeout, run[..2]) == w2;
    assert Predicted(w1.d, 1.0, 1.1) == 1.0;
    assert w2.d.motor == 1.0 && w2.d.actual == 1.0 && w2.d.actualTime == 1.1;
    assert After(Boot(), timeout, run) == Do(w2, timeout, run[2]);
  }

  // ---------------------------------------------------------------- stale feedback

  // The time the node takes the measured speed to be from is that of some odometry message of
  // the run, or 0.
  lemma {:induction false} MeasuredAtOdometry(timeout: real, run: seq<Event>)
    ensures var at := After(Boot(), timeout, run).d.actualTime;
            at == 0.0 || exists k :: 0 <= k < |run| && run[k].act.Odometry? && run[k].now == at
    decreases |run|
  {
    if run != [] {
      var n := |run| - 1;
      MeasuredAtOdometry(timeout, run[..n]);
      OnlyOdometryMeasures(After(Boot(), timeout, run[..n]), timeout, run[n]);
      var at := After(Boot(), timeout, run[..n]).d.actualTime;
      if !run[n].act.Odometry? && at != 0.0 {
        var k :| 0 <= k < n && run[..n][k].act.Odometry? && run[..n][k].now == at;
        assert run[k].act.Odometry? && run[k].now == at;
      }
    }
  }

  lemma OnlyOdometryMeasures(w: World, timeout: real, e: Event)
    ensures Do(w, timeout, e).d.actualTime == if e.act.Odometry? then e.now else w.d.actualTime
  {
  }

  // In every run, a speed command that no odometry message precedes by half a second or less
  // drives the motor at the commanded speed itself: no correction from older feedback is left.
  lemma StaleFeedbackIsIgnored(timeout: real, run: seq<Event>, e: Event)
    requires Accepted(After(Boot(), timeout, run), e) && Magnitude(Commanded(e.act)) >= SPEED_DEADZONE
    requires e.now > FEEDBACK_TIMEOUT
    requires forall k | 0 <= k < |run| && run[k].act.Odometry? :: e.now - run[k].now > FEEDBACK_TIMEOUT
    ensures Do(After(Boot(), timeout, run), timeout, e).d.motor == Clamp(Commanded(e.act), MAX_SPEED)
  {
    MeasuredAtOdometry(timeout, run);
  }

  // ---------------------------------------------------------------- the watchdog

  /** Event k is the last speed command of the run that was let through. */
  ghost predicate LastCommand(w: World, timeout: real, run: seq<Event>, k: nat)
  {
    k < |run| && AcceptedAt(w, timeout, run, k) && forall j: nat | k < j < |run| :: !AcceptedAt(w, timeout, run, j)
  }

  /** Some tick after event k came later than the timeout. */
  predicate Lapsed(run: seq<Event>, k: nat, timeout: real)
    requires k < |run|
  {
    timeout > 0.0 && exists j: nat :: k < j < |run| && run[j].act.Tick? && run[j].now > run[k].now + timeout
  }

  /** What the target should be, given the last command and the ticks since. */
  function Due(run: seq<Event>, k: nat, timeout: real): real
    requires k < |run| && Commands(run[k].act)
  {
    var s := Clamp(Commanded(run[k].act), MAX_SPEED);
    if !(-0.01 < s < 0.01) && Lapsed(run, k, timeout) then 0.0 else s
  }

  // In every run the target is the last command that was let through, from any source, until
  // the first tick more than the timeout after it, and 0 from that tick on. (A command inside
  // the dead zone is left alone: it moves nothing.)
  lemma {:induction false} TargetIsDue(w: World, timeout: real, run: seq<Event>, k: nat)
    requires LastCommand(w, timeout, run, k)
    ensures After(w, timeout, run).d.target == Due(run, k, timeout)
    ensures Due(run, k, timeout) == Clamp(Commanded(run[k].act), MAX_SPEED) ==>
              After(w, timeout, run).d.lastCmd == run[k].now
    decreases |run|
  {
    var n := |run| - 1;
    var rest := run[..n];
    if k == n {
      assert AcceptedAt(w, timeout, run, n);
      assert !Lapsed(run, k, timeout);
    } else {
      assert LastCommand(w, timeout, rest, k) by {
        assert rest[..k] == run[..k];
        assert AcceptedAt(w, timeout, rest, k);
        forall j: nat | k < j < n
          ensures !AcceptedAt(w, timeout, rest, j)
        {
          assert rest[..j] == run[..j];
          assert !AcceptedAt(w, timeout, run, j);
        }
      }
      TargetIsDue(w, timeout, rest, k);
      LapsedGrows(run, k, timeout);
      assert !AcceptedAt(w, timeout, run, n);
    }
  }

  lemma LapsedGrows(run: seq<Event>, k: nat, timeout: real)
    requires k < |run| - 1
    ensures Lapsed(run, k, timeout) <==>
              (Lapsed(run[..|run| - 1], k, timeout) ||
               (timeout > 0.0 && run[|run| - 1].act.Tick? && run[|run| - 1].now > run[k].now + timeout))
  {
    var n := |run| - 1;
    if Lapsed(run[..n], k, timeout) {
      var j: nat :| k < j < n && run[..n][j].act.Tick? && run[..n][j].now > run[k].now + timeout;
      assert run[j].act.Tick? && run[j].now > run[k].now + timeout;
    }
    if Lapsed(run, k, timeout) {
      var j: nat :| k < j < |run| && run[j].act.Tick? && run[j].now > run[k].now + timeout;
      if j < n {
        assert run[..n][j].act.Tick? && run[..n][j].now > run[k].now + timeout;
      }
    }
  }

  // ---------------------------------------------------------------- the lease, over runs

  predicate StatusOf(e: Event, name: string)
  {
    e.act.Status? && SourceName(e.act.source) == name
  }

  predicate LatestStatus(run: seq<Event>, name: string, k: nat)
  {
    k < |run| && StatusOf(run[k], name) && forall j: nat | k < j < |run| :: !StatusOf(run[j], name)
  }

  function StatusSource(e: Event): Source
    requires e.act.Status?
  {
    Source(e.act.drive, LeaseLength(e.act.seconds), e.ns)
  }

  // The table of sources holds the latest status of each source name, and nothing else.
  lemma {:induction false} SourcesAreLatest(timeout: real, run: seq<Event>, name: string)
    ensures var sources := After(Boot(), timeout, run).sources;
            && (name in sources <==> exists k: nat :: LatestStatus(run, name, k))
            && (forall k: nat | LatestStatus(run, name, k) :: sources[name] == StatusSource(run[k]))
    decreases |run|
  {
    if run != [] {
      var n := |run| - 1;
      var rest := run[..n];
      SourcesAreLatest(timeout, rest, name);
      if StatusOf(run[n], name) {
        assert LatestStatus(run, name, n);
        assert forall k: nat | k < n :: !LatestStatus(run, name, k);
      } else {
        forall k: nat
          ensures LatestStatus(run, name, k) <==> LatestStatus(rest, name, k)
        {
          LatestUnlessNew(run, name, k);
        }
      }
    }
  }

  lemma LatestUnlessNew(run: seq<Event>, name: string, k: nat)
    requires run != [] && !StatusOf(run[|run| - 1], name)
    ensures LatestStatus(run, name, k) <==> LatestStatus(run[..|run| - 1], name, k)
  {
    var n := |run| - 1;
    if LatestStatus(run[..n], name, k) {
      forall j: nat | k < j < |run|
        ensures !StatusOf(run[j], name)
      {
        assert j < n ==> run[..n][j] == run[j];
      }
    }
    if LatestStatus(run, name, k) {
      assert run[..n][k] == run[k];
    }
  }

  /** Some source's latest status engages the drive and is no older than the lease it names. */
  ghost predicate Leased(run: seq<Event>, ns: int)
  {
    exists name: string, k: nat :: LatestStatus(run, name, k) && Holds(StatusSource(run[k]), ns)
  }

  // In every run the gate is closed exactly while some source's latest status is a lease that
  // has not run out: a source that dies loses it after its own timeout, and a release takes
  // effect at once.
  lemma EngagedExactly(timeout: real, run: seq<Event>, ns: int)
    ensures Engaged(After(Boot(), timeout, run).sources, ns) <==> Leased(run, ns)
  {
    var sources := After(Boot(), timeout, run).sources;
    if Engaged(sources, ns) {
      var name :| name in sources && Holds(sources[name], ns);
      SourcesAreLatest(timeout, run, name);
      var k: nat :| LatestStatus(run, name, k);
      assert LatestStatus(run, name, k) && Holds(StatusSource(run[k]), ns);
    }
    if Leased(run, ns) {
      var name: string, k: nat :| LatestStatus(run, name, k) && Holds(StatusSource(run[k]), ns);
      SourcesAreLatest(timeout, run, name);
      assert name in sources && Holds(sources[name], ns);
    }
  }

  // While the lease is held, any number of commands on the gated topics change nothing.
  lemma {:induction false} GatedRunsChangeNothing(w: World, timeout: real, run: seq<Event>)
    requires forall k: nat | k < |run| :: Gated(run[k].act) && Engaged(w.sources, run[k].ns)
    ensures After(w, timeout, run) == w
    decreases |run|
  {
    if run != [] {
      GatedRunsChangeNothing(w, timeout, run[..|run| - 1]);
    }
  }

  // ---------------------------------------------------------------- the node

  class DriverNode {
    var target: real
    var adjust: real
    var brake: bool
    var motor: real
    var throttle: real
    var steering: real
    var actual: real
    var actualTime: real
    var prevActual: real
    var prevOdomTime: real
    var lastCmd: real
    var sources: map<string, Source>
    const timeout: real

    constructor (timeout: real)
      ensures State() == Boot() && this.timeout == timeout
    {
      target, adjust, brake, motor, throttle, steering := 0.0, 0.0, false, 0.0, 0.0, 0.0;
      actual, actualTime, prevActual, prevOdomTime, lastCmd := 0.0, 0.0, 0.0, 0.0, 0.0;
      sources := map[];
      this.timeout := timeout;
    }

    ghost function State(): World
      reads this
    {
      World(Drv(), sources)
    }

    ghost function Drv(): Drive
      reads this
    {
      Drive(target, adjust, brake, motor, throttle, steering, actual, actualTime, prevActual, prevOdomTime, lastCmd)
    }

    method SetThrottleSpeed(v: real)
      modifies this`motor
      ensures motor == v
    {
      motor := v;
    }

    method GetAdjustedSpeed(now: real) returns (v: real)
      modifies this`adjust
      ensures target == 0.0 ==> v == 0.0 && adjust == old(adjust)
      ensures target != 0.0 ==>
                adjust == (if Stale(Drv(), now) then 0.0 else old(adjust)) && v == Adjusted(target, adjust)
    {
      if target == 0.0 {
        return 0.0;
      }
      if now - actualTime > FEEDBACK_TIMEOUT {
        adjust := 0.0;
      }
      var adj := target + adjust;
      if target > 0.0 {
        v := if adj < SPEED_DEADZONE then SPEED_DEADZONE else adj;
      } else {
        v := if -SPEED_DEADZONE < adj then -SPEED_DEADZONE else adj;
      }
    }

    method SetSpeed(speed: real, now: real)
      modifies this
      ensures Drv() == AfterSpeed(old(Drv()), speed, now) && sources == old(sources)
    {
      var s := Clamp(speed, MAX_SPEED);
      lastCmd := now;
      target := s;
      throttle := s;
      if Magnitude(s) < SPEED_DEADZONE {
        var stale := now - actualTime > FEEDBACK_TIMEOUT;
        if stale || Magnitude(actual) <= BRAKE_SPEED {
          SetThrottleSpeed(0.0);
          adjust := 0.0;
          brake := false;
        } else {
          brake := true;
        }
      } else {
        brake := false;
        var v := GetAdjustedSpeed(now);
        SetThrottleSpeed(v);
      }
    }

    method OdomCallback(speed: real, now: real)
      modifies this
      ensures Drv() == AfterOdom(old(Drv()), speed, now) && sources == old(sources)
    {
      ghost var was := Drv();
      var dt := if prevOdomTime > 0.0 then now - prevOdomTime else 0.0;
      var accel := if dt > 0.001 then (speed - prevActual) / dt else 0.0;
      var predicted := speed + accel * FEEDBACK_LOOKAHEAD;
      assert predicted == Predicted(was, speed, now);
      prevActual := speed;
      prevOdomTime := now;
      actual := speed;
      actualTime := now;
      if Magnitude(target) < SPEED_DEADZONE {
        if !brake {
          return;
        }
        if Magnitude(speed) <= BRAKE_SPEED {
          SetThrottleSpeed(0.0);
          adjust := 0.0;
          brake := false;
        } else {
          SetThrottleSpeed(-Copysign(BRAKE_SPEED, speed));
        }
        return;
      }
      var error := target - predicted;
      adjust := Clamp(error * FEEDBACK_P_GAIN, FEEDBACK_MAX_ADJUST);
      var v := GetAdjustedSpeed(now);
      SetThrottleSpeed(v);
    }

    method CommandWatchdog(now: real)
      modifies this
      ensures forall ns :: State() == Do(old(State()), timeout, Event(Tick, now, ns))
    {
      if timeout > 0.0 && Magnitude(target) >= SPEED_DEADZONE && now - lastCmd > timeout {
        SetSpeed(0.0, now);
      }
    }

    method SetSteering(degrees: real)
      modifies this`steering
      ensures Drv() == AfterSteering(old(Drv()), degrees)
    {
      steering := Clamp(degrees, MAX_STEERING);
    }

    method DriveEngaged(ns: int) returns (engaged: bool)
      ensures engaged <==> Engaged(sources, ns)
    {
      var left := sources.Keys;
      while left != {}
        invariant left <= sources.Keys
        invariant forall k | k in sources && k !in left :: !Holds(sources[k], ns)
      {
        var k :| k in left;
        var s := sources[k];
        if ns - s.last <= (s.timeout * 1000000000.0).Floor && s.drive {
          return true;
        }
        left := left - {k};
      }
      return false;
    }

    method SpeedCallback(v: real, now: real, ns: int)
      modifies this
      ensures State() == Do(old(State()), timeout, Event(Speed(v), now, ns))
    {
      var engaged := DriveEngaged(ns);
      if !engaged {
        SetSpeed(v, now);
      }
    }

    method SteeringCallback(degrees: real, ns: int)
      modifies this
      ensures forall now :: State() == Do(old(State()), timeout, Event(Steering(degrees), now, ns))
    {
      var engaged := DriveEngaged(ns);
      if !engaged {
        SetSteering(degrees);
      }
    }

    method CmdVelCallback(vx: real, wz: real, arc: real, now: real, ns: int)
      modifies this
      ensures State() == Do(old(State()), timeout, Event(CmdVel(vx, wz, arc), now, ns))
    {
      var engaged := DriveEngaged(ns);
      if engaged {
        return;
      }
      var angle;
      if Magnitude(vx) > 0.01 {
        angle := arc;
      } else if Magnitude(wz) > 0.01 {
        angle := Copysign(MAX_STEERING, wz);
      } else {
        angle := 0.0;
      }
      SetSpeed(vx, now);
      SetSteering(angle);
    }

    method TeleopStatusCallback(source: string, drive: bool, seconds: real, ns: int)
      modifies this`sources
      ensures forall now :: State() == Do(old(State()), timeout, Event(Status(source, drive, seconds), now, ns))
    {
      var name := if source == "" then "unknown" else source;
      var lease := if seconds <= 0.0 then 0.5 else seconds;
      sources := sources[name := Source(drive, lease, ns)];
    }
  }
}
