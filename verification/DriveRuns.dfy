/** The driver's motor and steering (physicar_driver_node.cpp), told from the messages of a run
    alone: which samples the correction comes from, how large it is and how long it is carried,
    which steering command stands, and who holds the lease. */
module DriveRuns {

  import opened DriverControl

  // ---------------------------------------------------------------- limits

  // The limited value is in range and no value in range is closer to the one asked for.
  lemma ClampIsNearest(v: real, limit: real, w: real)
    requires limit >= 0.0 && -limit <= w <= limit
    ensures -limit <= Clamp(v, limit) <= limit
    ensures w <= v ==> w <= Clamp(v, limit) <= v || Clamp(v, limit) == w
    ensures v <= w ==> v <= Clamp(v, limit) <= w || Clamp(v, limit) == w
  {
  }

  // ---------------------------------------------------------------- feedback

  predicate LatestOdometry(run: seq<Event>, k: nat)
  {
    k < |run| && run[k].act.Odometry? && forall j | k < j < |run| :: !run[j].act.Odometry?
  }

  // The measured speed and its time, and the sample the next prediction starts from, are those
  // of the latest odometry message; 0 if there was none.
  lemma {:induction false} OdometryRemembered(timeout: real, run: seq<Event>)
    ensures var d := After(Boot(), timeout, run).d;
            && d.actual == d.prevActual && d.actualTime == d.prevOdomTime
            && (forall k: nat | LatestOdometry(run, k) :: d.actual == run[k].act.actual && d.actualTime == run[k].now)
            && ((forall k | 0 <= k < |run| :: !run[k].act.Odometry?) ==> d.actual == d.actualTime == 0.0)
    decreases |run|
  {
    if run != [] {
      var n := |run| - 1;
      OdometryRemembered(timeout, run[..n]);
      if run[n].act.Odometry? {
        assert forall k: nat | LatestOdometry(run, k) :: k == n;
      } else {
        SampleStays(After(Boot(), timeout, run[..n]), timeout, run[n]);
        forall k: nat | LatestOdometry(run, k)
          ensures LatestOdometry(run[..n], k)
        {
          assert run[..n][k] == run[k];
        }
        assert (forall k | 0 <= k < |run| :: !run[k].act.Odometry?) ==>
            forall k | 0 <= k < n :: !run[..n][k].act.Odometry?;
      }
    }
  }

  lemma SampleStays(w: World, timeout: real, e: Event)
    requires !e.act.Odometry?
    ensures var d, d' := w.d, Do(w, timeout, e).d;
            && d'.actual == d.actual && d'.actualTime == d.actualTime
            && d'.prevActual == d.prevActual && d'.prevOdomTime == d.prevOdomTime
  {
  }

  /** Two samples of the speed lie on a line of this slope. */
  predicate OnLine(v0: real, t0: real, v: real, t: real, slope: real)
  {
    v == v0 + slope * (t - t0)
  }

  /** The line a fifth of a second on. */
  function Ahead(v: real, slope: real): real
  {
    v + slope * 0.2
  }

  /** The correction for a car predicted to do p when it should do `target`: one and a half times
      what is missing, but no more than 0.5 either way. */
  predicate Corrects(adjust: real, target: real, p: real)
  {
    var wanted := 1.5 * (target - p);
    if wanted > 0.5 then adjust == 0.5 else if wanted < -0.5 then adjust == -0.5 else adjust == wanted
  }

  /** Target and correction together, but never past 0.01 on the target's own side. */
  predicate DrivesAt(motor: real, target: real, adjust: real)
  {
    if target > 0.0 then motor >= 0.01 && (motor == target + adjust || (target + adjust < 0.01 && motor == 0.01))
    else motor <= -0.01 && (motor == target + adjust || (target + adjust > -0.01 && motor == -0.01))
  }

  lemma AdjustedDrives(target: real, adjust: real)
    requires target != 0.0
    ensures DrivesAt(Adjusted(target, adjust), target, adjust)
  {
  }

  lemma OdomDrives(d: Drive, v: real, now: real, p: real)
    requires (d.target >= 0.01 || d.target <= -0.01) && Predicted(d, v, now) == p
    ensures var d' := AfterOdom(d, v, now);
            d'.target == d.target && Corrects(d'.adjust, d.target, p) && DrivesAt(d'.motor, d.target, d'.adjust)
  {
    var wanted := (d.target - p) * FEEDBACK_P_GAIN;
    assert wanted == 1.5 * (d.target - p);
    AdjustedDrives(d.target, Clamp(wanted, FEEDBACK_MAX_ADJUST));
  }

  // In every run an odometry message corrects a driven car by the line through it and the one
  // before, followed for 0.2 s.
  lemma CorrectedAlongLine(timeout: real, run: seq<Event>, k: nat, e: Event, slope: real)
    requires LatestOdometry(run, k) && e.act.Odometry? && run[k].now > 0.0 && e.now - run[k].now > 0.001
    requires OnLine(run[k].act.actual, run[k].now, e.act.actual, e.now, slope)
    requires var target := After(Boot(), timeout, run).d.target; target >= 0.01 || target <= -0.01
    ensures var d, d' := After(Boot(), timeout, run).d, Do(After(Boot(), timeout, run), timeout, e).d;
            && d'.target == d.target
            && Corrects(d'.adjust, d.target, Ahead(e.act.actual, slope)) && DrivesAt(d'.motor, d.target, d'.adjust)
  {
    OdometryRemembered(timeout, run);
    LineDrives(After(Boot(), timeout, run).d, e.act.actual, e.now, slope);
  }

  lemma LineDrives(d: Drive, v: real, now: real, slope: real)
    requires (d.target >= 0.01 || d.target <= -0.01) && d.prevOdomTime > 0.0 && now - d.prevOdomTime > 0.001
    requires OnLine(d.prevActual, d.prevOdomTime, v, now, slope)
    ensures var d' := AfterOdom(d, v, now);
            && d'.target == d.target
            && Corrects(d'.adjust, d.target, Ahead(v, slope)) && DrivesAt(d'.motor, d.target, d'.adjust)
  {
    PredictsAlongLine(d, v, now, slope);
    Rearranged(slope, now - d.prevOdomTime, now + FEEDBACK_LOOKAHEAD - d.prevOdomTime);
    OdomDrives(d, v, now, Ahead(v, slope));
  }

  lemma Rearranged(slope: real, dt: real, ahead: real)
    requires ahead == dt + 0.2
    ensures slope * ahead == slope * dt + slope * 0.2
  {
  }

  // Without a message before it, or with one less than a millisecond older, by its own speed.
  lemma CorrectedWithoutLine(timeout: real, run: seq<Event>, e: Event)
    requires e.act.Odometry?
    requires forall k: nat | LatestOdometry(run, k) :: run[k].now <= 0.0 || e.now - run[k].now <= 0.001
    requires var target := After(Boot(), timeout, run).d.target; target >= 0.01 || target <= -0.01
    ensures var d, d' := After(Boot(), timeout, run).d, Do(After(Boot(), timeout, run), timeout, e).d;
            && d'.target == d.target
            && Corrects(d'.adjust, d.target, e.act.actual) && DrivesAt(d'.motor, d.target, d'.adjust)
  {
    OdometryRemembered(timeout, run);
    var d := After(Boot(), timeout, run).d;
    if exists k | 0 <= k < |run| :: run[k].act.Odometry? {
      var k :| 0 <= k < |run| && run[k].act.Odometry?;
      var last := SomeOdometryIsLatest(run, k);
    }
    assert Predicted(d, e.act.actual, e.now) == e.act.actual;
    OdomDrives(d, e.act.actual, e.now, e.act.actual);
  }

  lemma {:induction false} SomeOdometryIsLatest(run: seq<Event>, k: nat) returns (last: nat)
    requires k < |run| && run[k].act.Odometry?
    ensures LatestOdometry(run, last)
    decreases |run| - k
  {
    last := k;
    if j: nat :| k < j < |run| && run[j].act.Odometry? {
      last := SomeOdometryIsLatest(run, j);
    }
  }

  /** Neither odometry nor a stop: a command outside the dead zone and no more than 0.5 s after
      the measured speed, a tick that finds the car commanded in time, or something else. */
  ghost predicate Carries(w: World, timeout: real, e: Event)
  {
    && !e.act.Odometry?
    && (Accepted(w, e) ==> (Commanded(e.act) >= 0.01 || Commanded(e.act) <= -0.01) && e.now - w.d.actualTime <= 0.5)
    && (e.act.Tick? ==> e.now - w.d.lastCmd <= timeout)
  }

  ghost predicate CarriesAll(w: World, timeout: real, run: seq<Event>)
    decreases |run|
  {
    run == [] ||
    (CarriesAll(w, timeout, run[..|run| - 1]) && Carries(After(w, timeout, run[..|run| - 1]), timeout, run[|run| - 1]))
  }

  // The correction is carried: whatever speeds are commanded before the next odometry message
  // and within half a second of the last, the same correction is added to each.
  lemma {:induction false} CorrectionIsCarried(w: World, timeout: real, run: seq<Event>)
    requires (w.d.target >= 0.01 || w.d.target <= -0.01) && DrivesAt(w.d.motor, w.d.target, w.d.adjust)
    requires CarriesAll(w, timeout, run)
    ensures var d := After(w, timeout, run).d;
            && (d.target >= 0.01 || d.target <= -0.01) && d.adjust == w.d.adjust && d.actualTime == w.d.actualTime
            && DrivesAt(d.motor, d.target, d.adjust)
    decreases |run|
  {
    if run != [] {
      CorrectionIsCarried(w, timeout, run[..|run| - 1]);
      StepCarries(After(w, timeout, run[..|run| - 1]), timeout, run[|run| - 1]);
    }
  }

  lemma StepCarries(w: World, timeout: real, e: Event)
    requires (w.d.target >= 0.01 || w.d.target <= -0.01) && DrivesAt(w.d.motor, w.d.target, w.d.adjust)
    requires Carries(w, timeout, e)
    ensures var d := Do(w, timeout, e).d;
            && (d.target >= 0.01 || d.target <= -0.01) && d.adjust == w.d.adjust && d.actualTime == w.d.actualTime
            && DrivesAt(d.motor, d.target, d.adjust)
  {
    if Accepted(w, e) {
      AdjustedDrives(Clamp(Commanded(e.act), MAX_SPEED), w.d.adjust);
    }
  }

  // ---------------------------------------------------------------- steering

  predicate Steers(a: Action)
  {
    a.Steering? || a.TeleopSteering? || a.CmdVel?
  }

  /** The angle a message asks for: its own; for a velocity command the arc of the turn if the
      car is to move, full lock if it is only to turn, straight ahead otherwise. */
  function AngleAsked(a: Action): real
    requires Steers(a)
  {
    match a
    case Steering(degrees) => degrees
    case TeleopSteering(degrees) => degrees
    case CmdVel(vx, wz, arc) =>
      if vx > 0.01 || vx < -0.01 then arc
      else if wz > 0.01 then 20.0
      else if wz < -0.01 then -20.0
      else 0.0
  }

  function WithinLock(angle: real): real
  {
    if angle > 20.0 then 20.0 else if angle < -20.0 then -20.0 else angle
  }

  /** Message k is the last to steer that was let through. */
  ghost predicate LastSteered(timeout: real, run: seq<Event>, k: nat)
  {
    k < |run| && SteeredAt(timeout, run, k) && forall j: nat | k < j < |run| :: !SteeredAt(timeout, run, j)
  }

  ghost predicate SteeredAt(timeout: real, run: seq<Event>, k: nat)
    requires k < |run|
  {
    Steers(run[k].act) && !(Gated(run[k].act) && Leased(run[..k], run[k].ns))
  }

  // In every run the wheels stand as the last message to steer that was let through asks, within
  // 20 degrees either way; straight ahead if there was none.
  lemma {:induction false} SteeringIsLastAsked(timeout: real, run: seq<Event>)
    ensures forall k: nat | LastSteered(timeout, run, k) ::
              After(Boot(), timeout, run).d.steering == WithinLock(AngleAsked(run[k].act))
    ensures (forall k: nat | k < |run| :: !SteeredAt(timeout, run, k)) ==> After(Boot(), timeout, run).d.steering == 0.0
    decreases |run|
  {
    if run != [] {
      var n := |run| - 1;
      var rest := run[..n];
      SteeringIsLastAsked(timeout, rest);
      LastStepSteers(timeout, run);
      forall k: nat | k < n
        ensures SteeredAt(timeout, rest, k) <==> SteeredAt(timeout, run, k)
        ensures LastSteered(timeout, run, k) ==> LastSteered(timeout, rest, k)
      {
        SteeredPrefix(timeout, run, k);
      }
    }
  }

  lemma SteeredPrefix(timeout: real, run: seq<Event>, k: nat)
    requires k < |run| - 1
    ensures SteeredAt(timeout, run[..|run| - 1], k) <==> SteeredAt(timeout, run, k)
    ensures LastSteered(timeout, run, k) ==> LastSteered(timeout, run[..|run| - 1], k)
  {
    var rest := run[..|run| - 1];
    assert rest[..k] == run[..k];
    forall j: nat | k < j < |rest| && !SteeredAt(timeout, run, j)
      ensures !SteeredAt(timeout, rest, j)
    {
      assert rest[..j] == run[..j];
    }
  }

  lemma LastStepSteers(timeout: real, run: seq<Event>)
    requires run != []
    ensures var n := |run| - 1;
            After(Boot(), timeout, run).d.steering ==
              if SteeredAt(timeout, run, n) then WithinLock(AngleAsked(run[n].act))
              else After(Boot(), timeout, run[..n]).d.steering
  {
    EngagedExactly(timeout, run[..|run| - 1], run[|run| - 1].ns);
    StepSteers(After(Boot(), timeout, run[..|run| - 1]), timeout, run[|run| - 1]);
  }

  lemma StepSteers(w: World, timeout: real, e: Event)
    ensures Do(w, timeout, e).d.steering ==
              if Steers(e.act) && !(Gated(e.act) && Engaged(w.sources, e.ns)) then WithinLock(AngleAsked(e.act))
              else w.d.steering
  {
  }

  // ---------------------------------------------------------------- the lease

  /** Two source names that the node takes for the same: an empty one reads "unknown". */
  predicate SameSource(a: string, b: string)
  {
    a == b || (a == "" && b == "unknown") || (a == "unknown" && b == "")
  }

  /** Message k takes the drive and is the latest of its source, and no more time has passed
      than it asks for, half a second if it does not say. */
  predicate HeldBy(run: seq<Event>, ns: int, k: nat)
  {
    && k < |run| && run[k].act.Status? && run[k].act.drive
    && (forall j | k < j < |run| && run[j].act.Status? :: !SameSource(run[j].act.source, run[k].act.source))
    && (if run[k].act.seconds > 0.0 then (ns - run[k].ns) as real <= run[k].act.seconds * 1000000000.0
        else ns - run[k].ns <= 500000000)
  }

  // In every run the gate is closed if and only if some message holds the drive in this sense.
  lemma GateFromMessages(timeout: real, run: seq<Event>, ns: int)
    ensures Engaged(After(Boot(), timeout, run).sources, ns) <==> exists k: nat :: HeldBy(run, ns, k)
  {
    EngagedExactly(timeout, run, ns);
    if Leased(run, ns) {
      var name: string, k: nat :| LatestStatus(run, name, k) && Holds(StatusSource(run[k]), ns);
      HeldMeans(run, ns, name, k);
    }
    if exists k: nat :: HeldBy(run, ns, k) {
      var k: nat :| HeldBy(run, ns, k);
      HeldMeans(run, ns, SourceName(run[k].act.source), k);
    }
  }

  lemma HeldMeans(run: seq<Event>, ns: int, name: string, k: nat)
    requires k < |run| && StatusOf(run[k], name)
    ensures HeldBy(run, ns, k) <==> LatestStatus(run, name, k) && Holds(StatusSource(run[k]), ns)
  {
    var s := run[k].act;
    assert forall j | k < j < |run| && run[j].act.Status? ::
        SameSource(run[j].act.source, s.source) <==> StatusOf(run[j], name);
    HoldsMeans(s.seconds, ns - run[k].ns);
  }

  lemma HoldsMeans(seconds: real, age: int)
    ensures age <= (LeaseLength(seconds) * 1000000000.0).Floor <==>
              if seconds > 0.0 then age as real <= seconds * 1000000000.0 else age <= 500000000
  {
  }
}
