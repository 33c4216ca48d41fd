/** The web server's dead-man and the driver together (hw.py and physicar_driver_node.cpp): a
    closed speed stream stops the car, over the bridge or, without it, by the watchdog. */
module DeadmanChain {

  import D = DriverControl
  import H = SpeedHold
  import opened DriveChain
  import opened Options

  /** When the dead-man next wants to run; its grace counts from its first step. */
  function WakeAt(m: H.Deadman, t0: real): real
  {
    if m.due.None? then t0 else m.due.value
  }

  /** By when the dead-man has acted, if no step of it is more than `late` overdue. */
  function Deadline(t0: real, late: real): real
  {
    t0 + H.DEADMAN_GRACE + late + late
  }

  /** Time does not go back, the loop wakes the dead-man at most `late` after it is due, and
      nobody commands a speed anew: no request, no frame, no other source. Holds that are
      running go on. If `linked`, what the dead-man publishes reaches an unleased driver. */
  ghost predicate AwaitOk(c: Chain, prev: real, t0: real, id: nat, late: real, linked: bool, step: Step)
  {
    && prev <= TimeOf(step)
    && (id in c.server.deadmen ==> TimeOf(step) <= WakeAt(c.server.deadmen[id], t0) + late)
    && match step
       case Web(a, env, ns) =>
         && H.Do(c.server, a, env).driveSpeed == c.server.driveSpeed
         && (linked && a == H.RunDeadman(id) ==> env.ready && env.pub && !D.Engaged(c.world.sources, ns))
       case Driver(e) => !D.Accepted(c.world, e)
  }

  ghost predicate Awaits(c: Chain, timeout: real, t0: real, id: nat, late: real, linked: bool, run: seq<Step>)
    decreases |run|
  {
    run == [] ||
    (var rest := run[..|run| - 1];
     && Awaits(c, timeout, t0, id, late, linked, rest)
     && AwaitOk(After(c, timeout, rest), LastTime(t0, rest), t0, id, late, linked, run[|run| - 1]))
  }

  /** A speed stream that had sent something has just been closed. */
  ghost predicate JustClosed(c: Chain, id: nat, t0: real)
  {
    && H.Inv(c.server) && c.world.d.lastCmd <= t0
    && id in c.server.deadmen && c.server.deadmen[id] == H.Deadman(H.SpeedAxis, c.server.driveSpeed, None)
    && Used(c.server, id)
  }

  /** The identifier is not that of an open stream, nor will it be of a new one. */
  predicate Used(s: H.Server, id: nat)
  {
    id < s.next && id !in s.streams
  }

  ghost predicate StreamsKnown(s: H.Server)
  {
    forall id | id in s.streams :: id < s.next
  }

  lemma {:induction false} EveryRunKnowsStreams(run: seq<(H.Action, H.Env)>)
    ensures StreamsKnown(H.DoAll(H.Started(), run))
    decreases |run|
  {
    if run != [] {
      EveryRunKnowsStreams(run[..|run| - 1]);
    }
  }

  lemma CloseBegins(c: Chain, timeout: real, id: nat, env: H.Env, ns: int)
    requires H.Inv(c.server) && id in c.server.streams && c.server.streams[id] == H.Stream(H.SpeedAxis, true)
    requires c.world.d.lastCmd <= env.now && StreamsKnown(c.server)
    ensures JustClosed(Do(c, timeout, Web(H.Close(id), env, ns)), id, env.now)
  {
    H.StepKeepsInv(c.server, H.Close(id), env);
    assert H.Do(c.server, H.Close(id), env).log == c.server.log + [H.Closed(id, H.SpeedAxis)];
    StepDelivers(c, timeout, H.Close(id), env, ns);
  }

  /** No hold is current, so none will publish. */
  ghost predicate NoHold(s: H.Server)
  {
    forall h | h in s.holds :: s.holds[h].gen != s.speedGen
  }

  predicate Moving(d: D.Drive)
  {
    D.Magnitude(d.target) >= D.SPEED_DEADZONE
  }

  /** The dead-man waits with its generation current; or it has acted, no hold is left, and a
      car that still moves was commanded no later than the deadline. */
  ghost predicate Awaiting(c: Chain, id: nat, t0: real, late: real, linked: bool, now: real)
  {
    && H.Inv(c.server) && Used(c.server, id) && c.world.d.lastCmd <= now
    && if id in c.server.deadmen then
         var m := c.server.deadmen[id];
         && m.axis == H.SpeedAxis && m.gen == c.server.driveSpeed
         && (m.due.Some? ==> t0 + H.DEADMAN_GRACE <= m.due.value <= t0 + late + H.DEADMAN_GRACE)
       else
         && NoHold(c.server) && t0 + H.DEADMAN_GRACE <= now
         && (linked ==> c.world.d.target == 0.0)
         && (Moving(c.world.d) ==> c.world.d.lastCmd <= Deadline(t0, late))
  }

  // ---------------------------------------------------------------- steps of the server

  /** What a step of the server without a new command may publish: a keep-alive or a final zero
      of a current hold, or a dead-man's zero. */
  lemma OldNews(s: H.Server, a: H.Action, env: H.Env)
    requires H.Do(s, a, env).driveSpeed == s.driveSpeed && NoHold(s)
    ensures var news := News(s, a, env);
            news == [] || Published(news[0]) == None || Published(news[0]) == Some(0.0)
    ensures NoHold(H.Do(s, a, env)) || a.RunDeadman?
  {
  }

  lemma DeadmanLeavesNoHold(s: H.Server, id: nat, env: H.Env)
    requires H.Inv(s) && (NoHold(s) || H.DoDeadman(s, id, env).speedGen != s.speedGen)
    ensures NoHold(H.DoDeadman(s, id, env))
  {
    var s' := H.DoDeadman(s, id, env);
    forall h | h in s'.holds
      ensures s'.holds[h].gen != s'.speedGen
    {
      assert H.HoldOk(s, h);
    }
  }

  // The waiting dead-man's own step: to sleep, nothing, or its zero.
  lemma OwnStep(s: H.Server, id: nat, env: H.Env)
    requires H.Inv(s) && id in s.deadmen
    requires s.deadmen[id].axis == H.SpeedAxis && s.deadmen[id].gen == s.driveSpeed
    ensures var s', news := H.DoDeadman(s, id, env), News(s, H.RunDeadman(id), env);
            if id in s'.deadmen then
              && news == [] && s'.deadmen[id].axis == H.SpeedAxis && s'.deadmen[id].gen == s'.driveSpeed
              && s'.deadmen[id].due ==
                   (if s.deadmen[id].due.None? then Some(env.now + H.DEADMAN_GRACE) else s.deadmen[id].due)
            else
              news == [H.DeadZero(id, H.SpeedAxis, H.Reaches(env))] && NoHold(s')
  {
    var s' := H.DoDeadman(s, id, env);
    if id !in s'.deadmen {
      assert s'.log == s.log + [H.DeadZero(id, H.SpeedAxis, H.Reaches(env))];
      DeadmanLeavesNoHold(s, id, env);
    }
  }

  // Other steps leave a waiting dead-man waiting.
  lemma OthersLeaveWaiting(s: H.Server, a: H.Action, env: H.Env, id: nat)
    requires Used(s, id) && a != H.RunDeadman(id)
    ensures Used(H.Do(s, a, env), id) && (id in s.deadmen <==> id in H.Do(s, a, env).deadmen)
    ensures id in s.deadmen ==> H.Do(s, a, env).deadmen[id] == s.deadmen[id]
  {
  }

  // ---------------------------------------------------------------- steps of the chain

  // The driver after a step of the server: as it was, or commanded just now.
  lemma LastCommandOnly(c: Chain, timeout: real, a: H.Action, env: H.Env, ns: int)
    requires c.world.d.lastCmd <= env.now
    ensures Do(c, timeout, Web(a, env, ns)).world.d.lastCmd <= env.now
  {
    StepDelivers(c, timeout, a, env, ns);
  }

  // With no hold left, and no new command, a step of the server lets the car at most stop.
  lemma StillStopped(c: Chain, timeout: real, a: H.Action, env: H.Env, ns: int)
    requires H.Do(c.server, a, env).driveSpeed == c.server.driveSpeed && NoHold(c.server)
    ensures var d, d' := c.world.d, Do(c, timeout, Web(a, env, ns)).world.d;
            d'.target == 0.0 || (d'.target == d.target && d'.lastCmd == d.lastCmd)
  {
    OldNews(c.server, a, env);
    StepDelivers(c, timeout, a, env, ns);
  }

  lemma DriverKeepsAwaiting(c: Chain, timeout: real, id: nat, t0: real, late: real, linked: bool, prev: real,
                            e: D.Event)
    requires Awaiting(c, id, t0, late, linked, prev) && AwaitOk(c, prev, t0, id, late, linked, Driver(e))
    ensures Awaiting(Do(c, timeout, Driver(e)), id, t0, late, linked, e.now)
    ensures !Moving(c.world.d) ==> !Moving(Do(c, timeout, Driver(e)).world.d)
  {
  }

  lemma OwnStepKeepsAwaiting(c: Chain, timeout: real, id: nat, t0: real, late: real, linked: bool, prev: real,
                             env: H.Env, ns: int)
    requires Awaiting(c, id, t0, late, linked, prev) && t0 <= prev && 0.0 <= late
    requires AwaitOk(c, prev, t0, id, late, linked, Web(H.RunDeadman(id), env, ns))
    ensures Awaiting(Do(c, timeout, Web(H.RunDeadman(id), env, ns)), id, t0, late, linked, env.now)
  {
    var a := H.RunDeadman(id);
    H.StepKeepsInv(c.server, a, env);
    StepDelivers(c, timeout, a, env, ns);
    if id in c.server.deadmen {
      OwnStep(c.server, id, env);
    }
  }

  lemma OtherStepKeepsAwaiting(c: Chain, timeout: real, id: nat, t0: real, late: real, linked: bool, prev: real,
                               a: H.Action, env: H.Env, ns: int)
    requires Awaiting(c, id, t0, late, linked, prev) && AwaitOk(c, prev, t0, id, late, linked, Web(a, env, ns))
    requires a != H.RunDeadman(id)
    ensures Awaiting(Do(c, timeout, Web(a, env, ns)), id, t0, late, linked, env.now)
  {
    H.StepKeepsInv(c.server, a, env);
    OthersLeaveWaiting(c.server, a, env, id);
    LastCommandOnly(c, timeout, a, env, ns);
    if id !in c.server.deadmen {
      StillStopped(c, timeout, a, env, ns);
      OldNews(c.server, a, env);
      if a.RunDeadman? {
        DeadmanLeavesNoHold(c.server, a.id, env);
      }
    }
  }

  lemma StepKeepsAwaiting(c: Chain, timeout: real, id: nat, t0: real, late: real, linked: bool, prev: real, step: Step)
    requires Awaiting(c, id, t0, late, linked, prev) && AwaitOk(c, prev, t0, id, late, linked, step)
    requires t0 <= prev && 0.0 <= late
    ensures Awaiting(Do(c, timeout, step), id, t0, late, linked, TimeOf(step))
  {
    match step
    case Driver(e) => DriverKeepsAwaiting(c, timeout, id, t0, late, linked, prev, e);
    case Web(a, env, ns) =>
      if a == H.RunDeadman(id) {
        OwnStepKeepsAwaiting(c, timeout, id, t0, late, linked, prev, env, ns);
      } else {
        OtherStepKeepsAwaiting(c, timeout, id, t0, late, linked, prev, a, env, ns);
      }
  }

  lemma {:induction false} RunKeepsAwaiting(c: Chain, timeout: real, t0: real, id: nat, late: real, linked: bool,
                                            run: seq<Step>)
    requires JustClosed(c, id, t0) && Awaits(c, timeout, t0, id, late, linked, run) && 0.0 <= late
    ensures Awaiting(After(c, timeout, run), id, t0, late, linked, LastTime(t0, run))
    ensures t0 <= LastTime(t0, run)
    decreases |run|
  {
    if run != [] {
      var rest := run[..|run| - 1];
      RunKeepsAwaiting(c, timeout, t0, id, late, linked, rest);
      StepKeepsAwaiting(After(c, timeout, rest), timeout, id, t0, late, linked, LastTime(t0, rest), run[|run| - 1]);
    }
  }

  // ---------------------------------------------------------------- the chain

  // A speed stream is closed and nobody commands a speed anew. If the dead-man's zero gets
  // through, anything later than the grace plus twice the lateness finds the target 0, although
  // a hold may have been driving when the stream closed.
  lemma DeadmanStops(c: Chain, timeout: real, t0: real, id: nat, late: real, run: seq<Step>)
    requires JustClosed(c, id, t0) && Awaits(c, timeout, t0, id, late, true, run) && 0.0 <= late
    requires run != [] && TimeOf(run[|run| - 1]) > Deadline(t0, late)
    ensures After(c, timeout, run[..|run| - 1]).world.d.target == 0.0
    ensures After(c, timeout, run).world.d.target == 0.0
  {
    var rest := run[..|run| - 1];
    RunKeepsAwaiting(c, timeout, t0, id, late, true, rest);
    RunKeepsAwaiting(c, timeout, t0, id, late, true, run);
    GoneByDeadline(After(c, timeout, rest), id, t0, late, true, LastTime(t0, rest), run[|run| - 1], timeout);
  }

  // It waits its whole grace: a client that comes back within it finds the dead-man still to act.
  lemma DeadmanWaits(c: Chain, timeout: real, t0: real, id: nat, late: real, linked: bool, run: seq<Step>)
    requires JustClosed(c, id, t0) && Awaits(c, timeout, t0, id, late, linked, run) && 0.0 <= late
    requires LastTime(t0, run) < t0 + 0.7
    ensures id in After(c, timeout, run).server.deadmen
  {
    RunKeepsAwaiting(c, timeout, t0, id, late, linked, run);
  }

  lemma GoneByDeadline(c: Chain, id: nat, t0: real, late: real, linked: bool, prev: real, step: Step, timeout: real)
    requires Awaiting(c, id, t0, late, linked, prev) && AwaitOk(c, prev, t0, id, late, linked, step)
    requires TimeOf(step) > Deadline(t0, late) && 0.0 <= late
    ensures id !in c.server.deadmen && id !in Do(c, timeout, step).server.deadmen
  {
    if step.Web? && step.a != H.RunDeadman(id) {
      OthersLeaveWaiting(c.server, step.a, step.env, id);
    }
  }

  /** Some tick of the watchdog comes more than the timeout after the deadline. */
  predicate TickedLate(run: seq<Step>, t0: real, late: real, timeout: real)
  {
    exists j :: 0 <= j < |run| && LateTick(run[j], t0, late, timeout)
  }

  predicate LateTick(step: Step, t0: real, late: real, timeout: real)
  {
    step.Driver? && step.e.act.Tick? && step.e.now > Deadline(t0, late) + timeout
  }

  // Whether or not the bridge works and the driver listens: the first tick of the watchdog more
  // than its timeout after that finds the car stopped, or stops it, and it stays so.
  lemma {:induction false} DeadmanOrWatchdogStops(c: Chain, timeout: real, t0: real, id: nat, late: real,
                                                  run: seq<Step>)
    requires JustClosed(c, id, t0) && Awaits(c, timeout, t0, id, late, false, run) && 0.0 <= late
    requires timeout > 0.0 && TickedLate(run, t0, late, timeout)
    ensures !Moving(After(c, timeout, run).world.d)
    ensures id !in After(c, timeout, run).server.deadmen
    decreases |run|
  {
    var n := |run| - 1;
    var rest, step := run[..n], run[n];
    var before := After(c, timeout, rest);
    RunKeepsAwaiting(c, timeout, t0, id, late, false, rest);
    if LateTick(step, t0, late, timeout) {
      LateTickStops(before, timeout, t0, id, late, LastTime(t0, rest), step);
    } else {
      TickedBefore(run, t0, late, timeout);
      DeadmanOrWatchdogStops(c, timeout, t0, id, late, rest);
      StaysStopped(before, timeout, t0, id, late, LastTime(t0, rest), step);
    }
  }

  lemma TickedBefore(run: seq<Step>, t0: real, late: real, timeout: real)
    requires TickedLate(run, t0, late, timeout) && !LateTick(run[|run| - 1], t0, late, timeout)
    ensures TickedLate(run[..|run| - 1], t0, late, timeout)
  {
    var j :| 0 <= j < |run| && LateTick(run[j], t0, late, timeout);
    assert LateTick(run[..|run| - 1][j], t0, late, timeout);
  }

  lemma LateTickStops(c: Chain, timeout: real, t0: real, id: nat, late: real, prev: real, step: Step)
    requires Awaiting(c, id, t0, late, false, prev) && AwaitOk(c, prev, t0, id, late, false, step)
    requires timeout > 0.0 && 0.0 <= late && LateTick(step, t0, late, timeout)
    ensures !Moving(Do(c, timeout, step).world.d) && id !in Do(c, timeout, step).server.deadmen
  {
    GoneByDeadline(c, id, t0, late, false, prev, step, timeout);
  }

  lemma StaysStopped(c: Chain, timeout: real, t0: real, id: nat, late: real, prev: real, step: Step)
    requires Awaiting(c, id, t0, late, false, prev) && AwaitOk(c, prev, t0, id, late, false, step)
    requires !Moving(c.world.d) && id !in c.server.deadmen
    ensures !Moving(Do(c, timeout, step).world.d) && id !in Do(c, timeout, step).server.deadmen
  {
    match step
    case Driver(e) => DriverKeepsAwaiting(c, timeout, id, t0, late, false, prev, e);
    case Web(a, env, ns) =>
      StillStopped(c, timeout, a, env, ns);
      OthersLeaveWaitingOrGone(c.server, a, env, id);
  }

  lemma OthersLeaveWaitingOrGone(s: H.Server, a: H.Action, env: H.Env, id: nat)
    requires Used(s, id) && id !in s.deadmen
    ensures id !in H.Do(s, a, env).deadmen
  {
  }
}
