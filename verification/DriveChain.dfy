/** The web server's duration hold and the driver's watchdog together (hw.py and
    physicar_driver_node.cpp), on one monotonic clock: a timed run of the two machines. */
module DriveChain {

  import D = DriverControl
  import H = SpeedHold
  import opened Options

  datatype Chain = Chain(server: H.Server, world: D.World)

  /** A step of the web server's loop, with the node clock at which the driver handles what it
      publishes, or a callback of the driver. */
  datatype Step = Web(a: H.Action, env: H.Env, ns: int) | Driver(e: D.Event)

  function TimeOf(step: Step): real
  {
    if step.Web? then step.env.now else step.e.now
  }

  /** The speed an entry put on the topic. */
  function Published(e: H.Entry): Option<real>
  {
    match e
    case Command(axis, v, _, sent) => if axis.SpeedAxis? && sent then Some(v) else None
    case KeepAlive(_, v, sent) => if sent then Some(v) else None
    case Stopped(_, sent) => if sent then Some(0.0) else None
    case DeadZero(_, axis, sent) => if axis.SpeedAxis? && sent then Some(0.0) else None
    case _ => None
  }

  /** The driver handles what the entries published, in order. */
  ghost function Delivered(w: D.World, timeout: real, entries: seq<H.Entry>, now: real, ns: int): D.World
    decreases |entries|
  {
    if entries == [] then w
    else
      var w1 := Delivered(w, timeout, entries[..|entries| - 1], now, ns);
      var speed := Published(entries[|entries| - 1]);
      if speed.None? then w1 else D.Do(w1, timeout, D.Event(D.Speed(speed.value), now, ns))
  }

  /** What a step of the server adds to its log. */
  function News(s: H.Server, a: H.Action, env: H.Env): seq<H.Entry>
  {
    var log := H.Do(s, a, env).log;
    if |s.log| <= |log| then log[|s.log|..] else []
  }

  ghost function Do(c: Chain, timeout: real, step: Step): Chain
  {
    match step
    case Web(a, env, ns) =>
      var s := H.Do(c.server, a, env);
      Chain(s, Delivered(c.world, timeout, News(c.server, a, env), env.now, ns))
    case Driver(e) => c.(world := D.Do(c.world, timeout, e))
  }

  ghost function After(c: Chain, timeout: real, run: seq<Step>): Chain
    decreases |run|
  {
    if run == [] then c else Do(After(c, timeout, run[..|run| - 1]), timeout, run[|run| - 1])
  }

  function LastTime(t0: real, run: seq<Step>): real
  {
    if run == [] then t0 else TimeOf(run[|run| - 1])
  }

  // A step of the server adds at most one entry, so it publishes at most one speed.
  lemma OneEntry(s: H.Server, a: H.Action, env: H.Env)
    ensures |News(s, a, env)| <= 1 && H.Do(s, a, env).log == s.log + News(s, a, env)
  {
    var log := H.Do(s, a, env).log;
    if log != s.log {
      assert log == s.log + [log[|s.log|]];
    }
  }

  // Without a ready bridge and a publisher a step publishes nothing.
  lemma UnreachableIsSilent(s: H.Server, a: H.Action, env: H.Env)
    requires !(env.ready && env.pub)
    ensures forall e | e in News(s, a, env) :: Published(e).None?
  {
    OneEntry(s, a, env);
  }

  // The driver after a step of the server: as before, or with the one published speed handled.
  lemma StepDelivers(c: Chain, timeout: real, a: H.Action, env: H.Env, ns: int)
    ensures var news := News(c.server, a, env);
            Do(c, timeout, Web(a, env, ns)).world ==
              if news == [] || Published(news[0]).None? then c.world
              else D.Do(c.world, timeout, D.Event(D.Speed(Published(news[0]).value), env.now, ns))
  {
    OneEntry(c.server, a, env);
    var news := News(c.server, a, env);
    if news != [] {
      assert news[..0] == [] && |news| == 1;
      assert Delivered(c.world, timeout, news[..0], env.now, ns) == c.world;
    }
  }

  // A frame on an open speed stream drives the car at the value it carries ...
  lemma FrameDrives(c: Chain, timeout: real, id: nat, v: real, env: H.Env, ns: int)
    requires id in c.server.streams && c.server.streams[id].axis == H.SpeedAxis
    requires env.ready && env.pub && !D.Engaged(c.world.sources, ns)
    ensures var d := Do(c, timeout, Web(H.Frame(id, v), env, ns)).world.d;
            d.target == D.Clamp(v, D.MAX_SPEED) && d.lastCmd == env.now
  {
    var a := H.Frame(id, v);
    assert H.Do(c.server, a, env).log == c.server.log + [H.Command(H.SpeedAxis, v, None, true)];
    StepDelivers(c, timeout, a, env, ns);
    SpeedArrives(c.world, timeout, v, env.now, ns);
  }

  // ... and so does a request, with or without a duration.
  lemma PostDrives(c: Chain, timeout: real, v: real, duration: Option<real>, env: H.Env, ns: int)
    requires duration.Some? ==> 0.0 < duration.value <= 600.0
    requires env.ready && env.pub && !D.Engaged(c.world.sources, ns)
    ensures var d := Do(c, timeout, Web(H.PostSpeed(v, duration), env, ns)).world.d;
            d.target == D.Clamp(v, D.MAX_SPEED) && d.lastCmd == env.now
  {
    var a := H.PostSpeed(v, duration);
    var hold := if duration.Some? && v != 0.0 then Some(c.server.next) else None;
    assert H.Do(c.server, a, env).log == c.server.log + [H.Command(H.SpeedAxis, v, hold, true)];
    StepDelivers(c, timeout, a, env, ns);
    SpeedArrives(c.world, timeout, v, env.now, ns);
  }

  // ---------------------------------------------------------------- what the run promises

  /** When the hold next wants to run. */
  function DueAt(hold: H.Hold, t0: real): real
  {
    if hold.phase.Fresh? then t0 else hold.phase.wake
  }

  /** Time does not go back; the loop wakes the hold at most `late` after it is due; what the
      hold publishes reaches a driver that is not leased to a joystick; and nobody else commands
      a speed. Everything else (other requests and streams, odometry, ticks, status messages,
      joysticks at rest) may happen in any order. */
  ghost predicate StepOk(c: Chain, timeout: real, prev: real, t0: real, h: nat, late: real, step: Step)
  {
    && prev <= TimeOf(step)
    && (h in c.server.holds ==> TimeOf(step) <= DueAt(c.server.holds[h], t0) + late)
    && match step
       case Web(a, env, ns) =>
         && (a == H.RunHold(h) ==> env.ready && env.pub && !D.Engaged(c.world.sources, ns))
         && H.Do(c.server, a, env).speedGen == c.server.speedGen
       case Driver(e) => !D.Accepted(c.world, e)
  }

  ghost predicate Kept(c: Chain, timeout: real, t0: real, h: nat, late: real, run: seq<Step>)
    decreases |run|
  {
    run == [] ||
    (var rest := run[..|run| - 1];
     && Kept(c, timeout, t0, h, late, rest)
     && StepOk(After(c, timeout, rest), timeout, LastTime(t0, rest), t0, h, late, run[|run| - 1]))
  }

  // ---------------------------------------------------------------- the hold

  ghost predicate Begun(c: Chain, h: nat, v: real, duration: real, t0: real)
  {
    && H.Inv(c.server) && duration > 0.0
    && h in c.server.holds && c.server.holds[h] == H.Hold(c.server.speedGen, v, duration, H.Fresh)
    && c.world.d.lastCmd == t0 && c.world.d.target == D.Clamp(v, D.MAX_SPEED)
  }

  // A request with a duration, on a ready bridge and an unleased driver, begins a hold.
  lemma PostBegins(c: Chain, timeout: real, v: real, duration: real, env: H.Env, ns: int)
    requires H.Inv(c.server) && H.Reaches(env) && 0.0 < duration <= H.LONGEST_HOLD && v != 0.0
    requires !D.Engaged(c.world.sources, ns)
    ensures Begun(Do(c, timeout, Web(H.PostSpeed(v, Some(duration)), env, ns)), c.server.next, v, duration, env.now)
  {
    H.StepKeepsInv(c.server, H.PostSpeed(v, Some(duration)), env);
    var s := H.Do(c.server, H.PostSpeed(v, Some(duration)), env);
    assert s.log == c.server.log + [H.Command(H.SpeedAxis, v, Some(c.server.next), true)];
    StepDelivers(c, timeout, H.PostSpeed(v, Some(duration)), env, ns);
    SpeedArrives(c.world, timeout, v, env.now, ns);
  }

  /** While the hold lives the driver was commanded its value no more than a keep-alive period
      before the hold is due again; afterwards the target is 0. */
  ghost predicate Going(c: Chain, h: nat, v: real, duration: real, t0: real, late: real, now: real)
  {
    && H.Inv(c.server) && H.Owned(c.server.log, h) && c.world.d.lastCmd <= now
    && if h in c.server.holds then
         var hold := c.server.holds[h];
         && hold.gen == c.server.speedGen && hold.value == v && hold.duration == duration
         && DueAt(hold, t0) <= c.world.d.lastCmd + H.KEEPALIVE_PERIOD
         && c.world.d.target == D.Clamp(v, D.MAX_SPEED)
         && (hold.phase.Asleep? ==> hold.phase.wake <= hold.phase.end <= t0 + late + duration)
         && (hold.phase.Asleep? ==> t0 + duration <= hold.phase.end)
       else
         c.world.d.target == 0.0 && t0 + duration <= now
  }

  lemma DriverStepKeepsGoing(c: Chain, timeout: real, h: nat, v: real, duration: real, t0: real, late: real,
                             prev: real, e: D.Event)
    requires Going(c, h, v, duration, t0, late, prev) && StepOk(c, timeout, prev, t0, h, late, Driver(e))
    requires H.KEEPALIVE_PERIOD + late <= timeout
    ensures Going(Do(c, timeout, Driver(e)), h, v, duration, t0, late, e.now)
    ensures e.act.Tick? ==> Do(c, timeout, Driver(e)) == c
  {
  }

  /** The step from s to s' leaves hold h the newest and publishes no speed. */
  ghost predicate Silent(s: H.Server, s': H.Server, h: nat)
  {
    && (|s'.log| <= |s.log| || Published(s'.log[|s.log|]).None?)
    && H.Owned(s'.log, h)
    && (h in s.holds <==> h in s'.holds) && (h in s.holds ==> s'.holds[h] == s.holds[h])
  }

  lemma EntryIsSilent(s: H.Server, s': H.Server, h: nat, e: H.Entry)
    requires H.Owned(s.log, h) && s'.holds == s.holds && s'.log == s.log + [e]
    requires Published(e).None? && !H.TakesOver(e)
    ensures Silent(s, s', h)
  {
    H.Appended(s.log, e);
  }

  // A step of the server that is not the hold's own publishes no speed.
  lemma OthersAreSilent(s: H.Server, h: nat, a: H.Action, env: H.Env)
    requires H.Inv(s) && H.Owned(s.log, h) && a != H.RunHold(h)
    requires H.Do(s, a, env).speedGen == s.speedGen
    ensures Silent(s, H.Do(s, a, env), h)
  {
    match a
    case RunHold(id) => OtherHoldIsSilent(s, h, id, env);
    case PostSteering(v) =>
      if env.ready {
        EntryIsSilent(s, H.Do(s, a, env), h, H.Command(H.SteeringAxis, v, None, env.pub));
      }
    case Frame(id, v) =>
      if id in s.streams && env.ready {
        EntryIsSilent(s, H.DoFrame(s, id, v, env), h, H.Command(s.streams[id].axis, v, None, env.pub));
      }
    case Close(id) =>
      if id in s.streams && s.streams[id].sent {
        EntryIsSilent(s, H.DoClose(s, id), h, H.Closed(id, s.streams[id].axis));
      }
    case RunDeadman(id) => DeadmanIsSilent(s, h, id, env);
    case PostSpeed(_, _) =>
    case Open(_) =>
  }

  lemma DeadmanIsSilent(s: H.Server, h: nat, id: nat, env: H.Env)
    requires H.Owned(s.log, h) && H.DoDeadman(s, id, env).speedGen == s.speedGen
    ensures Silent(s, H.DoDeadman(s, id, env), h)
  {
    var s' := H.DoDeadman(s, id, env);
    if |s'.log| > |s.log| {
      EntryIsSilent(s, s', h, s'.log[|s.log|]);
    }
  }

  lemma OtherHoldIsSilent(s: H.Server, h: nat, id: nat, env: H.Env)
    requires H.Inv(s) && H.Owned(s.log, h) && id != h
    ensures Silent(s, H.DoHold(s, id, env), h)
  {
    var s' := H.DoHold(s, id, env);
    if s' != s {
      assert H.HoldOk(s, id);
      assert s'.log == s.log + [H.Superseded(id)];
      H.Appended(s.log, H.Superseded(id));
    }
  }

  lemma WebStepKeepsGoing(c: Chain, timeout: real, h: nat, v: real, duration: real, t0: real, late: real, prev: real,
                          a: H.Action, env: H.Env, ns: int)
    requires Going(c, h, v, duration, t0, late, prev) && StepOk(c, timeout, prev, t0, h, late, Web(a, env, ns))
    requires a != H.RunHold(h)
    ensures Going(Do(c, timeout, Web(a, env, ns)), h, v, duration, t0, late, env.now)
  {
    H.StepKeepsInv(c.server, a, env);
    OthersAreSilent(c.server, h, a, env);
    StepDelivers(c, timeout, a, env, ns);
  }

  lemma HoldStepKeepsGoing(c: Chain, timeout: real, h: nat, v: real, duration: real, t0: real, late: real, prev: real,
                           env: H.Env, ns: int)
    requires Going(c, h, v, duration, t0, late, prev)
    requires StepOk(c, timeout, prev, t0, h, late, Web(H.RunHold(h), env, ns))
    requires t0 <= prev
    ensures Going(Do(c, timeout, Web(H.RunHold(h), env, ns)), h, v, duration, t0, late, env.now)
  {
    var s, s' := c.server, H.Do(c.server, H.RunHold(h), env);
    H.StepKeepsInv(s, H.RunHold(h), env);
    if s' != s {
      var speed := HoldStepPublishes(s, h, env);
      StepDelivers(c, timeout, H.RunHold(h), env, ns);
      SpeedArrives(c.world, timeout, speed, env.now, ns);
    }
  }

  // What a step of the current hold does to the server, and the speed it publishes.
  lemma HoldStepPublishes(s: H.Server, h: nat, env: H.Env) returns (speed: real)
    requires h in s.holds && s.holds[h].gen == s.speedGen && H.Owned(s.log, h)
    requires H.Reaches(env) && H.DoHold(s, h, env) != s
    ensures var s' := H.DoHold(s, h, env);
            && s'.speedGen == s.speedGen && H.Owned(s'.log, h)
            && |s'.log| == |s.log| + 1 && Published(s'.log[|s.log|]) == Some(speed)
            && if h in s'.holds then
                 var p := s'.holds[h].phase;
                 && speed == s.holds[h].value && s'.holds[h] == s.holds[h].(phase := p) && p.Asleep?
                 && p.end == (if s.holds[h].phase.Fresh? then env.now + s.holds[h].duration else s.holds[h].phase.end)
                 && p.wake <= p.end && p.wake <= env.now + H.KEEPALIVE_PERIOD
               else speed == 0.0
  {
    var s' := H.DoHold(s, h, env);
    var e := s'.log[|s.log|];
    assert s'.log == s.log + [e];
    H.Appended(s.log, e);
    speed := Published(e).value;
  }

  lemma SpeedArrives(w: D.World, timeout: real, v: real, now: real, ns: int)
    requires !D.Engaged(w.sources, ns)
    ensures var w' := D.Do(w, timeout, D.Event(D.Speed(v), now, ns));
            w'.d.target == D.Clamp(v, D.MAX_SPEED) && w'.d.lastCmd == now
  {
  }

  // ---------------------------------------------------------------- the chain

  lemma {:induction false} RunKeepsGoing(c: Chain, timeout: real, h: nat, v: real, duration: real, t0: real,
                                         late: real, run: seq<Step>)
    requires Begun(c, h, v, duration, t0) && Kept(c, timeout, t0, h, late, run)
    requires 0.0 <= late && H.KEEPALIVE_PERIOD + late <= timeout
    ensures Going(After(c, timeout, run), h, v, duration, t0, late, LastTime(t0, run))
    ensures t0 <= LastTime(t0, run)
    decreases |run|
  {
    if run == [] {
      assert H.HoldOk(c.server, h);
    } else {
      var rest, step := run[..|run| - 1], run[|run| - 1];
      RunKeepsGoing(c, timeout, h, v, duration, t0, late, rest);
      StepKeepsGoing(After(c, timeout, rest), timeout, h, v, duration, t0, late, LastTime(t0, rest), step);
    }
  }

  lemma StepKeepsGoing(c: Chain, timeout: real, h: nat, v: real, duration: real, t0: real, late: real,
                       prev: real, step: Step)
    requires Going(c, h, v, duration, t0, late, prev) && StepOk(c, timeout, prev, t0, h, late, step)
    requires t0 <= prev && H.KEEPALIVE_PERIOD + late <= timeout
    ensures Going(Do(c, timeout, step), h, v, duration, t0, late, TimeOf(step))
    ensures step.Driver? && step.e.act.Tick? ==> Do(c, timeout, step) == c
  {
    match step
    case Driver(e) => DriverStepKeepsGoing(c, timeout, h, v, duration, t0, late, prev, e);
    case Web(a, env, ns) =>
      if a == H.RunHold(h) {
        HoldStepKeepsGoing(c, timeout, h, v, duration, t0, late, prev, env, ns);
      } else {
        WebStepKeepsGoing(c, timeout, h, v, duration, t0, late, prev, a, env, ns);
      }
  }

  // A hold that is woken at most the timeout minus the keep-alive period late drives at its
  // value until it ends and at 0 from then on, in every run that keeps the promises above.
  lemma HoldDrives(c: Chain, timeout: real, h: nat, v: real, duration: real, t0: real, late: real, run: seq<Step>)
    requires Begun(c, h, v, duration, t0) && Kept(c, timeout, t0, h, late, run)
    requires 0.0 <= late && H.KEEPALIVE_PERIOD + late <= timeout
    ensures After(c, timeout, run).world.d.target ==
              if h in After(c, timeout, run).server.holds then D.Clamp(v, D.MAX_SPEED) else 0.0
  {
    RunKeepsGoing(c, timeout, h, v, duration, t0, late, run);
  }

  // It lasts its whole duration: until then the hold is there, and so is the driver's target.
  lemma HoldLasts(c: Chain, timeout: real, h: nat, v: real, duration: real, t0: real, late: real, run: seq<Step>)
    requires Begun(c, h, v, duration, t0) && Kept(c, timeout, t0, h, late, run)
    requires 0.0 <= late && H.KEEPALIVE_PERIOD + late <= timeout
    requires LastTime(t0, run) < t0 + duration
    ensures h in After(c, timeout, run).server.holds
    ensures After(c, timeout, run).world.d.target == D.Clamp(v, D.MAX_SPEED)
  {
    RunKeepsGoing(c, timeout, h, v, duration, t0, late, run);
  }

  // And the watchdog never fires: no tick, during the hold or after it, changes anything.
  lemma {:induction false} WatchdogNeverFires(c: Chain, timeout: real, h: nat, v: real, duration: real, t0: real,
                                              late: real, run: seq<Step>, k: nat)
    requires Begun(c, h, v, duration, t0) && Kept(c, timeout, t0, h, late, run)
    requires 0.0 <= late && H.KEEPALIVE_PERIOD + late <= timeout
    requires k < |run| && run[k].Driver? && run[k].e.act.Tick?
    ensures After(c, timeout, run[..k + 1]) == After(c, timeout, run[..k])
    decreases |run|
  {
    var rest := run[..|run| - 1];
    if k < |rest| {
      assert rest[..k] == run[..k] && rest[..k + 1] == run[..k + 1];
      WatchdogNeverFires(c, timeout, h, v, duration, t0, late, rest, k);
    } else {
      assert run[..k] == rest && run[..k + 1] == run;
      RunKeepsGoing(c, timeout, h, v, duration, t0, late, rest);
      StepKeepsGoing(After(c, timeout, rest), timeout, h, v, duration, t0, late, LastTime(t0, rest), run[k]);
    }
  }

  // It ends in time: whatever happens later than the duration plus twice the lateness finds
  // the hold over and the target 0.
  lemma HoldEnds(c: Chain, timeout: real, h: nat, v: real, duration: real, t0: real, late: real, run: seq<Step>)
    requires Begun(c, h, v, duration, t0) && Kept(c, timeout, t0, h, late, run)
    requires 0.0 <= late && H.KEEPALIVE_PERIOD + late <= timeout
    requires run != [] && TimeOf(run[|run| - 1]) > t0 + duration + late + late
    ensures h !in After(c, timeout, run[..|run| - 1]).server.holds
    ensures After(c, timeout, run[..|run| - 1]).world.d.target == 0.0
  {
    RunKeepsGoing(c, timeout, h, v, duration, t0, late, run[..|run| - 1]);
  }

  // The bound is tight: a tick that finds the hold overdue by more than the timeout minus the
  // keep-alive period stops the car although the hold is still running.
  lemma TooLateIsStopped(c: Chain, timeout: real, h: nat, now: real, ns: int)
    requires h in c.server.holds && c.server.holds[h].phase.Asleep?
    requires c.server.holds[h].phase.wake == c.world.d.lastCmd + H.KEEPALIVE_PERIOD
    requires D.Magnitude(c.world.d.target) >= D.SPEED_DEADZONE && timeout > 0.0
    ensures Do(c, timeout, Driver(D.Event(D.Tick, now, ns))).world.d.target == 0.0 <==>
              now > c.server.holds[h].phase.wake + (timeout - H.KEEPALIVE_PERIOD)
    ensures h in Do(c, timeout, Driver(D.Event(D.Tick, now, ns))).server.holds
  {
  }
}
