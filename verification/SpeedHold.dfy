/** Speed commands in the web server (hw.py): generations, duration holds and the dead-man of
    the control streams, as atomic steps between the awaits of one event loop. */
module SpeedHold {

  import opened Options

  const KEEPALIVE_PERIOD := 0.2
  const DEADMAN_GRACE := 0.7
  const LONGEST_HOLD := 600.0

  datatype Axis = SpeedAxis | SteeringAxis

  /** What a step sees of the world: the loop's clock, whether the bridge is ready and whether
      it has a publisher to publish on. */
  datatype Env = Env(now: real, ready: bool, pub: bool)

  predicate Reaches(env: Env)
  {
    env.ready && env.pub
  }

  // ---------------------------------------------------------------- state

  /** A hold before its first step, or asleep. */
  datatype Phase = Fresh | Asleep(end: real, wake: real)

  datatype Hold = Hold(gen: nat, value: real, duration: real, phase: Phase)

  datatype Stream = Stream(axis: Axis, sent: bool)

  datatype Deadman = Deadman(axis: Axis, gen: nat, due: Option<real>)

  /** What happened, in order; `sent` tells whether the value reached the topic. */
  datatype Entry =
    | Command(axis: Axis, value: real, hold: Option<nat>, sent: bool)
    | KeepAlive(id: nat, value: real, sent: bool)
    | Stopped(id: nat, sent: bool)
    | Superseded(id: nat)
    | Closed(id: nat, axis: Axis)
    | DeadZero(id: nat, axis: Axis, sent: bool)
    | DeadSkip(id: nat, axis: Axis)

  datatype Server = Server(
    speedGen: nat, driveSpeed: nat, driveSteering: nat,
    holds: map<nat, Hold>, streams: map<nat, Stream>, deadmen: map<nat, Deadman>, next: nat,
    log: seq<Entry>)

  function Started(): Server
  {
    Server(0, 0, 0, map[], map[], map[], 0, [])
  }

  function DriveGen(s: Server, axis: Axis): nat
  {
    if axis.SpeedAxis? then s.driveSpeed else s.driveSteering
  }

  // ---------------------------------------------------------------- steps

  datatype Action =
    | PostSpeed(value: real, duration: Option<real>)
    | PostSteering(value: real)
    | Open(axis: Axis)
    | Frame(id: nat, value: real)
    | Close(id: nat)
    | RunHold(id: nat)
    | RunDeadman(id: nat)

  predicate ValidRequest(duration: Option<real>)
  {
    duration.Some? ==> 0.0 < duration.value <= LONGEST_HOLD
  }

  /** A command on an axis: the generations it bumps and its entry. */
  function Commanding(s: Server, axis: Axis, value: real, hold: Option<nat>, sent: bool): Server
  {
    var s1 := s.(log := s.log + [Command(axis, value, hold, sent)]);
    if axis.SpeedAxis? then s1.(speedGen := s.speedGen + 1, driveSpeed := s.driveSpeed + 1)
    else s1.(driveSteering := s.driveSteering + 1)
  }

  function DoPostSpeed(s: Server, value: real, duration: Option<real>, env: Env): Server
  {
    if !ValidRequest(duration) || !env.ready then s
    else if env.pub && duration.Some? && value != 0.0 then
      var h := s.next;
      var s1 := Commanding(s, SpeedAxis, value, Some(h), true);
      s1.(holds := s.holds[h := Hold(s1.speedGen, value, duration.value, Fresh)], next := h + 1)
    else
      Commanding(s, SpeedAxis, value, None, env.pub)
  }

  function DoFrame(s: Server, id: nat, value: real, env: Env): Server
  {
    if id !in s.streams || !env.ready then s
    else
      var axis := s.streams[id].axis;
      Commanding(s, axis, value, None, env.pub).(streams := s.streams[id := Stream(axis, true)])
  }

  function DoClose(s: Server, id: nat): Server
  {
    if id !in s.streams then s
    else
      var st := s.streams[id];
      var s1 := s.(streams := s.streams - {id});
      if st.sent then
        s1.(deadmen := s.deadmen[id := Deadman(st.axis, DriveGen(s, st.axis), None)],
            log := s.log + [Closed(id, st.axis)])
      else s1
  }

  /** One resumption of a hold, up to its next sleep or its end. */
  function DoHold(s: Server, id: nat, env: Env): Server
  {
    if id !in s.holds || (s.holds[id].phase.Asleep? && env.now < s.holds[id].phase.wake) then s
    else
      var h := s.holds[id];
      var end := if h.phase.Fresh? then env.now + h.duration else h.phase.end;
      var remain := end - env.now;
      if h.gen != s.speedGen then
        s.(holds := s.holds - {id}, log := s.log + [Superseded(id)])
      else if remain <= 0.0 then
        s.(holds := s.holds - {id}, log := s.log + [Stopped(id, Reaches(env))])
      else
        var wake := env.now + if remain < KEEPALIVE_PERIOD then remain else KEEPALIVE_PERIOD;
        s.(holds := s.holds[id := h.(phase := Asleep(end, wake))],
           log := s.log + [KeepAlive(id, h.value, Reaches(env))])
  }

  /** One resumption of a dead-man: it goes to sleep, or its grace is over. */
  function DoDeadman(s: Server, id: nat, env: Env): Server
  {
    if id !in s.deadmen then s
    else
      var m := s.deadmen[id];
      if m.due.None? then s.(deadmen := s.deadmen[id := m.(due := Some(env.now + DEADMAN_GRACE))])
      else if env.now < m.due.value then s
      else
        var s1 := s.(deadmen := s.deadmen - {id});
        if DriveGen(s, m.axis) != m.gen then s1.(log := s.log + [DeadSkip(id, m.axis)])
        else s1.(
            speedGen := if m.axis.SpeedAxis? then s.speedGen + 1 else s.speedGen,
            log := s.log + [DeadZero(id, m.axis, Reaches(env))])
  }

  function Do(s: Server, a: Action, env: Env): Server
  {
    match a
    case PostSpeed(value, duration) => DoPostSpeed(s, value, duration, env)
    case PostSteering(value) => if env.ready then Commanding(s, SteeringAxis, value, None, env.pub) else s
    case Open(axis) => s.(streams := s.streams[s.next := Stream(axis, false)], next := s.next + 1)
    case Frame(id, value) => DoFrame(s, id, value, env)
    case Close(id) => DoClose(s, id)
    case RunHold(id) => DoHold(s, id, env)
    case RunDeadman(id) => DoDeadman(s, id, env)
  }

  function DoAll(s: Server, run: seq<(Action, Env)>): Server
    decreases |run|
  {
    if run == [] then s else Do(DoAll(s, run[..|run| - 1]), run[|run| - 1].0, run[|run| - 1].1)
  }

  // ---------------------------------------------------------------- reading the log

  /** Entries that take the speed over: a speed command, or a dead-man's zero on that axis. */
  predicate TakesOver(e: Entry)
  {
    (e.Command? || e.DeadZero?) && e.axis.SpeedAxis?
  }

  function Newest(log: seq<Entry>): Option<Entry>
  {
    if log == [] then None
    else if TakesOver(log[|log| - 1]) then Some(log[|log| - 1])
    else Newest(log[..|log| - 1])
  }

  /** The newest taking over is the command that started hold h. */
  predicate Owned(log: seq<Entry>, h: nat)
  {
    var e := Newest(log);
    e.Some? && e.value.Command? && e.value.hold == Some(h) && e.value.sent
  }

  predicate Ends(e: Entry, h: nat)
  {
    (e.Stopped? || e.Superseded?) && e.id == h
  }

  /** Entries that name hold h. */
  predicate Concerns(e: Entry, h: nat)
  {
    (e.Command? && e.hold == Some(h)) || ((e.KeepAlive? || e.Stopped? || e.Superseded?) && e.id == h)
  }

  predicate Known(log: seq<Entry>, h: nat)
  {
    exists i :: 0 <= i < |log| && Concerns(log[i], h)
  }

  predicate Over(log: seq<Entry>, h: nat)
  {
    exists i :: 0 <= i < |log| && Ends(log[i], h)
  }

  /** Whether a command for the axis came after the stream closed. */
  predicate CommandSince(log: seq<Entry>, id: nat, axis: Axis)
  {
    if log == [] then false
    else
      var e := log[|log| - 1];
      if e == Closed(id, axis) then false
      else if e.Command? && e.axis == axis then true
      else CommandSince(log[..|log| - 1], id, axis)
  }

  predicate EntryOk(before: seq<Entry>, e: Entry)
  {
    match e
    case Command(_, _, hold, _) => hold.Some? ==> !Known(before, hold.value)
    case KeepAlive(h, v, _) => Owned(before, h) && Newest(before).value.value == v && !Over(before, h)
    case Stopped(h, _) => Owned(before, h) && !Over(before, h)
    case Superseded(h) => !Owned(before, h) && !Over(before, h)
    case DeadZero(id, axis, _) => Closed(id, axis) in before && !CommandSince(before, id, axis)
    case DeadSkip(id, axis) => Closed(id, axis) in before && CommandSince(before, id, axis)
    case Closed(_, _) => true
  }

  predicate Orderly(log: seq<Entry>)
  {
    log == [] || (Orderly(log[..|log| - 1]) && EntryOk(log[..|log| - 1], log[|log| - 1]))
  }

  // ---------------------------------------------------------------- the invariant

  predicate HoldOk(s: Server, h: nat)
    requires h in s.holds
  {
    var hold := s.holds[h];
    && h < s.next && hold.gen <= s.speedGen && !Over(s.log, h)
    && (hold.gen == s.speedGen <==> Owned(s.log, h))
    && (Owned(s.log, h) ==> Newest(s.log).value.value == hold.value)
  }

  predicate DeadOk(s: Server, t: nat)
    requires t in s.deadmen
  {
    var m := s.deadmen[t];
    && Closed(t, m.axis) in s.log && m.gen <= DriveGen(s, m.axis)
    && (CommandSince(s.log, t, m.axis) <==> m.gen != DriveGen(s, m.axis))
  }

  ghost predicate KnownBelow(s: Server)
  {
    forall h: nat | Known(s.log, h) :: h < s.next
  }

  ghost predicate Inv(s: Server)
  {
    && (forall h | h in s.holds :: HoldOk(s, h))
    && (forall t | t in s.deadmen :: DeadOk(s, t))
    && KnownBelow(s)
    && Orderly(s.log)
  }

  lemma Appended(log: seq<Entry>, e: Entry)
    ensures Newest(log + [e]) == if TakesOver(e) then Some(e) else Newest(log)
    ensures forall h: nat :: Over(log + [e], h) <==> Over(log, h) || Ends(e, h)
    ensures forall h: nat :: Known(log + [e], h) <==> Known(log, h) || Concerns(e, h)
    ensures forall t: nat, axis :: CommandSince(log + [e], t, axis) <==>
              e != Closed(t, axis) && ((e.Command? && e.axis == axis) || CommandSince(log, t, axis))
    ensures Orderly(log + [e]) <==> Orderly(log) && EntryOk(log, e)
  {
    assert (log + [e])[..|log|] == log;
    forall h: nat
      ensures Over(log + [e], h) <==> Over(log, h) || Ends(e, h)
    {
      if Over(log, h) {
        var i :| 0 <= i < |log| && Ends(log[i], h);
        assert Ends((log + [e])[i], h);
      }
      if Ends(e, h) {
        assert Ends((log + [e])[|log|], h);
      }
    }
    forall h: nat
      ensures Known(log + [e], h) <==> Known(log, h) || Concerns(e, h)
    {
      if Known(log, h) {
        var i :| 0 <= i < |log| && Concerns(log[i], h);
        assert Concerns((log + [e])[i], h);
      }
      if Concerns(e, h) {
        assert Concerns((log + [e])[|log|], h);
      }
    }
  }

  lemma CommandingKeepsInv(s: Server, axis: Axis, value: real, sent: bool)
    requires Inv(s)
    ensures Inv(Commanding(s, axis, value, None, sent))
  {
    Appended(s.log, Command(axis, value, None, sent));
    var s' := Commanding(s, axis, value, None, sent);
    forall h | h in s'.holds
      ensures HoldOk(s', h)
    {
      assert HoldOk(s, h);
    }
    forall t | t in s'.deadmen
      ensures DeadOk(s', t)
    {
      assert DeadOk(s, t);
    }
  }

  lemma HoldingKeepsInv(s: Server, value: real, duration: real)
    requires Inv(s)
    ensures Inv(Commanding(s, SpeedAxis, value, Some(s.next), true).(
                  holds := s.holds[s.next := Hold(s.speedGen + 1, value, duration, Fresh)], next := s.next + 1))
  {
    var e := Command(SpeedAxis, value, Some(s.next), true);
    Appended(s.log, e);
    var s' := Commanding(s, SpeedAxis, value, Some(s.next), true).(
      holds := s.holds[s.next := Hold(s.speedGen + 1, value, duration, Fresh)], next := s.next + 1);
    forall h | h in s'.holds
      ensures HoldOk(s', h)
    {
      if h != s.next {
        assert HoldOk(s, h);
      }
    }
    forall t | t in s'.deadmen
      ensures DeadOk(s', t)
    {
      assert DeadOk(s, t);
    }
  }

  lemma CloseKeepsInv(s: Server, id: nat)
    requires Inv(s)
    ensures Inv(DoClose(s, id))
  {
    if id in s.streams && s.streams[id].sent {
      var axis := s.streams[id].axis;
      Appended(s.log, Closed(id, axis));
      var s' := DoClose(s, id);
      assert s'.log[|s.log|] == Closed(id, axis);
      forall h | h in s'.holds
        ensures HoldOk(s', h)
      {
        assert HoldOk(s, h);
      }
      forall t | t in s'.deadmen
        ensures DeadOk(s', t)
      {
        if t != id {
          assert DeadOk(s, t);
        }
      }
    } else if id in s.streams {
      OnlyStreams(s, DoClose(s, id));
    }
  }

  // Streams and fresh identifiers alone decide nothing.
  lemma OnlyStreams(s: Server, s': Server)
    requires Inv(s) && s' == s.(streams := s'.streams, next := s'.next) && s.next <= s'.next
    ensures Inv(s')
  {
    forall h | h in s'.holds
      ensures HoldOk(s', h)
    {
      assert HoldOk(s, h);
    }
    forall t | t in s'.deadmen
      ensures DeadOk(s', t)
    {
      assert DeadOk(s, t);
    }
  }

  predicate SameClaims(m: map<nat, Hold>, m': map<nat, Hold>)
  {
    forall h | h in m' :: h in m && m'[h].gen == m[h].gen && m'[h].value == m[h].value
  }

  // An entry a hold makes: it takes nothing over.
  lemma HoldEntryKeepsInv(s: Server, s': Server, e: Entry)
    requires Inv(s) && (e.KeepAlive? || e.Stopped? || e.Superseded?) && EntryOk(s.log, e)
    requires s' == s.(holds := s'.holds, log := s.log + [e]) && SameClaims(s.holds, s'.holds)
    requires forall h | h in s'.holds :: !Ends(e, h)
    requires e.id < s.next
    ensures Inv(s')
  {
    Appended(s.log, e);
    forall h | h in s'.holds
      ensures HoldOk(s', h)
    {
      assert HoldOk(s, h);
    }
    forall t | t in s'.deadmen
      ensures DeadOk(s', t)
    {
      assert DeadOk(s, t);
    }
  }

  lemma HoldKeepsInv(s: Server, id: nat, env: Env)
    requires Inv(s)
    ensures Inv(DoHold(s, id, env))
  {
    var s' := DoHold(s, id, env);
    if s' != s {
      assert HoldOk(s, id);
      var h := s.holds[id];
      var e := s'.log[|s.log|];
      assert s'.log == s.log + [e];
      if h.gen != s.speedGen {
        assert e == Superseded(id);
        HoldEntryKeepsInv(s, s', e);
      } else if e.Stopped? {
        HoldEntryKeepsInv(s, s', e);
      } else {
        assert e == KeepAlive(id, h.value, Reaches(env));
        HoldEntryKeepsInv(s, s', e);
      }
    }
  }

  // An entry a dead-man makes when its grace is over.
  lemma DeadEntryKeepsInv(s: Server, s': Server, e: Entry)
    requires Inv(s) && (e.DeadSkip? || e.DeadZero?) && EntryOk(s.log, e)
    requires s' == s.(deadmen := s'.deadmen, log := s.log + [e],
                      speedGen := if TakesOver(e) then s.speedGen + 1 else s.speedGen)
    requires forall t | t in s'.deadmen :: t in s.deadmen && s'.deadmen[t] == s.deadmen[t]
    ensures Inv(s')
  {
    Appended(s.log, e);
    forall h | h in s'.holds
      ensures HoldOk(s', h)
    {
      assert HoldOk(s, h);
    }
    forall t | t in s'.deadmen
      ensures DeadOk(s', t)
    {
      assert DeadOk(s, t);
    }
  }

  lemma DeadmanKeepsInv(s: Server, id: nat, env: Env)
    requires Inv(s)
    ensures Inv(DoDeadman(s, id, env))
  {
    var s' := DoDeadman(s, id, env);
    if s' != s {
      assert DeadOk(s, id);
      if s.deadmen[id].due.None? {
        forall t | t in s'.deadmen
          ensures DeadOk(s', t)
        {
          assert DeadOk(s, t);
        }
        forall h | h in s'.holds
          ensures HoldOk(s', h)
        {
          assert HoldOk(s, h);
        }
      } else {
        DeadEntryKeepsInv(s, s', s'.log[|s.log|]);
      }
    }
  }

  lemma PostKeepsInv(s: Server, value: real, duration: Option<real>, env: Env)
    requires Inv(s)
    ensures Inv(DoPostSpeed(s, value, duration, env))
  {
    CommandingKeepsInv(s, SpeedAxis, value, env.pub);
    if duration.Some? {
      HoldingKeepsInv(s, value, duration.value);
    }
  }

  lemma FrameKeepsInv(s: Server, id: nat, value: real, env: Env)
    requires Inv(s)
    ensures Inv(DoFrame(s, id, value, env))
  {
    if id in s.streams && env.ready {
      CommandingKeepsInv(s, s.streams[id].axis, value, env.pub);
      OnlyStreams(Commanding(s, s.streams[id].axis, value, None, env.pub), DoFrame(s, id, value, env));
    }
  }

  lemma StepKeepsInv(s: Server, a: Action, env: Env)
    requires Inv(s)
    ensures Inv(Do(s, a, env))
  {
    match a
    case PostSpeed(value, duration) => PostKeepsInv(s, value, duration, env);
    case PostSteering(value) => CommandingKeepsInv(s, SteeringAxis, value, env.pub);
    case Open(axis) => OnlyStreams(s, Do(s, a, env));
    case Frame(id, value) => FrameKeepsInv(s, id, value, env);
    case Close(id) => CloseKeepsInv(s, id);
    case RunHold(id) => HoldKeepsInv(s, id, env);
    case RunDeadman(id) => DeadmanKeepsInv(s, id, env);
  }

  lemma {:induction false} EveryRunKeepsInv(run: seq<(Action, Env)>)
    ensures Inv(DoAll(Started(), run))
    decreases |run|
  {
    if run != [] {
      EveryRunKeepsInv(run[..|run| - 1]);
      StepKeepsInv(DoAll(Started(), run[..|run| - 1]), run[|run| - 1].0, run[|run| - 1].1);
    }
  }

  // ---------------------------------------------------------------- what the log shows

  // Newest is the last entry that takes over.
  lemma {:induction false} NewestIsLast(log: seq<Entry>)
    ensures Newest(log).None? ==> forall i | 0 <= i < |log| :: !TakesOver(log[i])
    ensures Newest(log).Some? ==>
              exists i :: 0 <= i < |log| && log[i] == Newest(log).value && NothingAfter(log, i)
  {
    if log != [] {
      var n := |log| - 1;
      NewestIsLast(log[..n]);
      if TakesOver(log[n]) {
        assert NothingAfter(log, n);
      } else if Newest(log).Some? {
        var i :| 0 <= i < n && log[..n][i] == Newest(log).value && NothingAfter(log[..n], i);
        assert NothingAfter(log, i) by {
          forall j | i < j < |log|
            ensures !TakesOver(log[j])
          {
            assert j < n ==> log[..n][j] == log[j];
          }
        }
        assert log[i] == Newest(log).value;
      } else {
        forall i | 0 <= i < |log|
          ensures !TakesOver(log[i])
        {
          assert i < n ==> log[..n][i] == log[i];
        }
      }
    }
  }

  predicate NothingAfter(log: seq<Entry>, i: nat)
  {
    i < |log| && TakesOver(log[i]) && forall j | i < j < |log| :: !TakesOver(log[j])
  }

  lemma {:induction false} EveryEntryOk(log: seq<Entry>, i: nat)
    requires Orderly(log) && i < |log|
    ensures EntryOk(log[..i], log[i])
  {
    var n := |log| - 1;
    if i < n {
      EveryEntryOk(log[..n], i);
      assert log[..n][..i] == log[..i];
    }
  }

  // The same for the zero a hold publishes at its end: what a hold publishes, it publishes
  // while the command that started it is the newest.
  lemma Origin(log: seq<Entry>, k: nat) returns (i: nat)
    requires Orderly(log) && k < |log| && (log[k].KeepAlive? || log[k].Stopped?)
    ensures i < k && log[i].Command? && log[i] == Command(SpeedAxis, log[i].value, Some(log[k].id), true)
    ensures log[k].KeepAlive? ==> log[i].value == log[k].value
    ensures forall j | i < j < k :: !TakesOver(log[j])
  {
    EveryEntryOk(log, k);
    NewestIsLast(log[..k]);
    i :| 0 <= i < k && log[..k][i] == Newest(log[..k]).value && NothingAfter(log[..k], i);
    forall j | i < j < k
      ensures !TakesOver(log[j])
    {
      assert log[..k][j] == log[j];
    }
  }

  ghost function LogOf(run: seq<(Action, Env)>): seq<Entry>
  {
    DoAll(Started(), run).log
  }

  // In every run, each keep-alive carries the value of the newest speed command: the command
  // that started its hold, with no other command and no dead-man's zero in between.
  lemma KeepAliveCarriesNewest(run: seq<(Action, Env)>, k: nat) returns (i: nat)
    requires k < |LogOf(run)| && LogOf(run)[k].KeepAlive?
    ensures i < k && LogOf(run)[i] == Command(SpeedAxis, LogOf(run)[k].value, Some(LogOf(run)[k].id), true)
    ensures forall j | i < j < k :: !TakesOver(LogOf(run)[j])
  {
    EveryRunKeepsInv(run);
    i := Origin(LogOf(run), k);
  }

  // Once another command or a dead-man's zero has taken the speed over, the hold started by
  // command i neither keeps alive nor publishes its final zero, ever.
  lemma TakenOverNeverPublishes(run: seq<(Action, Env)>, i: nat, j: nat, k: nat, h: nat)
    requires i < j < k < |LogOf(run)| && TakesOver(LogOf(run)[j])
    requires LogOf(run)[i].Command? && LogOf(run)[i].hold == Some(h)
    ensures !(LogOf(run)[k].KeepAlive? && LogOf(run)[k].id == h)
    ensures !(LogOf(run)[k].Stopped? && LogOf(run)[k].id == h)
  {
    EveryRunKeepsInv(run);
    var log := LogOf(run);
    if (log[k].KeepAlive? || log[k].Stopped?) && log[k].id == h {
      var o := Origin(log, k);
      assert o >= j;
      EveryEntryOk(log, o);
      assert Concerns(log[..o][i], h);
    }
  }

  // A hold ends once, as stopped or as superseded, and says nothing afterwards; it ends as
  // stopped only while its command is the newest, so a zero of its own is the last word.
  lemma EndingIsLast(run: seq<(Action, Env)>, i: nat, k: nat, h: nat)
    requires i < k < |LogOf(run)| && Ends(LogOf(run)[i], h)
    ensures !Concerns(LogOf(run)[k], h)
  {
    EveryRunKeepsInv(run);
    var log := LogOf(run);
    EveryEntryOk(log, k);
    assert Ends(log[..k][i], h) && Concerns(log[..k][i], h);
  }

  lemma {:induction false} CommandSinceMeans(log: seq<Entry>, id: nat, axis: Axis)
    requires Closed(id, axis) in log
    ensures exists i :: 0 <= i < |log| && log[i] == Closed(id, axis) &&
              (CommandSince(log, id, axis) <==> CommandIn(log, axis, i + 1))
  {
    var n := |log| - 1;
    if log[n] == Closed(id, axis) {
      assert !CommandIn(log, axis, n + 1);
    } else {
      CommandSinceMeans(log[..n], id, axis);
      var i :| 0 <= i < n && log[..n][i] == Closed(id, axis) &&
        (CommandSince(log[..n], id, axis) <==> CommandIn(log[..n], axis, i + 1));
      assert log[i] == Closed(id, axis);
      CommandInSnoc(log, axis, i + 1);
    }
  }

  /** Some command for the axis at or after position i. */
  predicate CommandIn(log: seq<Entry>, axis: Axis, i: nat)
  {
    exists j :: i <= j < |log| && log[j].Command? && log[j].axis == axis
  }

  lemma CommandInSnoc(log: seq<Entry>, axis: Axis, i: nat)
    requires i < |log|
    ensures var n := |log| - 1;
            CommandIn(log, axis, i) <==> CommandIn(log[..n], axis, i) || (log[n].Command? && log[n].axis == axis)
  {
    var n := |log| - 1;
    if CommandIn(log[..n], axis, i) {
      var j :| i <= j < n && log[..n][j].Command? && log[..n][j].axis == axis;
      assert log[j].Command? && log[j].axis == axis;
    }
    if CommandIn(log, axis, i) {
      var j :| i <= j < |log| && log[j].Command? && log[j].axis == axis;
      assert j < n ==> log[..n][j].Command? && log[..n][j].axis == axis;
    }
  }

  // When its grace is over a dead-man zeroes its axis if no command for that axis came since
  // its stream closed, and stays silent if one did. Republishing by a hold is no command: a
  // hold that was running before the close is stopped with it.
  lemma DeadmanExactly(run: seq<(Action, Env)>, k: nat) returns (i: nat)
    requires k < |LogOf(run)| && (LogOf(run)[k].DeadZero? || LogOf(run)[k].DeadSkip?)
    ensures i < k && LogOf(run)[i] == Closed(LogOf(run)[k].id, LogOf(run)[k].axis)
    ensures LogOf(run)[k].DeadZero? <==> !CommandIn(LogOf(run)[..k], LogOf(run)[k].axis, i + 1)
  {
    EveryRunKeepsInv(run);
    var log := LogOf(run);
    EveryEntryOk(log, k);
    CommandSinceMeans(log[..k], log[k].id, log[k].axis);
    i :| 0 <= i < k && log[..k][i] == Closed(log[k].id, log[k].axis) &&
      (CommandSince(log[..k], log[k].id, log[k].axis) <==> CommandIn(log[..k], log[k].axis, i + 1));
  }

  // A waiting dead-man is the final backstop of its axis: resumed when its grace is over, it
  // says one thing or the other.
  lemma DeadmanActs(s: Server, id: nat, env: Env)
    requires Inv(s) && id in s.deadmen && s.deadmen[id].due.Some? && s.deadmen[id].due.value <= env.now
    ensures var axis := s.deadmen[id].axis;
            DoDeadman(s, id, env).log == s.log + [if CommandSince(s.log, id, axis) then DeadSkip(id, axis)
                                                  else DeadZero(id, axis, Reaches(env))]
    ensures id !in DoDeadman(s, id, env).deadmen
  {
    assert DeadOk(s, id);
  }

  /** When a hold resumed now is to end: its duration counts from its first step. */
  function EndOf(h: Hold, now: real): real
  {
    if h.phase.Fresh? then now + h.duration else h.phase.end
  }

  // A hold resumed in time, the first time included: superseded if and only if its command is no longer the newest;
  // otherwise stopped if and only if its duration is over.
  lemma HoldActs(s: Server, id: nat, env: Env)
    requires Inv(s) && id in s.holds && (s.holds[id].phase.Asleep? ==> s.holds[id].phase.wake <= env.now)
    ensures DoHold(s, id, env).log == s.log + [
              if !Owned(s.log, id) then Superseded(id)
              else if EndOf(s.holds[id], env.now) <= env.now then Stopped(id, Reaches(env))
              else KeepAlive(id, s.holds[id].value, Reaches(env))]
    ensures id in DoHold(s, id, env).holds ==>
              var p := DoHold(s, id, env).holds[id].phase;
              && p.Asleep? && p.end == EndOf(s.holds[id], env.now)
              && env.now < p.wake <= p.end && p.wake <= env.now + KEEPALIVE_PERIOD
  {
    assert HoldOk(s, id);
  }

  // ---------------------------------------------------------------- the module's globals

  class SpeedServer {
    var speedGen: nat
    var driveSpeed: nat
    var driveSteering: nat
    var holds: map<nat, Hold>
    var streams: map<nat, Stream>
    var deadmen: map<nat, Deadman>
    var next: nat
    var log: seq<Entry>

    constructor ()
      ensures State() == Started()
    {
      speedGen, driveSpeed, driveSteering, next := 0, 0, 0, 0;
      holds, streams, deadmen, log := map[], map[], map[], [];
    }

    ghost function State(): Server
      reads this
    {
      Server(speedGen, driveSpeed, driveSteering, holds, streams, deadmen, next, log)
    }

    method BumpSpeedGen() returns (gen: nat)
      modifies this`speedGen
      ensures gen == speedGen == old(speedGen) + 1
    {
      speedGen := speedGen + 1;
      return speedGen;
    }

    /** `publish_speed` and `publish_steering`, on a ready bridge: true if there is a publisher. */
    method Publish(axis: Axis, value: real, hold: Option<nat>, env: Env) returns (success: bool)
      modifies this`log
      ensures log == old(log) + [Command(axis, value, hold, env.pub)] && success == env.pub
    {
      log := log + [Command(axis, value, hold, env.pub)];
      return env.pub;
    }

    method SetSpeed(value: real, duration: Option<real>, env: Env) returns (hold: Option<nat>)
      modifies this
      ensures State() == Do(old(State()), PostSpeed(value, duration), env)
      ensures hold == if old(State()).next == State().next then None else Some(old(State()).next)
    {
      hold := None;
      if duration.Some? && !(0.0 < duration.value <= LONGEST_HOLD) {
        return;
      }
      if !env.ready {
        return;
      }
      var gen := BumpSpeedGen();
      driveSpeed := driveSpeed + 1;
      if env.pub && duration.Some? && value != 0.0 {
        hold := Some(next);
      }
      var success := Publish(SpeedAxis, value, hold, env);
      if success && duration.Some? && value != 0.0 {
        holds := holds[next := Hold(gen, value, duration.value, Fresh)];
        next := next + 1;
      }
    }

    method SetSteering(value: real, env: Env)
      modifies this
      ensures State() == Do(old(State()), PostSteering(value), env)
    {
      if !env.ready {
        return;
      }
      driveSteering := driveSteering + 1;
      var _ := Publish(SteeringAxis, value, None, env);
    }

    method OpenStream(axis: Axis, env: Env) returns (id: nat)
      modifies this
      ensures State() == Do(old(State()), Open(axis), env) && id == old(next)
    {
      id := next;
      streams := streams[id := Stream(axis, false)];
      next := next + 1;
    }

    method FrameReceived(id: nat, value: real, env: Env)
      modifies this
      ensures State() == Do(old(State()), Frame(id, value), env)
    {
      if id !in streams || !env.ready {
        return;
      }
      var axis := streams[id].axis;
      if axis.SpeedAxis? {
        var _ := BumpSpeedGen();
        driveSpeed := driveSpeed + 1;
      } else {
        driveSteering := driveSteering + 1;
      }
      var _ := Publish(axis, value, None, env);
      streams := streams[id := Stream(axis, true)];
    }

    method StreamClosed(id: nat, env: Env)
      modifies this
      ensures State() == Do(old(State()), Close(id), env)
    {
      if id !in streams {
        return;
      }
      var s := streams[id];
      streams := streams - {id};
      if s.sent {
        var gen := if s.axis.SpeedAxis? then driveSpeed else driveSteering;
        deadmen := deadmen[id := Deadman(s.axis, gen, None)];
        log := log + [Closed(id, s.axis)];
      }
    }

    /** `_speed_hold` from one await to the next. */
    method ResumeHold(id: nat, env: Env)
      modifies this
      ensures State() == Do(old(State()), RunHold(id), env)
    {
      if id !in holds {
        return;
      }
      var h := holds[id];
      if h.phase.Asleep? && env.now < h.phase.wake {
        return;
      }
      var end := if h.phase.Fresh? then env.now + h.duration else h.phase.end;
      if h.gen != speedGen {
        holds := holds - {id};
        log := log + [Superseded(id)];
        return;
      }
      var remain := end - env.now;
      if remain <= 0.0 {
        holds := holds - {id};
        log := log + [Stopped(id, env.ready && env.pub)];
        return;
      }
      log := log + [KeepAlive(id, h.value, env.ready && env.pub)];
      var pause := if remain < KEEPALIVE_PERIOD then remain else KEEPALIVE_PERIOD;
      holds := holds[id := Hold(h.gen, h.value, h.duration, Asleep(end, env.now + pause))];
    }

    /** `_deadman_zero` from one await to the next. */
    method ResumeDeadman(id: nat, env: Env)
      modifies this
      ensures State() == Do(old(State()), RunDeadman(id), env)
    {
      if id !in deadmen {
        return;
      }
      var m := deadmen[id];
      if m.due.None? {
        deadmen := deadmen[id := Deadman(m.axis, m.gen, Some(env.now + DEADMAN_GRACE))];
        return;
      }
      if env.now < m.due.value {
        return;
      }
      deadmen := deadmen - {id};
      var gen := if m.axis.SpeedAxis? then driveSpeed else driveSteering;
      if gen != m.gen {
        log := log + [DeadSkip(id, m.axis)];
        return;
      }
      if m.axis.SpeedAxis? {
        var _ := BumpSpeedGen();
      }
      log := log + [DeadZero(id, m.axis, env.ready && env.pub)];
    }
  }
}
