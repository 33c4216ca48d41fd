/** What clients asked of the drive axes (hw.py), read off the steps of a run alone, and what
    the server made of it. */
module SpeedRequests {

  import opened SpeedHold
  import opened Options

  type Run = seq<(Action, Env)>

  ghost function StateAfter(run: Run): Server
  {
    DoAll(Started(), run)
  }

  // ---------------------------------------------------------------- streams

  /** Step o opened the stream, and nothing has closed it since. */
  ghost predicate OpenSince(run: Run, id: nat, axis: Axis, o: nat)
  {
    && o < |run| && run[o].0 == Open(axis) && StateAfter(run[..o]).next == id
    && forall j | o < j < |run| :: run[j].0 != Close(id)
  }

  ghost predicate OpenOn(run: Run, id: nat, axis: Axis)
  {
    exists o :: OpenSince(run, id, axis, o)
  }

  /** A frame arrived on the stream after step o, on a ready bridge. */
  ghost predicate FrameSince(run: Run, id: nat, o: nat)
  {
    exists j :: o < j < |run| && IsFrame(run[j], id)
  }

  predicate IsFrame(step: (Action, Env), id: nat)
  {
    step.0.Frame? && step.0.id == id && step.1.ready
  }

  lemma {:induction false} NextGrows(run: Run, k: nat)
    requires k <= |run|
    ensures StateAfter(run[..k]).next <= StateAfter(run).next
    ensures k < |run| && run[k].0.Open? ==> StateAfter(run[..k]).next < StateAfter(run).next
    decreases |run|
  {
    if k == |run| {
      assert run[..k] == run;
    } else {
      var rest := run[..|run| - 1];
      assert rest[..k] == run[..k];
      NextGrows(rest, k);
    }
  }

  lemma OpenSinceStep(run: Run, id: nat, axis: Axis, o: nat)
    requires o < |run| - 1
    ensures OpenSince(run, id, axis, o) <==> OpenSince(run[..|run| - 1], id, axis, o) && run[|run| - 1].0 != Close(id)
  {
    var n := |run| - 1;
    assert run[..n][..o] == run[..o];
    if OpenSince(run[..n], id, axis, o) && run[n].0 != Close(id) {
      forall j | o < j < |run|
        ensures run[j].0 != Close(id)
      {
        assert j < n ==> run[..n][j] == run[j];
      }
    }
    if OpenSince(run, id, axis, o) {
      forall j | o < j < n
        ensures run[..n][j].0 != Close(id)
      {
        assert run[..n][j] == run[j];
      }
    }
  }

  lemma FrameSinceStep(run: Run, id: nat, o: nat)
    requires o < |run| - 1
    ensures FrameSince(run, id, o) <==> FrameSince(run[..|run| - 1], id, o) || IsFrame(run[|run| - 1], id)
  {
    var n := |run| - 1;
    if FrameSince(run[..n], id, o) {
      var j :| o < j < n && IsFrame(run[..n][j], id);
      assert IsFrame(run[j], id);
    }
    if FrameSince(run, id, o) {
      var j :| o < j < |run| && IsFrame(run[j], id);
      assert j < n ==> IsFrame(run[..n][j], id);
    }
  }

  // An open stream has the axis it was opened for, and counts as used from the first frame that
  // arrived on a ready bridge.
  lemma {:induction false} OpenedIsOpen(run: Run, id: nat, axis: Axis, o: nat)
    requires OpenSince(run, id, axis, o)
    ensures id in StateAfter(run).streams && StateAfter(run).streams[id] == Stream(axis, FrameSince(run, id, o))
    decreases |run|
  {
    var n := |run| - 1;
    if o < n {
      OpenSinceStep(run, id, axis, o);
      FrameSinceStep(run, id, o);
      OpenedIsOpen(run[..n], id, axis, o);
      assert run[..n][..o] == run[..o] && run[..n][o] == run[o];
      NextGrows(run[..n], o);
      OpenedStep(StateAfter(run[..n]), id, run[n].0, run[n].1);
    }
  }

  lemma OpenedStep(s: Server, id: nat, a: Action, env: Env)
    requires id in s.streams && id < s.next && a != Close(id)
    ensures id in Do(s, a, env).streams
    ensures Do(s, a, env).streams[id] == Stream(s.streams[id].axis, s.streams[id].sent || IsFrame((a, env), id))
  {
  }

  lemma {:induction false} OpenWasOpened(run: Run, id: nat) returns (o: nat)
    requires id in StateAfter(run).streams
    ensures OpenSince(run, id, StateAfter(run).streams[id].axis, o)
    decreases |run|
  {
    var n := |run| - 1;
    var s, a := StateAfter(run[..n]), run[n].0;
    if a.Open? && id == s.next {
      o := n;
    } else {
      ClosedOrOpened(s, id, a, run[n].1);
      o := OpenWasOpened(run[..n], id);
      OpenSinceStep(run, id, s.streams[id].axis, o);
    }
  }

  lemma ClosedOrOpened(s: Server, id: nat, a: Action, env: Env)
    requires id in Do(s, a, env).streams && !(a.Open? && id == s.next)
    ensures id in s.streams && s.streams[id].axis == Do(s, a, env).streams[id].axis && a != Close(id)
  {
  }

  // ---------------------------------------------------------------- commands

  /** What a client asked for: a value on an axis; whether there was a publisher for it, and
      whether it was to be held for a duration. */
  datatype Ask = Ask(axis: Axis, value: real, pub: bool, held: bool)

  /** What a step asks for: nothing if the bridge is not ready, the duration is out of range or
      the stream is not open. */
  ghost function AskOf(before: Run, a: Action, env: Env): seq<Ask>
  {
    if !env.ready then []
    else match a
      case PostSpeed(v, None) => [Ask(SpeedAxis, v, env.pub, false)]
      case PostSpeed(v, Some(duration)) =>
        if 0.0 < duration <= 600.0 then [Ask(SpeedAxis, v, env.pub, env.pub && v != 0.0)] else []
      case PostSteering(v) => [Ask(SteeringAxis, v, env.pub, false)]
      case Frame(id, v) =>
        if OpenOn(before, id, SpeedAxis) then [Ask(SpeedAxis, v, env.pub, false)]
        else if OpenOn(before, id, SteeringAxis) then [Ask(SteeringAxis, v, env.pub, false)]
        else []
      case _ => []
  }

  ghost function Asked(run: Run): seq<Ask>
    decreases |run|
  {
    if run == [] then []
    else Asked(run[..|run| - 1]) + AskOf(run[..|run| - 1], run[|run| - 1].0, run[|run| - 1].1)
  }

  function Commands(log: seq<Entry>): seq<Ask>
  {
    if log == [] then []
    else
      Commands(log[..|log| - 1]) +
      match log[|log| - 1]
      case Command(axis, value, hold, sent) => [Ask(axis, value, sent, hold.Some?)]
      case _ => []
  }

  lemma CommandsSnoc(log: seq<Entry>, e: Entry)
    ensures Commands(log + [e]) ==
              Commands(log) + if e.Command? then [Ask(e.axis, e.value, e.sent, e.hold.Some?)] else []
  {
    assert (log + [e])[..|log|] == log;
  }

  // In every run the commands are those the clients asked for, in order: on the axis and with
  // the value they named, each once, and none for a request that was rejected.
  lemma {:induction false} CommandsAsAsked(run: Run)
    ensures Commands(LogOf(run)) == Asked(run)
    decreases |run|
  {
    if run != [] {
      var n := |run| - 1;
      CommandsAsAsked(run[..n]);
      StepAsAsked(run[..n], run[n].0, run[n].1);
    }
  }

  lemma StepAsAsked(before: Run, a: Action, env: Env)
    ensures Commands(Do(StateAfter(before), a, env).log) == Commands(StateAfter(before).log) + AskOf(before, a, env)
  {
    var s := StateAfter(before);
    match a
    case PostSpeed(v, duration) => PostSpeedSays(s, v, duration, env);
    case PostSteering(v) => SteeringSays(s, v, env);
    case Frame(id, v) => FrameAsAsked(before, id, v, env);
    case _ => NoCommand(s, a, env);
  }

  lemma SteeringSays(s: Server, v: real, env: Env)
    ensures Commands(Do(s, PostSteering(v), env).log) ==
              Commands(s.log) + if env.ready then [Ask(SteeringAxis, v, env.pub, false)] else []
  {
    CommandsSnoc(s.log, Command(SteeringAxis, v, None, env.pub));
  }

  lemma FrameAsAsked(before: Run, id: nat, v: real, env: Env)
    ensures Commands(DoFrame(StateAfter(before), id, v, env).log) ==
              Commands(StateAfter(before).log) + AskOf(before, Frame(id, v), env)
  {
    FrameAxis(before, id, SpeedAxis);
    FrameAxis(before, id, SteeringAxis);
    FrameSays(StateAfter(before), id, v, env);
  }

  lemma PostSpeedSays(s: Server, v: real, duration: Option<real>, env: Env)
    ensures Commands(DoPostSpeed(s, v, duration, env).log) == Commands(s.log) +
              if env.ready && (duration.Some? ==> 0.0 < duration.value <= 600.0)
              then [Ask(SpeedAxis, v, env.pub, duration.Some? && env.pub && v != 0.0)] else []
  {
    var hold := if duration.Some? && env.pub && v != 0.0 then Some(s.next) else None;
    CommandsSnoc(s.log, Command(SpeedAxis, v, hold, env.pub));
  }

  lemma FrameSays(s: Server, id: nat, v: real, env: Env)
    ensures Commands(DoFrame(s, id, v, env).log) == Commands(s.log) +
              if id in s.streams && env.ready then [Ask(s.streams[id].axis, v, env.pub, false)] else []
  {
    if id in s.streams {
      CommandsSnoc(s.log, Command(s.streams[id].axis, v, None, env.pub));
    }
  }

  lemma NoCommand(s: Server, a: Action, env: Env)
    requires a.Open? || a.Close? || a.RunHold? || a.RunDeadman?
    ensures Commands(Do(s, a, env).log) == Commands(s.log)
  {
    var log := Do(s, a, env).log;
    if log != s.log {
      var e := log[|s.log|];
      assert log == s.log + [e] && !e.Command?;
      CommandsSnoc(s.log, e);
    }
  }

  lemma FrameAxis(run: Run, id: nat, axis: Axis)
    ensures OpenOn(run, id, axis) <==>
              id in StateAfter(run).streams && StateAfter(run).streams[id].axis == axis
  {
    if id in StateAfter(run).streams {
      var o := OpenWasOpened(run, id);
    }
    if o :| OpenSince(run, id, axis, o) {
      OpenedIsOpen(run, id, axis, o);
    }
  }

  // A request that asks for nothing changes nothing at all: no generation moves, so a hold that
  // is running goes on.
  lemma RejectedChangesNothing(run: Run, a: Action, env: Env)
    requires a.PostSpeed? || a.PostSteering? || a.Frame?
    requires AskOf(run, a, env) == []
    ensures Do(StateAfter(run), a, env) == StateAfter(run)
  {
    if a.Frame? {
      FrameAxis(run, a.id, SpeedAxis);
      FrameAxis(run, a.id, SteeringAxis);
    }
  }

  // Closing a stream leaves a dead-man if and only if a frame of it was accepted: one that was
  // opened and sent nothing, or nothing that got through, is closed without a trace.
  lemma ClosingLeavesDeadman(run: Run, id: nat, axis: Axis, o: nat, env: Env)
    requires OpenSince(run, id, axis, o)
    ensures var s, s' := StateAfter(run), Do(StateAfter(run), Close(id), env);
            if FrameSince(run, id, o) then
              && id in s'.deadmen && s'.deadmen[id].axis == axis && s'.deadmen[id].due.None?
              && s'.log == s.log + [Closed(id, axis)]
            else
              s' == s.(streams := s.streams - {id})
  {
    OpenedIsOpen(run, id, axis, o);
  }
}
