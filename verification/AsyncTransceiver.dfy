/** The receive thread, the decoder thread and the buffer queue between them
    (sl_async_transceiver.cpp), driving the codec.

    `Link` is the state both threads share, `Do` performs one indivisible action of either
    thread, and every sequence of actions is an interleaving: an action that is not enabled
    leaves the state as it is. `AsyncTransceiver` is the code of each lock region. */
module AsyncTransceiver {

  import opened AnswerCodec

  /** What the decoder has gone through: bytes, and resets (`exitLoopMode`) between them. */
  datatype Event = Byte(b: octet) | Reset

  datatype Link = Link(
    working: bool,               // _isWorking
    rxAlive: bool,               // the receive loop has not ended
    held: seq<octet>,            // read from the channel, not yet queued
    queue: seq<seq<octet>>,      // _rxQueue
    decoderStarted: bool,        // onDecodeReset at the head of the decoder thread
    atQueue: bool,               // the decoder loop has tested _isWorking and goes for the queue
    inHand: seq<octet>,          // taken from the queue, not yet decoded
    decoder: Decoder,
    delivered: seq<Answer>,
    received: seq<octet>,        // every byte read from the channel, in order
    history: seq<Event>,         // every byte decoded and every reset, in order
    dropped: seq<octet>)         // thrown away with the queue on closing

  const CLOSED: Link := Link(false, false, [], [], false, false, [], WaitSync1, [], [], [], [])
  const OPENED: Link := CLOSED.(working := true, rxAlive := true)

  datatype Action =
    | RxRead(chunk: seq<octet>)
    | RxPush
    | RxExit
    | DecoderStart
    | DecoderTest
    | DecoderTake
    | DecodeOne
    | ExitLoopMode
    | StopWorking
    | ClearQueue

  predicate Enabled(s: Link, a: Action)
  {
    match a
    case RxRead(chunk) => s.rxAlive && s.held == [] && chunk != []
    case RxPush => s.held != []
    case RxExit => s.rxAlive && s.held == []
    case DecoderStart => !s.decoderStarted
    case DecoderTest => s.working && s.decoderStarted && s.inHand == [] && !s.atQueue
    case DecoderTake => s.atQueue
    case DecodeOne => s.inHand != []
    case ExitLoopMode => true
    case StopWorking => s.working
    case ClearQueue => !s.working && !s.rxAlive && s.inHand == [] && !s.atQueue
  }

  function Do(s: Link, a: Action): Link
  {
    if !Enabled(s, a) then s else
      match a
      case RxRead(chunk) => s.(held := chunk, received := s.received + chunk)
      case RxPush => s.(held := [], queue := s.queue + [s.held])
      case RxExit => s.(rxAlive := false)
      case DecoderStart => s.(decoderStarted := true, decoder := WaitSync1, history := s.history + [Reset])
      case DecoderTest => s.(atQueue := true)
      case DecoderTake =>
        if s.queue == [] then s.(atQueue := false)
        else s.(atQueue := false, inHand := s.queue[0], queue := s.queue[1..])
      case DecodeOne =>
        var o := Step(s.decoder, s.inHand[0]);
        s.(inHand := s.inHand[1..], decoder := o.next, delivered := s.delivered + o.out,
           history := s.history + [Byte(s.inHand[0])])
      case ExitLoopMode => s.(decoder := WaitSync1, history := s.history + [Reset])
      case StopWorking => s.(working := false)
      case ClearQueue => s.(queue := [], dropped := s.dropped + Joined(s.queue))
  }

  function DoAll(s: Link, actions: seq<Action>): Link
    decreases |actions|
  {
    if actions == [] then s else DoAll(Do(s, actions[0]), actions[1..])
  }

  // ---------------------------------------------------------------- invariant

  function BytesOf(h: seq<Event>): seq<octet>
  {
    if h == [] then []
    else BytesOf(h[..|h| - 1]) + if h[|h| - 1].Byte? then [h[|h| - 1].b] else []
  }

  /** The decoder run through a history on its own, in one thread. */
  function Replay(h: seq<Event>): Outcome
  {
    if h == [] then Outcome(WaitSync1, [])
    else
      var before := Replay(h[..|h| - 1]);
      match h[|h| - 1]
      case Reset => Outcome(WaitSync1, before.out)
      case Byte(b) => Outcome(Step(before.next, b).next, before.out + Step(before.next, b).out)
  }

  ghost predicate Inv(s: Link)
  {
    // no byte is lost, duplicated or reordered on its way to the decoder
    && BytesOf(s.history) + s.inHand + Joined(s.queue) + s.held + s.dropped == s.received
    // and what the listener got is what the decoder alone would have delivered
    && Outcome(s.decoder, s.delivered) == Replay(s.history)
    && (s.dropped != [] ==>
          !s.working && !s.rxAlive && s.inHand == [] && !s.atQueue && s.held == [] && s.queue == [])
    && (!s.decoderStarted ==> s.inHand == [] && !s.atQueue)
    && (s.atQueue ==> s.inHand == [])
    && (!s.rxAlive ==> s.held == [])
  }

  lemma {:induction false} JoinedConcat(a: seq<seq<octet>>, b: seq<seq<octet>>)
    ensures Joined(a + b) == Joined(a) + Joined(b)
  {
    if a == [] {
      assert a + b == b;
    } else {
      assert (a + b)[1..] == a[1..] + b;
      JoinedConcat(a[1..], b);
    }
  }

  lemma HistorySnoc(h: seq<Event>, e: Event)
    ensures BytesOf(h + [e]) == BytesOf(h) + if e.Byte? then [e.b] else []
    ensures Replay(h + [e])
         == match e
            case Reset => Outcome(WaitSync1, Replay(h).out)
            case Byte(b) => Outcome(Step(Replay(h).next, b).next, Replay(h).out + Step(Replay(h).next, b).out)
  {
    assert (h + [e])[..|h|] == h;
  }

  lemma PushKeepsInv(s: Link)
    requires Inv(s) && Enabled(s, RxPush)
    ensures Inv(Do(s, RxPush))
  {
    JoinedConcat(s.queue, [s.held]);
    assert [s.held][1..] == [];
    assert Joined([s.held]) == s.held + Joined([s.held][1..]) == s.held;
    assert BytesOf(s.history) + s.inHand + Joined(s.queue + [s.held]) + [] + s.dropped
        == BytesOf(s.history) + s.inHand + Joined(s.queue) + s.held + s.dropped;
  }

  lemma DecodeKeepsInv(s: Link)
    requires Inv(s) && Enabled(s, DecodeOne)
    ensures Inv(Do(s, DecodeOne))
  {
    HistorySnoc(s.history, Byte(s.inHand[0]));
    assert BytesOf(s.history) + [s.inHand[0]] + s.inHand[1..] == BytesOf(s.history) + s.inHand;
  }

  lemma ReadKeepsInv(s: Link, chunk: seq<octet>)
    requires Inv(s) && Enabled(s, RxRead(chunk))
    ensures Inv(Do(s, RxRead(chunk)))
  {
    assert s.received == BytesOf(s.history) + s.inHand + Joined(s.queue);
    assert s.received + chunk == BytesOf(s.history) + s.inHand + Joined(s.queue) + chunk + s.dropped;
  }

  lemma TakeKeepsInv(s: Link)
    requires Inv(s) && Enabled(s, DecoderTake)
    ensures Inv(Do(s, DecoderTake))
  {
    if s.queue != [] {
      assert Joined(s.queue) == s.queue[0] + Joined(s.queue[1..]);
      assert BytesOf(s.history) + s.queue[0] + Joined(s.queue[1..]) == BytesOf(s.history) + [] + Joined(s.queue);
    }
  }

  lemma ResetKeepsInv(s: Link, started: bool)
    requires Inv(s) && (started ==> s.decoderStarted || s.inHand == [])
    ensures Inv(s.(decoderStarted := s.decoderStarted || started, decoder := WaitSync1, history := s.history + [Reset]))
  {
    HistorySnoc(s.history, Reset);
    assert BytesOf(s.history) + [] == BytesOf(s.history);
  }

  lemma ClearKeepsInv(s: Link)
    requires Inv(s) && Enabled(s, ClearQueue)
    ensures Inv(Do(s, ClearQueue))
  {
    var done := BytesOf(s.history);
    if s.dropped == [] {
      assert s.received == done + Joined(s.queue);
      assert done + [] + Joined([]) + [] + Joined(s.queue) == s.received;
    } else {
      assert s.dropped + Joined([]) == s.dropped;
    }
  }

  lemma DoKeepsInv(s: Link, a: Action)
    requires Inv(s)
    ensures Inv(Do(s, a))
  {
    if Enabled(s, a) {
      match a
      case RxRead(chunk) => ReadKeepsInv(s, chunk);
      case RxPush => PushKeepsInv(s);
      case RxExit =>
      case DecoderStart => ResetKeepsInv(s, true);
      case DecoderTest =>
      case DecoderTake => TakeKeepsInv(s);
      case DecodeOne => DecodeKeepsInv(s);
      case ExitLoopMode => ResetKeepsInv(s, false);
      case StopWorking =>
      case ClearQueue => ClearKeepsInv(s);
    }
  }

  // Every interleaving of the two threads, of resets and of closing keeps the invariant.
  lemma {:induction false} EveryRunKeepsInv(s: Link, actions: seq<Action>)
    requires Inv(s)
    ensures Inv(DoAll(s, actions))
    decreases |actions|
  {
    if actions != [] {
      DoKeepsInv(s, actions[0]);
      EveryRunKeepsInv(Do(s, actions[0]), actions[1..]);
    }
  }

  // ---------------------------------------------------------------- refinement

  /** No reset but the one the decoder thread performs before its first byte. */
  ghost predicate ResetFree(s: Link)
  {
    forall i, j | 0 <= i < j < |s.history| && s.history[i].Byte? :: s.history[j].Byte?
  }

  ghost predicate Drained(s: Link)
  {
    s.inHand == [] && s.queue == [] && s.held == [] && s.dropped == []
  }

  lemma {:induction false} ReplayIsDecode(h: seq<Event>)
    requires forall i, j | 0 <= i < j < |h| && h[i].Byte? :: h[j].Byte?
    ensures Replay(h) == Decode(WaitSync1, BytesOf(h))
  {
    if h != [] {
      var init, e := h[..|h| - 1], h[|h| - 1];
      ReplayIsDecode(init);
      if e.Byte? {
        DecodeSnoc(WaitSync1, BytesOf(init), e.b);
      } else {
        NoBytes(init);
      }
    }
  }

  lemma {:induction false} NoBytes(h: seq<Event>)
    requires forall i | 0 <= i < |h| :: h[i].Reset?
    ensures BytesOf(h) == []
  {
    if h != [] {
      NoBytes(h[..|h| - 1]);
    }
  }

  lemma OpenedInv()
    ensures Inv(OPENED)
  {
    assert BytesOf([]) + [] + Joined([]) + [] + [] == [];
  }

  lemma Conserved(s: Link)
    requires Inv(s)
    ensures s.received == BytesOf(s.history) + (s.inHand + Joined(s.queue) + s.held + s.dropped)
  {
    var done := BytesOf(s.history);
    assert done + s.inHand + Joined(s.queue) + s.held + s.dropped ==
           done + (s.inHand + Joined(s.queue) + s.held + s.dropped);
  }

  lemma LinkRefinesSequential(s: Link)
    requires Inv(s) && ResetFree(s)
    ensures s.delivered <= Decode(WaitSync1, s.received).out
    ensures Drained(s) ==> s.delivered == Decode(WaitSync1, s.received).out
  {
    ReplayIsDecode(s.history);
    Conserved(s);
    DecodePrefix(WaitSync1, BytesOf(s.history), s.received);
    if Drained(s) {
      assert BytesOf(s.history) == s.received;
    }
  }

  // Threaded and chunked decoding refines one-pass decoding: whatever the split into reads
  // and the interleaving, the messages delivered so far are a prefix of those one pass over
  // the bytes read so far delivers, and all of them once nothing is on its way.
  lemma ThreadedRefinesSequential(actions: seq<Action>)
    requires ResetFree(DoAll(OPENED, actions))
    ensures var s := DoAll(OPENED, actions);
            && s.delivered <= Decode(WaitSync1, s.received).out
            && (Drained(s) ==> s.delivered == Decode(WaitSync1, s.received).out)
  {
    OpenedInv();
    EveryRunKeepsInv(OPENED, actions);
    LinkRefinesSequential(DoAll(OPENED, actions));
  }

  // Two runs that read the same bytes agree on what they delivered as far as both have got,
  // however the reads were split and the threads scheduled.
  lemma ChunkingIsInvisible(a: seq<Action>, b: seq<Action>)
    requires ResetFree(DoAll(OPENED, a)) && ResetFree(DoAll(OPENED, b))
    requires DoAll(OPENED, a).received == DoAll(OPENED, b).received
    ensures var x, y := DoAll(OPENED, a).delivered, DoAll(OPENED, b).delivered;
            && (x <= y || y <= x)
            && (Drained(DoAll(OPENED, a)) && Drained(DoAll(OPENED, b)) ==> x == y)
  {
    ThreadedRefinesSequential(a);
    ThreadedRefinesSequential(b);
    var all := Decode(WaitSync1, DoAll(OPENED, a).received).out;
    var x, y := DoAll(OPENED, a).delivered, DoAll(OPENED, b).delivered;
    assert x == all[..|x|] && y == all[..|y|];
  }

  // With resets the listener still gets exactly what a single-threaded decoder reset at the
  // same places would deliver, and the bytes decoded are a prefix of the bytes read.
  lemma ResetsRefineSequential(actions: seq<Action>)
    ensures var s := DoAll(OPENED, actions);
            s.delivered == Replay(s.history).out && BytesOf(s.history) <= s.received
  {
    OpenedInv();
    EveryRunKeepsInv(OPENED, actions);
    Conserved(DoAll(OPENED, actions));
  }

  /** What the receive thread read off the channel over the actions, from state s. */
  ghost function ReadBy(s: Link, actions: seq<Action>): seq<octet>
    decreases |actions|
  {
    if actions == [] then []
    else
      (if actions[0].RxRead? && s.rxAlive && s.held == [] then actions[0].chunk else [])
      + ReadBy(Do(s, actions[0]), actions[1..])
  }

  // The bytes counted as received are those that were read, all of them and in order.
  lemma {:induction false} ReceivedIsRead(s: Link, actions: seq<Action>)
    ensures DoAll(s, actions).received == s.received + ReadBy(s, actions)
    decreases |actions|
  {
    if actions != [] {
      ReceivedIsRead(Do(s, actions[0]), actions[1..]);
    }
  }

  predicate Resets(a: Action)
  {
    a == ExitLoopMode || a == DecoderStart
  }

  /** From s to t the bytes w were decoded, from the state the decoder was in. */
  ghost predicate Decodes(s: Link, t: Link, w: seq<octet>)
  {
    && BytesOf(t.history) == BytesOf(s.history) + w
    && t.decoder == Decode(s.decoder, w).next && t.delivered == s.delivered + Decode(s.decoder, w).out
  }

  lemma DecodesNothing(s: Link)
    ensures Decodes(s, s, [])
  {
    assert BytesOf(s.history) + [] == BytesOf(s.history) && s.delivered + [] == s.delivered;
  }

  lemma DecodesMore(s: Link, n: Link, t: Link, u: seq<octet>, v: seq<octet>)
    requires Decodes(s, n, u) && Decodes(n, t, v)
    ensures Decodes(s, t, u + v)
  {
    DecodeConcat(s.decoder, u, v);
    Regroup(BytesOf(s.history), u, v);
    Regroup(s.delivered, Decode(s.decoder, u).out, Decode(n.decoder, v).out);
  }

  lemma StepDecodes(s: Link, a: Action)
    requires !Resets(a)
    ensures Decodes(s, Do(s, a), if a == DecodeOne && s.inHand != [] then [s.inHand[0]] else [])
  {
    if a == DecodeOne && s.inHand != [] {
      HistorySnoc(s.history, Byte(s.inHand[0]));
      AnswerCodec.DecodeOne(s.decoder, s.inHand[0]);
    } else {
      DecodesNothing(s);
    }
  }

  // Between resets the decoder decodes the bytes it is given.
  lemma {:induction false} RunDecodes(s: Link, actions: seq<Action>) returns (w: seq<octet>)
    requires forall i | 0 <= i < |actions| :: !Resets(actions[i])
    ensures Decodes(s, DoAll(s, actions), w)
    decreases |actions|
  {
    if actions == [] {
      w := [];
      DecodesNothing(s);
    } else {
      var n := Do(s, actions[0]);
      StepDecodes(s, actions[0]);
      var first := if actions[0] == DecodeOne && s.inHand != [] then [s.inHand[0]] else [];
      var rest := RunDecodes(n, actions[1..]);
      DecodesMore(s, n, DoAll(n, actions[1..]), first, rest);
      w := first + rest;
    }
  }

  // Leaving loop mode takes the decoder out of it: whatever it was in the middle of, the bytes
  // decoded after the reset are decoded from the start.
  lemma AfterReset(before: seq<Action>, after: seq<Action>, w: seq<octet>)
    requires forall i | 0 <= i < |after| :: !Resets(after[i])
    requires var s := DoAll(OPENED, before);
             BytesOf(DoAll(Do(s, ExitLoopMode), after).history) == BytesOf(s.history) + w
    ensures var s := DoAll(OPENED, before);
            DoAll(Do(s, ExitLoopMode), after).delivered == s.delivered + Decode(WaitSync1, w).out
  {
    FromReset(DoAll(OPENED, before), after, w);
  }

  lemma FromReset(s: Link, after: seq<Action>, w: seq<octet>)
    requires forall i | 0 <= i < |after| :: !Resets(after[i])
    requires BytesOf(DoAll(Do(s, ExitLoopMode), after).history) == BytesOf(s.history) + w
    ensures DoAll(Do(s, ExitLoopMode), after).delivered == s.delivered + Decode(WaitSync1, w).out
  {
    var r := ResetState(s);
    var v := RunDecodes(r, after);
    SameTail(BytesOf(s.history), v, w);
  }

  lemma ResetState(s: Link) returns (r: Link)
    ensures r == Do(s, ExitLoopMode)
    ensures r.decoder == WaitSync1 && r.delivered == s.delivered && BytesOf(r.history) == BytesOf(s.history)
  {
    r := Do(s, ExitLoopMode);
    HistorySnoc(s.history, Reset);
  }

  lemma SameTail(a: seq<octet>, v: seq<octet>, w: seq<octet>)
    requires a + v == a + w
    ensures v == w
  {
    assert v == (a + v)[|a|..] && w == (a + w)[|a|..];
  }

  // So packets decoded after it arrive, in whatever mode the decoder was.
  lemma PacketsAfterReset(before: seq<Action>, after: seq<Action>, ts: seq<Burst>)
    requires forall i | 0 <= i < |after| :: !Resets(after[i])
    requires forall i | 0 <= i < |ts| :: Sendable(ts[i]) && Harmless(ts[i].noise)
    requires var s := DoAll(OPENED, before);
             BytesOf(DoAll(Do(s, ExitLoopMode), after).history) == BytesOf(s.history) + Transmission(ts)
    ensures var s := DoAll(OPENED, before);
            DoAll(Do(s, ExitLoopMode), after).delivered == s.delivered + Answers(ts)
  {
    AfterReset(before, after, Transmission(ts));
    StreamRoundTrip(ts);
  }

  /** What the decoder thread may still decode once closing has begun: what it has in hand, or
      the buffer it is about to take. */
  function LastBuffer(s: Link): seq<octet>
  {
    if s.atQueue && s.inHand == [] && s.queue != [] then s.queue[0] else s.inHand
  }

  ghost predicate Closing(s: Link)
  {
    !s.working && (s.atQueue ==> s.queue != [] && s.inHand == [])
  }

  lemma ClosingStep(s: Link, a: Action)
    requires Closing(s)
    ensures Closing(Do(s, a))
    ensures BytesOf(Do(s, a).history) + LastBuffer(Do(s, a)) == BytesOf(s.history) + LastBuffer(s)
  {
    if a == DecodeOne && s.inHand != [] {
      HistorySnoc(s.history, Byte(s.inHand[0]));
      assert BytesOf(s.history) + [s.inHand[0]] + s.inHand[1..] == BytesOf(s.history) + s.inHand;
    } else if Resets(a) {
      HistorySnoc(s.history, Reset);
      assert BytesOf(s.history) + [] == BytesOf(s.history);
    }
  }

  // Closing is prompt: after it has begun the decoder finishes at most one buffer.
  lemma {:induction false} StopIsPrompt(s: Link, actions: seq<Action>)
    requires Closing(s)
    ensures BytesOf(DoAll(s, actions).history) <= BytesOf(s.history) + LastBuffer(s)
    decreases |actions|
  {
    if actions != [] {
      ClosingStep(s, actions[0]);
      StopIsPrompt(Do(s, actions[0]), actions[1..]);
    }
  }

  // A link can always be drained: pushing, taking and decoding reach the empty queue, so
  // every message of the bytes read is delivered unless the link is closed or reset first.
  lemma {:induction false} CanDrain(s: Link) returns (actions: seq<Action>)
    requires Inv(s) && s.working && s.decoderStarted && s.dropped == []
    ensures Drained(DoAll(s, actions)) && DoAll(s, actions).received == s.received
    ensures forall i | 0 <= i < |actions| :: actions[i] in {RxPush, DecoderTest, DecoderTake, DecodeOne}
    decreases |s.held|, |s.queue|, |s.inHand|, !s.atQueue
  {
    if Drained(s) {
      actions := [];
    } else {
      var next := if s.inHand != [] then DecodeOne else if s.held != [] then RxPush
                  else if s.atQueue then DecoderTake else DecoderTest;
      DoKeepsInv(s, next);
      var rest := CanDrain(Do(s, next));
      actions := [next] + rest;
      assert actions[1..] == rest;
    }
  }

  // ---------------------------------------------------------------- the lock regions

  class AsyncTransceiver {
    const codec: ProtocolCodec
    var isWorking: bool
    var rxAlive: bool
    var rxHeld: seq<octet>
    var rxQueue: seq<seq<octet>>
    var decoderStarted: bool
    var atQueue: bool
    var inHand: seq<octet>
    ghost var received: seq<octet>
    ghost var history: seq<Event>
    ghost var dropped: seq<octet>

    ghost predicate Valid()
      reads this, codec, codec.message
    {
      codec.Valid() && codec.hasListener
    }

    ghost function Abs(): Link
      requires Valid()
      reads this, codec, codec.message, codec.message.Buffer()
    {
      Link(isWorking, rxAlive, rxHeld, rxQueue, decoderStarted, atQueue, inHand, codec.Abs(), codec.delivered,
           received, history, dropped)
    }

    /** On a codec that has delivered nothing yet; no channel is bound. */
    constructor (codec: ProtocolCodec)
      requires codec.Valid() && codec.hasListener && codec.Abs() == WaitSync1 && codec.delivered == []
      ensures Valid() && this.codec == codec && Abs() == CLOSED
    {
      this.codec := codec;
      isWorking, rxAlive, rxHeld, rxQueue, decoderStarted, atQueue, inHand := false, false, [], [], false, false, [];
      received, history, dropped := [], [], [];
    }

    /** `openChannelAndBind`, the first time, on a channel that opens: both threads start. */
    method OpenChannelAndBind()
      requires Valid() && Abs() == CLOSED
      modifies this
      ensures Valid() && Abs() == OPENED
    {
      isWorking, rxAlive := true, true;
    }

    /** Receive thread: a read that returned a non-empty buffer. */
    method ReadBuffer(chunk: seq<octet>)
      requires Valid() && rxAlive && rxHeld == [] && chunk != []
      modifies this
      ensures Valid() && Abs() == Do(old(Abs()), RxRead(chunk))
    {
      rxHeld := chunk;
      received := received + chunk;
    }

    /** Receive thread, under _rxLocker. */
    method PushBuffer()
      requires Valid() && rxHeld != []
      modifies this
      ensures Valid() && Abs() == Do(old(Abs()), RxPush)
    {
      rxQueue := rxQueue + [rxHeld];
      rxHeld := [];
    }

    /** Decoder thread, before its loop. */
    method StartDecoder()
      requires Valid() && !decoderStarted
      modifies this, codec, codec.message
      ensures Valid() && Abs() == Do(old(Abs()), DecoderStart)
    {
      codec.OnDecodeReset();
      decoderStarted := true;
      history := history + [Reset];
    }

    /** Decoder thread: the test at the head of its loop. Closing may begin right after it. */
    method TestWorking() returns (goOn: bool)
      requires Valid() && decoderStarted && inHand == [] && !atQueue
      modifies this
      ensures Valid() && goOn == isWorking && Abs() == Do(old(Abs()), DecoderTest)
    {
      atQueue := isWorking;
      return isWorking;
    }

    /** Decoder thread, under _rxLocker: the front buffer, or nothing to do but to go round. */
    method TakeBuffer() returns (taken: bool)
      requires Valid() && atQueue
      modifies this
      ensures Valid() && taken == (old(rxQueue) != [])
      ensures Abs() == Do(old(Abs()), DecoderTake)
    {
      atQueue := false;
      if rxQueue == [] {
        return false;
      }
      inHand := rxQueue[0];
      rxQueue := rxQueue[1..];
      return true;
    }

    /** Decoder thread: the buffer in hand goes through the codec, byte by byte. */
    method DecodeBuffer()
      requires Valid()
      modifies this, codec.Footprint()
      ensures Valid() && Abs() == DoAll(old(Abs()), seq(|old(inHand)|, _ => DecodeOne))
    {
      ghost var before := Abs();
      codec.OnDecodeData(inHand);
      history := history + Logged(inHand);
      DecodeAsActions(before);
      inHand := [];
    }

    /** `exitLoopMode`, called by the driver from another thread. */
    method ResetDecoder()
      requires Valid()
      modifies this, codec, codec.message
      ensures Valid() && Abs() == Do(old(Abs()), ExitLoopMode) && codec.Abs() == WaitSync1
    {
      codec.OnDecodeReset();
      history := history + [Reset];
    }

    /** The receive loop ends: closing, or a read that failed. */
    method EndReceiving()
      requires Valid() && rxAlive && rxHeld == []
      modifies this
      ensures Valid() && Abs() == Do(old(Abs()), RxExit) && !rxAlive
    {
      rxAlive := false;
    }

    /** The beginning of `unbindAndClose`. */
    method Stop()
      requires Valid() && isWorking
      modifies this
      ensures Valid() && Abs() == Do(old(Abs()), StopWorking) && !isWorking
    {
      isWorking := false;
    }

    /** The end of `unbindAndClose`, when both threads have been joined. */
    method DiscardQueue()
      requires Valid() && !isWorking && !rxAlive && inHand == [] && !atQueue
      modifies this
      ensures Valid() && Abs() == Do(old(Abs()), ClearQueue) && rxQueue == []
    {
      dropped := dropped + Joined(rxQueue);
      rxQueue := [];
    }
  }

  ghost function Logged(bytes: seq<octet>): (h: seq<Event>)
    ensures |h| == |bytes|
  {
    if bytes == [] then [] else [Byte(bytes[0])] + Logged(bytes[1..])
  }

  /** The link when the buffer in hand has been decoded. */
  ghost function Decoded(s: Link): Link
  {
    var o := Decode(s.decoder, s.inHand);
    s.(inHand := [], decoder := o.next, delivered := s.delivered + o.out, history := s.history + Logged(s.inHand))
  }

  lemma DecodedStep(s: Link)
    requires s.inHand != []
    ensures Decoded(Do(s, DecodeOne)) == Decoded(s)
  {
    var n := Do(s, DecodeOne);
    assert n.history + Logged(n.inHand) == s.history + Logged(s.inHand);
    assert n.delivered + Decode(n.decoder, n.inHand).out == s.delivered + Decode(s.decoder, s.inHand).out;
  }

  // Decoding a buffer in one call is decoding it one byte at a time.
  lemma {:induction false} DecodeAsActions(s: Link)
    ensures DoAll(s, seq(|s.inHand|, _ => DecodeOne)) == Decoded(s)
    decreases |s.inHand|
  {
    var all := seq(|s.inHand|, _ => DecodeOne);
    if s.inHand == [] {
      assert s.history + Logged(s.inHand) == s.history && s.delivered + [] == s.delivered;
    } else {
      var n := Do(s, DecodeOne);
      DecodeAsActions(n);
      DecodedStep(s);
      assert all[1..] == seq(|n.inHand|, _ => DecodeOne);
    }
  }
}
