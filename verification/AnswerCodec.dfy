/** The byte-driven protocol codec (sl_lidarprotocol_codec.cpp) and its message buffer
    (ProtocolMessage in sl_async_transceiver.cpp).

    `Decode` is the decoder as a function on bytes; `ProtocolCodec` is the decoder as written,
    with the state word, the receive position and the reallocated buffer. */
module AnswerCodec {

  import opened Options
  import opened Words

  type octet = x: nat | x < 256

  const SYNC1: octet := 0xA5
  const SYNC2: octet := 0x5A
  const SIZE_LIMIT: nat := 0x4000_0000
  const LOOP_FLAG: nat := 0x8000_0000

  /** A decoded message as its listener copies it. */
  datatype Answer = Answer(cmd: octet, data: seq<octet>)

  // ---------------------------------------------------------------- decoding as a function

  datatype Decoder =
    | WaitSync1
    | WaitSync2
    | SizeFlag(header: seq<octet>)
    | WaitType(size: nat, loop: bool)
    | Payload(size: nat, loop: bool, cmd: octet, got: seq<octet>)

  datatype Outcome = Outcome(next: Decoder, out: seq<Answer>)

  function Le32(h: seq<octet>): nat
    requires |h| == 4
  {
    h[0] as int + 0x100 * h[1] as int + 0x1_0000 * h[2] as int + 0x100_0000 * h[3] as int
  }

  function Step(d: Decoder, b: octet): Outcome
  {
    match d
    case WaitSync1 => Outcome(if b == SYNC1 then WaitSync2 else WaitSync1, [])
    case WaitSync2 => Outcome(if b == SYNC2 then SizeFlag([]) else WaitSync1, [])
    case SizeFlag(h) =>
      if |h| != 3 then Outcome(SizeFlag(h + [b]), [])
      else
        var field := Le32(h + [b]);
        Outcome(WaitType(field % SIZE_LIMIT, field / SIZE_LIMIT % 2 == 1), [])
    case WaitType(size, loop) =>
      Outcome(if size == 0 then WaitSync1 else Payload(size, loop, b, []), [])
    case Payload(size, loop, cmd, got) =>
      if |got| + 1 != size then Outcome(Payload(size, loop, cmd, got + [b]), [])
      else Outcome(if loop then Payload(size, loop, cmd, []) else WaitSync1, [Answer(cmd, got + [b])])
  }

  function Decode(d: Decoder, bytes: seq<octet>): Outcome
    decreases |bytes|
  {
    if bytes == [] then Outcome(d, [])
    else
      var first := Step(d, bytes[0]);
      var rest := Decode(first.next, bytes[1..]);
      Outcome(rest.next, first.out + rest.out)
  }

  // Decoding does not depend on where the stream is cut.
  lemma {:induction false} DecodeConcat(d: Decoder, a: seq<octet>, b: seq<octet>)
    ensures Decode(d, a + b)
         == Outcome(Decode(Decode(d, a).next, b).next, Decode(d, a).out + Decode(Decode(d, a).next, b).out)
    decreases |a|
  {
    if a == [] {
      assert a + b == b;
    } else {
      assert (a + b)[1..] == a[1..] + b;
      DecodeConcat(Step(d, a[0]).next, a[1..], b);
    }
  }

  lemma DecodeOne(d: Decoder, b: octet)
    ensures Decode(d, [b]) == Step(d, b)
  {
    assert [b][1..] == [];
    assert Decode(Step(d, b).next, []) == Outcome(Step(d, b).next, []);
  }

  lemma DecodeSnoc(d: Decoder, a: seq<octet>, b: octet)
    ensures Decode(d, a + [b])
         == Outcome(Step(Decode(d, a).next, b).next, Decode(d, a).out + Step(Decode(d, a).next, b).out)
  {
    DecodeConcat(d, a, [b]);
    DecodeOne(Decode(d, a).next, b);
  }

  lemma DecodeNext(d: Decoder, s: seq<octet>, i: nat)
    requires i < |s|
    ensures var o := Decode(d, s[..i]);
            Decode(d, s[..i + 1]) == Outcome(Step(o.next, s[i]).next, o.out + Step(o.next, s[i]).out)
  {
    DecodeSnoc(d, s[..i], s[i]);
    assert s[..i + 1] == s[..i] + [s[i]];
  }

  // What was delivered stays delivered: more bytes only extend the list of messages.
  lemma DecodePrefix(d: Decoder, a: seq<octet>, b: seq<octet>)
    requires a <= b
    ensures Decode(d, a).out <= Decode(d, b).out
  {
    assert b == a + b[|a|..];
    DecodeConcat(d, a, b[|a|..]);
  }

  // ---------------------------------------------------------------- answer streams

  function LeBytes(v: nat): (h: seq<octet>)
    ensures |h| == 4
  {
    [v % 0x100, v / 0x100 % 0x100, v / 0x1_0000 % 0x100, v / 0x100_0000 % 0x100]
  }

  lemma LeRoundTrip(v: nat)
    requires v < 0x1_0000_0000
    ensures Le32(LeBytes(v)) == v
  {
    var q1, q2, q3 := v / 0x100, v / 0x1_0000, v / 0x100_0000;
    assert q2 == q1 / 0x100 && q3 == q2 / 0x100;
    assert q3 % 0x100 == q3;
  }

  /** An answer packet as a device sends it: sync bytes, 30-bit size below two flag bits,
      type, payload. */
  function AnswerHeader(size: nat, flags: nat, cmd: octet): (h: seq<octet>)
    requires size < SIZE_LIMIT && flags < 4
  {
    [SYNC1, SYNC2] + LeBytes(size + flags * SIZE_LIMIT) + [cmd]
  }

  function Packet(a: Answer, flags: nat): seq<octet>
    requires |a.data| < SIZE_LIMIT && flags < 4
  {
    AnswerHeader(|a.data|, flags, a.cmd) + a.data
  }

  lemma HeaderDecodes(size: nat, flags: nat, cmd: octet)
    requires size < SIZE_LIMIT && flags < 4
    ensures Decode(WaitSync1, AnswerHeader(size, flags, cmd))
         == Outcome(if size == 0 then WaitSync1 else Payload(size, flags % 2 == 1, cmd, []), [])
  {
    var field := size + flags * SIZE_LIMIT;
    LeRoundTrip(field);
    var h := LeBytes(field);
    FieldParts(size, flags);
    SyncDecodes();
    SizeFieldDecodes(h);
    DecodeConcat(WaitSync1, [SYNC1, SYNC2], h);
    DecodeSnoc(WaitSync1, [SYNC1, SYNC2] + h, cmd);
  }

  lemma FieldParts(size: nat, flags: nat)
    requires size < SIZE_LIMIT && flags < 4
    ensures (size + flags * SIZE_LIMIT) % SIZE_LIMIT == size
    ensures (size + flags * SIZE_LIMIT) / SIZE_LIMIT % 2 == flags % 2
  {
  }

  lemma SyncDecodes()
    ensures Decode(WaitSync1, [SYNC1, SYNC2]) == Outcome(SizeFlag([]), [])
  {
    DecodeOne(WaitSync1, SYNC1);
    DecodeSnoc(WaitSync1, [SYNC1], SYNC2);
    assert [SYNC1] + [SYNC2] == [SYNC1, SYNC2];
  }

  lemma SizeFieldDecodes(h: seq<octet>)
    requires |h| == 4
    ensures var field := h[0] as int + 0x100 * h[1] as int + 0x1_0000 * h[2] as int + 0x100_0000 * h[3] as int;
            Decode(SizeFlag([]), h) == Outcome(WaitType(field % 0x4000_0000, field / 0x4000_0000 % 2 == 1), [])
  {
    SizeBytesCollect(h[..3]);
    DecodeSnoc(SizeFlag([]), h[..3], h[3]);
    assert h[..3] + [h[3]] == h;
  }

  lemma {:induction false} SizeBytesCollect(h: seq<octet>)
    requires |h| <= 3
    ensures Decode(SizeFlag([]), h) == Outcome(SizeFlag(h), [])
  {
    if h != [] {
      var n := |h| - 1;
      SizeBytesCollect(h[..n]);
      DecodeSnoc(SizeFlag([]), h[..n], h[n]);
      assert h[..n] + [h[n]] == h;
    }
  }

  // A payload in flight is delivered whole, once, when its last byte arrives.
  lemma {:induction false} PayloadDecodes(size: nat, loop: bool, cmd: octet, got: seq<octet>, rest: seq<octet>)
    requires |got| + |rest| <= size && |got| < size
    ensures Decode(Payload(size, loop, cmd, got), rest)
         == if |got| + |rest| < size then Outcome(Payload(size, loop, cmd, got + rest), [])
            else Outcome(if loop then Payload(size, loop, cmd, []) else WaitSync1, [Answer(cmd, got + rest)])
    decreases |rest|
  {
    if rest == [] {
      assert got + rest == got;
    } else {
      assert got + [rest[0]] + rest[1..] == got + rest;
      if |got| + 1 < size {
        PayloadDecodes(size, loop, cmd, got + [rest[0]], rest[1..]);
      } else {
        assert rest == [rest[0]];
        DecodeOne(Payload(size, loop, cmd, got), rest[0]);
      }
    }
  }

  lemma PacketDecodes(a: Answer, flags: nat)
    requires |a.data| < SIZE_LIMIT && flags < 4 && flags % 2 == 0
    ensures Decode(WaitSync1, Packet(a, flags)) == Outcome(WaitSync1, if a.data == [] then [] else [a])
  {
    HeaderDecodes(|a.data|, flags, a.cmd);
    DecodeConcat(WaitSync1, AnswerHeader(|a.data|, flags, a.cmd), a.data);
    if a.data != [] {
      PayloadDecodes(|a.data|, false, a.cmd, [], a.data);
      assert [] + a.data == a.data;
    }
  }

  /** How many 0xA5 bytes a sequence ends with. */
  function SyncRun(g: seq<octet>): nat
  {
    if g == [] || g[|g| - 1] != SYNC1 then 0 else 1 + SyncRun(g[..|g| - 1])
  }

  /** No 0x5A stands where the decoder, which pairs up consecutive 0xA5, would take it for a
      second sync byte. */
  ghost predicate NoHeader(g: seq<octet>)
  {
    forall i | 0 <= i < |g| && g[i] == SYNC2 :: SyncRun(g[..i]) % 2 == 0
  }

  // Between packets the decoder stays in its two sync states; it is back in the first one
  // exactly when the noise ends with an even run of 0xA5.
  lemma {:induction false} NoiseDecodes(g: seq<octet>)
    requires NoHeader(g)
    ensures Decode(WaitSync1, g) == Outcome(if SyncRun(g) % 2 == 0 then WaitSync1 else WaitSync2, [])
  {
    if g != [] {
      var k := |g| - 1;
      var init := g[..k];
      assert forall i | 0 <= i < k :: init[..i] == g[..i];
      NoiseDecodes(init);
      assert g == init + [g[k]];
      DecodeSnoc(WaitSync1, init, g[k]);
    }
  }

  ghost predicate Harmless(g: seq<octet>)
  {
    NoHeader(g) && SyncRun(g) % 2 == 0
  }

  /** One stretch of a transmission: noise, then a packet. */
  datatype Burst = Burst(noise: seq<octet>, answer: Answer, flags: nat)

  ghost predicate Sendable(t: Burst)
  {
    |t.answer.data| < SIZE_LIMIT && t.flags < 4 && t.flags % 2 == 0
  }

  ghost function Transmission(ts: seq<Burst>): seq<octet>
    requires forall i | 0 <= i < |ts| :: Sendable(ts[i])
  {
    if ts == [] then [] else
      assert Sendable(ts[0]);
      ts[0].noise + Packet(ts[0].answer, ts[0].flags) + Transmission(ts[1..])
  }

  /** The non-empty answers, in order. */
  function Answers(ts: seq<Burst>): seq<Answer>
  {
    if ts == [] then []
    else (if ts[0].answer.data == [] then [] else [ts[0].answer]) + Answers(ts[1..])
  }

  // Round trip: noise that the decoder cannot mistake for a header is skipped, and the
  // non-empty answers come out exactly as they were sent.
  lemma {:induction false} StreamRoundTrip(ts: seq<Burst>)
    requires forall i | 0 <= i < |ts| :: Sendable(ts[i]) && Harmless(ts[i].noise)
    ensures Decode(WaitSync1, Transmission(ts)) == Outcome(WaitSync1, Answers(ts))
    decreases |ts|
  {
    if ts != [] {
      var p := Packet(ts[0].answer, ts[0].flags);
      NoiseDecodes(ts[0].noise);
      PacketDecodes(ts[0].answer, ts[0].flags);
      DecodeConcat(WaitSync1, ts[0].noise, p);
      DecodeConcat(WaitSync1, ts[0].noise + p, Transmission(ts[1..]));
      StreamRoundTrip(ts[1..]);
    }
  }

  // Noise without any 0xA5 is such noise.
  lemma {:induction false} NoSyncIsHarmless(g: seq<octet>)
    requires SYNC1 !in g
    ensures Harmless(g)
  {
    forall i | 0 <= i < |g|
      ensures SyncRun(g[..i]) == 0
    {
    }
  }

  // An odd run of 0xA5 in front of a packet: its first sync byte is consumed as a mismatch, and
  // the rest is read as if the packet began with 0x5A.
  lemma OddRunLosesSync(g: seq<octet>, a: Answer, flags: nat)
    requires NoHeader(g) && |a.data| < SIZE_LIMIT && flags < 4
    ensures Decode(WaitSync1, g + Packet(a, flags))
         == if SyncRun(g) % 2 == 0 then Decode(WaitSync1, Packet(a, flags))
            else Decode(WaitSync1, Packet(a, flags)[1..])
  {
    NoiseDecodes(g);
    DecodeConcat(WaitSync1, g, Packet(a, flags));
  }

  /** How many bytes of a packet the decoder has behind it. */
  function Progress(d: Decoder): nat
  {
    match d
    case WaitSync1 => 0
    case WaitSync2 => 1
    case SizeFlag(h) => 2 + |h|
    case WaitType(_, _) => 6
    case Payload(_, _, _, got) => 7 + |got|
  }

  // Every answer was paid for: header and payload of what is delivered are among the bytes
  // behind the decoder at the start and those it is given.
  lemma {:induction false} DeliveryCost(d: Decoder, s: seq<octet>, x: Answer)
    requires d.SizeFlag? ==> |d.header| <= 3
    requires x in Decode(d, s).out
    ensures |x.data| + 7 <= Progress(d) + |s|
    decreases |s|
  {
    if s != [] {
      var o := Step(d, s[0]);
      assert Progress(o.next) <= Progress(d) + 1;
      if x !in o.out {
        DeliveryCost(o.next, s[1..], x);
      }
    }
  }

  // So a packet after noise arrives if and only if the noise ends with an even run of 0xA5; a
  // single 0xA5 more costs it, whatever its own bytes are.
  lemma PacketArrivesIff(g: seq<octet>, a: Answer, flags: nat)
    requires NoHeader(g) && 0 < |a.data| < SIZE_LIMIT && flags < 4 && flags % 2 == 0
    ensures a in Decode(WaitSync1, g + Packet(a, flags)).out <==> SyncRun(g) % 2 == 0
  {
    OddRunLosesSync(g, a, flags);
    PacketDecodes(a, flags);
    var rest := Packet(a, flags)[1..];
    assert |rest| == |a.data| + 6;
    if SyncRun(g) % 2 == 1 && a in Decode(WaitSync1, rest).out {
      DeliveryCost(WaitSync1, rest, a);
    }
  }

  // ... and when nothing after it looks like a sync byte, nothing at all is delivered.
  lemma LoneSyncSwallowsPacket(a: Answer, flags: nat)
    requires |a.data| < SIZE_LIMIT && flags < 4
    requires SYNC1 !in Packet(a, flags)[1..]
    ensures Decode(WaitSync1, [SYNC1] + Packet(a, flags)) == Outcome(WaitSync1, [])
  {
    assert SyncRun([SYNC1]) == 1 by {
      assert [SYNC1][..0] == [];
    }
    OddRunLosesSync([SYNC1], a, flags);
    NoSyncIsHarmless(Packet(a, flags)[1..]);
    NoiseDecodes(Packet(a, flags)[1..]);
  }

  /** s cut into pieces of the given size; a shorter remainder is dropped. */
  function Pieces(s: seq<octet>, size: nat): seq<seq<octet>>
    requires size > 0
    decreases |s|
  {
    if |s| < size then [] else [s[..size]] + Pieces(s[size..], size)
  }

  function Remainder(s: seq<octet>, size: nat): seq<octet>
    requires size > 0
    decreases |s|
  {
    if |s| < size then s else Remainder(s[size..], size)
  }

  function Typed(cmd: octet, ps: seq<seq<octet>>): seq<Answer>
  {
    if ps == [] then [] else [Answer(cmd, ps[0])] + Typed(cmd, ps[1..])
  }

  // Loop mode: after one loop-flagged header everything that follows is payload, cut into
  // answers of the same size and type, until the decoder is reset.
  lemma {:induction false} LoopModeDecodes(size: nat, flags: nat, cmd: octet, s: seq<octet>)
    requires 0 < size < SIZE_LIMIT && flags < 4 && flags % 2 == 1
    ensures Decode(WaitSync1, AnswerHeader(size, flags, cmd) + s)
         == Outcome(Payload(size, true, cmd, Remainder(s, size)), Typed(cmd, Pieces(s, size)))
  {
    HeaderDecodes(size, flags, cmd);
    DecodeConcat(WaitSync1, AnswerHeader(size, flags, cmd), s);
    LoopPayloads(size, cmd, s);
  }

  lemma {:induction false} LoopPayloads(size: nat, cmd: octet, s: seq<octet>)
    requires size > 0
    ensures Decode(Payload(size, true, cmd, []), s)
         == Outcome(Payload(size, true, cmd, Remainder(s, size)), Typed(cmd, Pieces(s, size)))
    decreases |s|
  {
    assert [] + s == s;
    if |s| < size {
      PayloadDecodes(size, true, cmd, [], s);
    } else {
      assert s == s[..size] + s[size..] && [] + s[..size] == s[..size];
      PayloadDecodes(size, true, cmd, [], s[..size]);
      DecodeConcat(Payload(size, true, cmd, []), s[..size], s[size..]);
      LoopPayloads(size, cmd, s[size..]);
      assert Pieces(s, size)[1..] == Pieces(s[size..], size);
    }
  }

  // The pieces lose nothing.
  lemma {:induction false} PiecesCover(s: seq<octet>, size: nat)
    requires size > 0
    ensures Joined(Pieces(s, size)) + Remainder(s, size) == s && |Remainder(s, size)| < size
    ensures forall p | p in Pieces(s, size) :: |p| == size
    decreases |s|
  {
    if |s| >= size {
      var first, rest := s[..size], s[size..];
      PiecesCover(rest, size);
      JoinedFirst(first, Pieces(rest, size));
      Regroup(first, Joined(Pieces(rest, size)), Remainder(rest, size));
      assert first + rest == s;
    }
  }

  lemma JoinedFirst(p: seq<octet>, ps: seq<seq<octet>>)
    ensures Joined([p] + ps) == p + Joined(ps)
  {
    assert ([p] + ps)[1..] == ps;
  }

  lemma Regroup<T>(a: seq<T>, b: seq<T>, c: seq<T>)
    ensures a + b + c == a + (b + c)
  {
  }

  function Joined(ps: seq<seq<octet>>): seq<octet>
  {
    if ps == [] then [] else ps[0] + Joined(ps[1..])
  }

  // ---------------------------------------------------------------- the message buffer

  class ProtocolMessage {
    var len: nat
    var cmd: octet
    var data: array?<octet>
    var databufsize: nat
    var usingOuterData: bool

    ghost predicate Valid()
      reads this
    {
      databufsize == if data == null then 0 else data.Length
    }

    ghost function Buffer(): set<object>
      reads this
    {
      if data == null then {} else {data}
    }

    constructor ()
      ensures Valid() && data == null && len == 0 && cmd == 0 && !usingOuterData
    {
      len, cmd, data, databufsize, usingOuterData := 0, 0, null, 0, false;
    }

    /** The copy a listener takes. */
    constructor Copy(src: ProtocolMessage)
      requires src.Valid() && (src.data != null ==> src.len <= src.databufsize)
      ensures Valid() && len == src.len <= databufsize && cmd == src.cmd && !usingOuterData
      ensures data == null || fresh(data)
      ensures src.len > 0 ==> data != null
      ensures src.len > 0 && src.data != null ==> data[..] == src.data[..src.len]
    {
      len, cmd, data, databufsize, usingOuterData := src.len, src.cmd, null, 0, false;
      new;
      ChangeBufSize(true);
      if src.data != null && len != 0 {
        forall i | 0 <= i < len {
          data[i] := src.data[i];
        }
      }
    }

    method SetDataBuf(buffer: array<octet>)
      requires Valid()
      modifies this
      ensures Valid() && data == buffer && len == buffer.Length && usingOuterData && cmd == old(cmd)
    {
      CleanData();
      len, data, databufsize, usingOuterData := buffer.Length, buffer, buffer.Length, true;
    }

    method FillData(buffer: Option<seq<octet>>, size: nat)
      requires Valid()
      requires buffer.Some? ==> |buffer.value| == size
      modifies this, Buffer()
      ensures Valid() && len == size <= databufsize && cmd == old(cmd) && usingOuterData == old(usingOuterData)
      ensures data == old(data) || (data != null && fresh(data))
      ensures size > 0 ==> data != null
      ensures buffer.Some? && size > 0 ==> data[..size] == buffer.value
    {
      len := size;
      ChangeBufSize(false);
      if buffer.Some? && data != null {
        forall i | 0 <= i < size {
          data[i] := buffer.value[i];
        }
      }
    }

    method CleanData()
      requires Valid()
      modifies this
      ensures Valid() && data == null && cmd == old(cmd) && usingOuterData == old(usingOuterData)
      ensures len == if old(data) == null then old(len) else 1
    {
      if data != null {
        data, len, databufsize := null, 1, 0;
      }
    }

    /** A buffer of the message's own is kept if it has just the size, or is larger but less than
        twice as large and need not be compact; otherwise there is a new one of just the size. */
    method ChangeBufSize(forceCompact: bool)
      requires Valid()
      modifies this
      ensures Valid() && len == old(len) <= databufsize && cmd == old(cmd) && usingOuterData == old(usingOuterData)
      ensures if !usingOuterData && (old(databufsize) == len ||
                                     (!forceCompact && len < old(databufsize) && old(databufsize) <= 2 * len - 1))
              then data == old(data)
              else data != null && fresh(data) && data.Length == len
    {
      var actualSize := len;
      var newBufSize := actualSize;
      if !usingOuterData {
        if newBufSize == databufsize {
          return;
        }
        if newBufSize < databufsize {
          if databufsize / 2 < newBufSize {
            if !forceCompact {
              return;
            }
          }
        }
      }
      CleanData();
      len := actualSize;
      data := new octet[newBufSize];
      databufsize := newBufSize;
    }
  }

  // ---------------------------------------------------------------- the decoder as written

  const WAIT_SYNC1: nat := 0
  const WAIT_SYNC2: nat := 1
  const WAIT_SIZE_FLAG: nat := 2
  const WAIT_TYPE: nat := 3
  const RECV_PAYLOAD: nat := 4

  /** Byte k of a length field overwritten in place. */
  function SetByte(v: nat, k: nat, b: octet): nat
    requires k < 4
  {
    var h := LeBytes(v)[k := b];
    v - v % 0x1_0000_0000 + Le32(h)
  }

  // The bytes written so far are the header received so far, whatever the field held before.
  lemma SetByteEffect(v: nat, k: nat, b: octet)
    requires v < 0x1_0000_0000 && k < 4
    ensures SetByte(v, k, b) < 0x1_0000_0000
    ensures LeBytes(SetByte(v, k, b))[..k + 1] == LeBytes(v)[..k] + [b]
    ensures k == 3 ==> SetByte(v, k, b) == Le32(LeBytes(v)[..3] + [b])
  {
    var h := LeBytes(v)[k := b];
    SetByteIs(v, k, b);
    LeBytesUnique(h);
    UpdatePrefix(LeBytes(v), k, b);
  }

  lemma SetByteIs(v: nat, k: nat, b: octet)
    requires v < 0x1_0000_0000 && k < 4
    ensures SetByte(v, k, b) == Le32(LeBytes(v)[k := b])
  {
    assert v % 0x1_0000_0000 == v;
  }

  lemma UpdatePrefix(h: seq<octet>, k: nat, b: octet)
    requires k < |h|
    ensures h[k := b][..k + 1] == h[..k] + [b]
    ensures k == |h| - 1 ==> h[k := b] == h[..k] + [b]
  {
  }

  lemma LeBytesUnique(h: seq<octet>)
    requires |h| == 4
    ensures Le32(h) < 0x1_0000_0000 && LeBytes(Le32(h)) == h
  {
    var v := Le32(h);
    var b0: int, b1: int, b2: int, b3: int := h[0], h[1], h[2], h[3];
    assert v / 0x100 == b1 + 0x100 * b2 + 0x1_0000 * b3;
    assert v / 0x1_0000 == b2 + 0x100 * b3;
    assert v / 0x100_0000 == b3;
  }

  class ProtocolCodec {
    const message: ProtocolMessage
    var workingStates: nat
    var rxPos: nat
    var hasListener: bool
    var delivered: seq<Answer>   // what the listener has received

    ghost predicate Valid()
      reads this, message
    {
      && message.Valid() && !message.usingOuterData && message.len < 0x1_0000_0000
      && workingStates % LOOP_FLAG <= RECV_PAYLOAD && workingStates < 2 * LOOP_FLAG
      && (workingStates >= LOOP_FLAG ==> workingStates % LOOP_FLAG >= WAIT_TYPE)
      && (workingStates == WAIT_SIZE_FLAG ==> rxPos < 4)
      && (workingStates % LOOP_FLAG == WAIT_TYPE ==>
            rxPos == 0 && message.len < SIZE_LIMIT && message.len <= message.databufsize)
      && (workingStates % LOOP_FLAG == RECV_PAYLOAD ==> rxPos < message.len <= message.databufsize)
    }

    ghost function Footprint(): set<object>
      reads this, message
    {
      {this, message} + message.Buffer()
    }

    /** The decoder state the fields stand for. */
    ghost function Abs(): Decoder
      requires Valid()
      reads this, message, message.Buffer()
    {
      var loop := workingStates >= LOOP_FLAG;
      var s := workingStates % LOOP_FLAG;
      if s == WAIT_SYNC1 then WaitSync1
      else if s == WAIT_SYNC2 then WaitSync2
      else if s == WAIT_SIZE_FLAG then SizeFlag(LeBytes(message.len)[..rxPos])
      else if s == WAIT_TYPE then WaitType(message.len, loop)
      else Payload(message.len, loop, message.cmd, message.data[..rxPos])
    }

    constructor ()
      ensures Valid() && fresh(message) && message.data == null
      ensures Abs() == WaitSync1 && delivered == [] && !hasListener
    {
      message := new ProtocolMessage();
      workingStates, rxPos, hasListener, delivered := WAIT_SYNC1, 0, false, [];
    }

    method SetMessageListener(present: bool)
      requires Valid()
      modifies this`hasListener
      ensures Valid() && Abs() == old(Abs()) && hasListener == present
    {
      hasListener := present;
    }

    method OnDecodeReset()
      requires Valid()
      modifies this, message
      ensures Valid() && Abs() == WaitSync1 && message.data == null
      ensures delivered == old(delivered) && hasListener == old(hasListener)
    {
      message.CleanData();
      rxPos := 0;
      workingStates := WAIT_SYNC1;
    }

    /** The body of the decoding loop: one byte. Every write to the payload buffer is in bounds. */
    method DecodeByte(b: octet)
      requires Valid()
      modifies Footprint()
      ensures Valid() && (message.data == old(message.data) || (message.data != null && fresh(message.data)))
      ensures Abs() == Step(old(Abs()), b).next
      ensures delivered == old(delivered) + if hasListener then Step(old(Abs()), b).out else []
      ensures hasListener == old(hasListener)
    {
      ghost var before := Abs();
      var status := workingStates % LOOP_FLAG;
      if status == WAIT_SYNC1 {
        if b == SYNC1 {
          workingStates := WAIT_SYNC2;
        }
      } else if status == WAIT_SYNC2 {
        if b == SYNC2 {
          workingStates := WAIT_SIZE_FLAG;
          rxPos := 0;
        } else {
          workingStates := WAIT_SYNC1;
        }
      } else if status == WAIT_SIZE_FLAG {
        SizeByte(b);
      } else if status == WAIT_TYPE {
        message.cmd := b;
        workingStates := (if workingStates >= LOOP_FLAG then LOOP_FLAG else 0) + RECV_PAYLOAD;
        if message.len == 0 {
          workingStates := WAIT_SYNC1;
        }
      } else {
        PayloadByte(b);
      }
    }

    method SizeByte(b: octet)
      requires Valid() && workingStates == WAIT_SIZE_FLAG
      modifies Footprint()
      ensures Valid() && (message.data == old(message.data) || (message.data != null && fresh(message.data)))
      ensures Abs() == Step(old(Abs()), b).next
      ensures delivered == old(delivered) && hasListener == old(hasListener)
    {
      SetByteEffect(message.len, rxPos, b);
      message.len := SetByte(message.len, rxPos, b);
      rxPos := rxPos + 1;
      if rxPos == 4 {
        EndOfHeader();
      }
    }

    /** The size field is complete: split off the flags and provide a buffer. */
    method EndOfHeader()
      requires message.Valid() && !message.usingOuterData && message.len < 0x1_0000_0000
      modifies this`workingStates, this`rxPos, message, message.Buffer()
      ensures Valid() && (message.data == old(message.data) || (message.data != null && fresh(message.data)))
      ensures Abs() == WaitType(old(message.len) % SIZE_LIMIT, old(message.len) / SIZE_LIMIT % 2 == 1)
    {
      workingStates := WAIT_TYPE;
      var flagbits := message.len / SIZE_LIMIT;
      if flagbits % 2 == 1 {
        workingStates := workingStates + LOOP_FLAG;
      }
      message.len := message.len % SIZE_LIMIT;
      message.FillData(None, message.len);
      rxPos := 0;
    }

    method PayloadByte(b: octet)
      requires Valid() && workingStates % LOOP_FLAG == RECV_PAYLOAD
      modifies Footprint()
      ensures Valid() && message.data == old(message.data)
      ensures Abs() == Step(old(Abs()), b).next
      ensures delivered == old(delivered) + if hasListener then Step(old(Abs()), b).out else []
      ensures hasListener == old(hasListener)
    {
      ghost var got := message.data[..rxPos];
      message.data[rxPos] := b;
      rxPos := rxPos + 1;
      assert message.data[..rxPos] == got + [b];
      if rxPos == message.len {
        if workingStates >= LOOP_FLAG {
          rxPos := 0;
        } else {
          workingStates := WAIT_SYNC1;
        }
        if hasListener {
          var copy := new ProtocolMessage.Copy(message);
          assert copy.data[..] == got + [b];
          delivered := delivered + [Answer(copy.cmd, copy.data[..])];
        }
      }
    }

    /** `onDecodeData`: a buffer of any size, in any state. */
    method OnDecodeData(buffer: seq<octet>)
      requires Valid()
      modifies Footprint()
      ensures Valid() && (message.data == old(message.data) || (message.data != null && fresh(message.data)))
      ensures Abs() == Decode(old(Abs()), buffer).next
      ensures delivered == old(delivered) + if hasListener then Decode(old(Abs()), buffer).out else []
      ensures hasListener == old(hasListener)
    {
      ghost var before := Abs();
      var pos := 0;
      while pos != |buffer|
        invariant 0 <= pos <= |buffer|
        invariant Valid() && (message.data == old(message.data) || (message.data != null && fresh(message.data)))
        invariant Abs() == Decode(before, buffer[..pos]).next
        invariant delivered == old(delivered) + if hasListener then Decode(before, buffer[..pos]).out else []
        invariant hasListener == old(hasListener)
        decreases |buffer| - pos
      {
        DecodeNext(before, buffer, pos);
        DecodeByte(buffer[pos]);
        pos := pos + 1;
      }
      assert buffer[..pos] == buffer;
    }
  }

  // ---------------------------------------------------------------- command frames

  const HAS_PAYLOAD: octet := 0x80

  function XorOctet(a: octet, b: octet): octet
  {
    var x := Xor(Bits(a, 8), Bits(b, 8));
    BitsOfValue(x);
    assert Pow2(8) == 256;
    Value(x)
  }

  /** The running checksum of the encoder. */
  function Checksum(s: seq<octet>): octet
  {
    if s == [] then 0 else XorOctet(Checksum(s[..|s| - 1]), s[|s| - 1])
  }

  lemma ChecksumSnoc(s: seq<octet>, b: octet)
    ensures Checksum(s + [b]) == XorOctet(Checksum(s), b)
  {
    assert (s + [b])[..|s|] == s;
  }

  lemma XorOctetSelf(a: octet)
    ensures XorOctet(a, a) == 0
  {
    var x := Xor(Bits(a, 8), Bits(a, 8));
    assert Pow2(8) == 256;
    ValueOfBits(0, 8);
    ClearHighBits(0, 0, 8);
    assert x == Bits(0, 8);
  }

  // The exclusive-or of two bytes, bit by bit.
  lemma XorOctetBits(a: octet, b: octet, k: nat)
    requires k < 8
    ensures XorOctet(a, b) / Pow2(k) % 2 == if a / Pow2(k) % 2 == b / Pow2(k) % 2 then 0 else 1
  {
    BitsOfValue(Xor(Bits(a, 8), Bits(b, 8)));
    BitAt(a, 8, k);
    BitAt(b, 8, k);
    BitAt(XorOctet(a, b), 8, k);
  }

  function EstimateLength(cmd: octet, payload: seq<octet>): nat
  {
    2 + if cmd >= HAS_PAYLOAD then |payload| % 0x100 + 2 else 0
  }

  /** The byte the encoder puts at each position. */
  function FrameByte(cmd: octet, payload: seq<octet>, sent: seq<octet>): octet
    requires |sent| < EstimateLength(cmd, payload)
  {
    if |sent| == 0 then SYNC1
    else if |sent| == 1 then cmd
    else if |sent| == 2 then |payload| % 0x100
    else if |sent| - 3 == |payload| then Checksum(sent)
    else payload[|sent| - 3]
  }

  function Frame(cmd: octet, payload: seq<octet>, n: nat): (s: seq<octet>)
    requires n <= EstimateLength(cmd, payload)
    ensures |s| == n
  {
    if n == 0 then [] else
      var sent := Frame(cmd, payload, n - 1);
      sent + [FrameByte(cmd, payload, sent)]
  }

  /** The switch of the encoding loop. */
  method TxByte(cmd: octet, payload: seq<octet>, currentPos: nat, checksum: octet) returns (b: octet)
    requires currentPos < EstimateLength(cmd, payload)
    requires checksum == Checksum(Frame(cmd, payload, currentPos))
    ensures b == FrameByte(cmd, payload, Frame(cmd, payload, currentPos))
  {
    if currentPos == 0 {
      b := SYNC1;
    } else if currentPos == 1 {
      b := cmd;
    } else if currentPos == 2 {
      b := |payload| % 0x100;
    } else {
      var payloadPos := currentPos - 3;
      if payloadPos == |payload| {
        b := checksum;
      } else {
        b := payload[payloadPos];
      }
    }
  }

  method OnEncodeData(cmd: octet, payload: seq<octet>, buffer: array<octet>, size: nat) returns (written: nat)
    requires size <= buffer.Length
    modifies buffer
    ensures written == if size < EstimateLength(cmd, payload) then size else EstimateLength(cmd, payload)
    ensures buffer[..written] == Frame(cmd, payload, written)
    ensures buffer[written..] == old(buffer[written..])
  {
    var checksum: octet := 0;
    var estimate := EstimateLength(cmd, payload);
    var writeSize := if size < estimate then size else estimate;
    var currentPos := 0;
    while currentPos < writeSize
      invariant 0 <= currentPos <= writeSize
      invariant buffer[..currentPos] == Frame(cmd, payload, currentPos)
      invariant buffer[writeSize..] == old(buffer[writeSize..])
      invariant checksum == Checksum(Frame(cmd, payload, currentPos))
    {
      ghost var sent := Frame(cmd, payload, currentPos);
      var currentTxByte := TxByte(cmd, payload, currentPos, checksum);
      ChecksumSnoc(sent, currentTxByte);
      checksum := XorOctet(checksum, currentTxByte);
      buffer[currentPos] := currentTxByte;
      assert buffer[..currentPos + 1] == sent + [currentTxByte];
      currentPos := currentPos + 1;
    }
    written := currentPos;
  }

  /** What a device makes of a command frame: sync byte, then for a command with payload its
      size, that many bytes, and a checksum over everything before it. */
  function ParseCommand(f: seq<octet>): Option<(octet, seq<octet>)>
  {
    if |f| < 2 || f[0] != SYNC1 then None
    else if f[1] < HAS_PAYLOAD then if |f| == 2 then Some((f[1], [])) else None
    else if |f| < 4 || |f| - 4 != f[2] || f[|f| - 1] != Checksum(f[..|f| - 1]) then None
    else Some((f[1], f[3..|f| - 1]))
  }

  lemma {:induction false} FramePrefix(cmd: octet, payload: seq<octet>, n: nat)
    requires cmd >= HAS_PAYLOAD && 3 <= n <= EstimateLength(cmd, payload)
    requires n <= |payload| + 3
    ensures Frame(cmd, payload, n) == [SYNC1, cmd, |payload| % 0x100] + payload[..n - 3]
  {
    if n > 3 {
      FramePrefix(cmd, payload, n - 1);
      assert payload[..n - 3] == payload[..n - 4] + [payload[n - 4]];
    } else {
      FrameStart(cmd, payload);
    }
  }

  lemma FrameStart(cmd: octet, payload: seq<octet>)
    ensures Frame(cmd, payload, 2) == [SYNC1, cmd]
    ensures cmd >= HAS_PAYLOAD ==> Frame(cmd, payload, 3) == [SYNC1, cmd, |payload| % 0x100]
  {
    assert Frame(cmd, payload, 0) == [];
    assert Frame(cmd, payload, 1) == [SYNC1];
  }

  // A command reaches the device with its payload exactly when it is flagged as having one
  // and the payload fits the one-byte size; a longer one is sent without its checksum.
  lemma CommandRoundTrip(cmd: octet, payload: seq<octet>)
    ensures ParseCommand(Frame(cmd, payload, EstimateLength(cmd, payload))) == Some((cmd, payload))
       <==> if cmd >= HAS_PAYLOAD then |payload| < 0x100 else payload == []
  {
    var n := EstimateLength(cmd, payload);
    var f := Frame(cmd, payload, n);
    FrameStart(cmd, payload);
    if cmd >= HAS_PAYLOAD {
      if |payload| < 0x100 {
        FramePrefix(cmd, payload, n - 1);
        assert f[..n - 1] == Frame(cmd, payload, n - 1);
        assert f[3..n - 1] == payload;
      } else if ParseCommand(f).Some? {
        assert |ParseCommand(f).value.1| < 0x100;
      }
    }
  }

  // What goes out for a command, by its flag and the length of its payload: the bare command; the
  // whole payload and a checksum over all before it; or, for a payload the size byte cannot
  // tell, one byte more than the size byte says, and no checksum.
  lemma WholeFrame(cmd: octet, payload: seq<octet>)
    ensures Frame(cmd, payload, EstimateLength(cmd, payload)) ==
              if cmd < 0x80 then [0xA5, cmd]
              else if |payload| < 0x100 then
                var sent := [0xA5, cmd, |payload|] + payload;
                sent + [Checksum(sent)]
              else [0xA5, cmd, |payload| % 0x100] + payload[..|payload| % 0x100 + 1]
  {
    FrameStart(cmd, payload);
    if cmd >= 0x80 && |payload| < 0x100 {
      ChecksumCloses(cmd, payload);
    } else if cmd >= 0x80 {
      FramePrefix(cmd, payload, EstimateLength(cmd, payload));
    }
  }

  lemma ChecksumCloses(cmd: octet, payload: seq<octet>)
    requires cmd >= 0x80 && |payload| < 0x100
    ensures var sent := [0xA5, cmd, |payload|] + payload;
            Frame(cmd, payload, EstimateLength(cmd, payload)) == sent + [Checksum(sent)]
  {
    FramePrefix(cmd, payload, |payload| + 3);
    assert payload[..|payload|] == payload;
  }

  // A frame with its checksum exclusive-ors to zero as a whole.
  lemma FrameXorsToZero(cmd: octet, payload: seq<octet>)
    requires cmd >= HAS_PAYLOAD && |payload| < 0x100
    ensures Checksum(Frame(cmd, payload, EstimateLength(cmd, payload))) == 0
  {
    ChecksumCloses(cmd, payload);
    ClosedXorsToZero([0xA5, cmd, |payload|] + payload);
  }

  lemma ClosedXorsToZero(sent: seq<octet>)
    ensures Checksum(sent + [Checksum(sent)]) == 0
  {
    ChecksumSnoc(sent, Checksum(sent));
    XorOctetSelf(Checksum(sent));
  }
}
