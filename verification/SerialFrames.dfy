/** The Rosmaster serial line (physicar_driver_node.cpp): what `send_cmd` writes, what
    `receive_loop` makes of the bytes it reads, and that the two agree. */
module SerialFrames {

  type byte = x: int | 0 <= x < 256

  const HEAD: byte := 0xFF
  const DEVICE_ID: byte := 0xFC
  const COMPLEMENT: byte := 257 - DEVICE_ID
  const BOARD_ID: byte := DEVICE_ID - 1
  const LARGEST_BODY := 64

  /** One call of `read_byte`. */
  datatype Read = Byte(value: byte) | Failed

  datatype Report = Report(func: byte, data: seq<byte>)

  function Sum(s: seq<byte>): nat
  {
    if s == [] then 0 else Sum(s[..|s| - 1]) + s[|s| - 1]
  }

  lemma {:induction false} SumConcat(a: seq<byte>, b: seq<byte>)
    ensures Sum(a + b) == Sum(a) + Sum(b)
  {
    if b == [] {
      assert a + b == a;
    } else {
      SumConcat(a, b[..|b| - 1]);
      assert (a + b)[..|a + b| - 1] == a + b[..|b| - 1];
    }
  }

  // ---------------------------------------------------------------- sending

  /** Header, length, function code and data of a frame; the length counts itself, the function
      code, the data and the checksum. */
  function Head(id: byte, func: byte, data: seq<byte>): seq<byte>
    requires |data| <= 252
  {
    [HEAD, id, |data| + 3, func] + data
  }

  function Check(func: byte, data: seq<byte>): byte
  {
    (|data| + 3 + func + Sum(data)) % 256
  }

  function Framed(id: byte, func: byte, data: seq<byte>): seq<byte>
    requires |data| <= 252
  {
    Head(id, func, data) + [Check(func, data)]
  }

  method SendCmd(cmd: seq<byte>) returns (wire: seq<byte>)
    ensures wire == cmd + [(COMPLEMENT + Sum(cmd)) % 256]
  {
    var sum: nat := COMPLEMENT;
    var i := 0;
    while i < |cmd|
      invariant 0 <= i <= |cmd|
      invariant sum % 256 == (COMPLEMENT + Sum(cmd[..i])) % 256
    {
      assert cmd[..i + 1][..i] == cmd[..i];
      ModuloOfModulo(sum + cmd[i]);
      Shift256(sum, COMPLEMENT + Sum(cmd[..i]), cmd[i]);
      sum := (sum + cmd[i]) % 0x1_0000;
      i := i + 1;
    }
    assert cmd[..|cmd|] == cmd;
    wire := cmd + [sum % 256];
  }

  lemma ModuloOfModulo(x: nat)
    ensures x % 0x1_0000 % 256 == x % 256
  {
    assert x == x / 0x1_0000 * 0x1_0000 + x % 0x1_0000;
    assert x == 256 * (x / 0x1_0000 * 256) + x % 0x1_0000;
  }

  // The complement, 257 minus the identifier, cancels the two header bytes for every
  // identifier, so the checksum is that of length, function code and data alone.
  lemma ComplementCancelsHeader(id: byte, func: byte, data: seq<byte>)
    requires |data| <= 252
    ensures (257 - id + Sum(Head(id, func, data))) % 256 == Check(func, data)
  {
    SumConcat([HEAD, id, |data| + 3, func], data);
    assert [HEAD, id, |data| + 3, func] == [HEAD, id] + [|data| + 3, func];
    SumConcat([HEAD, id], [|data| + 3, func]);
    SumOfTwo(HEAD, id);
    SumOfTwo(|data| + 3, func);
    var rest := |data| + 3 + func + Sum(data);
    assert 257 - id + Sum(Head(id, func, data)) == rest + 2 * 256;
  }

  lemma SumOfTwo(a: byte, b: byte)
    ensures Sum([a, b]) == a + b
  {
    var s := [a, b];
    assert |s| == 2 && s[..1] == [a] && s[..1][..0] == [];
    assert Sum(s[..1]) == Sum(s[..1][..0]) + a;
    assert Sum(s) == Sum(s[..1]) + b;
  }

  // What the driver puts on the wire for its own identifier.
  method SendCommand(func: byte, data: seq<byte>) returns (wire: seq<byte>)
    requires |data| <= 252
    ensures wire == Framed(DEVICE_ID, func, data)
  {
    assert COMPLEMENT == 257 - DEVICE_ID == 5;
    wire := SendCmd(Head(DEVICE_ID, func, data));
    ComplementCancelsHeader(DEVICE_ID, func, data);
  }

  // ---------------------------------------------------------------- receiving, read by read

  /** Where `receive_loop` stands between two reads. Wild: a length of 2 made it look at the
      byte before an empty body, from where on its behaviour is undefined. */
  datatype Rx =
    | Hunt
    | GotHead
    | GotId
    | GotLength(len: byte)
    | Body(len: byte, func: byte, got: seq<byte>)
    | Wild

  /** The checksum fits the data before it. */
  predicate Accepts(len: byte, func: byte, data: seq<byte>, check: byte)
  {
    (len + func + Sum(data)) % 256 == check
  }

  /** What a complete body, data and checksum, makes of itself. */
  function Taken(len: byte, func: byte, body: seq<byte>): seq<Report>
    requires |body| > 0
  {
    var data, check := body[..|body| - 1], body[|body| - 1];
    if Accepts(len, func, data, check) then [Report(func, data)] else []
  }

  function StartBody(len: byte, func: byte): Rx
  {
    if len < 2 || len - 2 > LARGEST_BODY then Hunt
    else if len == 2 then Wild
    else Body(len, func, [])
  }

  function Next(rx: Rx, r: Read): Rx
  {
    if rx == Wild then Wild
    else if r == Failed then Hunt
    else match rx
      case Hunt => if r.value == HEAD then GotHead else Hunt
      case GotHead => if r.value == BOARD_ID then GotId else Hunt
      case GotId => GotLength(r.value)
      case GotLength(len) => StartBody(len, r.value)
      case Body(len, func, got) => if |got| + 1 >= len - 2 then Hunt else Body(len, func, got + [r.value])
      case Wild => Wild
  }

  function Delivers(rx: Rx, r: Read): seq<Report>
  {
    if rx.Body? && r.Byte? && |rx.got| + 1 >= rx.len - 2 && Accepts(rx.len, rx.func, rx.got, r.value)
    then [Report(rx.func, rx.got)]
    else []
  }

  function After(rx: Rx, input: seq<Read>): Rx
    decreases |input|
  {
    if input == [] then rx else After(Next(rx, input[0]), input[1..])
  }

  function Reports(rx: Rx, input: seq<Read>): seq<Report>
    decreases |input|
  {
    if input == [] then [] else Delivers(rx, input[0]) + Reports(Next(rx, input[0]), input[1..])
  }

  lemma {:induction false} AfterConcat(rx: Rx, a: seq<Read>, b: seq<Read>)
    ensures After(rx, a + b) == After(After(rx, a), b)
    decreases |a|
  {
    if a == [] {
      assert a + b == b;
    } else {
      assert (a + b)[1..] == a[1..] + b;
      AfterConcat(Next(rx, a[0]), a[1..], b);
    }
  }

  lemma {:induction false} ReceiveConcat(rx: Rx, a: seq<Read>, b: seq<Read>)
    ensures After(rx, a + b) == After(After(rx, a), b)
    ensures Reports(rx, a + b) == Reports(rx, a) + Reports(After(rx, a), b)
    decreases |a|
  {
    AfterConcat(rx, a, b);
    if a == [] {
      assert a + b == b;
    } else {
      assert (a + b)[1..] == a[1..] + b;
      ReceiveConcat(Next(rx, a[0]), a[1..], b);
    }
  }

  lemma ReceiveOne(rx: Rx, input: seq<Read>, i: nat)
    requires i < |input|
    ensures After(rx, input[..i + 1]) == Next(After(rx, input[..i]), input[i])
    ensures Reports(rx, input[..i + 1]) == Reports(rx, input[..i]) + Delivers(After(rx, input[..i]), input[i])
  {
    assert input[..i + 1] == input[..i] + [input[i]];
    ReceiveConcat(rx, input[..i], [input[i]]);
    assert [input[i]][1..] == [];
    var here := After(rx, input[..i]);
    assert Reports(here, [input[i]]) == Delivers(here, input[i]) + Reports(Next(here, input[i]), []);
  }

  lemma FourReads(r: seq<Read>)
    requires |r| == 4 && Next(Next(Next(Hunt, r[0]), r[1]), r[2]).GotLength?
    ensures After(Hunt, r) == Next(Next(Next(Next(Hunt, r[0]), r[1]), r[2]), r[3])
    ensures Reports(Hunt, r) == []
  {
    assert r[..0] == [] && r[..4] == r;
    QuietRead(r, 0);
    QuietRead(r, 1);
    QuietRead(r, 2);
    QuietRead(r, 3);
  }

  // ---------------------------------------------------------------- the loop with blocking reads

  /** Where the loop may stand with the bytes read so far when it goes round again: hunting,
      unless the port was closed in the middle of a frame. */
  predicate AtTop(input: seq<Read>, i: nat)
    requires i <= |input|
  {
    var rx := After(Hunt, input[..i]);
    rx != Wild && (i < |input| ==> rx == Hunt)
  }

  /** `receive_loop` over every read it performs until the port is closed; `wild` when it ran
      into the undefined access. */
  method ReceiveLoop(input: seq<Read>) returns (reports: seq<Report>, wild: bool)
    ensures reports == Reports(Hunt, input)
    ensures wild <==> After(Hunt, input) == Wild
  {
    reports, wild := [], false;
    var i := 0;
    while i < |input|
      invariant 0 <= i <= |input| && AtTop(input, i)
      invariant reports == Reports(Hunt, input[..i])
    {
      var extLen, extType, ok;
      i, extLen, extType, ok := ReadHeader(input, i);
      if !ok {
        continue;
      }
      var dataLen: int := extLen as int - 2;
      if dataLen < 0 || dataLen > LARGEST_BODY {
        continue;
      }
      if dataLen == 0 {
        wild := true;
        WildStays(input, i);
        return;
      }
      var data;
      i, data, ok := ReadBody(input, i, extLen, extType);
      if !ok {
        continue;
      }
      var sum := BodySum(data, (extLen as int + extType as int) % 0x1_0000);
      if sum % 256 != data[dataLen - 1] {
        continue;
      }
      reports := reports + [Report(extType, data[..dataLen - 1])];
    }
    assert input[..|input|] == input;
  }

  lemma QuietRead(input: seq<Read>, i: nat)
    requires i < |input| && !After(Hunt, input[..i]).Body?
    ensures After(Hunt, input[..i + 1]) == Next(After(Hunt, input[..i]), input[i])
    ensures Reports(Hunt, input[..i + 1]) == Reports(Hunt, input[..i])
  {
    ReceiveOne(Hunt, input, i);
  }

  /** One byte and, if it is a head, the three that follow. */
  method ReadHeader(input: seq<Read>, start: nat) returns (i: nat, extLen: byte, extType: byte, ok: bool)
    requires start < |input| && After(Hunt, input[..start]) == Hunt
    ensures start < i <= |input|
    ensures Reports(Hunt, input[..i]) == Reports(Hunt, input[..start])
    ensures ok ==> After(Hunt, input[..i]) == StartBody(extLen, extType)
    ensures !ok ==> AtTop(input, i)
  {
    i, extLen, extType, ok := start, 0, 0, false;
    QuietRead(input, i);
    var b := input[i];
    i := i + 1;
    if b != Byte(HEAD) || i == |input| {
      return;
    }
    QuietRead(input, i);
    b := input[i];
    i := i + 1;
    if b != Byte(BOARD_ID) || i == |input| {
      return;
    }
    QuietRead(input, i);
    b := input[i];
    i := i + 1;
    if b == Failed || i == |input| {
      return;
    }
    extLen := b.value;
    QuietRead(input, i);
    b := input[i];
    i := i + 1;
    if b == Failed {
      return;
    }
    extType, ok := b.value, true;
  }

  /** Reads the body into its buffer; not `ok` when a read failed or the port was closed. */
  method ReadBody(input: seq<Read>, start: nat, len: byte, func: byte) returns (i: nat, data: seq<byte>, ok: bool)
    requires start <= |input| && 3 <= len && len - 2 <= LARGEST_BODY
    requires After(Hunt, input[..start]) == Body(len, func, [])
    ensures start <= i <= |input|
    ensures ok ==> |data| == len - 2 && After(Hunt, input[..i]) == Hunt
    ensures Reports(Hunt, input[..i]) == Reports(Hunt, input[..start]) + if ok then Taken(len, func, data) else []
    ensures !ok ==> AtTop(input, i)
  {
    var buffer := new byte[len - 2](_ => 0);
    i, ok := start, true;
    var j := 0;
    while j < buffer.Length
      invariant 0 <= j <= buffer.Length && start <= i <= |input|
      invariant After(Hunt, input[..i]) == if j < buffer.Length then Body(len, func, buffer[..j]) else Hunt
      invariant Reports(Hunt, input[..i]) == Reports(Hunt, input[..start]) +
                  if j == buffer.Length then Taken(len, func, buffer[..]) else []
    {
      if i == |input| {
        return i, [], false;
      }
      ReceiveOne(Hunt, input, i);
      var r := input[i];
      i := i + 1;
      if r == Failed {
        return i, [], false;
      }
      ghost var got := buffer[..j];
      buffer[j] := r.value;
      j := j + 1;
      assert buffer[..j] == got + [r.value] && buffer[..j - 1] == got;
      assert j == buffer.Length ==> buffer[..] == buffer[..j];
    }
    data := buffer[..];
  }

  /** The 16-bit sum over all but the last byte. */
  method BodySum(data: seq<byte>, start: nat) returns (sum: nat)
    requires |data| > 0
    ensures sum % 256 == (start + Sum(data[..|data| - 1])) % 256
  {
    sum := start;
    var i := 0;
    while i < |data| - 1
      invariant 0 <= i <= |data| - 1
      invariant sum % 256 == (start + Sum(data[..i])) % 256
    {
      assert data[..i + 1][..i] == data[..i];
      ModuloOfModulo(sum + data[i]);
      Shift256(sum, start + Sum(data[..i]), data[i]);
      sum := (sum + data[i]) % 0x1_0000;
      i := i + 1;
    }
  }

  lemma Shift256(a: int, b: int, c: int)
    requires a % 256 == b % 256
    ensures (a + c) % 256 == (b + c) % 256
  {
    var k := a / 256 - b / 256;
    assert a + c == (b + c) + 256 * k;
  }

  lemma {:induction false} WildStays(input: seq<Read>, i: nat)
    requires i <= |input| && After(Hunt, input[..i]) == Wild
    ensures After(Hunt, input) == Wild && Reports(Hunt, input) == Reports(Hunt, input[..i])
    decreases |input| - i
  {
    if i == |input| {
      assert input[..i] == input;
    } else {
      ReceiveOne(Hunt, input, i);
      WildStays(input, i + 1);
    }
  }

  // ---------------------------------------------------------------- what arrives

  function Bytes(s: seq<byte>): (r: seq<Read>)
    ensures |r| == |s|
    ensures forall i | 0 <= i < |s| :: r[i] == Byte(s[i])
  {
    seq(|s|, i requires 0 <= i < |s| => Byte(s[i]))
  }

  lemma BytesConcat(a: seq<byte>, b: seq<byte>)
    ensures Bytes(a + b) == Bytes(a) + Bytes(b)
  {
  }

  // From inside a body that is about to be completed.
  lemma {:induction false} BodyArrives(len: byte, func: byte, got: seq<byte>, rest: seq<byte>)
    requires |rest| > 0 && |got| + |rest| == len - 2
    ensures After(Body(len, func, got), Bytes(rest)) == Hunt
    ensures Reports(Body(len, func, got), Bytes(rest)) ==
              Taken(len, func, got + rest)
    decreases |rest|
  {
    var here, r := Body(len, func, got), Byte(rest[0]);
    assert Bytes(rest)[0] == r && Bytes(rest)[1..] == Bytes(rest[1..]);
    assert After(here, Bytes(rest)) == After(Next(here, r), Bytes(rest[1..]));
    assert Reports(here, Bytes(rest)) == Delivers(here, r) + Reports(Next(here, r), Bytes(rest[1..]));
    if |rest| == 1 {
      assert got + rest == got + [rest[0]] && (got + rest)[..len - 3] == got;
      assert Bytes(rest[1..]) == [];
    } else {
      BodyArrives(len, func, got + [rest[0]], rest[1..]);
      MoveOne(got, rest);
    }
  }

  lemma MoveOne(a: seq<byte>, b: seq<byte>)
    requires b != []
    ensures a + [b[0]] + b[1..] == a + b
  {
  }

  lemma AcceptsIffCheck(func: byte, data: seq<byte>, check: byte)
    requires |data| <= 252
    ensures Taken(|data| + 3, func, data + [check]) == if check == Check(func, data) then [Report(func, data)] else []
  {
    assert (data + [check])[..|data|] == data;
  }

  // A frame whose header and length byte are intact, whatever its function code, data and
  // checksum became on the way: it is consumed exactly, and delivered if and only if those
  // still sum up.
  lemma FrameArrives(func: byte, data: seq<byte>, check: byte)
    requires |data| + 1 <= LARGEST_BODY
    ensures After(Hunt, Bytes(Head(BOARD_ID, func, data) + [check])) == Hunt
    ensures Reports(Hunt, Bytes(Head(BOARD_ID, func, data) + [check])) ==
              if check == Check(func, data) then [Report(func, data)] else []
  {
    var len: byte := |data| + 3;
    var start := [HEAD, BOARD_ID, len, func];
    var body := data + [check];
    HeaderArrives(len, func);
    assert Head(BOARD_ID, func, data) + [check] == start + body;
    BytesConcat(start, body);
    ReceiveConcat(Hunt, Bytes(start), Bytes(body));
    BodyArrives(len, func, [], body);
    assert [] + body == body && body[..|data|] == data;
    AcceptsIffCheck(func, data, check);
    var reports := Reports(StartBody(len, func), Bytes(body));
    assert Reports(Hunt, Bytes(start)) + reports == reports;
  }

  lemma HeaderArrives(len: byte, func: byte)
    ensures After(Hunt, Bytes([HEAD, BOARD_ID, len, func])) == StartBody(len, func)
    ensures Reports(Hunt, Bytes([HEAD, BOARD_ID, len, func])) == []
  {
    var r := Bytes([HEAD, BOARD_ID, len, func]);
    FourReads(r);
  }

  // What `send_cmd` lays out, with the board's identifier, comes back unchanged for every
  // data length the receiver has room for.
  lemma FrameRoundTrip(func: byte, data: seq<byte>)
    requires |data| <= 63
    ensures Reports(Hunt, Bytes(Framed(BOARD_ID, func, data))) == [Report(func, data)]
    ensures After(Hunt, Bytes(Framed(BOARD_ID, func, data))) == Hunt
  {
    FrameArrives(func, data, Check(func, data));
  }

  // A frame with one longer body is dropped.
  lemma TooLongIsDropped(func: byte, data: seq<byte>)
    requires 63 < |data| <= 252
    requires forall i | 0 <= i < |data| :: data[i] != HEAD
    requires Check(func, data) != HEAD
    ensures Reports(Hunt, Bytes(Framed(BOARD_ID, func, data))) == []
  {
    var len: byte := |data| + 3;
    var start := [HEAD, BOARD_ID, len, func];
    var body := data + [Check(func, data)];
    assert Framed(BOARD_ID, func, data) == start + body;
    BytesConcat(start, body);
    ReceiveConcat(Hunt, Bytes(start), Bytes(body));
    HeaderArrives(len, func);
    NoHeadIsHarmless(Bytes(body));
    NoiseReceived(Bytes(body));
  }

  // The layout of a frame, and of what the driver's own commands look like.
  lemma WireFormat(func: byte, data: seq<byte>)
    requires |data| <= 252
    ensures forall id: byte :: Framed(id, func, data) ==
                                 [0xFF, id, |data| + 3, func] + data + [(|data| + 3 + func + Sum(data)) % 256]
    ensures DEVICE_ID == 0xFC && BOARD_ID == 0xFB
  {
  }

  // A frame that breaks off, a read having failed before its last byte, delivers nothing, and
  // what is read afterwards is received as if the frame had never begun.
  lemma BrokenOffIsForgotten(func: byte, data: seq<byte>, k: nat, rest: seq<Read>)
    requires |data| <= 63 && k < |data| + 5
    ensures var start := Bytes(Framed(BOARD_ID, func, data))[..k];
            && Reports(Hunt, start + [Failed] + rest) == Reports(Hunt, rest)
            && After(Hunt, start + [Failed] + rest) == After(Hunt, rest)
  {
    var frame := Bytes(Framed(BOARD_ID, func, data));
    var start := frame[..k];
    FrameRoundTrip(func, data);
    StartIsQuiet(frame, k, Report(func, data));
    ReceiveConcat(Hunt, start + [Failed], rest);
    assert (start + [Failed])[..k] == start && (start + [Failed])[..k + 1] == start + [Failed];
    ReceiveOne(Hunt, start + [Failed], k);
  }

  lemma StartIsQuiet(frame: seq<Read>, k: nat, x: Report)
    requires k < |frame| == |x.data| + 5
    requires Reports(Hunt, frame) == [x] && After(Hunt, frame) == Hunt
    ensures Reports(Hunt, frame[..k]) == [] && After(Hunt, frame[..k]) != Wild
  {
    ReportsOfStart(frame, k);
    var reports := Reports(Hunt, frame[..k]);
    if reports != [] {
      assert reports[0] == x;
      DeliveryCost(Hunt, frame[..k], x);
    }
    if After(Hunt, frame[..k]) == Wild {
      WildStays(frame, k);
    }
  }

  lemma ReportsOfStart(s: seq<Read>, k: nat)
    requires k <= |s|
    ensures Reports(Hunt, s[..k]) <= Reports(Hunt, s)
  {
    assert s == s[..k] + s[k..];
    ReceiveConcat(Hunt, s[..k], s[k..]);
  }

  // ---------------------------------------------------------------- errors on the line

  lemma {:induction false} SumOfChange(s: seq<byte>, i: nat, b: byte)
    requires i < |s|
    ensures Sum(s[i := b]) == Sum(s) - s[i] + b
  {
    var n := |s| - 1;
    if i == n {
      assert s[i := b][..n] == s[..n];
    } else {
      SumOfChange(s[..n], i, b);
      assert s[i := b][..n] == s[..n][i := b];
    }
  }

  // Any single byte of the data that arrives different from what was sent costs the frame,
  // and only that frame.
  lemma DataErrorDetected(func: byte, data: seq<byte>, i: nat, b: byte)
    requires |data| + 1 <= LARGEST_BODY && i < |data|
    ensures Reports(Hunt, Bytes(Head(BOARD_ID, func, data[i := b]) + [Check(func, data)])) ==
              if b == data[i] then [Report(func, data)] else []
    ensures After(Hunt, Bytes(Head(BOARD_ID, func, data[i := b]) + [Check(func, data)])) == Hunt
  {
    FrameArrives(func, data[i := b], Check(func, data));
    SumOfChange(data, i, b);
    if b == data[i] {
      assert data[i := b] == data;
    }
  }

  // Several errors pass if and only if they cancel modulo 256.
  lemma ErrorsPassIff(func: byte, data: seq<byte>, func': byte, data': seq<byte>)
    requires |data| == |data'| && |data| + 1 <= LARGEST_BODY
    ensures (Reports(Hunt, Bytes(Head(BOARD_ID, func', data') + [Check(func, data)])) == [Report(func', data')])
       <==> (func' + Sum(data') - func - Sum(data)) % 256 == 0
  {
    FrameArrives(func', data', Check(func, data));
    CheckEqualIff(func, data, func', data');
  }

  lemma CheckEqualIff(func: byte, data: seq<byte>, func': byte, data': seq<byte>)
    requires |data| == |data'|
    ensures Check(func, data) == Check(func', data') <==> (func' + Sum(data') - func - Sum(data)) % 256 == 0
  {
    var a, b := |data| + 3 + func + Sum(data), |data'| + 3 + func' + Sum(data');
    assert b - a == func' + Sum(data') - func - Sum(data);
    SameModulo(a, b);
  }

  lemma SameModulo(a: nat, b: nat)
    ensures a % 256 == b % 256 <==> (b - a) % 256 == 0
  {
    assert a == a / 256 * 256 + a % 256 && b == b / 256 * 256 + b % 256;
  }

  // ---------------------------------------------------------------- noise

  /** How many 0xFF bytes the reads end with. */
  function HeadRun(g: seq<Read>): nat
  {
    if g == [] || g[|g| - 1] != Byte(HEAD) then 0 else 1 + HeadRun(g[..|g| - 1])
  }

  /** No identifier of the board stands where the receiver, which pairs up consecutive 0xFF,
      would take it for the second byte of a header. */
  ghost predicate NoFrame(g: seq<Read>)
  {
    forall i: nat | i < |g| && g[i] == Byte(BOARD_ID) :: HeadRun(g[..i]) % 2 == 0
  }

  /** Noise that cannot cost the frame behind it. */
  ghost predicate Harmless(g: seq<Read>)
  {
    NoFrame(g) && HeadRun(g) % 2 == 0
  }

  // Noise delivers nothing; the receiver hunts after it exactly when it ends with an even run
  // of 0xFF.
  lemma {:induction false} NoiseReceived(g: seq<Read>)
    requires NoFrame(g)
    ensures After(Hunt, g) == if HeadRun(g) % 2 == 0 then Hunt else GotHead
    ensures Reports(Hunt, g) == []
  {
    if g != [] {
      var k := |g| - 1;
      NoFramePrefix(g, k);
      NoiseReceived(g[..k]);
      assert g[..k + 1] == g;
      QuietRead(g, k);
      assert g[k] == Byte(BOARD_ID) ==> HeadRun(g[..k]) % 2 == 0;
    }
  }

  lemma NoFramePrefix(g: seq<Read>, k: nat)
    requires NoFrame(g) && k <= |g|
    ensures NoFrame(g[..k])
  {
    forall i: nat | i < k && g[..k][i] == Byte(BOARD_ID)
      ensures HeadRun(g[..k][..i]) % 2 == 0
    {
      assert g[..k][..i] == g[..i] && g[i] == Byte(BOARD_ID);
    }
  }

  lemma NoHeadIsHarmless(g: seq<Read>)
    requires forall i | 0 <= i < |g| :: g[i] != Byte(HEAD)
    ensures Harmless(g)
  {
    forall i: nat | i <= |g|
      ensures HeadRun(g[..i]) == 0
    {
    }
    assert g[..|g|] == g;
  }

  /** How many bytes of a frame the receiver has behind it. */
  function Progress(rx: Rx): nat
  {
    match rx
    case Hunt => 0
    case GotHead => 1
    case GotId => 2
    case GotLength(_) => 3
    case Body(_, _, got) => 4 + |got|
    case Wild => 0
  }

  // Every report was paid for: header, data and checksum of what is delivered are among the
  // bytes behind the receiver at the start and those it reads.
  lemma {:induction false} DeliveryCost(rx: Rx, s: seq<Read>, x: Report)
    requires x in Reports(rx, s)
    ensures |x.data| + 5 <= Progress(rx) + |s|
    decreases |s|
  {
    if s != [] {
      assert Progress(Next(rx, s[0])) <= Progress(rx) + 1;
      if x !in Delivers(rx, s[0]) {
        DeliveryCost(Next(rx, s[0]), s[1..], x);
      }
    }
  }

  // A frame after noise arrives if and only if the noise ends with an even run of 0xFF: the
  // byte after an 0xFF is not looked at again as a head, so one 0xFF more costs the frame,
  // whatever its own bytes are.
  lemma FrameArrivesIff(g: seq<Read>, func: byte, data: seq<byte>)
    requires NoFrame(g) && |data| + 1 <= LARGEST_BODY
    ensures Report(func, data) in Reports(Hunt, g + Bytes(Framed(BOARD_ID, func, data))) <==> HeadRun(g) % 2 == 0
  {
    var frame := Bytes(Framed(BOARD_ID, func, data));
    NoiseReceived(g);
    ReceiveConcat(Hunt, g, frame);
    if HeadRun(g) % 2 == 0 {
      FrameRoundTrip(func, data);
    } else {
      HeadTaken(frame, Report(func, data));
    }
  }

  // The receiver that already has a head takes that of the frame for the byte after it.
  lemma HeadTaken(frame: seq<Read>, x: Report)
    requires |frame| == |x.data| + 5 && frame[0] == Byte(HEAD)
    ensures x !in Reports(GotHead, frame)
  {
    assert Reports(GotHead, frame) == Reports(Hunt, frame[1..]);
    if x in Reports(Hunt, frame[1..]) {
      DeliveryCost(Hunt, frame[1..], x);
    }
  }

  // A lone 0xFF in front of a frame without another one: nothing at all is delivered.
  lemma LoneHeadSwallowsFrame(func: byte, data: seq<byte>)
    requires |data| + 1 <= LARGEST_BODY
    requires func != HEAD && Check(func, data) != HEAD
    requires forall i | 0 <= i < |data| :: data[i] != HEAD
    ensures Reports(Hunt, Bytes([HEAD] + Framed(BOARD_ID, func, data))) == []
  {
    var rest := [BOARD_ID, |data| + 3, func] + data + [Check(func, data)];
    assert [HEAD] + Framed(BOARD_ID, func, data) == [HEAD, HEAD] + rest;
    NothingBehindTwoHeads(rest);
  }

  lemma NothingBehindTwoHeads(rest: seq<byte>)
    requires HEAD !in rest
    ensures Reports(Hunt, Bytes([HEAD, HEAD] + rest)) == []
  {
    BytesConcat([HEAD, HEAD], rest);
    ReceiveConcat(Hunt, Bytes([HEAD, HEAD]), Bytes(rest));
    TwoHeadsPass();
    NoHeadIsHarmless(Bytes(rest));
    NoiseReceived(Bytes(rest));
  }

  lemma TwoHeadsPass()
    ensures After(Hunt, Bytes([HEAD, HEAD])) == Hunt && Reports(Hunt, Bytes([HEAD, HEAD])) == []
  {
    var r := Bytes([HEAD, HEAD]);
    assert r[..0] == [] && r[..2] == r;
    QuietRead(r, 0);
    QuietRead(r, 1);
  }

  // ---------------------------------------------------------------- a whole session

  /** One frame as it reaches the board's reader: noise in front, then the frame, its function
      code, data and checksum possibly damaged. */
  datatype Arrival = Arrival(noise: seq<Read>, func: byte, data: seq<byte>, check: byte)

  ghost predicate Readable(a: Arrival)
  {
    Harmless(a.noise) && |a.data| + 1 <= LARGEST_BODY
  }

  ghost function Line(arrivals: seq<Arrival>): seq<Read>
    requires forall i | 0 <= i < |arrivals| :: Readable(arrivals[i])
  {
    if arrivals == [] then []
    else
      assert Readable(arrivals[0]);
      var a := arrivals[0];
      a.noise + Bytes(Head(BOARD_ID, a.func, a.data) + [a.check]) + Line(arrivals[1..])
  }

  function Intact(arrivals: seq<Arrival>): seq<Report>
  {
    if arrivals == [] then []
    else
      var a := arrivals[0];
      (if a.check == Check(a.func, a.data) then [Report(a.func, a.data)] else []) + Intact(arrivals[1..])
  }

  // Over a whole session the reports are exactly the frames that still sum up, in order: a
  // damaged one never takes a neighbour with it.
  lemma {:induction false} SessionRoundTrip(arrivals: seq<Arrival>)
    requires forall i | 0 <= i < |arrivals| :: Readable(arrivals[i])
    ensures Reports(Hunt, Line(arrivals)) == Intact(arrivals)
    ensures After(Hunt, Line(arrivals)) == Hunt
  {
    if arrivals != [] {
      assert Readable(arrivals[0]);
      SessionRoundTrip(arrivals[1..]);
      OneArrival(arrivals[0], Line(arrivals[1..]));
    }
  }

  lemma OneArrival(a: Arrival, rest: seq<Read>)
    requires Readable(a)
    ensures var all := a.noise + Bytes(Head(BOARD_ID, a.func, a.data) + [a.check]) + rest;
            && After(Hunt, all) == After(Hunt, rest)
            && Reports(Hunt, all) ==
                 (if a.check == Check(a.func, a.data) then [Report(a.func, a.data)] else []) + Reports(Hunt, rest)
  {
    var frame := Bytes(Head(BOARD_ID, a.func, a.data) + [a.check]);
    NoiseReceived(a.noise);
    FrameArrives(a.func, a.data, a.check);
    ReceiveConcat(Hunt, a.noise, frame);
    ReceiveConcat(Hunt, a.noise + frame, rest);
  }

  /** Four reads in a row that make an accepted header with a length of 2. */
  predicate EmptyBody(s: seq<Read>)
  {
    |s| == 4 && s[0] == Byte(HEAD) && s[1] == Byte(BOARD_ID) && s[2] == Byte(2) && s[3].Byte?
  }

  // The receiver's arithmetic becomes undefined in a run if and only if such a header is read
  // while it hunts; no frame that `send_cmd` lays out, and no damage to its data, makes one.
  lemma {:induction false} WildExactly(s: seq<Read>)
    ensures After(Hunt, s) == Wild <==>
              exists i: nat :: i + 4 <= |s| && After(Hunt, s[..i]) == Hunt && EmptyBody(s[i..i + 4])
  {
    if After(Hunt, s) == Wild {
      assert s[..|s|] == s;
      var n := FirstWild(s, |s|);
      BeforeWild(s, n);
    }
    if i: nat :| i + 4 <= |s| && After(Hunt, s[..i]) == Hunt && EmptyBody(s[i..i + 4]) {
      EmptyBodyIsWild(s, i);
    }
  }

  lemma EmptyBodyIsWild(s: seq<Read>, i: nat)
    requires i + 4 <= |s| && After(Hunt, s[..i]) == Hunt && EmptyBody(s[i..i + 4])
    ensures After(Hunt, s) == Wild
  {
    var four := s[i..i + 4];
    FourReads(four);
    assert s[..i + 4] == s[..i] + four;
    ReceiveConcat(Hunt, s[..i], four);
    WildStays(s, i + 4);
  }

  lemma {:induction false} FirstWild(s: seq<Read>, k: nat) returns (n: nat)
    requires k <= |s| && After(Hunt, s[..k]) == Wild
    ensures n < k && After(Hunt, s[..n]) != Wild && After(Hunt, s[..n + 1]) == Wild
  {
    assert s[..0] == [];
    if After(Hunt, s[..k - 1]) == Wild {
      n := FirstWild(s, k - 1);
    } else {
      n := k - 1;
    }
  }

  // Back from the fatal read to the head of its header.
  lemma BeforeWild(s: seq<Read>, n: nat)
    requires n < |s| && After(Hunt, s[..n]) != Wild && After(Hunt, s[..n + 1]) == Wild
    ensures n >= 3 && After(Hunt, s[..n - 3]) == Hunt && EmptyBody(s[n - 3..n + 1])
  {
    ReceiveOne(Hunt, s, n);
    CameFrom(After(Hunt, s[..n]), s[n]);
    LastRead(s, n);
    CameFrom(After(Hunt, s[..n - 1]), s[n - 1]);
    LastRead(s, n - 1);
    CameFrom(After(Hunt, s[..n - 2]), s[n - 2]);
    LastRead(s, n - 2);
    CameFrom(After(Hunt, s[..n - 3]), s[n - 3]);
  }

  lemma LastRead(s: seq<Read>, i: nat)
    requires i <= |s| && After(Hunt, s[..i]) != Hunt
    ensures i > 0 && After(Hunt, s[..i]) == Next(After(Hunt, s[..i - 1]), s[i - 1])
  {
    assert s[..0] == [];
    if i > 0 {
      ReceiveOne(Hunt, s, i - 1);
    }
  }

  // The way into each state of the header.
  lemma CameFrom(rx: Rx, r: Read)
    ensures Next(rx, r) == Wild ==> rx == Wild || (rx == GotLength(2) && r.Byte?)
    ensures Next(rx, r) == GotLength(2) ==> rx == GotId && r == Byte(2)
    ensures Next(rx, r) == GotId ==> rx == GotHead && r == Byte(BOARD_ID)
    ensures Next(rx, r) == GotHead ==> rx == Hunt && r == Byte(HEAD)
  {
  }
}
