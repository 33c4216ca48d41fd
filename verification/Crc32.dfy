/** The SDK's table-driven CRC-32 (sl_crc.cpp) and the checksum it is meant to compute.

    Machine words are sequences of bits, lowest first, so that the shifts, masks and
    exclusive-ors of the source are slices and pointwise operations. Three descriptions of
    one checksum meet here:
    - `Divide`, the textbook register: highest bit first, polynomial 0x04C11DB7;
    - `Feed`, the mirrored register that consumes one bit at a time;
    - the byte-at-a-time table lookup of `CrcEngine`. */
module Crc32 {

  import opened Words

  type byte = s: seq<bool> | |s| == 8 witness CLEAR8

  const POLYNOMIAL: word := Bits(0x04C1_1DB7, 32)

  function AllOnes(): (w: word)
    ensures forall i | 0 <= i < 32 :: w[i]
  {
    seq(32, _ => true)
  }

  // ---------------------------------------------------------------- the register

  /** One clock of the mirrored register (the inner loop body of `init`). */
  function Step(poly: word, c: word): word
  {
    if c[0] then Xor(poly, ShiftRight(c, 1)) else ShiftRight(c, 1)
  }

  function Steps(poly: word, c: word, n: nat): word
    decreases n
  {
    if n == 0 then c else Steps(poly, Step(poly, c), n - 1)
  }

  lemma StepLinear(poly: word, x: word, y: word)
    ensures Step(poly, Xor(x, y)) == Xor(Step(poly, x), Step(poly, y))
  {
    var sx, sy := ShiftRight(x, 1), ShiftRight(y, 1);
    assert ShiftRight(Xor(x, y), 1) == Xor(sx, sy);
    assert Xor(poly, Xor(sx, sy)) == Xor(Xor(poly, sx), sy) == Xor(sx, Xor(poly, sy));
    assert Xor(Xor(poly, sx), Xor(poly, sy)) == Xor(sx, sy);
  }

  lemma {:induction false} StepsLinear(poly: word, x: word, y: word, n: nat)
    ensures Steps(poly, Xor(x, y), n) == Xor(Steps(poly, x, n), Steps(poly, y, n))
    decreases n
  {
    if n > 0 {
      StepLinear(poly, x, y);
      StepsLinear(poly, Step(poly, x), Step(poly, y), n - 1);
    }
  }

  // A word whose low n bits are clear is merely shifted by n clocks.
  lemma {:induction false} StepsShift(poly: word, c: word, n: nat)
    requires n <= 32 && forall i | 0 <= i < n :: !c[i]
    ensures Steps(poly, c, n) == ShiftRight(c, n)
    decreases n
  {
    if n > 0 {
      var d := ShiftRight(c, 1);
      assert d == c[1..] + Clear(1);
      assert forall i | 0 <= i < n - 1 :: d[i] == c[i + 1];
      StepsShift(poly, d, n - 1);
      assert ShiftRight(d, n - 1) == ShiftRight(c, n);
    }
  }

  // The register never loses information: the polynomial has its top bit set, so the top
  // bit of the result tells whether the polynomial was folded in.
  lemma StepInjective(poly: word, x: word, y: word)
    requires poly[31]
    requires Step(poly, x) == Step(poly, y)
    ensures x == y
  {
    var sx, sy := ShiftRight(x, 1), ShiftRight(y, 1);
    assert !sx[31] && !sy[31];
    assert Step(poly, x)[31] == x[0] && Step(poly, y)[31] == y[0];
    forall i | 1 <= i < 32
      ensures x[i] == y[i]
    {
      assert sx[i - 1] == x[i] && sy[i - 1] == y[i];
      assert Step(poly, x)[i - 1] == Step(poly, y)[i - 1];
    }
  }

  lemma {:induction false} StepsInjective(poly: word, x: word, y: word, n: nat)
    requires poly[31]
    requires Steps(poly, x, n) == Steps(poly, y, n)
    ensures x == y
    decreases n
  {
    if n > 0 {
      StepsInjective(poly, Step(poly, x), Step(poly, y), n - 1);
      StepInjective(poly, x, y);
    }
  }

  // ---------------------------------------------------------------- reference checksum

  /** The register after consuming a stream of bits, one clock per bit. */
  function Feed(poly: word, r: word, bits: seq<bool>): word
    decreases |bits|
  {
    if bits == [] then r
    else Feed(poly, Step(poly, r[0 := r[0] != bits[0]]), bits[1..])
  }

  /** The textbook shift register: bits meet the highest bit, which is shifted out. */
  function Divide(poly: word, r: word, bits: seq<bool>): word
    decreases |bits|
  {
    if bits == [] then r else Divide(poly, DivideStep(poly, r, bits[0]), bits[1..])
  }

  /** Bytes as transmitted: one after the other, lowest bit first. */
  function Stream(bytes: seq<byte>): (s: seq<bool>)
    ensures |s| == 8 * |bytes|
  {
    if bytes == [] then [] else bytes[0] + Stream(bytes[1..])
  }

  function ZeroBytes(n: nat): (s: seq<byte>)
    ensures |s| == n && forall i | 0 <= i < n :: s[i] == Clear(8)
  {
    seq<byte>(n, _ => Clear(8))
  }

  /** 1 to 4 zero bytes follow the input: a multiple of four still gets four. */
  function Padding(len: nat): nat { 4 - len % 4 }

  /** The checksum the SDK means: the mirrored register over input and padding. */
  function Reference(input: seq<byte>): word
  {
    Xor(Feed(Reverse(POLYNOMIAL), AllOnes(), Stream(input + ZeroBytes(Padding(|input|)))), AllOnes())
  }

  lemma {:induction false} FeedConcat(poly: word, r: word, a: seq<bool>, b: seq<bool>)
    ensures Feed(poly, r, a + b) == Feed(poly, Feed(poly, r, a), b)
    decreases |a|
  {
    if a == [] {
      assert a + b == b;
    } else {
      assert (a + b)[1..] == a[1..] + b;
      FeedConcat(poly, Step(poly, r[0 := r[0] != a[0]]), a[1..], b);
    }
  }

  lemma {:induction false} StreamConcat(a: seq<byte>, b: seq<byte>)
    ensures Stream(a + b) == Stream(a) + Stream(b)
  {
    if a == [] {
      assert a + b == b;
    } else {
      assert (a + b)[1..] == a[1..] + b;
      StreamConcat(a[1..], b);
    }
  }

  lemma FoldStep(poly: word, r: word, bits: seq<bool>)
    requires 0 < |bits| <= 32
    ensures Step(poly, Xor(r, bits + Clear(32 - |bits|))) ==
              Xor(Step(poly, r[0 := r[0] != bits[0]]), bits[1..] + Clear(33 - |bits|))
  {
    var k := |bits|;
    var first := r[0 := r[0] != bits[0]];
    var rest := [false] + bits[1..] + Clear(32 - k);
    assert Xor(r, bits + Clear(32 - k)) == Xor(first, rest);
    StepLinear(poly, first, rest);
    assert Step(poly, rest) == bits[1..] + Clear(33 - k);
  }

  // Consuming up to 32 bits one at a time is folding them in at once and then clocking.
  lemma {:induction false} FeedIsFold(poly: word, r: word, bits: seq<bool>)
    requires |bits| <= 32
    ensures Feed(poly, r, bits) == Steps(poly, Xor(r, bits + Clear(32 - |bits|)), |bits|)
    decreases |bits|
  {
    if bits == [] {
      assert Xor(r, bits + Clear(32)) == r;
    } else {
      FoldStep(poly, r, bits);
      FeedIsFold(poly, Step(poly, r[0 := r[0] != bits[0]]), bits[1..]);
    }
  }

  function DivideStep(poly: word, r: word, b: bool): word
  {
    var shifted := [false] + r[..31];
    if r[31] != b then Xor(shifted, poly) else shifted
  }

  lemma DivideStepMirrors(poly: word, r: word, b: bool)
    ensures Reverse(DivideStep(poly, r, b)) == Step(Reverse(poly), Reverse(r)[0 := Reverse(r)[0] != b])
  {
    var shifted := [false] + r[..31];
    var m := Reverse(r)[0 := Reverse(r)[0] != b];
    assert ShiftRight(m, 1) == Reverse(shifted);
    assert Reverse(Xor(shifted, poly)) == Xor(Reverse(poly), Reverse(shifted));
  }

  // The mirrored register is the textbook division seen in a mirror.
  lemma {:induction false} FeedMirrorsDivide(poly: word, r: word, bits: seq<bool>)
    ensures Reverse(Divide(poly, r, bits)) == Feed(Reverse(poly), Reverse(r), bits)
    decreases |bits|
  {
    if bits != [] {
      DivideStepMirrors(poly, r, bits[0]);
      FeedMirrorsDivide(poly, DivideStep(poly, r, bits[0]), bits[1..]);
    }
  }

  // What the SDK reports is the mirrored remainder of the textbook division by 0x04C11DB7.
  lemma ReferenceIsDivision(input: seq<byte>)
    ensures Reference(input)
         == Xor(Reverse(Divide(POLYNOMIAL, AllOnes(), Stream(input + ZeroBytes(Padding(|input|))))), AllOnes())
  {
    assert Reverse(AllOnes()) == AllOnes();
    FeedMirrorsDivide(POLYNOMIAL, AllOnes(), Stream(input + ZeroBytes(Padding(|input|))));
  }

  // ---------------------------------------------------------------- byte steps

  /** What eight clocks make of a byte value. */
  function Entry(poly: word, i: nat): word
  {
    Steps(poly, Bits(i, 32), 8)
  }

  ghost predicate IsTable(poly: word, table: seq<word>)
  {
    |table| == 256 && forall i | 0 <= i < 256 :: table[i] == Entry(poly, i)
  }

  /** One table lookup as the loops of `cal` perform it. */
  function LookupStep(table: seq<word>, crc: word, b: byte): word
    requires |table| == 256
  {
    var index := Xor(crc[..8], b);
    BitsOfValue(index);
    assert Pow2(8) == 256;
    Xor(ShiftRight(crc, 8), table[Value(index)])
  }

  // Eight clocks of a register: its high bytes are merely shifted, its low byte is clocked.
  lemma HighAndLow(poly: word, crc: word, low: word, n: nat)
    requires n == 8
    ensures Steps(poly, Xor(Clear(n) + crc[n..], low), n) == Xor(ShiftRight(crc, n), Steps(poly, low, n))
  {
    var high := Clear(n) + crc[n..];
    StepsShift(poly, high, n);
    assert ShiftRight(high, n) == ShiftRight(crc, n);
    StepsLinear(poly, high, low, n);
  }

  lemma FoldedByte(crc: word, b: byte)
    ensures Xor(crc, b + Clear(24)) == Xor(Clear(8) + crc[8..], Xor(crc[..8], b) + Clear(24))
  {
  }

  // A table lookup advances the register by the eight bits of the byte.
  lemma LookupIsFeed(poly: word, table: seq<word>, crc: word, b: byte)
    requires IsTable(poly, table)
    ensures LookupStep(table, crc, b) == Feed(poly, crc, b)
  {
    var index := Xor(crc[..8], b);
    BitsOfValue(index);
    assert Pow2(8) == 256;
    BitsOfByte(Value(index), 32);
    var low := index + Clear(24);
    assert table[Value(index)] == Steps(poly, low, 8);
    HighAndLow(poly, crc, low, 8);
    FoldedByte(crc, b);
    FeedIsFold(poly, crc, b);
  }

  // One lookup extends the processed prefix by one byte.
  lemma LookupAdvances(poly: word, table: seq<word>, r: word, bytes: seq<byte>, i: nat)
    requires i < |bytes| && IsTable(poly, table)
    ensures LookupStep(table, Feed(poly, r, Stream(bytes[..i])), bytes[i]) == Feed(poly, r, Stream(bytes[..i + 1]))
  {
    var one: seq<byte> := [bytes[i]];
    assert bytes[..i + 1] == bytes[..i] + one;
    StreamConcat(bytes[..i], one);
    assert Stream(one) == bytes[i] + Stream(one[1..]) == bytes[i];
    FeedConcat(poly, r, Stream(bytes[..i]), bytes[i]);
    LookupIsFeed(poly, table, Feed(poly, r, Stream(bytes[..i])), bytes[i]);
  }

  // ---------------------------------------------------------------- the implementation

  /** `bitrev`: for each input bit found set, one output bit is set. */
  method BitRev(input: word, bw: nat) returns (v: word)
    requires bw <= 32
    ensures v == Reverse(input[..bw]) + Clear(32 - bw)
  {
    v := Clear(32);
    var rest := input;
    var i := 0;
    while i < bw
      invariant 0 <= i <= bw
      invariant rest == ShiftRight(input, i)
      invariant forall k | 0 <= k < 32 :: v[k] == (bw - i <= k < bw && input[bw - 1 - k])
    {
      if rest[0] {
        v := v[bw - 1 - i := true];
      }
      rest := ShiftRight(rest, 1);
      i := i + 1;
    }
  }

  /** The file-scope state of sl_crc.cpp: the lookup table and the flag of `getResult`. */
  class CrcEngine {
    const table: array<word>
    var initialised: bool

    ghost predicate Valid()
      reads this, table
    {
      table.Length == 256 && (initialised ==> IsTable(Reverse(POLYNOMIAL), table[..]))
    }

    constructor ()
      ensures Valid() && !initialised && fresh(table)
    {
      table := new word[256](_ => Clear(32));
      initialised := false;
    }

    method Init(poly: word)
      requires table.Length == 256
      modifies table
      ensures IsTable(Reverse(poly), table[..])
    {
      var mirrored := BitRev(poly, 32);
      assert poly[..32] == poly;
      assert mirrored == Reverse(poly);
      var i := 0;
      while i < 256
        invariant 0 <= i <= 256
        invariant forall k | 0 <= k < i :: table[k] == Entry(mirrored, k)
      {
        table[i] := TableEntry(mirrored, i);
        i := i + 1;
      }
    }

    /** The inner loop of `init`: eight clocks. */
    method TableEntry(poly: word, i: nat) returns (c: word)
      ensures c == Entry(poly, i)
    {
      c := Bits(i, 32);
      var j, rounds := 0, 8;
      while j < rounds
        invariant 0 <= j <= rounds == 8
        invariant Steps(poly, c, rounds - j) == Entry(poly, i)
      {
        if c[0] {
          c := Xor(poly, ShiftRight(c, 1));
        } else {
          c := ShiftRight(c, 1);
        }
        j := j + 1;
      }
    }

    /** `cal`: input bytes, then the zero padding, then the final complement. */
    method Cal(start: word, input: seq<byte>, len: nat) returns (r: word)
      requires Valid() && initialised
      requires len < 0x1_0000 && len <= |input|
      ensures r == Xor(Feed(Reverse(POLYNOMIAL), start, Stream(input[..len] + ZeroBytes(Padding(len)))), AllOnes())
    {
      var leftBytes := 4 - len % 4;
      var crc := Bytes(start, input, len);
      crc := Zeros(crc, leftBytes);
      StreamConcat(input[..len], ZeroBytes(leftBytes));
      FeedConcat(Reverse(POLYNOMIAL), start, Stream(input[..len]), Stream(ZeroBytes(leftBytes)));
      return Xor(crc, AllOnes());
    }

    /** The first loop of `cal`. */
    method Bytes(start: word, input: seq<byte>, len: nat) returns (crc: word)
      requires Valid() && initialised && len <= |input|
      ensures crc == Feed(Reverse(POLYNOMIAL), start, Stream(input[..len]))
    {
      crc := start;
      var i := 0;
      while i < len
        invariant 0 <= i <= len
        invariant crc == Feed(Reverse(POLYNOMIAL), start, Stream(input[..i]))
      {
        LookupAdvances(Reverse(POLYNOMIAL), table[..], start, input, i);
        crc := LookupStep(table[..], crc, input[i]);
        i := i + 1;
      }
    }

    /** The second loop of `cal`. */
    method Zeros(start: word, n: nat) returns (crc: word)
      requires Valid() && initialised
      ensures crc == Feed(Reverse(POLYNOMIAL), start, Stream(ZeroBytes(n)))
    {
      crc := start;
      var i := 0;
      while i < n
        invariant 0 <= i <= n
        invariant crc == Feed(Reverse(POLYNOMIAL), start, Stream(ZeroBytes(n)[..i]))
      {
        LookupAdvances(Reverse(POLYNOMIAL), table[..], start, ZeroBytes(n), i);
        crc := LookupStep(table[..], crc, Clear(8));
        i := i + 1;
      }
      assert ZeroBytes(n)[..n] == ZeroBytes(n);
    }

    /** `getResult`: the length is narrowed to 16 bits on the way to `cal`. */
    method GetResult(ptr: seq<byte>, len: nat) returns (r: word)
      requires Valid()
      requires len < 0x1_0000_0000 && len <= |ptr|
      modifies this, table
      ensures Valid() && initialised
      ensures r == Reference(ptr[..len % 0x1_0000])
    {
      if !initialised {
        Init(POLYNOMIAL);
        initialised := true;
      }
      r := Cal(AllOnes(), ptr, len % 0x1_0000);
    }
  }

  // ---------------------------------------------------------------- error detection

  lemma {:induction false} FeedInjective(poly: word, r: word, s: word, bits: seq<bool>)
    requires poly[31]
    requires Feed(poly, r, bits) == Feed(poly, s, bits)
    ensures r == s
    decreases |bits|
  {
    if bits != [] {
      var r', s' := r[0 := r[0] != bits[0]], s[0 := s[0] != bits[0]];
      FeedInjective(poly, Step(poly, r'), Step(poly, s'), bits[1..]);
      StepInjective(poly, r', s');
      assert r' == s';
      assert forall i | 0 <= i < 32 :: r[i] == s[i] by {
        assert r[0] == (r'[0] != bits[0]) && s[0] == (s'[0] != bits[0]);
        assert forall i | 1 <= i < 32 :: r[i] == r'[i] && s[i] == s'[i];
      }
    }
  }

  // Folding two different bursts of at most 32 bits in gives different registers.
  lemma BurstFold(m: word, x: seq<bool>, y: seq<bool>)
    requires |x| == |y| <= 32
    requires Xor(m, x + Clear(32 - |x|)) == Xor(m, y + Clear(32 - |y|))
    ensures x == y
  {
    var wx, wy := x + Clear(32 - |x|), y + Clear(32 - |y|);
    forall i | 0 <= i < |x|
      ensures x[i] == y[i]
    {
      assert Xor(m, wx)[i] == (m[i] != wx[i]) && Xor(m, wy)[i] == (m[i] != wy[i]);
      assert wx[i] == x[i] && wy[i] == y[i];
    }
  }

  // So does feeding them ...
  lemma BurstInjective(poly: word, m: word, x: seq<bool>, y: seq<bool>)
    requires poly[31]
    requires |x| == |y| <= 32 && Feed(poly, m, x) == Feed(poly, m, y)
    ensures x == y
  {
    FeedIsFold(poly, m, x);
    FeedIsFold(poly, m, y);
    StepsInjective(poly, Xor(m, x + Clear(32 - |x|)), Xor(m, y + Clear(32 - |y|)), |x|);
    BurstFold(m, x, y);
  }

  lemma FeedThree(poly: word, r: word, before: seq<bool>, x: seq<bool>, after: seq<bool>)
    ensures Feed(poly, r, before + x + after) == Feed(poly, Feed(poly, Feed(poly, r, before), x), after)
  {
    FeedConcat(poly, r, before + x, after);
    FeedConcat(poly, r, before, x);
  }

  // ... whatever comes before and after.
  lemma BurstFeed(poly: word, r: word, before: seq<bool>, x: seq<bool>, y: seq<bool>, after: seq<bool>)
    requires poly[31]
    requires |x| == |y| <= 32 && x != y
    ensures Feed(poly, r, before + x + after) != Feed(poly, r, before + y + after)
  {
    var m := Feed(poly, r, before);
    FeedThree(poly, r, before, x, after);
    FeedThree(poly, r, before, y, after);
    if Feed(poly, Feed(poly, m, x), after) == Feed(poly, Feed(poly, m, y), after) {
      FeedInjective(poly, Feed(poly, m, x), Feed(poly, m, y), after);
      BurstInjective(poly, m, x, y);
    }
  }

  lemma {:induction false} StreamInjective(p: seq<byte>, q: seq<byte>)
    requires |p| == |q| && Stream(p) == Stream(q)
    ensures p == q
  {
    if p != [] {
      assert p[0] == Stream(p)[..8] && q[0] == Stream(q)[..8];
      assert Stream(p[1..]) == Stream(p)[8..] && Stream(q[1..]) == Stream(q)[8..];
      StreamInjective(p[1..], q[1..]);
      assert p == [p[0]] + p[1..] && q == [q[0]] + q[1..];
    }
  }

  lemma LowestBit(v: nat, n: nat)
    requires n > 0
    ensures Bits(v, n)[0] == (v % 2 == 1)
  {
  }

  lemma TopBitOfPolynomial()
    ensures Reverse(POLYNOMIAL)[31]
  {
    LowestBit(0x04C1_1DB7, 32);
    assert Reverse(POLYNOMIAL)[31] == POLYNOMIAL[0];
  }

  // Every error confined to a window of 32 consecutive transmitted bits is detected.
  lemma BurstDetected(p: seq<byte>, q: seq<byte>, from: nat, to: nat)
    requires |p| == |q| && p != q
    requires from <= to <= 8 * |p| && to - from <= 32
    requires Stream(p)[..from] == Stream(q)[..from]
    requires Stream(p)[to..] == Stream(q)[to..]
    ensures Reference(p) != Reference(q)
  {
    TopBitOfPolynomial();
    var pad := ZeroBytes(Padding(|p|));
    StreamConcat(p, pad);
    StreamConcat(q, pad);
    Window(Stream(p), Stream(pad), from, to);
    Window(Stream(q), Stream(pad), from, to);
    var x, y := Stream(p)[from..to], Stream(q)[from..to];
    if x == y {
      Window(Stream(p), [], from, to);
      Window(Stream(q), [], from, to);
      StreamInjective(p, q);
    }
    BurstFeed(Reverse(POLYNOMIAL), AllOnes(), Stream(p)[..from], x, y, Stream(p)[to..] + Stream(pad));
    XorOnesInjective(Feed(Reverse(POLYNOMIAL), AllOnes(), Stream(p) + Stream(pad)),
                     Feed(Reverse(POLYNOMIAL), AllOnes(), Stream(q) + Stream(pad)));
  }

  lemma Window(s: seq<bool>, t: seq<bool>, from: nat, to: nat)
    requires from <= to <= |s|
    ensures s + t == s[..from] + s[from..to] + (s[to..] + t) && s + [] == s
  {
  }

  lemma XorOnesInjective(x: word, y: word)
    ensures Xor(x, AllOnes()) == Xor(y, AllOnes()) ==> x == y
  {
    if Xor(x, AllOnes()) == Xor(y, AllOnes()) {
      assert forall i | 0 <= i < 32 :: x[i] == !Xor(x, AllOnes())[i] && y[i] == !Xor(y, AllOnes())[i];
    }
  }

  // In particular a change of any single byte.
  lemma ByteChangeDetected(p: seq<byte>, k: nat, b: byte)
    requires k < |p| && b != p[k]
    ensures Reference(p) != Reference(p[k := b])
  {
    SpliceStream(p, k, p[k]);
    SpliceStream(p, k, b);
    assert p[k := p[k]] == p;
    BurstDetected(p, p[k := b], 8 * k, 8 * k + 8);
  }

  lemma SpliceStream(p: seq<byte>, k: nat, b: byte)
    requires k < |p|
    ensures Stream(p[k := b]) == Stream(p[..k]) + (b + Stream(p[k + 1..]))
    ensures Stream(p[k := b])[..8 * k] == Stream(p[..k])
    ensures Stream(p[k := b])[8 * k + 8..] == Stream(p[k + 1..])
  {
    assert p[k := b] == p[..k] + ([b] + p[k + 1..]);
    StreamConcat(p[..k], [b] + p[k + 1..]);
    assert ([b] + p[k + 1..])[1..] == p[k + 1..];
  }

  ghost predicate SameChecksum(ptr: seq<byte>, k: nat, b: byte)
    requires k < |ptr|
  {
    Reference(ptr[..|ptr| % 0x1_0000]) == Reference(ptr[k := b][..|ptr| % 0x1_0000])
  }

  // The checksum `getResult` returns for a whole buffer reacts to every byte of it exactly
  // when the length survives the narrowing to 16 bits.
  lemma EveryByteCovered(ptr: seq<byte>)
    ensures (forall k: nat, b: byte | k < |ptr| && b != ptr[k] :: !SameChecksum(ptr, k, b))
            <==> |ptr| < 0x1_0000
  {
    var n := |ptr| % 0x1_0000;
    if |ptr| < 0x1_0000 {
      forall k: nat, b: byte | k < |ptr| && b != ptr[k]
        ensures !SameChecksum(ptr, k, b)
      {
        assert ptr[..n] == ptr && ptr[k := b][..n] == ptr[k := b];
        ByteChangeDetected(ptr, k, b);
      }
    } else {
      var b: byte := ptr[n][0 := !ptr[n][0]];
      assert b[0] != ptr[n][0];
      assert ptr[n := b][..n] == ptr[..n];
      assert SameChecksum(ptr, n, b);
    }
  }

  lemma PaddingAbsorbs(p: seq<byte>)
    requires |p| % 4 != 3
    ensures p + ZeroBytes(Padding(|p|)) == p + [Clear(8)] + ZeroBytes(Padding(|p + [Clear(8)]|))
  {
    var zero: seq<byte>, n := [Clear(8)], Padding(|p|);
    assert Padding(|p| + 1) == n - 1;
    assert ZeroBytes(n) == zero + ZeroBytes(n - 1);
  }

  // ---------------------------------------------------------------- the zero padding

  predicate Odd(s: seq<bool>)
  {
    if s == [] then false else s[0] != Odd(s[1..])
  }

  predicate OddBits(v: nat, n: nat)
  {
    if n == 0 then false else (v % 2 == 1) != OddBits(v / 2, n - 1)
  }

  lemma {:induction false} OddOfBits(v: nat, n: nat)
    ensures Odd(Bits(v, n)) == OddBits(v, n)
  {
    if n > 0 {
      OddOfBits(v / 2, n - 1);
      assert Bits(v, n)[1..] == Bits(v / 2, n - 1);
    }
  }

  lemma {:induction false} OddOfConcat(a: seq<bool>, b: seq<bool>)
    ensures Odd(a + b) == (Odd(a) != Odd(b))
  {
    if a == [] {
      assert a + b == b;
    } else {
      assert (a + b)[1..] == a[1..] + b;
      OddOfConcat(a[1..], b);
    }
  }

  lemma {:induction false} OddOfReverse(s: seq<bool>)
    ensures Odd(Reverse(s)) == Odd(s)
  {
    if s != [] {
      var last := [s[0]];
      assert Reverse(s) == Reverse(s[1..]) + last;
      OddOfConcat(Reverse(s[1..]), last);
      OddOfReverse(s[1..]);
      assert last[1..] == [];
    }
  }

  lemma OddOfReversedBits(w: word, v: nat)
    requires w == Bits(v, 32)
    ensures Odd(Reverse(w)) == OddBits(v, 32)
  {
    OddOfReverse(w);
    OddOfBits(v, |w|);
  }

  lemma PolynomialBitsAreEven()
    ensures !OddBits(0x04C1_1DB7, 32)
  {
    assert OddBits(0x04, 8);
    assert !OddBits(0x04C1, 16);
    assert !OddBits(0x04_C11D, 24);
  }

  lemma PolynomialIsEven()
    ensures !Odd(Reverse(POLYNOMIAL))
  {
    OddOfReversedBits(POLYNOMIAL, 0x04C1_1DB7);
    PolynomialBitsAreEven();
  }

  // If one clock changes nothing although it folds the polynomial in, every bit of the
  // register is the parity of the polynomial from there on.
  lemma {:induction false} FixedIsParity(poly: word, r: word, i: nat)
    requires i < 32 && r[0] && Step(poly, r) == r
    ensures r[i] == Odd(poly[i..])
    decreases 32 - i
  {
    assert r[i] == (poly[i] != ShiftRight(r, 1)[i]);
    assert poly[i..][0] == poly[i] && poly[i..][1..] == poly[i + 1..];
    if i < 31 {
      FixedIsParity(poly, r, i + 1);
    }
  }

  lemma {:induction false} ShiftedIsClear(r: word, i: nat)
    requires i < 32 && ShiftRight(r, 1) == r
    ensures !r[i]
    decreases 32 - i
  {
    assert r[i] == ShiftRight(r, 1)[i];
    if i < 31 {
      ShiftedIsClear(r, i + 1);
    }
  }

  // Only the clear register is fixed by one clock ...
  lemma StepFixesOnlyClear(r: word)
    requires Step(Reverse(POLYNOMIAL), r) == r
    ensures r == Clear(32)
  {
    var poly := Reverse(POLYNOMIAL);
    if r[0] {
      assert poly[0..] == poly;
      FixedIsParity(poly, r, 0);
      PolynomialIsEven();
    }
    forall i: nat | i < 32
      ensures !r[i]
    {
      ShiftedIsClear(r, i);
    }
  }

  ghost predicate FixesOnlyClear(poly: word)
  {
    forall r: word :: Step(poly, r) == r ==> r == Clear(32)
  }

  // ... and so by any power of two of them: what k clocks change of a register that 2k clocks
  // fix is itself fixed by k clocks.
  lemma {:induction false} StepsFixOnlyClear(poly: word, r: word, e: nat, n: nat)
    requires FixesOnlyClear(poly)
    requires n == Pow2(e) && Steps(poly, r, n) == r
    ensures r == Clear(32)
    decreases e
  {
    if e == 0 {
      OneStep(poly, r, n);
    } else {
      var k := Pow2(e - 1);
      var x := DifferenceIsFixed(poly, r, k);
      StepsFixOnlyClear(poly, Xor(x, r), e - 1, k);
      NoDifference(x, r);
      StepsFixOnlyClear(poly, r, e - 1, k);
    }
  }

  lemma OneStep(poly: word, r: word, n: nat)
    requires n == 1
    ensures Steps(poly, r, n) == Step(poly, r)
  {
    assert Steps(poly, Step(poly, r), n - 1) == Step(poly, r);
  }

  lemma DifferenceIsFixed(poly: word, r: word, k: nat) returns (x: word)
    requires Steps(poly, r, k + k) == r
    ensures x == Steps(poly, r, k) && Steps(poly, Xor(x, r), k) == Xor(x, r)
  {
    x := Steps(poly, r, k);
    StepsAdd(poly, r, k, k);
    StepsLinear(poly, x, r, k);
    assert Xor(r, x) == Xor(x, r);
  }

  lemma NoDifference(x: word, r: word)
    requires Xor(x, r) == Clear(32)
    ensures x == r
  {
    forall i | 0 <= i < 32
      ensures x[i] == r[i]
    {
      assert !Xor(x, r)[i];
    }
  }

  lemma {:induction false} StepsAdd(poly: word, r: word, m: nat, n: nat)
    ensures Steps(poly, r, m + n) == Steps(poly, Steps(poly, r, m), n)
    decreases m
  {
    if m > 0 {
      StepsAdd(poly, Step(poly, r), m - 1, n);
    }
  }

  lemma {:induction false} StreamOfZeros(n: nat)
    ensures Stream(ZeroBytes(n)) == Clear(8 * n)
  {
    if n > 0 {
      StreamOfZeros(n - 1);
      assert ZeroBytes(n)[1..] == ZeroBytes(n - 1);
    }
  }

  // Four zero bytes leave the register as it was exactly when it is clear.
  lemma FourZerosFixOnlyClear(r: word, four: nat)
    requires four == 4
    ensures Feed(Reverse(POLYNOMIAL), r, Stream(ZeroBytes(four))) == r <==> r == Clear(32)
  {
    var n := 8 * four;
    StreamOfZeros(four);
    ZerosAreClocks(Reverse(POLYNOMIAL), r, n);
    forall s: word | Step(Reverse(POLYNOMIAL), s) == s
      ensures s == Clear(32)
    {
      StepFixesOnlyClear(s);
    }
    AllClocksFixOnlyClear(Reverse(POLYNOMIAL), r, n);
  }

  lemma ZerosAreClocks(poly: word, r: word, n: nat)
    requires n == 32
    ensures Feed(poly, r, Clear(n)) == Steps(poly, r, n)
  {
    FeedIsFold(poly, r, Clear(n));
    assert Xor(r, Clear(n) + Clear(0)) == r;
  }

  lemma AllClocksFixOnlyClear(poly: word, r: word, n: nat)
    requires FixesOnlyClear(poly) && n == 32
    ensures Steps(poly, r, n) == r <==> r == Clear(32)
  {
    if Steps(poly, r, n) == r {
      assert Pow2(5) == 32;
      StepsFixOnlyClear(poly, r, 5, n);
    }
    if r == Clear(32) {
      StepsShift(poly, r, n);
      assert ShiftRight(r, n) == r;
    }
  }

  /** The register before the final complement. */
  function Register(input: seq<byte>): word
  {
    Feed(Reverse(POLYNOMIAL), AllOnes(), Stream(input))
  }

  lemma OnesComplement(r: word)
    ensures Xor(r, AllOnes()) == AllOnes() <==> r == Clear(32)
  {
    if Xor(r, AllOnes()) == AllOnes() {
      assert forall i | 0 <= i < 32 :: r[i] == !Xor(r, AllOnes())[i];
    }
  }

  // One zero byte is taken for padding in front of three more, where the padding is one byte;
  // with it in the data four follow.
  lemma FullPadding(p: seq<byte>)
    requires |p| % 4 == 3
    ensures Reference(p) == Xor(Register(p + [Clear(8)]), AllOnes())
    ensures Padding(|p + [Clear(8)]|) == 4
  {
    var q: seq<byte> := p + [Clear(8)];
    assert p + ZeroBytes(Padding(|p|)) == q;
    ReferenceIs(p, q);
  }

  lemma ReferenceIs(p: seq<byte>, padded: seq<byte>)
    requires padded == p + ZeroBytes(Padding(|p|))
    ensures Reference(p) == Xor(Register(padded), AllOnes())
  {
  }

  lemma ReferenceSplit(q: seq<byte>)
    ensures Reference(q) ==
              Xor(Feed(Reverse(POLYNOMIAL), Register(q), Stream(ZeroBytes(Padding(|q|)))), AllOnes())
  {
    var pad := ZeroBytes(Padding(|q|));
    StreamConcat(q, pad);
    FeedConcat(Reverse(POLYNOMIAL), AllOnes(), Stream(q), Stream(pad));
  }

  // The padding hides a trailing zero byte if and only if the length is not 3 modulo 4, or the
  // checksum is all ones, the register then being clear.
  lemma TrailingZeroIff(p: seq<byte>)
    ensures Reference(p) == Reference(p + [Clear(8)]) <==> |p| % 4 != 3 || Reference(p) == AllOnes()
  {
    if |p| % 4 != 3 {
      PaddingAbsorbs(p);
    } else {
      var q: seq<byte> := p + [Clear(8)];
      var r, n := Register(q), Padding(|q|);
      FullPadding(p);
      ReferenceSplit(q);
      XorOnesInjective(r, Feed(Reverse(POLYNOMIAL), r, Stream(ZeroBytes(n))));
      FourZerosFixOnlyClear(r, n);
      OnesComplement(r);
    }
  }

  // The shortest case: no data and one zero byte have the same checksum.
  lemma EmptyLooksLikeZero()
    ensures Reference([]) == Reference([Clear(8)])
  {
    var none: seq<byte>, zero: seq<byte> := [], [Clear(8)];
    TrailingZeroIff(none);
    assert none + zero == zero;
  }
}
