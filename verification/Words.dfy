/** Machine words as sequences of bits, lowest first: shifts, masks and exclusive-ors become
    slices and pointwise operations. */
module Words {

  type word = s: seq<bool> | |s| == 32 witness CLEAR8 + CLEAR8 + CLEAR8 + CLEAR8

  const CLEAR8: seq<bool> := [false, false, false, false, false, false, false, false]

  function Clear(n: nat): (s: seq<bool>)
    ensures |s| == n && forall i | 0 <= i < n :: !s[i]
  {
    seq(n, _ => false)
  }

  /** The n lowest bits of a number. */
  function Bits(v: nat, n: nat): (s: seq<bool>)
    ensures |s| == n
  {
    if n == 0 then [] else [v % 2 == 1] + Bits(v / 2, n - 1)
  }

  /** The number a sequence of bits stands for. */
  function Value(s: seq<bool>): nat
  {
    if s == [] then 0 else (if s[0] then 1 else 0) + 2 * Value(s[1..])
  }

  function Pow2(n: nat): (p: nat)
    ensures p > 0
  {
    if n == 0 then 1 else 2 * Pow2(n - 1)
  }

  function Xor(a: seq<bool>, b: seq<bool>): (s: seq<bool>)
    requires |a| == |b|
    ensures |s| == |a| && forall i | 0 <= i < |a| :: s[i] == (a[i] != b[i])
  {
    seq(|a|, i requires 0 <= i < |a| => a[i] != b[i])
  }

  function ShiftRight(c: word, n: nat): (s: word)
    requires n <= 32
  {
    c[n..] + Clear(n)
  }

  function Reverse(s: seq<bool>): (r: seq<bool>)
    ensures |r| == |s| && forall i | 0 <= i < |s| :: r[i] == s[|s| - 1 - i]
  {
    seq(|s|, i requires 0 <= i < |s| => s[|s| - 1 - i])
  }

  lemma {:induction false} BitsOfValue(s: seq<bool>)
    ensures Value(s) < Pow2(|s|) && Bits(Value(s), |s|) == s
  {
    if s != [] {
      BitsOfValue(s[1..]);
      assert s == [s[0]] + s[1..];
    }
  }

  lemma {:induction false} ValueOfBits(v: nat, n: nat)
    requires v < Pow2(n)
    ensures Value(Bits(v, n)) == v
  {
    if n > 0 {
      ValueOfBits(v / 2, n - 1);
      assert Bits(v, n)[1..] == Bits(v / 2, n - 1);
    }
  }

  // Bit k of a number: whether dividing it by 2 to the k leaves an odd number.
  lemma {:induction false} BitAt(v: nat, n: nat, k: nat)
    requires k < n
    ensures Bits(v, n)[k] <==> v / Pow2(k) % 2 == 1
  {
    if k > 0 {
      BitAt(v / 2, n - 1, k - 1);
      Halved(v, Pow2(k - 1));
    }
  }

  lemma Halved(v: nat, p: nat)
    requires p > 0
    ensures v / 2 / p == v / (2 * p)
  {
    var q := v / 2 / p;
    HalvedBounds(v, v / 2, q * p, p);
    assert q * (2 * p) == 2 * (q * p);
    Quotient(v, 2 * p, q);
  }

  lemma HalvedBounds(v: nat, h: nat, t: nat, p: nat)
    requires h == v / 2 && t <= h < t + p
    ensures 2 * t <= v < 2 * t + 2 * p
  {
  }

  lemma Quotient(v: nat, d: nat, q: nat)
    requires d > 0 && q * d <= v < q * d + d
    ensures v / d == q
  {
    if v / d < q {
      NextMultiple(v / d, q, d);
    } else if v / d > q {
      NextMultiple(q, v / d, d);
    }
  }

  lemma {:induction false} NextMultiple(p: nat, q: nat, d: nat)
    requires p < q
    ensures p * d + d <= q * d
  {
    assert (q - 1) * d + d == q * d;
    if p < q - 1 {
      NextMultiple(p, q - 1, d);
    }
  }

  lemma {:induction false} BitsOfByte(v: nat, n: nat)
    requires 8 <= n && v < 256
    ensures Bits(v, n) == Bits(v, 8) + Clear(n - 8)
  {
    assert Pow2(8) == 256;
    ClearHighBits(v, 8, n);
  }

  lemma {:induction false} ClearHighBits(v: nat, k: nat, n: nat)
    requires k <= n && v < Pow2(k)
    ensures Bits(v, n) == Bits(v, k) + Clear(n - k)
  {
    if k > 0 {
      ClearHighBits(v / 2, k - 1, n - 1);
    } else if n > 0 {
      ClearHighBits(0, 0, n - 1);
    }
  }
}
