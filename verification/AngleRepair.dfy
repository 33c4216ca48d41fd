/** What `ascendScanData_` (sl_lidar_driver.cpp) does to the angles, in whole numbers: an angle is
    a fraction of 65536 of the circle, and the detour over degrees only rounds. */
module AngleRepair {

  import opened ScanNode
  import opened AscendScan
  import opened Scaling

  /** The spacing of count samples on the circle, rounded up. */
  function Spacing(count: nat): (c: nat)
    requires count > 0
    ensures (c - 1) * count < 0x1_0000 <= c * count
  {
    var c := (0x1_0000 + count - 1) / count;
    assert c * count <= 0x1_0000 + count - 1 < (c + 1) * count;
    c
  }

  // The angle of x fractions, x being any real number, is its whole part.
  lemma FromFractions(x: real)
    requires x >= 0.0
    ensures FromDegrees(x * 90.0 / 16384.0) == x.Floor % 0x1_0000
  {
    assert x * 90.0 / 16384.0 * 16384.0 / 90.0 == x;
  }

  /** One sample's share of the circle, in fractions. */
  function Share(count: nat): (share: real)
    requires count > 0
    ensures share * 90.0 / 16384.0 == Increment(count)
    ensures share >= 0.0 && share * count as real == 65536.0
  {
    65536.0 / count as real
  }

  // ---------------------------------------------------------------- before the first valid sample

  lemma ShareRounds(q: nat, count: nat)
    requires count > 0
    ensures var c, x := Spacing(count), q as real - Share(count);
            if q >= c then x >= 0.0 && x.Floor == q - c else x < 0.0 || x.Floor == 0
  {
    ShareWithin(count);
  }

  lemma ShareWithin(count: nat)
    requires count > 0
    ensures Spacing(count) as real - 1.0 < Share(count) <= Spacing(count) as real
  {
    Unscaled(Share(count), Spacing(count), count);
    Unscaled(Share(count), Spacing(count) - 1, count);
  }

  lemma Unscaled(x: real, c: int, count: nat)
    requires count > 0 && x * count as real == 65536.0
    ensures x <= c as real <==> 0x1_0000 <= c * count
  {
    assert (c * count) as real == c as real * count as real;
    if x <= c as real {
      ScaleAtMost(x, c as real, count as real);
    } else {
      ScaleLess(c as real, x, count as real);
    }
  }

  lemma LoweredIs(q: u16, count: nat)
    requires count > 0
    ensures Lowered(Degrees(q) - Increment(count)) == if q >= Spacing(count) then q - Spacing(count) else 0
  {
    var x := q as real - Share(count);
    ShareRounds(q, count);
    assert Degrees(q) - Increment(count) == x * 90.0 / 16384.0;
    if x >= 0.0 {
      FromFractions(x);
      assert 0 <= x.Floor <= q;
    } else {
      FromFractions(0.0);
    }
  }

  // k samples before a valid one: k spacings less, but not below zero.
  lemma {:induction false} BackIs(q: u16, k: nat, count: nat)
    requires count > 0
    ensures Back(q, k, Increment(count)) == if q >= k * Spacing(count) then q - k * Spacing(count) else 0
  {
    if k > 0 {
      BackIs(q, k - 1, count);
      LoweredIs(Back(q, k - 1, Increment(count)), count);
      OneMore(k, Spacing(count));
      NextBack(q, k, Increment(count));
    }
  }

  lemma OneMore(k: nat, c: int)
    ensures k * c == (k - 1) * c + c
  {
  }

  // ---------------------------------------------------------------- by index

  lemma SharesRound(q: nat, i: nat, count: nat)
    requires count > 0
    ensures (q as real + i as real * Share(count)).Floor == q + i * 0x1_0000 / count
  {
    var n := i * 0x1_0000 / count;
    var x := i as real * Share(count);
    assert x * count as real == (i * 0x1_0000) as real by {
      assert x * count as real == i as real * (Share(count) * count as real);
    }
    assert n * count <= i * 0x1_0000 < (n + 1) * count;
    assert n as real <= x < n as real + 1.0 by {
      assert (n * count) as real == n as real * count as real;
      assert ((n + 1) * count) as real == (n as real + 1.0) * count as real;
      if x < n as real {
        ScaleLess(x, n as real, count as real);
      }
      if n as real + 1.0 <= x {
        ScaleAtMost(n as real + 1.0, x, count as real);
      }
    }
  }

  // A sample placed by its index lies its share of the circle after the front, modulo the circle.
  lemma FillAngleIs(front: u16, i: nat, count: nat)
    requires i < count
    ensures FillAngle(front, i, count) == (front + i * 0x1_0000 / count) % 0x1_0000
  {
    var x := front as real + i as real * Share(count);
    SharesRound(front, i, count);
    ShareOffset(i, count);
    assert Degrees(front) + Offset(i, count) == x * 90.0 / 16384.0;
    WrappedIs(x, front + i * 0x1_0000 / count);
  }

  lemma ShareOffset(i: nat, count: nat)
    requires count > 0
    ensures i as real * Share(count) >= 0.0
    ensures i as real * Share(count) * 90.0 / 16384.0 == Offset(i, count)
  {
    assert i as real * Share(count) * 90.0 / 16384.0 == i as real * (Share(count) * 90.0 / 16384.0);
  }

  // More than a full turn wraps, which modulo the circle is nothing.
  lemma WrappedIs(x: real, n: nat)
    requires 0.0 <= x && x.Floor == n
    ensures FromDegrees(Wrapped(x * 90.0 / 16384.0)) == n % 0x1_0000
  {
    if x > 65536.0 {
      assert x * 90.0 / 16384.0 - 360.0 == (x - 65536.0) * 90.0 / 16384.0;
      FromFractions(x - 65536.0);
      assert (x - 65536.0).Floor == x.Floor - 0x1_0000;
    } else {
      FromFractions(x);
    }
  }

  // ---------------------------------------------------------------- the repaired scan

  /** The angle of sample i of a repaired scan whose first sample with a distance is f. */
  function AngleOf(s: seq<Node>, f: nat, i: nat): nat
    requires i < |s| && f < |s|
  {
    var c := Spacing(|s|);
    var front := if s[f].angleQ14 >= f * c then s[f].angleQ14 - f * c else 0;
    if s[i].distQ2 != 0 then s[i].angleQ14
    else if i == 0 then front
    else (front + i * 0x1_0000 / |s|) % 0x1_0000
  }

  // The whole repair in whole numbers: samples with a distance stay; the first sample, if it has
  // none, goes one spacing back for each sample before the first with a distance; every other
  // goes its share of the circle after the first.
  lemma RepairedAngles(s: seq<Node>, f: nat, i: nat)
    requires f < |s| && s[f].distQ2 != 0 && forall j | 0 <= j < f :: s[j].distQ2 == 0
    requires i < |s|
    ensures FirstValid(s, f)
    ensures Repaired(s, f)[i].angleQ14 == AngleOf(s, f, i)
    ensures Repaired(s, f)[i] == s[i].(angleQ14 := Repaired(s, f)[i].angleQ14)
  {
    BackIs(s[f].angleQ14, f, |s|);
    var front := Back(s[f].angleQ14, f, Increment(|s|));
    FillAngleIs(front, i, |s|);
  }
}
