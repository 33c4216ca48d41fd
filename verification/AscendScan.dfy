/** `ascendScanData_` (sl_lidar_driver.cpp): gives samples without a distance an angle, in
    three passes over the buffer, and sorts the scan by angle. */
module AscendScan {

  import opened ScanNode

  function Increment(count: nat): real
    requires count > 0
  {
    360.0 / count as real
  }

  // ---------------------------------------------------------------- the passes as functions

  /** The angle k samples before a valid one, stepping back and stopping at zero. */
  function Back(q: u16, k: nat, inc: real): u16
    requires inc >= 0.0
  {
    if k == 0 then q
    else
      Lowered(Degrees(Back(q, k - 1, inc)) - inc)
  }

  /** An angle never falls below zero. */
  function Lowered(e: real): u16
  {
    FromDegrees(if e < 0.0 then 0.0 else e)
  }

  /** The angle k samples after a valid one. */
  function Forward(q: u16, k: nat, inc: real): u16
    requires inc >= 0.0
  {
    if k == 0 then q
    else
      var e := Degrees(Forward(q, k - 1, inc)) + inc;
      FromDegrees(Wrapped(e))
  }

  function Wrapped(e: real): (w: real)
    requires e >= 0.0
    ensures w >= 0.0
  {
    if e > 360.0 then e - 360.0 else e
  }

  predicate Valid(n: Node) { n.distQ2 != 0 }

  ghost predicate FirstValid(s: seq<Node>, f: nat)
  {
    f < |s| && Valid(s[f]) && forall i | 0 <= i < f :: !Valid(s[i])
  }

  ghost predicate LastValid(s: seq<Node>, l: nat)
  {
    l < |s| && Valid(s[l]) && forall i | l < i < |s| :: !Valid(s[i])
  }

  function TuneHead(s: seq<Node>, f: nat): (r: seq<Node>)
    requires f < |s|
    ensures |r| == |s|
  {
    seq(|s|, i requires 0 <= i < |s| =>
          if i < f then s[i].(angleQ14 := Back(s[f].angleQ14, f - i, Increment(|s|))) else s[i])
  }

  function TuneTail(s: seq<Node>, l: nat): (r: seq<Node>)
    requires l < |s|
    ensures |r| == |s|
  {
    seq(|s|, i requires 0 <= i < |s| =>
          if i > l then s[i].(angleQ14 := Forward(s[l].angleQ14, i - l, Increment(|s|))) else s[i])
  }

  /** Where sample i lies when count samples are spread over the circle. */
  function Offset(i: nat, count: nat): (r: real)
    requires count > 0
    ensures r >= 0.0
  {
    i as real * Increment(count)
  }

  function FillAngle(front: u16, i: nat, count: nat): u16
    requires count > 0
  {
    FromDegrees(Wrapped(Degrees(front) + Offset(i, count)))
  }

  function Fill(s: seq<Node>): (r: seq<Node>)
    requires s != []
    ensures |r| == |s|
  {
    seq(|s|, i requires 0 <= i < |s| =>
          if i > 0 && !Valid(s[i]) then s[i].(angleQ14 := FillAngle(s[0].angleQ14, i, |s|)) else s[i])
  }

  /** What the three passes amount to: valid samples keep their angle, the first sample is
      stepped back to from the first valid one, and every other invalid sample is placed by
      its index. */
  function Repaired(s: seq<Node>, f: nat): (r: seq<Node>)
    requires f < |s|
    ensures |r| == |s|
  {
    var front := Back(s[f].angleQ14, f, Increment(|s|));
    seq(|s|, i requires 0 <= i < |s| =>
          if Valid(s[i]) then s[i]
          else s[i].(angleQ14 := if i == 0 then front else FillAngle(front, i, |s|)))
  }

  // The tail pass has no effect on the final result, and of the head pass only the angle of
  // the very first sample matters.
  lemma PassesCompose(s: seq<Node>, f: nat, l: nat)
    requires FirstValid(s, f) && LastValid(s, l)
    ensures Fill(TuneTail(TuneHead(s, f), l)) == Fill(TuneHead(s, f)) == Repaired(s, f)
  {
    var h := TuneHead(s, f);
    var t := TuneTail(h, l);
    assert t[0] == h[0];
    if f == 0 {
      assert h[0] == s[0] && Back(s[0].angleQ14, 0, Increment(|s|)) == s[0].angleQ14;
    }
    forall i | 0 <= i < |s|
      ensures Fill(t)[i] == Fill(h)[i] == Repaired(s, f)[i]
    {
      assert Valid(h[i]) == Valid(t[i]) == Valid(s[i]);
    }
  }

  // ---------------------------------------------------------------- what is promised

  datatype Reading = Reading(dist: nat, quality: nat, flag: nat)

  function Readings(s: seq<Node>): seq<Reading>
  {
    seq(|s|, i requires 0 <= i < |s| => Reading(s[i].distQ2, s[i].quality, s[i].flag))
  }

  function ValidNodes(s: seq<Node>): multiset<Node>
  {
    if s == [] then multiset{}
    else ValidNodes(s[..|s| - 1]) + if Valid(s[|s| - 1]) then multiset{s[|s| - 1]} else multiset{}
  }

  /** The samples with a distance are the same ones, whole and equally often, in some order. */
  ghost predicate KeepsDistances(s: seq<Node>, b: seq<Node>)
  {
    forall n: Node | n.distQ2 != 0 :: multiset(b)[n] == multiset(s)[n]
  }

  predicate Ascending(s: seq<Node>)
  {
    forall i, j | 0 <= i < j < |s| :: s[i].angleQ14 <= s[j].angleQ14
  }

  // The readings survive the repair in place, sample by sample.
  lemma RepairKeepsReadings(s: seq<Node>, f: nat)
    requires f < |s|
    ensures Readings(Repaired(s, f)) == Readings(s)
  {
  }

  // ... and reordering permutes them.
  lemma WithoutOne<T>(s: seq<T>, k: nat)
    requires k < |s|
    ensures multiset(s) == multiset(s[..k] + s[k + 1..]) + multiset{s[k]}
  {
    assert s == s[..k] + [s[k]] + s[k + 1..];
  }

  lemma Counterpart<T>(a: seq<T>, b: seq<T>) returns (k: nat)
    requires a != [] && multiset(a) == multiset(b)
    ensures k < |b| && b[k] == a[0]
    ensures multiset(a[..0] + a[1..]) == multiset(b[..k] + b[k + 1..])
  {
    assert a[0] in multiset(a);
    assert a[0] in multiset(b);
    k :| 0 <= k < |b| && b[k] == a[0];
    WithoutOne(a, 0);
    WithoutOne(b, k);
    var a', b' := a[..0] + a[1..], b[..k] + b[k + 1..];
    assert multiset(a') == multiset(a) - multiset{a[0]};
    assert multiset(b') == multiset(b) - multiset{a[0]};
  }

  lemma ReadingsWithout(s: seq<Node>, k: nat)
    requires k < |s|
    ensures multiset(Readings(s)) == multiset(Readings(s[..k] + s[k + 1..])) + multiset{Readings(s)[k]}
  {
    WithoutOne(Readings(s), k);
    assert Readings(s[..k] + s[k + 1..]) == Readings(s)[..k] + Readings(s)[k + 1..];
  }

  lemma {:induction false} ReadingsPermute(a: seq<Node>, b: seq<Node>)
    requires multiset(a) == multiset(b)
    ensures multiset(Readings(a)) == multiset(Readings(b))
    decreases |a|
  {
    if a == [] {
      assert |multiset(b)| == |b|;
      assert b == [];
    } else {
      var k := Counterpart(a, b);
      ReadingsPermute(a[..0] + a[1..], b[..k] + b[k + 1..]);
      ReadingsWithout(a, 0);
      ReadingsWithout(b, k);
    }
  }

  // The samples with a distance keep their angle and everything else.
  lemma {:induction false} RepairKeepsValid(s: seq<Node>, r: seq<Node>)
    requires |r| == |s| && forall i | 0 <= i < |s| :: Valid(r[i]) == Valid(s[i]) && (Valid(s[i]) ==> r[i] == s[i])
    ensures ValidNodes(r) == ValidNodes(s)
  {
    if s != [] {
      RepairKeepsValid(s[..|s| - 1], r[..|s| - 1]);
    }
  }

  lemma {:induction false} ValidNodesIsFilter(s: seq<Node>, n: Node)
    ensures ValidNodes(s)[n] == if Valid(n) then multiset(s)[n] else 0
  {
    if s != [] {
      var p := s[..|s| - 1];
      assert s == p + [s[|s| - 1]];
      ValidNodesIsFilter(p, n);
    }
  }

  // ---------------------------------------------------------------- sorting

  function Insert(s: seq<Node>, n: Node): seq<Node>
  {
    if s == [] || n.angleQ14 < s[0].angleQ14 then [n] + s else [s[0]] + Insert(s[1..], n)
  }

  lemma {:induction false} InsertAdds(s: seq<Node>, n: Node)
    ensures multiset(Insert(s, n)) == multiset(s) + multiset{n}
  {
    if s != [] && s[0].angleQ14 <= n.angleQ14 {
      InsertAdds(s[1..], n);
      assert s == [s[0]] + s[1..];
      assert Insert(s, n) == [s[0]] + Insert(s[1..], n);
    } else {
      assert Insert(s, n) == [n] + s;
    }
  }

  lemma {:induction false} InsertSorts(s: seq<Node>, n: Node)
    requires Ascending(s)
    ensures Ascending(Insert(s, n))
  {
    if s != [] && s[0].angleQ14 <= n.angleQ14 {
      var tail, r := s[1..], Insert(s[1..], n);
      assert forall i | 0 <= i < |tail| :: tail[i] == s[i + 1];
      InsertSorts(tail, n);
      InsertAdds(tail, n);
      forall i | 0 <= i < |r|
        ensures s[0].angleQ14 <= r[i].angleQ14
      {
        assert r[i] in multiset(r);
        assert r[i] == n || r[i] in tail;
      }
      assert Insert(s, n) == [s[0]] + r;
    } else {
      assert Insert(s, n) == [n] + s;
    }
  }

  /** std::sort with `angleLessThan`: some ascending order; equal angles come in any order. */
  method SortByAngle(a: array<Node>)
    modifies a
    ensures Ascending(a[..]) && multiset(a[..]) == multiset(old(a[..]))
  {
    ghost var s := a[..];
    var sorted: seq<Node> := [];
    var i := 0;
    while i < a.Length
      invariant 0 <= i <= a.Length && a[..] == s
      invariant Ascending(sorted) && multiset(sorted) == multiset(a[..i])
    {
      InsertSorts(sorted, a[i]);
      InsertAdds(sorted, a[i]);
      sorted := Insert(sorted, a[i]);
      assert a[..i + 1] == a[..i] + [a[i]];
      i := i + 1;
    }
    assert a[..i] == s;
    assert |sorted| == |multiset(sorted)| == a.Length;
    forall k | 0 <= k < a.Length {
      a[k] := sorted[k];
    }
    assert a[..] == sorted;
  }

  // ---------------------------------------------------------------- the code

  method TuneHeadPass(a: array<Node>) returns (i: nat)
    modifies a
    ensures i == a.Length <==> forall k | 0 <= k < a.Length :: !Valid(old(a[k]))
    ensures i == a.Length ==> a[..] == old(a[..])
    ensures i != a.Length ==> exists f: nat :: FirstValid(old(a[..]), f) && a[..] == TuneHead(old(a[..]), f)
  {
    ghost var s := a[..];
    i := 0;
    while i < a.Length
      invariant 0 <= i <= a.Length && a[..] == s
      invariant forall k | 0 <= k < i :: !Valid(s[k])
    {
      if a[i].distQ2 == 0 {
        i := i + 1;
        continue;
      }
      TuneHeadFrom(a, i);
      return 0;
    }
  }

  /** The inner loop of the pass, from the first valid sample back. */
  method TuneHeadFrom(a: array<Node>, f: nat)
    requires f < a.Length
    modifies a
    ensures a[..] == TuneHead(old(a[..]), f)
  {
    ghost var s := a[..];
    ghost var tuned := TuneHead(s, f);
    var i, inc := f, 360.0 / a.Length as real;
    while i != 0
      invariant 0 <= i <= f
      invariant a[..] == s[..i] + tuned[i..]
    {
      i := i - 1;
      TunedBefore(s, f, i);
      SpliceNext(s, tuned, i);
      assert a[i + 1] == tuned[i + 1] && a[i] == s[i];
      TuneBefore(a, i, inc);
    }
    assert a[..] == tuned;
  }

  lemma TunedBefore(s: seq<Node>, f: nat, i: nat)
    requires i < f < |s|
    ensures TuneHead(s, f)[i] ==
              s[i].(angleQ14 := Lowered(Degrees(TuneHead(s, f)[i + 1].angleQ14) - Increment(|s|)))
  {
    var q, inc := s[f].angleQ14, Increment(|s|);
    NextBack(q, f - i, inc);
    assert Back(q, 0, inc) == q;
    assert TuneHead(s, f)[i + 1].angleQ14 == Back(q, f - i - 1, inc);
  }

  lemma NextBack(q: u16, k: nat, inc: real)
    requires k > 0 && inc >= 0.0
    ensures Back(q, k, inc) == Lowered(Degrees(Back(q, k - 1, inc)) - inc)
  {
  }

  method TuneBefore(a: array<Node>, i: nat, inc: real)
    requires i + 1 < a.Length
    modifies a
    ensures a[..] == old(a[..])[i := old(a[i]).(angleQ14 := Lowered(Degrees(old(a[i + 1].angleQ14)) - inc))]
  {
    var expected := Degrees(a[i + 1].angleQ14) - inc;
    if expected < 0.0 {
      expected := 0.0;
    }
    a[i] := a[i].(angleQ14 := FromDegrees(expected));
  }

  lemma NextForward(q: u16, k: nat, inc: real)
    requires k > 0 && inc >= 0.0
    ensures Forward(q, k, inc) == FromDegrees(Wrapped(Degrees(Forward(q, k - 1, inc)) + inc))
  {
    DegreesRoundTrip(Forward(q, k - 1, inc));
  }

  method TuneTailPass(a: array<Node>)
    requires exists k :: 0 <= k < a.Length && Valid(a[k])
    modifies a
    ensures exists l: nat :: LastValid(old(a[..]), l) && a[..] == TuneTail(old(a[..]), l)
  {
    ghost var s := a[..];
    var i := a.Length - 1;
    while i >= 0
      invariant -1 <= i < a.Length && a[..] == s
      invariant forall k | i < k < a.Length :: !Valid(s[k])
    {
      if a[i].distQ2 == 0 {
        i := i - 1;
        continue;
      }
      TuneTailFrom(a, i);
      return;
    }
  }

  /** The inner loop of the pass, from the last valid sample on. */
  method TuneTailFrom(a: array<Node>, l: nat)
    requires l < a.Length
    modifies a
    ensures a[..] == TuneTail(old(a[..]), l)
  {
    ghost var s := a[..];
    ghost var tuned := TuneTail(s, l);
    var i, inc := l, 360.0 / a.Length as real;
    while i != a.Length - 1
      invariant l <= i < a.Length
      invariant a[..] == tuned[..i + 1] + s[i + 1..]
      decreases a.Length - i
    {
      i := i + 1;
      TunedNext(s, l, i);
      SpliceNext(tuned, s, i);
      assert a[i - 1] == tuned[i - 1] && a[i] == s[i];
      TuneAfter(a, i, inc);
    }
    assert a[..] == tuned;
  }

  lemma SpliceNext<T>(x: seq<T>, y: seq<T>, i: nat)
    requires |x| == |y| && i < |x|
    ensures (x[..i] + y[i..])[i := x[i]] == x[..i + 1] + y[i + 1..]
    ensures (x[..i + 1] + y[i + 1..])[i := y[i]] == x[..i] + y[i..]
  {
  }

  lemma TunedNext(s: seq<Node>, l: nat, i: nat)
    requires l < i < |s|
    ensures Degrees(TuneTail(s, l)[i - 1].angleQ14) + Increment(|s|) >= 0.0
    ensures TuneTail(s, l)[i] ==
              s[i].(angleQ14 := FromDegrees(Wrapped(Degrees(TuneTail(s, l)[i - 1].angleQ14) + Increment(|s|))))
  {
    var q, inc := s[l].angleQ14, Increment(|s|);
    NextForward(q, i - l, inc);
    assert Forward(q, 0, inc) == q;
    assert TuneTail(s, l)[i - 1].angleQ14 == Forward(q, i - l - 1, inc);
    DegreesRoundTrip(Forward(q, i - l - 1, inc));
  }

  method TuneAfter(a: array<Node>, i: nat, inc: real)
    requires 0 < i < a.Length && inc >= 0.0
    modifies a
    ensures Degrees(old(a[i - 1].angleQ14)) + inc >= 0.0
    ensures a[..] ==
              old(a[..])[i := old(a[i]).(angleQ14 := FromDegrees(Wrapped(Degrees(old(a[i - 1].angleQ14)) + inc)))]
  {
    DegreesRoundTrip(a[i - 1].angleQ14);
    var expected := Degrees(a[i - 1].angleQ14) + inc;
    if expected > 360.0 {
      expected := expected - 360.0;
    }
    a[i] := a[i].(angleQ14 := FromDegrees(expected));
  }

  method FillPass(a: array<Node>)
    requires a.Length > 0
    modifies a
    ensures a[..] == Fill(old(a[..]))
  {
    ghost var s := a[..];
    var frontAngle := Degrees(a[0].angleQ14);
    var i := 1;
    while i < a.Length
      invariant 1 <= i <= a.Length && a[0] == s[0]
      invariant forall k | 0 <= k < |s| :: a[k] == if k < i then Fill(s)[k] else s[k]
    {
      if a[i].distQ2 == 0 {
        var expected := frontAngle + Offset(i, a.Length);
        if expected > 360.0 {
          expected := expected - 360.0;
        }
        a[i] := a[i].(angleQ14 := FromDegrees(expected));
      }
      i := i + 1;
    }
  }

  /** The whole of `ascendScanData_`; false stands for SL_RESULT_OPERATION_FAIL. */
  method Ascend(a: array<Node>) returns (ok: bool)
    modifies a
    // fails exactly when no sample has a distance, and then leaves the buffer as it was
    ensures ok <==> exists k :: 0 <= k < a.Length && old(a[k]).distQ2 != 0
    ensures !ok ==> a[..] == old(a[..])
    // otherwise the buffer holds the repaired samples in ascending order of angle
    ensures ok ==> Ascending(a[..])
    ensures ok ==> exists f: nat :: FirstValid(old(a[..]), f) && multiset(a[..]) == multiset(Repaired(old(a[..]), f))
    ensures multiset(Readings(a[..])) == multiset(Readings(old(a[..])))
    ensures KeepsDistances(old(a[..]), a[..])
  {
    ghost var s := a[..];
    var i := TuneHeadPass(a);
    if i == a.Length {
      return false;
    }
    ghost var f: nat :| FirstValid(s, f) && a[..] == TuneHead(s, f);
    assert Valid(a[f]);
    TuneTailPass(a);
    ghost var l: nat :| LastValid(TuneHead(s, f), l) && a[..] == TuneTail(TuneHead(s, f), l);
    FillPass(a);
    SameValidity(s, f, l);
    PassesCompose(s, f, l);
    SortByAngle(a);
    Promises(s, f, a[..]);
    return true;
  }

  lemma SameValidity(s: seq<Node>, f: nat, l: nat)
    requires FirstValid(s, f) && LastValid(TuneHead(s, f), l)
    ensures LastValid(s, l)
  {
    assert forall i | 0 <= i < |s| :: Valid(TuneHead(s, f)[i]) == Valid(s[i]);
  }

  lemma Promises(s: seq<Node>, f: nat, b: seq<Node>)
    requires FirstValid(s, f) && multiset(b) == multiset(Repaired(s, f))
    ensures multiset(Readings(b)) == multiset(Readings(s))
    ensures KeepsDistances(s, b)
  {
    var r := Repaired(s, f);
    ReadingsPermute(b, r);
    RepairKeepsReadings(s, f);
    RepairKeepsValid(s, r);
    forall n: Node | n.distQ2 != 0
      ensures multiset(b)[n] == multiset(s)[n]
    {
      ValidNodesIsFilter(r, n);
      ValidNodesIsFilter(s, n);
    }
  }
}
