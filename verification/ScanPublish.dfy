/** From a sorted scan to the published message (rplidar_node.cpp): angle compensation spreads
    the samples over a fixed number of slots, and `publish_scan` writes ranges and intensities
    by computed index. */
module ScanPublish {

  import opened ScanNode
  import opened AscendScan
  import opened Scaling

  const NOTHING: Node := Node(0, 0, 0, 0)

  // ---------------------------------------------------------------- angle compensation

  /** The slot of a sample, with m slots for each degree. */
  function Bucket(n: Node, m: nat): int
  {
    SlotOf(Degrees(n.angleQ14), m as real)
  }

  function SlotOf(degrees: real, m: real): int
  {
    (degrees * m).Floor
  }

  lemma BucketInRange(n: Node, m: nat)
    requires m > 0
    ensures 0 <= Bucket(n, m) < 360 * m
  {
    DegreesRoundTrip(n.angleQ14);
    FloorOfScaled(Degrees(n.angleQ14), m as real, 360 * m);
  }

  lemma FloorOfScaled(d: real, k: real, n: nat)
    requires 0.0 <= d < 360.0 && k > 0.0 && 360.0 * k == n as real
    ensures 0 <= SlotOf(d, k) < n
  {
    ScaleLess(d, 360.0, k);
    assert d * k < n as real;
    ScaleAtMost(0.0, d, k);
    assert d * k >= 0.0;
    FloorBetween(d * k, n);
  }

  lemma BucketMonotone(a: Node, b: Node, m: nat)
    requires a.angleQ14 <= b.angleQ14
    ensures Bucket(a, m) <= Bucket(b, m)
  {
    DegreesMonotone(a.angleQ14, b.angleQ14);
    FloorMonotone(Degrees(a.angleQ14), Degrees(b.angleQ14), m as real);
  }

  lemma FloorMonotone(a: real, b: real, k: real)
    requires a <= b && k >= 0.0
    ensures SlotOf(a, k) <= SlotOf(b, k)
  {
    ScaleAtMost(a, b, k);
    FloorsInOrder(a * k, b * k);
  }

  lemma FloorBetween(x: real, n: nat)
    requires 0.0 <= x < n as real
    ensures 0 <= x.Floor < n
  {
  }

  lemma FloorsInOrder(x: real, y: real)
    requires x <= y
    ensures x.Floor <= y.Floor
  {
  }

  /** Sample i is written to slot s: its own bucket or one of the m - 1 following it. */
  predicate Covers(n: Node, s: nat, m: nat)
  {
    Valid(n) && Bucket(n, m) <= s < Bucket(n, m) + m
  }

  /** What the first n samples leave in slot s. */
  function SlotAfter(nodes: seq<Node>, n: nat, s: nat, m: nat): Node
    requires n <= |nodes|
  {
    if n == 0 then NOTHING
    else if Covers(nodes[n - 1], s, m) then nodes[n - 1]
    else SlotAfter(nodes, n - 1, s, m)
  }

  method AngleCompensate(nodes: seq<Node>, m: nat) returns (slots: array<Node>)
    requires m > 0
    ensures slots.Length == 360 * m
    ensures forall s | 0 <= s < slots.Length :: slots[s] == SlotAfter(nodes, |nodes|, s, m)
  {
    var slotCount := 360 * m;
    var offset := 0;
    slots := new Node[slotCount](_ => NOTHING);
    var i := 0;
    while i < |nodes|
      invariant 0 <= i <= |nodes| && offset == 0
      invariant forall s | 0 <= s < slotCount :: slots[s] == SlotAfter(nodes, i, s, m)
    {
      if nodes[i].distQ2 != 0 {
        var angleValue := Bucket(nodes[i], m);
        BucketInRange(nodes[i], m);
        if angleValue - offset < 0 {
          offset := angleValue;
        }
        var j := 0;
        while j < m
          invariant 0 <= j <= m
          invariant forall s | 0 <= s < slotCount ::
                      slots[s] == if angleValue <= s < angleValue + j then nodes[i] else SlotAfter(nodes, i, s, m)
        {
          var index := angleValue - offset + j;
          if index >= slotCount {
            index := slotCount - 1;
          }
          slots[index] := nodes[i];
          j := j + 1;
        }
      }
      i := i + 1;
    }
  }

  // Each slot, the last one included, holds the highest-index valid sample whose bucket lies
  // in the last m slots up to it, or nothing if there is none.
  lemma {:induction false} SlotIsLastCovering(nodes: seq<Node>, n: nat, s: nat, m: nat) returns (w: int)
    requires n <= |nodes|
    ensures -1 <= w < n
    ensures SlotAfter(nodes, n, s, m) == if w < 0 then NOTHING else nodes[w]
    ensures w >= 0 ==> Covers(nodes[w], s, m)
    ensures forall k {:trigger Covers(nodes[k], s, m)} | w < k < n :: !Covers(nodes[k], s, m)
  {
    if n == 0 {
      w := -1;
    } else if Covers(nodes[n - 1], s, m) {
      w := n - 1;
    } else {
      w := SlotIsLastCovering(nodes, n - 1, s, m);
    }
  }

  // On a sorted scan that sample is the one with the greatest angle among the candidates.
  lemma {:induction false} SlotIsGreatestAngle(nodes: seq<Node>, n: nat, s: nat, m: nat)
    requires n <= |nodes| && Ascending(nodes)
    ensures forall k | 0 <= k < n && Covers(nodes[k], s, m) ::
              Valid(SlotAfter(nodes, n, s, m)) && nodes[k].angleQ14 <= SlotAfter(nodes, n, s, m).angleQ14
  {
    if n > 0 {
      SlotIsGreatestAngle(nodes, n - 1, s, m);
    }
  }

  // ---------------------------------------------------------------- publishing

  datatype Range = Infinity | Metres(value: real)

  function RangeOf(n: Node): Range
  {
    if n.distQ2 == 0 then Infinity else Metres(n.distQ2 as real / 4.0 / 1000.0)
  }

  /** A freshly resized message holds zeros. */
  function RangeFrom(nodes: seq<Node>, w: int): Range
    requires -1 <= w < |nodes|
  {
    if w < 0 then Metres(0.0) else RangeOf(nodes[w])
  }

  /** `apply_index`. */
  function Apply(i: nat, count: nat, reverse: bool, flip: bool): nat
    requires i < count
  {
    var r := if reverse then count - 1 - i else i;
    if !flip then r
    else if r >= count / 2 then r - count / 2 else r + count / 2
  }

  /** The last of the first n samples written to slot k, if any. */
  function WriterOf(k: nat, n: nat, count: nat, reverse: bool, flip: bool): int
    requires n <= count
  {
    if n == 0 then -1
    else if Apply(n - 1, count, reverse, flip) == k then n - 1
    else WriterOf(k, n - 1, count, reverse, flip)
  }

  lemma WriterStep(k: nat, i: nat, count: nat, reverse: bool, flip: bool)
    requires i < count
    ensures WriterOf(k, i + 1, count, reverse, flip) ==
              if Apply(i, count, reverse, flip) == k then i else WriterOf(k, i, count, reverse, flip)
  {
  }

  lemma {:induction false} WriterRange(k: nat, n: nat, count: nat, reverse: bool, flip: bool)
    requires n <= count
    ensures -1 <= WriterOf(k, n, count, reverse, flip) < n
    ensures WriterOf(k, n, count, reverse, flip) >= 0 ==>
              Apply(WriterOf(k, n, count, reverse, flip), count, reverse, flip) == k
    ensures forall i | 0 <= i < n && Apply(i, count, reverse, flip) == k :: i <= WriterOf(k, n, count, reverse, flip)
  {
    if n > 0 {
      WriterRange(k, n - 1, count, reverse, flip);
    }
  }

  /** Slot k after n samples, when w is the last sample written there: the range is that sample's
      own, the intensity is read at the slot's index. */
  predicate Placed(nodes: seq<Node>, k: nat, w: int, n: nat, range: Range, intensity: nat)
    requires k < |nodes| && n <= |nodes|
  {
    -1 <= w < n && range == RangeFrom(nodes, w) && intensity == if w < 0 then 0 else nodes[k].quality / 4
  }

  method PublishScan(nodes: seq<Node>, inverted: bool, reversed: bool, flip: bool)
      returns (ranges: array<Range>, intensities: array<nat>)
    ensures ranges.Length == intensities.Length == |nodes|
    ensures forall k: nat | k < |nodes| ::
              var w := WriterOf(k, |nodes|, |nodes|, inverted != reversed, flip);
              Placed(nodes, k, w, |nodes|, ranges[k], intensities[k])
  {
    var count := |nodes|;
    ranges := new Range[count](_ => Metres(0.0));
    intensities := new nat[count](_ => 0);
    var reverse := (!inverted && reversed) || (inverted && !reversed);
    var i := 0;
    while i < count
      invariant 0 <= i <= count
      invariant forall k: nat | k < count ::
                  Placed(nodes, k, WriterOf(k, i, count, reverse, flip), i, ranges[k], intensities[k])
    {
      var applyIndex := Apply(i, count, reverse, flip);
      ranges[applyIndex] := RangeOf(nodes[i]);
      intensities[applyIndex] := nodes[applyIndex].quality / 4;
      forall k: nat | k < count
        ensures Placed(nodes, k, WriterOf(k, i + 1, count, reverse, flip), i + 1, ranges[k], intensities[k])
      {
        WriterStep(k, i, count, reverse, flip);
        if k != applyIndex {
          assert Placed(nodes, k, WriterOf(k, i, count, reverse, flip), i, ranges[k], intensities[k]);
        }
      }
      i := i + 1;
    }
  }

  // Every range slot is written, exactly once, for all combinations of the two switches when
  // the number of samples is even, as it is after compensation; with the flip and an odd
  // number above one, some slot is never written.
  lemma EverySlotWritten(count: nat, reverse: bool, flip: bool)
    ensures (forall k | 0 <= k < count :: WriterOf(k, count, count, reverse, flip) >= 0)
       <==> !flip || count % 2 == 0 || count <= 1
  {
    if flip && count % 2 == 1 && count > 1 {
      WriterRange(count - 1, count, count, reverse, flip);
    } else {
      forall k: nat | k < count
        ensures WriterOf(k, count, count, reverse, flip) >= 0
      {
        var i := Source(k, count, reverse, flip);
        assert Apply(i, count, reverse, flip) == k;
        WriterRange(k, count, count, reverse, flip);
      }
    }
  }

  /** The sample that belongs in slot k. */
  function Source(k: nat, count: nat, reverse: bool, flip: bool): nat
    requires k < count
  {
    var r := if !flip then k else if k >= count - count / 2 then k - (count - count / 2) else k + count / 2;
    if reverse then count - 1 - r else r
  }

  lemma WrittenOnce(i: nat, j: nat, count: nat, reverse: bool, flip: bool)
    requires i < count && j < count
    requires !flip || count % 2 == 0
    requires Apply(i, count, reverse, flip) == Apply(j, count, reverse, flip)
    ensures i == j
  {
  }

  // Range and intensity of a slot come from the same sample in every slot exactly when the
  // remapping does nothing: intensities are read at the slot's own index.
  lemma IntensityMatchesRange(count: nat, reverse: bool, flip: bool)
    ensures (forall k | 0 <= k < count :: WriterOf(k, count, count, reverse, flip) == k)
       <==> count <= 1 || (!reverse && !flip) || (reverse && flip && count == 2)
  {
    if count > 0 {
      WriterRange(0, count, count, reverse, flip);
      if count <= 1 || (!reverse && !flip) || (reverse && flip && count == 2) {
        forall k: nat | k < count
          ensures WriterOf(k, count, count, reverse, flip) == k
        {
          assert Apply(k, count, reverse, flip) == k;
          WriterRange(k, count, count, reverse, flip);
          var w := WriterOf(k, count, count, reverse, flip);
          assert Apply(w, count, reverse, flip) == w;
        }
      } else {
        assert Apply(0, count, reverse, flip) != 0;
      }
    }
  }
}
