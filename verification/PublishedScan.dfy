/** Where each sample ends up in the published message (rplidar_node.cpp), in whole numbers. */
module PublishedScan {

  import opened ScanNode
  import opened AscendScan
  import opened ScanPublish
  import opened Scaling

  // ---------------------------------------------------------------- compensation

  /** The sample has a distance and its angle, of 65536 to the circle, lies in the last m of the
      360 * m sectors up to and including sector s. */
  predicate Reaches(n: Node, s: nat, m: nat)
  {
    n.distQ2 != 0 && (s + 1 - m) * 16384 <= n.angleQ14 * 90 * m < (s + 1) * 16384
  }

  lemma BucketIs(n: Node, m: nat)
    ensures Bucket(n, m) * 16384 <= n.angleQ14 * 90 * m < (Bucket(n, m) + 1) * 16384
  {
    var x := Degrees(n.angleQ14) * m as real;
    assert x * 16384.0 == (n.angleQ14 * 90 * m) as real by {
      assert Degrees(n.angleQ14) * 16384.0 == (n.angleQ14 * 90) as real;
      assert (n.angleQ14 * 90) as real * m as real == (n.angleQ14 * 90 * m) as real;
    }
    assert x.Floor as real <= x < x.Floor as real + 1.0;
  }

  lemma CoversMeans(n: Node, s: nat, m: nat)
    ensures Covers(n, s, m) <==> Reaches(n, s, m)
  {
    BucketIs(n, m);
  }

  // A slot of the compensated scan holds the last sample that reaches it; if none does, it holds
  // no distance and no quality.
  lemma SlotHolds(nodes: seq<Node>, s: nat, m: nat) returns (w: int)
    ensures -1 <= w < |nodes|
    ensures w >= 0 ==> SlotAfter(nodes, |nodes|, s, m) == nodes[w] && Reaches(nodes[w], s, m)
    ensures w < 0 ==> SlotAfter(nodes, |nodes|, s, m) == Node(0, 0, 0, 0)
    ensures forall k | w < k < |nodes| :: !Reaches(nodes[k], s, m)
  {
    w := SlotIsLastCovering(nodes, |nodes|, s, m);
    if w >= 0 {
      CoversMeans(nodes[w], s, m);
    }
    forall k | w < k < |nodes|
      ensures !Reaches(nodes[k], s, m)
    {
      CoversMeans(nodes[k], s, m);
    }
  }

  // ---------------------------------------------------------------- publishing

  /** The place of sample i of an even number: from the other end if mirrored, and half-way round
      if flipped. */
  function Place(i: nat, count: nat, mirrored: bool, flip: bool): (p: nat)
    requires i < count
    ensures p < count
  {
    ((if mirrored then count - 1 - i else i) + if flip then count / 2 else 0) % count
  }

  lemma PlaceIsApply(i: nat, count: nat, mirrored: bool, flip: bool)
    requires i < count && (flip ==> count % 2 == 0)
    ensures Place(i, count, mirrored, flip) == Apply(i, count, mirrored, flip)
  {
    var r := if mirrored then count - 1 - i else i;
    if flip {
      HalfWay(r, count / 2, count);
    } else {
      Within(r + 0, count);
    }
  }

  lemma HalfWay(r: nat, h: nat, count: nat)
    requires r < count == h + h
    ensures (r + h) % count == if r >= h then r - h else r + h
  {
    if r < h {
      Within(r + h, count);
    } else {
      assert r + h == count + (r - h);
      Within(r - h, count);
    }
  }

  lemma Within(r: nat, count: nat)
    requires r < count
    ensures r % count == r && (count + r) % count == r
  {
    assert count + r == count * 1 + r;
  }

  /** Metres for quarters of a millimetre; infinite without a distance. */
  predicate RangeIs(range: Range, distQ2: nat)
  {
    if distQ2 == 0 then range.Infinity? else range.Metres? && range.value * 4000.0 == distQ2 as real
  }

  lemma RangeOfIs(n: Node)
    ensures RangeIs(RangeOf(n), n.distQ2)
  {
  }

  /** A message as `PublishScan` leaves it. */
  ghost predicate Published(nodes: seq<Node>, mirrored: bool, flip: bool, ranges: seq<Range>, intensities: seq<nat>)
  {
    && |ranges| == |intensities| == |nodes|
    && forall k: nat | k < |nodes| ::
         Placed(nodes, k, WriterOf(k, |nodes|, |nodes|, mirrored, flip), |nodes|, ranges[k], intensities[k])
  }

  // Each sample's distance is published at its place, in metres, and with it a quarter of the
  // quality of the sample that stood there before.
  lemma SampleIsAtItsPlace(nodes: seq<Node>, mirrored: bool, flip: bool, ranges: seq<Range>, intensities: seq<nat>,
                           i: nat)
    requires Published(nodes, mirrored, flip, ranges, intensities)
    requires i < |nodes| && (flip ==> |nodes| % 2 == 0)
    ensures var p := Place(i, |nodes|, mirrored, flip);
            RangeIs(ranges[p], nodes[i].distQ2) && 4 * intensities[p] <= nodes[p].quality < 4 * intensities[p] + 4
  {
    var count, p := |nodes|, Place(i, |nodes|, mirrored, flip);
    PlaceIsApply(i, count, mirrored, flip);
    WriterRange(p, count, count, mirrored, flip);
    var w := WriterOf(p, count, count, mirrored, flip);
    WrittenOnce(i, w, count, mirrored, flip);
    assert Placed(nodes, p, w, count, ranges[p], intensities[p]);
    RangeOfIs(nodes[i]);
  }
}
