/** The double-buffered scan holder of the LiDAR driver (ScanDataHolder in sl_lidar_driver.cpp):
    samples are pushed one by one, cut into scans at the samples that carry the sync bit, and
    the last finished scan is handed to a consumer.

    `Segments` says, on the whole history of pushes and rewinds, what has been cut so far. */
module ScanHolder {

  import opened Options
  import opened ScanNode

  /** A sample with its timestamp. */
  datatype Sample = Sample(ts: nat, node: Node)

  datatype Event = Push(sample: Sample) | Rewind

  // ---------------------------------------------------------------- segmentation

  /** The scan being collected and the last one finished, as uncapped lists of samples. */
  datatype Cut = Cut(current: seq<Sample>, closed: Option<seq<Sample>>, count: nat)

  function Segments(h: seq<Event>): Cut
  {
    if h == [] then Cut([], None, 0)
    else Extend(Segments(h[..|h| - 1]), h[|h| - 1])
  }

  function Extend(c: Cut, e: Event): Cut
  {
    match e
    case Rewind => c.(current := [])
    case Push(s) =>
      if !Sync(s.node) then if c.current == [] then c else c.(current := c.current + [s])
      else if c.current == [] then c.(current := [s])
      else Cut([s], Some(c.current), c.count + 1)
  }

  /** The samples of the pushes from i to j. */
  function Pushed(h: seq<Event>, i: nat, j: nat): seq<Sample>
    requires i <= j <= |h| && forall k | i <= k < j :: h[k].Push?
  {
    seq(j - i, k requires 0 <= k < j - i => h[i + k].sample)
  }

  /** A stretch of the history that starts with a sync sample and goes on without another one
      and without a rewind. */
  ghost predicate OneTurn(h: seq<Event>, i: nat, j: nat)
  {
    && i < j <= |h| && h[i].Push? && Sync(h[i].sample.node)
    && forall k | i < k < j :: h[k].Push? && !Sync(h[k].sample.node)
  }

  /** A turn that the sync sample at j ends. */
  ghost predicate ClosedTurn(h: seq<Event>, i: nat, j: nat)
  {
    OneTurn(h, i, j) && j < |h| && h[j].Push? && Sync(h[j].sample.node)
  }

  lemma SegmentsSnoc(h: seq<Event>, e: Event)
    ensures Segments(h + [e]) == Extend(Segments(h), e)
  {
    assert (h + [e])[..|h|] == h;
  }

  // The scan being collected is the turn that reaches up to now.
  lemma {:induction false} CurrentIsTurn(h: seq<Event>)
    ensures forall i: nat | OneTurn(h, i, |h|) :: Segments(h).current == Pushed(h, i, |h|)
    ensures Segments(h).current != [] ==> exists i: nat :: OneTurn(h, i, |h|)
    ensures forall k | 0 <= k < |Segments(h).current| :: Sync(Segments(h).current[k].node) == (k == 0)
  {
    if h != [] {
      var p := h[..|h| - 1];
      CurrentIsTurn(p);
      forall i: nat | OneTurn(h, i, |h|)
        ensures Segments(h).current == Pushed(h, i, |h|)
      {
        if i < |h| - 1 {
          assert OneTurn(p, i, |p|);
          assert Pushed(h, i, |h|) == Pushed(p, i, |p|) + [h[|h| - 1].sample];
        }
      }
      if Segments(h).current != [] {
        if Sync(h[|h| - 1].sample.node) {
          assert OneTurn(h, |h| - 1, |h|);
        } else {
          var i: nat :| OneTurn(p, i, |p|);
          assert OneTurn(h, i, |h|);
        }
      }
    }
  }

  /** The last of the turns ended so far. */
  ghost predicate LastClosed(h: seq<Event>, i: nat, j: nat)
  {
    ClosedTurn(h, i, j) && forall k: nat, l: nat | ClosedTurn(h, k, l) :: l <= j
  }

  lemma TurnsOfPrefix(h: seq<Event>, p: seq<Event>, i: nat, j: nat)
    requires p <= h && j < |p|
    ensures ClosedTurn(h, i, j) == ClosedTurn(p, i, j)
    ensures ClosedTurn(h, i, j) ==> Pushed(h, i, j) == Pushed(p, i, j)
  {
  }

  // A turn ends with the last event exactly when that is a sync sample and a scan was being
  // collected.
  lemma TurnEndsNow(p: seq<Event>, e: Event, i: nat)
    ensures ClosedTurn(p + [e], i, |p|) <==> OneTurn(p, i, |p|) && e.Push? && Sync(e.sample.node)
    ensures ClosedTurn(p + [e], i, |p|) ==> Pushed(p + [e], i, |p|) == Pushed(p, i, |p|) == Segments(p).current
  {
    CurrentIsTurn(p);
    var h := p + [e];
    assert forall k | 0 <= k < |p| :: h[k] == p[k];
  }

  // The finished scan is the last turn ended by a sync sample, in the history's own terms.
  lemma {:induction false} ClosedIsLastTurn(h: seq<Event>, i: nat, j: nat)
    requires LastClosed(h, i, j)
    ensures Segments(h).closed == Some(Pushed(h, i, j))
  {
    var p, e := h[..|h| - 1], h[|h| - 1];
    assert h == p + [e];
    CurrentIsTurn(p);
    if j == |p| {
      TurnEndsNow(p, e, i);
    } else {
      TurnsOfPrefix(h, p, i, j);
      if e.Push? && Sync(e.sample.node) && Segments(p).current != [] {
        var k: nat :| OneTurn(p, k, |p|);
        TurnEndsNow(p, e, k);
      } else {
        forall k: nat, l: nat | ClosedTurn(p, k, l)
          ensures l <= j
        {
          TurnsOfPrefix(h, p, k, l);
        }
        ClosedIsLastTurn(p, i, j);
      }
    }
  }

  // Before any turn has ended there is no finished scan.
  lemma {:induction false} NoTurnNoScan(h: seq<Event>)
    requires forall i: nat, j: nat :: !ClosedTurn(h, i, j)
    ensures Segments(h).closed == None
  {
    if h != [] {
      var p, e := h[..|h| - 1], h[|h| - 1];
      assert h == p + [e];
      CurrentIsTurn(p);
      if Segments(p).current != [] {
        var k: nat :| OneTurn(p, k, |p|);
        TurnEndsNow(p, e, k);
      }
      forall i: nat, j: nat
        ensures !ClosedTurn(p, i, j)
      {
        if ClosedTurn(p, i, j) {
          TurnsOfPrefix(h, p, i, j);
        }
      }
      NoTurnNoScan(p);
    }
  }

  // The count of finished scans counts turns: it grows by one with an event that ends a turn
  // and with no other.
  lemma CountsTurns(p: seq<Event>, e: Event)
    ensures Segments(p + [e]).count == Segments(p).count + if EndsTurn(p + [e]) then 1 else 0
  {
    var h := p + [e];
    SegmentsSnoc(p, e);
    CurrentIsTurn(p);
    if EndsTurn(h) {
      var i: nat, j: nat :| ClosedTurn(h, i, j) && j == |h| - 1;
      TurnEndsNow(p, e, i);
      assert Pushed(p, i, |p|) != [];
    }
    if Segments(p).current != [] && e.Push? && Sync(e.sample.node) {
      var i: nat :| OneTurn(p, i, |p|);
      TurnEndsNow(p, e, i);
      assert ClosedTurn(h, i, |p|);
    }
  }

  /** The last event is the sync sample that ends a turn. */
  ghost predicate EndsTurn(h: seq<Event>)
  {
    exists i: nat, j: nat :: ClosedTurn(h, i, j) && j == |h| - 1
  }

  // In terms of the flag: a sample with its lowest bit set, others without it, and one with it
  // again make one scan of all but the last.
  lemma {:induction false} TurnByFlags(first: Sample, others: seq<Sample>, last: Sample)
    requires first.node.flag % 2 == 1 && last.node.flag % 2 == 1
    requires forall i | 0 <= i < |others| :: others[i].node.flag % 2 == 0
    ensures var c := Segments([Push(first)] + Pushes(others));
            c.current == [first] + others && c.closed == None && c.count == 0
    ensures var c := Segments([Push(first)] + Pushes(others) + [Push(last)]);
            c.current == [last] && c.closed == Some([first] + others) && c.count == 1
  {
    var h := [Push(first)] + Pushes(others);
    if others == [] {
      assert h == [] + [Push(first)];
      SegmentsSnoc([], Push(first));
      assert [first] + others == [first];
    } else {
      var n := |others| - 1;
      TurnByFlags(first, others[..n], last);
      assert h == [Push(first)] + Pushes(others[..n]) + [Push(others[n])];
      SegmentsSnoc([Push(first)] + Pushes(others[..n]), Push(others[n]));
      assert [first] + others[..n] + [others[n]] == [first] + others;
    }
    SegmentsSnoc(h, Push(last));
  }

  function Pushes(s: seq<Sample>): (h: seq<Event>)
    ensures |h| == |s|
  {
    seq(|s|, i requires 0 <= i < |s| => Push(s[i]))
  }

  // Once there is a finished scan there is one, whatever is pushed or rewound: a consumer that
  // was signalled may take the lock at any later time before a reset.
  lemma {:induction false} ClosedStays(h: seq<Event>, more: seq<Event>)
    requires Segments(h).closed.Some?
    ensures Segments(h + more).closed.Some?
    decreases |more|
  {
    if more == [] {
      assert h + more == h;
    } else {
      var n := |more| - 1;
      ClosedStays(h, more[..n]);
      assert h + more == h + more[..n] + [more[n]];
      SegmentsSnoc(h + more[..n], more[n]);
    }
  }

  // A finished scan has its sync sample first and no other.
  lemma {:induction false} ClosedShape(h: seq<Event>)
    ensures Segments(h).closed.Some? ==> Segments(h).closed.value != []
    ensures Segments(h).closed.Some? ==>
              forall k | 0 <= k < |Segments(h).closed.value| :: Sync(Segments(h).closed.value[k].node) == (k == 0)
  {
    if h != [] {
      ClosedShape(h[..|h| - 1]);
      CurrentIsTurn(h[..|h| - 1]);
    }
  }

  /** What a buffer of n entries keeps of a scan: its first n-1 samples and the latest one. */
  function Capped(seg: seq<Sample>, n: nat): seq<Sample>
    requires n > 0
  {
    if |seg| <= n then seg else seg[..n - 1] + [seg[|seg| - 1]]
  }

  function Nodes(seg: seq<Sample>): seq<Node>
  {
    seq(|seg|, k requires 0 <= k < |seg| => seg[k].node)
  }

  // What the consumer sees starts with the sync sample and has no other, unless the buffer
  // has room for one sample only and the scan had more.
  lemma PublishedShape(h: seq<Event>, n: nat)
    requires n > 0 && Segments(h).closed.Some?
    ensures var seg := Segments(h).closed.value;
            var nodes := Nodes(Capped(seg, n));
            && 1 <= |nodes| <= n
            && (|seg| <= n ==> |nodes| == |seg|) && (|seg| > n ==> |nodes| == n)
            && (forall k | 0 <= k < |nodes| - 1 :: nodes[k] == seg[k].node)
            && nodes[|nodes| - 1] == seg[|seg| - 1].node
            && ((forall k | 0 <= k < |nodes| :: Sync(nodes[k]) == (k == 0)) <==> n > 1 || |seg| == 1)
  {
    ClosedShape(h);
    var seg := Segments(h).closed.value;
    if n == 1 && |seg| > 1 {
      assert Nodes(Capped(seg, n))[0] == seg[|seg| - 1].node;
    }
  }

  // ---------------------------------------------------------------- the holder

  class ScanDataHolder {
    const bufferSize: nat
    const scanBuffer: array<seq<Node>>    // _scanbuffer[2]
    const beginTs: array<nat>             // _scan_begin_timestamp_uS[2]
    var availableId: int                  // -1 until a scan has been finished
    var newScanReady: bool
    var signalled: bool                   // _data_waiter
    ghost var history: seq<Event>         // since construction or the last reset

    function OperationId(): nat
      requires -1 <= availableId <= 1
      reads this
    {
      if availableId < 0 then 0 else 1 - availableId
    }

    ghost predicate Valid()
      reads this, scanBuffer, beginTs
    {
      && bufferSize > 0 && scanBuffer.Length == 2 && beginTs.Length == 2 && -1 <= availableId <= 1
      && var c := Segments(history);
      && scanBuffer[OperationId()] == Nodes(Capped(c.current, bufferSize))
      && (c.current != [] ==> beginTs[OperationId()] == c.current[0].ts)
      && (availableId < 0 <==> c.closed.None?)
      && (availableId >= 0 ==>
            && scanBuffer[availableId] == Nodes(Capped(c.closed.value, bufferSize))
            && c.closed.value != [] && beginTs[availableId] == c.closed.value[0].ts)
      && (availableId < 0 ==> !signalled && !newScanReady)
    }

    constructor (maxCount: nat)
      requires maxCount > 0
      ensures Valid() && bufferSize == maxCount && history == [] && !signalled && !newScanReady
      ensures fresh(scanBuffer) && fresh(beginTs)
    {
      bufferSize := maxCount;
      scanBuffer := new seq<Node>[2](_ => []);
      beginTs := new nat[2](_ => 0);
      availableId, newScanReady, signalled := -1, false, false;
      history := [];
    }

    method Reset()
      requires Valid()
      modifies this, scanBuffer, beginTs
      ensures Valid() && history == [] && !signalled && !newScanReady && availableId < 0
    {
      availableId, newScanReady, signalled := -1, false, false;
      scanBuffer[0], scanBuffer[1] := [], [];
      beginTs[0], beginTs[1] := 0, 0;
      history := [];
    }

    method PushScanNodeData(ts: nat, node: Node)
      requires Valid()
      modifies this, scanBuffer, beginTs
      ensures Valid() && history == old(history) + [Push(Sample(ts, node))]
      // the buffer a consumer may be reading is not written: it stays, or the finished
      // collecting buffer, as it was, takes its role
      ensures availableId == old(availableId) && availableId >= 0 ==>
                scanBuffer[availableId] == old(scanBuffer[availableId])
      ensures availableId != old(availableId) ==>
                availableId == old(OperationId()) && scanBuffer[availableId] == old(scanBuffer[OperationId()])
      // a scan is announced, in both ways, exactly when the sample ends a turn
      ensures signalled == (old(signalled) || EndsTurn(history))
      ensures newScanReady == (old(newScanReady) || EndsTurn(history))
    {
      SegmentsSnoc(history, Push(Sample(ts, node)));
      CountsTurns(history, Push(Sample(ts, node)));
      ghost var c := Segments(history);
      history := history + [Push(Sample(ts, node))];
      var op := OperationId();
      if Sync(node) {
        if |scanBuffer[op]| != 0 {
          op := FinishCurrentScanAndSwap();
          newScanReady := true;
          signalled := true;
        }
        beginTs[op] := ts;
      } else {
        if |scanBuffer[op]| == 0 {
          return;
        }
      }
      if |scanBuffer[op]| >= bufferSize {
        scanBuffer[op] := scanBuffer[op][|scanBuffer[op]| - 1 := node];
      } else {
        scanBuffer[op] := scanBuffer[op] + [node];
      }
    }

    /** `checkNewScanSignalAndReset`: whether a scan was finished since the last look. */
    method CheckNewScanSignalAndReset() returns (ready: bool)
      requires Valid()
      modifies this`newScanReady
      ensures Valid() && ready == old(newScanReady) && !newScanReady
    {
      ready := newScanReady;
      newScanReady := false;
    }

    method FinishCurrentScanAndSwap() returns (newOp: nat)
      requires -1 <= availableId <= 1 && scanBuffer.Length == 2
      modifies this`availableId, scanBuffer
      ensures availableId == old(OperationId()) && newOp == 1 - availableId
      ensures scanBuffer[newOp] == [] && scanBuffer[availableId] == old(scanBuffer[OperationId()])
    {
      availableId := OperationId();
      newOp := 1 - availableId;
      scanBuffer[newOp] := [];
    }

    method RewindCurrentScanData()
      requires Valid()
      modifies this`history, scanBuffer
      ensures Valid() && history == old(history) + [Rewind]
      ensures availableId >= 0 ==> scanBuffer[availableId] == old(scanBuffer[availableId])
    {
      SegmentsSnoc(history, Rewind);
      history := history + [Rewind];
      scanBuffer[OperationId()] := [];
    }

    /** The wait for the data event, which it consumes; a push may follow before the lock. */
    method WaitSignal() returns (ok: bool)
      requires Valid()
      modifies this`signalled
      ensures Valid() && !signalled && ok == old(signalled)
      ensures ok ==> Segments(history).closed.Some?
    {
      ok := signalled;
      signalled := false;
    }

    /** Under the lock: the scan finished last by then, cut to what the consumer has room for,
        with its timestamp. */
    method LockAndCopy(count: nat) returns (nodes: seq<Node>, ts: nat)
      requires Valid() && Segments(history).closed.Some?
      modifies this`newScanReady
      ensures Valid() && !newScanReady
      ensures var seg := Segments(history).closed.value;
              var all := Nodes(Capped(seg, bufferSize));
              && nodes == (if count < |all| then all[..count] else all)
              && seg != [] && ts == seg[0].ts
    {
      newScanReady := false;
      var scan := scanBuffer[availableId];
      var n := if count < |scan| then count else |scan|;
      return scan[..n], beginTs[availableId];
    }

    /** `grabScanDataHqWithTimeStamp` when nothing comes between wait and lock. */
    method GrabScan(count: nat) returns (r: Option<(seq<Node>, nat)>)
      requires Valid()
      modifies this`signalled, this`newScanReady
      ensures Valid() && !signalled
      ensures r.Some? <==> old(signalled)
      ensures r.Some? ==>
                && Segments(history).closed.Some?
                && var seg := Segments(history).closed.value;
                && var nodes := Nodes(Capped(seg, bufferSize));
                && r.value.0 == (if count < |nodes| then nodes[..count] else nodes)
                && seg != [] && r.value.1 == seg[0].ts
    {
      var ok := WaitSignal();
      if !ok {
        return None;
      }
      var nodes, ts := LockAndCopy(count);
      return Some((nodes, ts));
    }
  }
}
