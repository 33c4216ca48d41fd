/** One LiDAR sample (sl_lidar_response_measurement_node_hq_t) and its angle in degrees. */
module ScanNode {

  type u16 = x: nat | x < 0x1_0000

  datatype Node = Node(angleQ14: u16, distQ2: nat, quality: nat, flag: nat)

  /** RPLIDAR_RESP_HQ_FLAG_SYNCBIT is bit 0 of the flag. */
  predicate Sync(n: Node) { n.flag % 2 == 1 }

  /** `getAngle` of an angle field. */
  function Degrees(q: u16): real
  {
    q as real * 90.0 / 16384.0
  }

  /** `setAngle`: truncated to an integer, then narrowed to the 16-bit field, so that 360
      degrees becomes 0. */
  function FromDegrees(v: real): u16
    requires v >= 0.0
  {
    (v * 16384.0 / 90.0).Floor % 0x1_0000
  }

  lemma DegreesMonotone(p: u16, q: u16)
    requires p <= q
    ensures Degrees(p) <= Degrees(q)
  {
  }

  // Writing back an angle just read changes nothing.
  lemma DegreesRoundTrip(q: u16)
    ensures 0.0 <= Degrees(q) < 360.0
    ensures FromDegrees(Degrees(q)) == q
  {
    assert Degrees(q) * 16384.0 / 90.0 == q as real;
  }
}
