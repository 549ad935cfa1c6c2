/** Board-wide constants and the position record shared by the firmware's
    driver and its telemetry frame. */
module UwbConfig {
  import opened Bytes

  /** Number of anchor slots in every per-anchor array and frame field. */
  const MAX_ANCHOR_NUM: nat := 8

  /** A position (x, y, z); each coordinate is an opaque float. */
  datatype Position = Position(x: Float32, y: Float32, z: Float32)

  /** The 12 bytes of a `Position` struct in memory: x, then y, then z. */
  function PositionBytes(p: Position): (b: seq<byte>)
    ensures |b| == 12
  {
    p.x + p.y + p.z
  }
}
