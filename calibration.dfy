/** The host side of the serial protocol: the two outbound command frames,
    the extraction of one anchor's raw distance from received telemetry, and
    the pooling of calibration samples per true distance. A float is the four
    bytes `struct.pack('<f', …)` produces; the serial port itself is outside
    the model, and a serial read is an input value. */
module Calibration {
  import opened Bytes

  const FRAME_HEADER: seq<byte> := [0xFF, 0xAA]
  const FRAME_TAIL: seq<byte> := [0x00, 0x00, 0x80, 0x7F, 0x00, 0x00, 0x00, 0x0A]

  /** Command bytes written after the header by the two senders. */
  const POSITION_COMMAND: byte := 0x02
  const CALIBRATION_COMMAND: byte := 0x01

  const SAMPLES_PER_DISTANCE: nat := 20

  /** The anchor-selector byte both senders derive from `int(flag)`:
      1, 2 and 3 select anchors 0, 1 and 2; every other value selects 3. */
  function Selector(flag: int): byte
  {
    if flag == 1 then 0x00
    else if flag == 2 then 0x01
    else if flag == 3 then 0x02
    else 0x03
  }

  /** The selector is always an anchor slot 0..3, targets 1..4 map one-to-one
      onto 0..3, and every value outside 1..3 falls back to slot 3. */
  lemma SelectorMapping(flag: int)
    ensures Selector(flag) <= 3
    ensures 1 <= flag <= 4 ==> Selector(flag) as int == flag - 1
    ensures !(1 <= flag <= 3) ==> Selector(flag) == 0x03
  {
  }

  /** The frame `send_position` writes. */
  function PositionFrame(x: Float32, y: Float32, flag: int): (frame: seq<byte>)
    ensures |frame| == 24
    ensures frame[..2] == FRAME_HEADER && frame[16..] == FRAME_TAIL
  {
    FRAME_HEADER + [POSITION_COMMAND, Selector(flag)] + x + y + [0x00, 0x00, 0x00, 0x00] + FRAME_TAIL
  }

  /** The frame `send_calibration_params` writes: 20 bytes, with no padding
      between the payload and the tail. */
  function CalibrationFrame(k: Float32, b: Float32, flag: int): (frame: seq<byte>)
    ensures |frame| == 20 && |frame| != 2 + 4 + 4 + 8
    ensures frame[..2] == FRAME_HEADER && frame[12..] == FRAME_TAIL
  {
    FRAME_HEADER + [CALIBRATION_COMMAND, Selector(flag)] + k + b + FRAME_TAIL
  }

  /** The offset within a frame of the distance field `parse_frame` reads. */
  function FieldOffset(flag: int): nat
  {
    if flag == 1 then 4
    else if flag == 2 then 8
    else if flag == 3 then 12
    else 16
  }

  /** `parse_frame(data, flag)`: slice from the first header to the end of
      the first tail at or after it, then take the 4 bytes of the selected
      field; a slice shorter than 4 bytes makes `struct.unpack` fail, which
      returns None. */
  function ParseFrame(data: seq<byte>, flag: int): Option<Float32>
  {
    match Find(data, FRAME_HEADER, 0)
    case None => None
    case Some(start) =>
      match Find(data, FRAME_TAIL, start)
      case None => None
      case Some(end) =>
        var frame := data[start .. end + |FRAME_TAIL|];
        var off := FieldOffset(flag);
        if off + 4 <= |frame| then Some(frame[off .. off + 4]) else None
  }

  /** Without a header there is no result. */
  lemma ParseFrameNeedsHeader(data: seq<byte>, flag: int)
    requires AbsentFrom(data, FRAME_HEADER, 0)
    ensures ParseFrame(data, flag) == None
  {
  }

  /** Without a tail at or after the first header there is no result, even
      when a tail occurs earlier in the data. */
  lemma ParseFrameNeedsTailAfterHeader(data: seq<byte>, flag: int, s: nat)
    requires FirstOccurrence(data, FRAME_HEADER, 0, s)
    requires AbsentFrom(data, FRAME_TAIL, s)
    ensures ParseFrame(data, flag) == None
  {
    FindFirst(data, FRAME_HEADER, 0, s);
  }

  /** Example: data whose only tail precedes its only header parses to
      None. */
  lemma ParseFrameIgnoresEarlierTail(flag: int)
    ensures var data := FRAME_TAIL + FRAME_HEADER + Zeros(20);
      && OccursAt(data, FRAME_TAIL, 0)
      && ParseFrame(data, flag) == None
  {
    var data := FRAME_TAIL + FRAME_HEADER + Zeros(20);
    assert FirstOccurrence(data, FRAME_HEADER, 0, 8) by {
      forall j | 0 <= j < 8 ensures !OccursAt(data, FRAME_HEADER, j) {
        assert data[j] != 0xFF;
      }
      assert data[8..10] == FRAME_HEADER;
    }
    assert AbsentFrom(data, FRAME_TAIL, 8) by {
      forall j | 8 <= j ensures !OccursAt(data, FRAME_TAIL, j) {
        if j + 8 <= |data| {
          assert data[j + 7] == 0 != FRAME_TAIL[7];
        }
      }
    }
    ParseFrameNeedsTailAfterHeader(data, flag, 8);
    assert data[..8] == FRAME_TAIL;
  }

  /** With the first header at s and the first later tail at e, the result is
      the 4 bytes at s + FieldOffset(flag), provided the frame slice
      `data[s .. e + 8]` reaches that far; otherwise None. */
  lemma ParseFrameFound(data: seq<byte>, flag: int, s: nat, e: nat)
    requires FirstOccurrence(data, FRAME_HEADER, 0, s)
    requires FirstOccurrence(data, FRAME_TAIL, s, e)
    ensures var off := FieldOffset(flag);
      ParseFrame(data, flag)
        == if s + off + 4 <= e + |FRAME_TAIL| then Some(data[s + off .. s + off + 4]) else None
  {
    FindFirst(data, FRAME_HEADER, 0, s);
    FindFirst(data, FRAME_TAIL, s, e);
    var off := FieldOffset(flag);
    if s + off + 4 <= e + |FRAME_TAIL| {
      SliceWindow(data, s, e + |FRAME_TAIL|, off, off + 4);
    }
  }

  /** The tail cannot begin inside the header, so the first field (flag 1)
      always fits: once a header and a later tail exist, the result is the
      4 bytes right after the header's two command bytes. */
  lemma ParseFrameFirstFieldAlwaysFits(data: seq<byte>, s: nat, t: nat)
    requires FirstOccurrence(data, FRAME_HEADER, 0, s)
    requires s <= t && OccursAt(data, FRAME_TAIL, t)
    ensures ParseFrame(data, 1) == Some(data[s + 4 .. s + 8])
  {
    var e := Find(data, FRAME_TAIL, s);
    assert e.Some? by { assert !AbsentFrom(data, FRAME_TAIL, s) by { assert OccursAt(data, FRAME_TAIL, t); } }
    var end := e.value;
    assert data[s .. s + 2] == FRAME_HEADER by { assert OccursAt(data, FRAME_HEADER, s); }
    assert data[end .. end + 8] == FRAME_TAIL;
    assert end != s && end != s + 1 by {
      assert data[s] == 0xFF && data[s + 1] == 0xAA;
      assert data[end] == 0x00 && data[end + 1] == 0x00;
    }
    ParseFrameFound(data, 1, s, end);
  }

  /** A frame slice that ends before the selected field gives None rather
      than an error: the `struct.error` path. */
  lemma ParseFrameShortSpan(data: seq<byte>, flag: int, s: nat, e: nat)
    requires FirstOccurrence(data, FRAME_HEADER, 0, s)
    requires FirstOccurrence(data, FRAME_TAIL, s, e)
    requires e + |FRAME_TAIL| < s + FieldOffset(flag) + 4
    ensures ParseFrame(data, flag) == None
  {
    ParseFrameFound(data, flag, s, e);
  }

  /** Example of a short span: header, then tail, then nothing, read for the
      second field. */
  lemma ParseFrameShortSpanExample()
    ensures ParseFrame(FRAME_HEADER + FRAME_TAIL, 2) == None
  {
    var data := FRAME_HEADER + FRAME_TAIL;
    assert FirstOccurrence(data, FRAME_HEADER, 0, 0) by { assert data[0..2] == FRAME_HEADER; }
    assert FirstOccurrence(data, FRAME_TAIL, 0, 2) by {
      assert data[2..10] == FRAME_TAIL;
      assert !OccursAt(data, FRAME_TAIL, 0) by { assert data[0] != 0; }
      assert !OccursAt(data, FRAME_TAIL, 1) by { assert data[1] != 0; }
    }
    ParseFrameShortSpan(data, 2, 0, 2);
  }

  /** The values of a run of read attempts that produced a measurement, in
      arrival order (a None is a read that timed out). */
  function Successes(attempts: seq<Option<Float32>>): (r: seq<Float32>)
    ensures |r| <= |attempts|
  {
    if attempts == [] then []
    else
      var last := attempts[|attempts| - 1];
      Successes(attempts[..|attempts| - 1]) + (if last.Some? then [last.value] else [])
  }

  /** Reading further only appends: the successes of a prefix are a prefix. */
  lemma {:induction false} SuccessesPrefix(attempts: seq<Option<Float32>>, p: nat)
    requires p <= |attempts|
    ensures Successes(attempts[..p]) <= Successes(attempts)
    decreases |attempts| - p
  {
    if p < |attempts| {
      SuccessesPrefix(attempts, p + 1);
      assert attempts[..p + 1][..p] == attempts[..p];
    } else {
      assert attempts[..p] == attempts;
    }
  }

  /** The inner `while` of `calibration_mode`: read until
      `SAMPLES_PER_DISTANCE` measurements have arrived. The source loops until
      then, so the attempts given must contain that many. */
  method CollectSamples(attempts: seq<Option<Float32>>) returns (measurements: seq<Float32>)
    requires |Successes(attempts)| >= SAMPLES_PER_DISTANCE
    ensures measurements == Successes(attempts)[..SAMPLES_PER_DISTANCE]
  {
    measurements := [];
    var p := 0;
    while |measurements| < SAMPLES_PER_DISTANCE
      invariant 0 <= p <= |attempts|
      invariant measurements == Successes(attempts[..p])
      invariant |measurements| <= SAMPLES_PER_DISTANCE
      decreases |attempts| - p
    {
      assert attempts[..|attempts|] == attempts;
      var measured := attempts[p];
      assert attempts[..p + 1][..p] == attempts[..p];
      if measured.Some? {
        measurements := measurements + [measured.value];
      }
      p := p + 1;
    }
    SuccessesPrefix(attempts, p);
  }

  /** The outer loop of `calibration_mode`: for each true distance, collect
      its samples and pool them with one copy of the distance per sample.
      `attempts[j]` are the read attempts made while the sensor stood at
      `actualDistances[j]`. */
  method PoolSamples(actualDistances: seq<real>, attempts: seq<seq<Option<Float32>>>)
    returns (allMeasurements: seq<Float32>, allActualDistances: seq<real>)
    requires |attempts| == |actualDistances|
    requires forall j :: 0 <= j < |attempts| ==> |Successes(attempts[j])| >= SAMPLES_PER_DISTANCE
    ensures |allMeasurements| == |allActualDistances| == SAMPLES_PER_DISTANCE * |actualDistances|
    ensures forall i :: 0 <= i < |allActualDistances| ==>
      allActualDistances[i] == actualDistances[i / SAMPLES_PER_DISTANCE]
    ensures forall i :: 0 <= i < |allMeasurements| ==>
      allMeasurements[i] == Successes(attempts[i / SAMPLES_PER_DISTANCE])[i % SAMPLES_PER_DISTANCE]
  {
    allMeasurements, allActualDistances := [], [];
    for j := 0 to |actualDistances|
      invariant |allMeasurements| == |allActualDistances| == SAMPLES_PER_DISTANCE * j
      invariant forall i :: 0 <= i < |allActualDistances| ==>
        allActualDistances[i] == actualDistances[i / SAMPLES_PER_DISTANCE]
      invariant forall i :: 0 <= i < |allMeasurements| ==>
        allMeasurements[i] == Successes(attempts[i / SAMPLES_PER_DISTANCE])[i % SAMPLES_PER_DISTANCE]
    {
      var actual := actualDistances[j];
      var measurements := CollectSamples(attempts[j]);
      allMeasurements := allMeasurements + measurements;
      allActualDistances := allActualDistances + seq(|measurements|, _ => actual);
      forall i | SAMPLES_PER_DISTANCE * j <= i < SAMPLES_PER_DISTANCE * (j + 1)
        ensures i / SAMPLES_PER_DISTANCE == j && i % SAMPLES_PER_DISTANCE == i - SAMPLES_PER_DISTANCE * j
      {
      }
    }
  }
}
