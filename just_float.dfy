/** The two wire layouts of the firmware's serial protocol: the 128-byte
    `JustFloatFrame` telemetry frame it sends, and the 24-byte `CommandFrame`
    it overlays on the bytes it receives. Neither struct is declared packed,
    but neither needs padding: every float field starts at a multiple of 4
    (4, 36, 68 and 100 in the telemetry frame, 4 in the command frame), and
    both sizes, 128 and 24, are multiples of 4. */
module JustFloat {
  import opened Bytes
  import opened UwbConfig

  const HEADER_BYTES: seq<byte> := [0xFF, 0xAA]
  /** Only the first half of the eight-byte frame tail. */
  const TAIL_BYTES: seq<byte> := [0x00, 0x00, 0x80, 0x7F]

  /** Default initialisers of the struct fields. */
  const DEFAULT_HEADER: seq<byte> := [0xFF, 0xAA]
  const DEFAULT_COMMAND: seq<byte> := [0x01, 0x01]
  const DEFAULT_TAIL: seq<byte> := [0x00, 0x00, 0x80, 0x7F, 0x00, 0x00, 0x00, NEWLINE]

  const COMMAND_SET_KB: byte := 0x01
  const COMMAND_SET_POSITION: byte := 0x02

  /** Byte offsets of the `JustFloatFrame` fields. */
  const ORIGINAL_OFFSET: nat := 4
  const CALIBRATED_OFFSET: nat := 36
  const RX_POWER_OFFSET: nat := 68
  const POSITION_OFFSET: nat := 100
  const ACTIVATE_OFFSET: nat := 112
  const TAIL_OFFSET: nat := 120
  const JUST_FLOAT_FRAME_SIZE: nat := 128

  /** `sizeof(CommandFrame)`. */
  const COMMAND_FRAME_SIZE: nat := 24

  datatype JustFloatFrame = JustFloatFrame(
    header: seq<byte>,
    command: seq<byte>,
    originalDistances: seq<Float32>,
    calibratedDistances: seq<Float32>,
    rxPower: seq<Float32>,
    position: Position,
    isActivate: seq<byte>,
    tail: seq<byte>)

  /** Every array field has the length its C declaration gives it. */
  predicate WellFormed(f: JustFloatFrame)
  {
    && |f.header| == 2
    && |f.command| == 2
    && |f.originalDistances| == MAX_ANCHOR_NUM
    && |f.calibratedDistances| == MAX_ANCHOR_NUM
    && |f.rxPower| == MAX_ANCHOR_NUM
    && |f.isActivate| == 8
    && |f.tail| == 8
  }

  /** The bytes `Serial.write((char*)&frame, sizeof(frame))` sends. */
  function EncodeTelemetry(f: JustFloatFrame): (b: seq<byte>)
    requires WellFormed(f)
    ensures |b| == JUST_FLOAT_FRAME_SIZE
  {
    f.header + f.command + Flatten(f.originalDistances) + Flatten(f.calibratedDistances)
      + Flatten(f.rxPower) + PositionBytes(f.position) + f.isActivate + f.tail
  }

  /** Reading a 128-byte block as a `JustFloatFrame`. */
  function DecodeTelemetry(b: seq<byte>): (f: JustFloatFrame)
    requires |b| == JUST_FLOAT_FRAME_SIZE
    ensures WellFormed(f)
  {
    JustFloatFrame(
      b[0..2], b[2..4],
      Unflatten(b[ORIGINAL_OFFSET .. CALIBRATED_OFFSET]),
      Unflatten(b[CALIBRATED_OFFSET .. RX_POWER_OFFSET]),
      Unflatten(b[RX_POWER_OFFSET .. POSITION_OFFSET]),
      Position(b[100..104], b[104..108], b[108..112]),
      b[ACTIVATE_OFFSET .. TAIL_OFFSET],
      b[TAIL_OFFSET .. JUST_FLOAT_FRAME_SIZE])
  }

  /** The telemetry frame's byte segments, field by field. */
  lemma TelemetrySegments(f: JustFloatFrame)
    requires WellFormed(f)
    ensures var b := EncodeTelemetry(f);
      && b[0..2] == f.header
      && b[2..4] == f.command
      && b[ORIGINAL_OFFSET .. CALIBRATED_OFFSET] == Flatten(f.originalDistances)
      && b[CALIBRATED_OFFSET .. RX_POWER_OFFSET] == Flatten(f.calibratedDistances)
      && b[RX_POWER_OFFSET .. POSITION_OFFSET] == Flatten(f.rxPower)
      && b[POSITION_OFFSET .. ACTIVATE_OFFSET] == PositionBytes(f.position)
      && b[ACTIVATE_OFFSET .. TAIL_OFFSET] == f.isActivate
      && b[TAIL_OFFSET ..] == f.tail
  {
  }

  /** Field offsets of the telemetry frame: original distance i at 4 + 4i,
      calibrated distance i at 36 + 4i, receive power i at 68 + 4i, the
      position at 100-111, activity flag i at 112 + i, the tail at 120-127. */
  lemma TelemetryLayout(f: JustFloatFrame, i: nat)
    requires WellFormed(f) && i < MAX_ANCHOR_NUM
    ensures var b := EncodeTelemetry(f);
      && b[ORIGINAL_OFFSET + 4 * i .. ORIGINAL_OFFSET + 4 * i + 4] == f.originalDistances[i]
      && b[CALIBRATED_OFFSET + 4 * i .. CALIBRATED_OFFSET + 4 * i + 4] == f.calibratedDistances[i]
      && b[RX_POWER_OFFSET + 4 * i .. RX_POWER_OFFSET + 4 * i + 4] == f.rxPower[i]
      && b[100..104] == f.position.x && b[104..108] == f.position.y && b[108..112] == f.position.z
      && b[ACTIVATE_OFFSET + i] == f.isActivate[i]
      && b[TAIL_OFFSET ..] == f.tail
  {
    var b := EncodeTelemetry(f);
    TelemetrySegments(f);
    FlattenAt(f.originalDistances, i);
    FlattenAt(f.calibratedDistances, i);
    FlattenAt(f.rxPower, i);
    assert b[ORIGINAL_OFFSET + 4 * i .. ORIGINAL_OFFSET + 4 * i + 4]
        == b[ORIGINAL_OFFSET .. CALIBRATED_OFFSET][4 * i .. 4 * i + 4];
    assert b[CALIBRATED_OFFSET + 4 * i .. CALIBRATED_OFFSET + 4 * i + 4]
        == b[CALIBRATED_OFFSET .. RX_POWER_OFFSET][4 * i .. 4 * i + 4];
    assert b[RX_POWER_OFFSET + 4 * i .. RX_POWER_OFFSET + 4 * i + 4]
        == b[RX_POWER_OFFSET .. POSITION_OFFSET][4 * i .. 4 * i + 4];
    assert b[100..104] == b[POSITION_OFFSET .. ACTIVATE_OFFSET][0..4];
    assert b[104..108] == b[POSITION_OFFSET .. ACTIVATE_OFFSET][4..8];
    assert b[108..112] == b[POSITION_OFFSET .. ACTIVATE_OFFSET][8..12];
    assert b[ACTIVATE_OFFSET + i] == b[ACTIVATE_OFFSET .. TAIL_OFFSET][i];
  }

  lemma TelemetryDecodeEncode(f: JustFloatFrame)
    requires WellFormed(f)
    ensures DecodeTelemetry(EncodeTelemetry(f)) == f
  {
    var b := EncodeTelemetry(f);
    TelemetrySegments(f);
    UnflattenFlatten(f.originalDistances);
    UnflattenFlatten(f.calibratedDistances);
    UnflattenFlatten(f.rxPower);
    TelemetryLayout(f, 0);
  }

  lemma TelemetryEncodeDecode(b: seq<byte>)
    requires |b| == JUST_FLOAT_FRAME_SIZE
    ensures EncodeTelemetry(DecodeTelemetry(b)) == b
  {
    FlattenUnflatten(b[ORIGINAL_OFFSET .. CALIBRATED_OFFSET]);
    FlattenUnflatten(b[CALIBRATED_OFFSET .. RX_POWER_OFFSET]);
    FlattenUnflatten(b[RX_POWER_OFFSET .. POSITION_OFFSET]);
    assert b == b[0..2] + b[2..4] + b[ORIGINAL_OFFSET .. CALIBRATED_OFFSET]
      + b[CALIBRATED_OFFSET .. RX_POWER_OFFSET] + b[RX_POWER_OFFSET .. POSITION_OFFSET]
      + (b[100..104] + b[104..108] + b[108..112]) + b[ACTIVATE_OFFSET .. TAIL_OFFSET]
      + b[TAIL_OFFSET .. JUST_FLOAT_FRAME_SIZE];
  }

  /** The command frame the firmware overlays on received bytes. */
  datatype CommandFrame = CommandFrame(
    header: seq<byte>,
    command: byte,
    anchorNum: byte,
    data: seq<Float32>,
    tail: seq<byte>)

  predicate CommandWellFormed(f: CommandFrame)
  {
    |f.header| == 2 && |f.data| == 3 && |f.tail| == 8
  }

  /** The memory image of a `CommandFrame`. */
  function EncodeCommand(f: CommandFrame): (b: seq<byte>)
    requires CommandWellFormed(f)
    ensures |b| == COMMAND_FRAME_SIZE
  {
    f.header + [f.command, f.anchorNum] + Flatten(f.data) + f.tail
  }

  /** `memcpy(&frame, buffer, sizeof(frame))`: header at 0-1, command at 2,
      anchor number at 3, data j at 4 + 4j, tail at 16-23. */
  function DecodeCommand(b: seq<byte>): (f: CommandFrame)
    requires |b| == COMMAND_FRAME_SIZE
    ensures CommandWellFormed(f)
  {
    CommandFrame(b[0..2], b[2], b[3], Unflatten(b[4..16]), b[16..24])
  }

  lemma CommandDecodeEncode(f: CommandFrame)
    requires CommandWellFormed(f)
    ensures DecodeCommand(EncodeCommand(f)) == f
  {
    var b := EncodeCommand(f);
    assert b[4..16] == Flatten(f.data);
    UnflattenFlatten(f.data);
    assert b[0..2] == f.header;
    assert b[16..24] == f.tail;
  }

  lemma CommandEncodeDecode(b: seq<byte>)
    requires |b| == COMMAND_FRAME_SIZE
    ensures EncodeCommand(DecodeCommand(b)) == b
  {
    FlattenUnflatten(b[4..16]);
    assert b == b[0..2] + [b[2], b[3]] + b[4..16] + b[16..24];
  }

  /** Header, command and tail constants as the protocol fixes them. */
  lemma ProtocolConstants()
    ensures DEFAULT_HEADER == HEADER_BYTES
    ensures TAIL_BYTES == DEFAULT_TAIL[..4] && TAIL_BYTES != DEFAULT_TAIL
    ensures DEFAULT_TAIL[|DEFAULT_TAIL| - 1] == NEWLINE
    ensures COMMAND_SET_KB != COMMAND_SET_POSITION
    ensures JUST_FLOAT_FRAME_SIZE == 2 + 2 + 3 * (4 * MAX_ANCHOR_NUM) + 12 + 8 + 8
    ensures COMMAND_FRAME_SIZE == 2 + 1 + 1 + 3 * 4 + 8
  {
  }
}
