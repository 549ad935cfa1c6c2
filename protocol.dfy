/** What the host and the firmware agree on: the host's frames land in the
    firmware's `CommandFrame` fields, and the host's field extraction reads
    the firmware's original distances. Each statement is about one pass of a
    serial task body, as it runs once the serial tasks are started; the
    firmware's `setup` as it stands does not start them. */
module Protocol {
  import opened Bytes
  import opened JustFloat
  import opened Calibration
  import opened SerialInterface
  import opened Driver

  /** The byte constants of the two ends match, and the field the host
      parses for a target is the original distance of the very anchor slot
      it calibrates for that target. */
  lemma HostMatchesFirmware(flag: int)
    ensures FRAME_HEADER == DEFAULT_HEADER && FRAME_TAIL == DEFAULT_TAIL
    ensures CALIBRATION_COMMAND == COMMAND_SET_KB && POSITION_COMMAND == COMMAND_SET_POSITION
    ensures FieldOffset(flag) == ORIGINAL_OFFSET + 4 * Selector(flag) as int
  {
  }

  /** `readBytesUntil` returns exactly the bytes before the first terminator
      when that terminator lies within the length limit. */
  lemma ReadStopsAtTerminator(s: seq<byte>, terminator: byte, length: nat, n: nat)
    requires n < |s| && n <= length && s[n] == terminator && terminator !in s[..n]
    ensures ReadBytesUntil(s, terminator, length) == s[..n]
  {
  }

  /** The position frame is exactly one `CommandFrame` image: command 0x02,
      the selector as anchor number, x and y as data[0] and data[1], zero
      padding as data[2], and the default tail. */
  lemma PositionFrameIsCommandFrame(x: Float32, y: Float32, flag: int)
    ensures |PositionFrame(x, y, flag)| == COMMAND_FRAME_SIZE
    ensures DecodeCommand(PositionFrame(x, y, flag))
         == CommandFrame(DEFAULT_HEADER, COMMAND_SET_POSITION, Selector(flag), [x, y, FLOAT_ZERO], DEFAULT_TAIL)
  {
    var frame := PositionFrame(x, y, flag);
    var f := DecodeCommand(frame);
    assert frame[4..16][0..4] == frame[4..8] == x;
    assert frame[4..16][4..8] == frame[8..12] == y;
    assert frame[4..16][8..12] == frame[12..16] == FLOAT_ZERO;
    assert f.data == [x, y, FLOAT_ZERO];
  }

  /** A calibration frame followed by anything, as the firmware reads it:
      the bytes before the tail's '\n' are read, and the overlaid command
      frame carries the calibration command, the selector as anchor number
      and k and b as data[0] and data[1]; the anchor number is in range. */
  lemma CalibrationFrameReachesUpdateKb(k: Float32, b: Float32, flag: int, rest: seq<byte>)
    requires NEWLINE !in k && NEWLINE !in b
    ensures var input := CalibrationFrame(k, b, flag) + rest;
      && ReadBytesUntil(input, NEWLINE, CMD_BUFFER_SIZE) == CalibrationFrame(k, b, flag)[..19]
      && CommandOf(input).command == COMMAND_SET_KB
      && CommandOf(input).anchorNum == Selector(flag)
      && CommandOf(input).data[0] == k && CommandOf(input).data[1] == b
      && KbTargetInRange(input)
  {
    var frame := CalibrationFrame(k, b, flag);
    var input := frame + rest;
    assert NEWLINE !in input[..19] by {
      assert input[..19] == FRAME_HEADER + [CALIBRATION_COMMAND, Selector(flag)] + k + b + FRAME_TAIL[..7];
    }
    ReadStopsAtTerminator(input, NEWLINE, CMD_BUFFER_SIZE, 19);
    assert input[..19] == frame[..19];
    var buf := CommandBuffer(input)[..COMMAND_FRAME_SIZE];
    assert buf[..19] == frame[..19];
    assert buf[4..16][0..4] == buf[4..8] == frame[4..8] == k;
    assert buf[4..16][4..8] == buf[8..12] == frame[8..12] == b;
  }

  /** A position frame whose x and y hold no '\n' is read up to its tail's
      '\n', and the overlaid command frame carries x and y as data[0] and
      data[1]. */
  lemma PositionFrameOverlay(x: Float32, y: Float32, flag: int, rest: seq<byte>)
    requires NEWLINE !in x && NEWLINE !in y
    ensures var input := PositionFrame(x, y, flag) + rest;
      && ReadBytesUntil(input, NEWLINE, CMD_BUFFER_SIZE) == PositionFrame(x, y, flag)[..23]
      && CommandOf(input).command == COMMAND_SET_POSITION
      && CommandOf(input).anchorNum == Selector(flag)
      && CommandOf(input).data[0] == x && CommandOf(input).data[1] == y
      && KbTargetInRange(input)
  {
    var frame := PositionFrame(x, y, flag);
    var input := frame + rest;
    assert NEWLINE !in input[..23] by {
      assert input[..23] == FRAME_HEADER + [POSITION_COMMAND, Selector(flag)] + x + y
        + [0x00, 0x00, 0x00, 0x00] + FRAME_TAIL[..7];
    }
    ReadStopsAtTerminator(input, NEWLINE, CMD_BUFFER_SIZE, 23);
    assert input[..23] == frame[..23];
    var buf := CommandBuffer(input)[..COMMAND_FRAME_SIZE];
    assert buf[..23] == frame[..23];
    assert frame[4..8] == x && frame[8..12] == y by {
      assert frame == FRAME_HEADER + [POSITION_COMMAND, Selector(flag)] + x + y + [0x00, 0x00, 0x00, 0x00] + FRAME_TAIL;
    }
    assert buf[4..8] == frame[4..8] && buf[8..12] == frame[8..12];
    assert buf[4..16][0..4] == buf[4..8];
    assert buf[4..16][4..8] == buf[8..12];
  }

  /** Whatever its payload and whatever follows it, a position frame reaches
      the firmware as a position command for the selected anchor: the first
      four bytes hold no '\n', so the read keeps them. */
  lemma PositionFrameCommand(x: Float32, y: Float32, flag: int, rest: seq<byte>)
    ensures var input := PositionFrame(x, y, flag) + rest;
      && CommandOf(input).command == COMMAND_SET_POSITION
      && CommandOf(input).anchorNum == Selector(flag)
      && KbTargetInRange(input)
  {
    var input := PositionFrame(x, y, flag) + rest;
    var got := ReadBytesUntil(input, NEWLINE, CMD_BUFFER_SIZE);
    assert input[..4] == FRAME_HEADER + [POSITION_COMMAND, Selector(flag)];
    assert forall i :: 0 <= i < 4 ==> input[i] != NEWLINE;
    assert |got| >= 4;
    var buf := CommandBuffer(input)[..COMMAND_FRAME_SIZE];
    assert buf[2] == got[2] == input[2];
    assert buf[3] == got[3] == input[3];
  }

  /** One pass of `cmd_parse_task` over any position frame leaves the
      calibration parameters and the EEPROM as they were. */
  method PositionFrameLeavesDriver(drv: UwbDriver, buffer: array<byte>, eeprom: array<byte>,
                                   x: Float32, y: Float32, flag: int, rest: seq<byte>)
    requires drv.Valid() && buffer.Length == CMD_BUFFER_SIZE && eeprom.Length >= CAL_PARMS_SIZE
    requires buffer != eeprom && buffer != drv.isActivate && eeprom != drv.isActivate
    modifies buffer, drv.ks, drv.bs, eeprom
    ensures drv.ks[..] == old(drv.ks[..]) && drv.bs[..] == old(drv.bs[..])
    ensures eeprom[..] == old(eeprom[..])
  {
    PositionFrameCommand(x, y, flag, rest);
    var _ := CmdParseStep(drv, buffer, eeprom, PositionFrame(x, y, flag) + rest);
  }

  /** A '\n' byte inside k ends the firmware's read early: the overlaid
      frame still carries the calibration command, but data[0] holds only
      the bytes of k before the '\n' followed by zeros, and data[1] is +0.0,
      so UpdateKb stores a truncated k and a zero b. */
  lemma NewlineInPayloadTruncates(k: Float32, b: Float32, flag: int, rest: seq<byte>, j: nat)
    requires j < 4 && k[j] == NEWLINE && NEWLINE !in k[..j]
    ensures var input := CalibrationFrame(k, b, flag) + rest;
      && ReadBytesUntil(input, NEWLINE, CMD_BUFFER_SIZE) == CalibrationFrame(k, b, flag)[..4 + j]
      && CommandOf(input).command == COMMAND_SET_KB
      && CommandOf(input).anchorNum == Selector(flag)
      && CommandOf(input).data[0] == k[..j] + Zeros(4 - j)
      && CommandOf(input).data[1] == FLOAT_ZERO
  {
    var frame := CalibrationFrame(k, b, flag);
    var input := frame + rest;
    assert input[..4 + j] == FRAME_HEADER + [CALIBRATION_COMMAND, Selector(flag)] + k[..j];
    assert input[4 + j] == k[j];
    ReadStopsAtTerminator(input, NEWLINE, CMD_BUFFER_SIZE, 4 + j);
    var got := input[..4 + j];
    var buf := CommandBuffer(input)[..COMMAND_FRAME_SIZE];
    assert buf == got + Zeros(20 - j);
    assert buf[4..16][0..4] == buf[4..8] == k[..j] + Zeros(4 - j);
    assert buf[4..16][4..8] == buf[8..12] == FLOAT_ZERO;
  }

  /** A telemetry frame as the firmware sends it, parsed by the host: the
      result is original distance `Selector(flag)`, provided no tail pattern
      starts before the selected field ends (for target 1 that excludes
      nothing, since the tail cannot start inside the header). */
  lemma HostParsesTelemetry(f: JustFloatFrame, flag: int)
    requires WellFormed(f) && f.header == DEFAULT_HEADER && f.tail == DEFAULT_TAIL
    requires forall i :: 0 <= i < FieldOffset(flag) - 4 ==> !OccursAt(EncodeTelemetry(f), FRAME_TAIL, i)
    ensures ParseFrame(EncodeTelemetry(f), flag) == Some(f.originalDistances[Selector(flag)])
  {
    var b := EncodeTelemetry(f);
    var sel := Selector(flag) as nat;
    TelemetrySegments(f);
    TelemetryLayout(f, sel);
    assert FirstOccurrence(b, FRAME_HEADER, 0, 0) by { assert b[0..2] == FRAME_HEADER; }
    assert OccursAt(b, FRAME_TAIL, TAIL_OFFSET) by { assert b[TAIL_OFFSET .. TAIL_OFFSET + 8] == FRAME_TAIL; }
    var r := Find(b, FRAME_TAIL, 0);
    assert r.Some?;
    var e := r.value;
    assert FieldOffset(flag) - 4 <= e <= TAIL_OFFSET;
    ParseFrameFound(b, flag, 0, e);
  }
}
