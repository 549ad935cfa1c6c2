/** One iteration of each of the firmware's two serial tasks: assembling and
    sending the telemetry frame, and reading and dispatching one command
    frame. The serial port is modelled by its effect: the bytes that arrive
    before the read returns are an input sequence, and the bytes written are
    returned. */
module SerialInterface {
  import opened Bytes
  import opened UwbConfig
  import opened JustFloat
  import opened Driver

  const CMD_BUFFER_SIZE: nat := 64

  const ZERO_POSITION: Position := Position(FLOAT_ZERO, FLOAT_ZERO, FLOAT_ZERO)

  /** Arduino's `readBytesUntil(terminator, buffer, length)` over the bytes
      that arrive before it returns: it stores bytes until the terminator
      (which is consumed but not stored), until `length` bytes are stored, or
      until the input runs out. */
  function ReadBytesUntil(input: seq<byte>, terminator: byte, length: nat): (r: seq<byte>)
    ensures |r| <= length && |r| <= |input| && r == input[..|r|]
    ensures terminator !in r
    ensures |r| < length ==> |r| == |input| || input[|r|] == terminator
  {
    if length == 0 || |input| == 0 || input[0] == terminator then []
    else [input[0]] + ReadBytesUntil(input[1..], terminator, length - 1)
  }

  /** The command buffer after `memset` and the read: the bytes read, then
      zeros. */
  function CommandBuffer(input: seq<byte>): (b: seq<byte>)
    ensures |b| == CMD_BUFFER_SIZE
  {
    var got := ReadBytesUntil(input, NEWLINE, CMD_BUFFER_SIZE);
    got + Zeros(CMD_BUFFER_SIZE - |got|)
  }

  /** The `CommandFrame` overlaid on the first 24 bytes of the buffer. */
  function CommandOf(input: seq<byte>): (f: CommandFrame)
    ensures CommandWellFormed(f)
  {
    DecodeCommand(CommandBuffer(input)[..COMMAND_FRAME_SIZE])
  }

  /** A calibration command must name one of the eight anchor slots: the
      firmware indexes `cal_parms` with the anchor number unchecked. */
  predicate KbTargetInRange(input: seq<byte>)
  {
    CommandOf(input).command == COMMAND_SET_KB ==> (CommandOf(input).anchorNum as int) < MAX_ANCHOR_NUM
  }

  /** The telemetry frame a driver state yields: driver arrays in the data
      fields, a zero position, and the default header, command and tail. */
  ghost function TelemetryOf(drv: UwbDriver): (f: JustFloatFrame)
    requires drv.Valid()
    reads drv.distance, drv.caldistance, drv.rxpower, drv.isActivate
    ensures WellFormed(f)
  {
    JustFloatFrame(DEFAULT_HEADER, DEFAULT_COMMAND, drv.distance[..], drv.caldistance[..],
                   drv.rxpower[..], ZERO_POSITION, drv.isActivate[..], DEFAULT_TAIL)
  }

  /** One pass of `data_send_task`. `frame` is the task's `JustFloatFrame`
      as 128 bytes of memory; it keeps its default header, command and tail
      from one pass to the next, because only the data fields are written. */
  method DataSendStep(drv: UwbDriver, frame: array<byte>) returns (sent: seq<byte>)
    requires drv.Valid() && frame.Length == JUST_FLOAT_FRAME_SIZE && frame != drv.isActivate
    requires frame[..4] == DEFAULT_HEADER + DEFAULT_COMMAND && frame[TAIL_OFFSET..] == DEFAULT_TAIL
    modifies frame
    ensures frame[..] == EncodeTelemetry(TelemetryOf(drv))
    ensures frame[..4] == DEFAULT_HEADER + DEFAULT_COMMAND && frame[TAIL_OFFSET..] == DEFAULT_TAIL
    ensures sent == frame[..]
  {
    ghost var f0 := frame[..];
    WriteBytes(frame, ORIGINAL_OFFSET, Flatten(drv.distance[..]));
    ghost var f1 := frame[..];
    WriteBytes(frame, CALIBRATED_OFFSET, Flatten(drv.caldistance[..]));
    ghost var f2 := frame[..];
    WriteBytes(frame, RX_POWER_OFFSET, Flatten(drv.rxpower[..]));
    ghost var f3 := frame[..];
    WriteBytes(frame, POSITION_OFFSET, Zeros(12));
    ghost var f4 := frame[..];
    WriteBytes(frame, ACTIVATE_OFFSET, drv.isActivate[..]);
    sent := frame[..];
    DataSendWrites(f0, f1, f2, f3, f4, frame[..], drv.distance[..], drv.caldistance[..],
                   drv.rxpower[..], drv.isActivate[..]);
  }

  /** The five `memcpy`/`memset` writes of `data_send_task`, in order, turn
      a block holding the default header, command and tail into the image of
      the telemetry frame for the given arrays. */
  lemma DataSendWrites(f0: seq<byte>, f1: seq<byte>, f2: seq<byte>, f3: seq<byte>, f4: seq<byte>,
                       f5: seq<byte>, d: seq<Float32>, c: seq<Float32>, r: seq<Float32>, a: seq<byte>)
    requires |f0| == JUST_FLOAT_FRAME_SIZE
    requires |d| == MAX_ANCHOR_NUM && |c| == MAX_ANCHOR_NUM && |r| == MAX_ANCHOR_NUM && |a| == 8
    requires f0[..4] == DEFAULT_HEADER + DEFAULT_COMMAND && f0[TAIL_OFFSET..] == DEFAULT_TAIL
    requires f1 == f0[..ORIGINAL_OFFSET] + Flatten(d) + f0[CALIBRATED_OFFSET..]
    requires f2 == f1[..CALIBRATED_OFFSET] + Flatten(c) + f1[RX_POWER_OFFSET..]
    requires f3 == f2[..RX_POWER_OFFSET] + Flatten(r) + f2[POSITION_OFFSET..]
    requires f4 == f3[..POSITION_OFFSET] + Zeros(12) + f3[ACTIVATE_OFFSET..]
    requires f5 == f4[..ACTIVATE_OFFSET] + a + f4[TAIL_OFFSET..]
    ensures f5 == EncodeTelemetry(JustFloatFrame(DEFAULT_HEADER, DEFAULT_COMMAND, d, c, r,
                                                 ZERO_POSITION, a, DEFAULT_TAIL))
  {
    var g1 := f0[..ORIGINAL_OFFSET] + Flatten(d);
    assert f1[..CALIBRATED_OFFSET] == g1 && f1[RX_POWER_OFFSET..] == f0[RX_POWER_OFFSET..];
    var g2 := g1 + Flatten(c);
    assert f2 == g2 + f0[RX_POWER_OFFSET..];
    assert f2[..RX_POWER_OFFSET] == g2 && f2[POSITION_OFFSET..] == f0[POSITION_OFFSET..];
    var g3 := g2 + Flatten(r);
    assert f3 == g3 + f0[POSITION_OFFSET..];
    assert f3[..POSITION_OFFSET] == g3 && f3[ACTIVATE_OFFSET..] == f0[ACTIVATE_OFFSET..];
    var g4 := g3 + Zeros(12);
    assert f4 == g4 + f0[ACTIVATE_OFFSET..];
    assert f4[..ACTIVATE_OFFSET] == g4 && f4[TAIL_OFFSET..] == f0[TAIL_OFFSET..];
    assert f5 == g4 + a + DEFAULT_TAIL;
    assert PositionBytes(ZERO_POSITION) == Zeros(12);
  }

  /** One pass of `cmd_parse_task`: zero the buffer, read up to '\n', overlay
      a `CommandFrame`, and apply a calibration command. A position command
      and every other command byte leave the driver as it was, and so does
      a read that returned nothing. */
  method CmdParseStep(drv: UwbDriver, buffer: array<byte>, eeprom: array<byte>, input: seq<byte>)
    returns (count: nat)
    requires drv.Valid() && buffer.Length == CMD_BUFFER_SIZE && eeprom.Length >= CAL_PARMS_SIZE
    requires buffer != eeprom && buffer != drv.isActivate && eeprom != drv.isActivate
    requires KbTargetInRange(input)
    modifies buffer, drv.ks, drv.bs, eeprom
    ensures count == |ReadBytesUntil(input, NEWLINE, CMD_BUFFER_SIZE)| && count <= CMD_BUFFER_SIZE
    ensures buffer[..] == CommandBuffer(input)
    ensures forall i :: count <= i < CMD_BUFFER_SIZE ==> buffer[i] == 0
    ensures var f := CommandOf(input);
      if count > 0 && f.command == COMMAND_SET_KB then
        && drv.ks[..] == old(drv.ks[..])[f.anchorNum as int := f.data[0]]
        && drv.bs[..] == old(drv.bs[..])[f.anchorNum as int := f.data[1]]
        && eeprom[..CAL_PARMS_SIZE] == EncodeCalParms(drv.ks[..], drv.bs[..])
        && eeprom[CAL_PARMS_SIZE..] == old(eeprom[CAL_PARMS_SIZE..])
      else
        && drv.ks[..] == old(drv.ks[..]) && drv.bs[..] == old(drv.bs[..])
        && eeprom[..] == old(eeprom[..])
  {
    WriteBytes(buffer, 0, Zeros(CMD_BUFFER_SIZE));
    var got := ReadBytesUntil(input, NEWLINE, CMD_BUFFER_SIZE);
    count := |got|;
    WriteBytes(buffer, 0, got);
    assert buffer[..] == CommandBuffer(input);
    if count > 0 {
      var frame := DecodeCommand(buffer[..COMMAND_FRAME_SIZE]);
      if frame.command == COMMAND_SET_KB {
        drv.UpdateKb(frame.anchorNum, frame.data[0], frame.data[1], eeprom);
      }
      if frame.command == COMMAND_SET_POSITION {
        // Anchor positions are not stored: the solver that would take them
        // is not part of the firmware.
      }
    }
  }
}
