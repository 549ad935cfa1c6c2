/** The firmware's per-anchor state table (`UwbDriver`), the three ranging
    callbacks the DW1000 library invokes on it, and the board configuration
    read at start-up. The radio, the pins and the EEPROM are inputs: a pin
    level is a bool, a ranging peer is a `Device` value, and the EEPROM cache
    is a byte array. */
module Driver {
  import opened Bytes
  import opened UwbConfig

  datatype BoardType = Anchor | Tag

  /** A ranging peer as the DW1000 library reports it: its short address,
      the last measured range and the received signal power. */
  datatype Device = Device(shortAddress: uint16, range: Float32, rxPower: Float32)

  /** Single-precision multiplication and addition, as the FPU performs them;
      the model does not interpret float bit patterns. */
  datatype FloatOps = FloatOps(mul: (Float32, Float32) -> Float32, add: (Float32, Float32) -> Float32)

  /** The calibrated distance `k * d + b`. */
  function Calibrated(ops: FloatOps, k: Float32, d: Float32, b: Float32): Float32
  {
    ops.add(ops.mul(k, d), b)
  }

  /** The biased exponent of a little-endian single is 255 only for an
      infinity or a NaN. */
  predicate IsFinite(f: Float32)
  {
    (f[3] as int % 128) * 2 + f[2] as int / 128 != 255
  }

  /** +0.0 or -0.0. */
  predicate IsZero(f: Float32)
  {
    f[0] == 0 && f[1] == 0 && f[2] == 0 && (f[3] == 0x00 || f[3] == 0x80)
  }

  /** Two facts of IEEE-754 round-to-nearest arithmetic: +0 times a finite
      value is a signed zero, and a signed zero plus +0 is +0. */
  ghost predicate SignedZeroLaws(ops: FloatOps)
  {
    && (forall d: Float32 :: IsFinite(d) ==> IsZero(ops.mul(FLOAT_ZERO, d)))
    && (forall z: Float32 :: IsZero(z) ==> ops.add(z, FLOAT_ZERO) == FLOAT_ZERO)
  }

  /** With zeroed calibration parameters, every finite raw distance
      calibrates to +0.0. */
  lemma ZeroParametersCalibrateToZero(ops: FloatOps, d: Float32)
    requires SignedZeroLaws(ops) && IsFinite(d)
    ensures Calibrated(ops, FLOAT_ZERO, d, FLOAT_ZERO) == FLOAT_ZERO
  {
    assert IsZero(ops.mul(FLOAT_ZERO, d));
  }

  const EEPROM_UWB_CAL_START_ADDRESS: nat := 0
  /** `sizeof(cal_parms)`: eight k values, then eight b values. */
  const CAL_PARMS_SIZE: nat := 64

  /** The memory image of `cal_parms`, as it is written to the EEPROM: the
      two packed arrays back to back, which is also the image of the sixteen
      floats `ks + bs` as one packed array. */
  function EncodeCalParms(ks: seq<Float32>, bs: seq<Float32>): (block: seq<byte>)
    requires |ks| == MAX_ANCHOR_NUM && |bs| == MAX_ANCHOR_NUM
    ensures |block| == CAL_PARMS_SIZE
    ensures block == Flatten(ks + bs)
  {
    FlattenConcat(ks, bs);
    Flatten(ks) + Flatten(bs)
  }

  function DecodeKs(block: seq<byte>): (ks: seq<Float32>)
    requires |block| == CAL_PARMS_SIZE
    ensures |ks| == MAX_ANCHOR_NUM
  {
    Unflatten(block[..32])
  }

  function DecodeBs(block: seq<byte>): (bs: seq<Float32>)
    requires |block| == CAL_PARMS_SIZE
    ensures |bs| == MAX_ANCHOR_NUM
  {
    Unflatten(block[32..])
  }

  /** Loading the persisted block gives back the parameters that were saved. */
  lemma CalParmsRoundTrip(ks: seq<Float32>, bs: seq<Float32>)
    requires |ks| == MAX_ANCHOR_NUM && |bs| == MAX_ANCHOR_NUM
    ensures DecodeKs(EncodeCalParms(ks, bs)) == ks
    ensures DecodeBs(EncodeCalParms(ks, bs)) == bs
  {
    var block := EncodeCalParms(ks, bs);
    assert block[..32] == Flatten(ks);
    assert block[32..] == Flatten(bs);
    UnflattenFlatten(ks);
    UnflattenFlatten(bs);
  }

  /** `digitalRead`: HIGH is 1, LOW is 0. */
  function PinLevel(high: bool): nat
  {
    if high then 1 else 0
  }

  /** The board's short address from its three index pins, most significant
      first. */
  function ShortAddress(pin0: bool, pin1: bool, pin2: bool): (addr: nat)
    ensures addr < MAX_ANCHOR_NUM
  {
    4 * PinLevel(pin0) + 2 * PinLevel(pin1) + PinLevel(pin2)
  }

  /** The pin levels that select a given address. */
  function AddressPins(addr: nat): (bool, bool, bool)
    requires addr < MAX_ANCHOR_NUM
  {
    (addr / 4 == 1, addr / 2 % 2 == 1, addr % 2 == 1)
  }

  /** The pins select each of the eight addresses in exactly one way. */
  lemma ShortAddressBijection(pin0: bool, pin1: bool, pin2: bool, addr: nat)
    requires addr < MAX_ANCHOR_NUM
    ensures AddressPins(ShortAddress(pin0, pin1, pin2)) == (pin0, pin1, pin2)
    ensures var (p0, p1, p2) := AddressPins(addr); ShortAddress(p0, p1, p2) == addr
  {
  }

  /** The slot the device callbacks use: the short address modulo 16. */
  function DeviceIndex(device: Device): (index: nat)
    ensures index < 16
  {
    device.shortAddress as int % 16
  }

  /** A valid 16-bit short address can name a slot past the eight that exist. */
  lemma DeviceIndexCanExceedSlots(range: Float32, power: Float32)
    ensures DeviceIndex(Device(8, range, power)) >= MAX_ANCHOR_NUM
    ensures DeviceIndex(Device(0x13, range, power)) == 3
  {
  }

  class UwbDriver {
    var shortAddr: uint16
    var mode: BoardType

    const distance: array<Float32>
    const rxpower: array<Float32>
    const caldistance: array<Float32>
    const isActivate: array<byte>
    /** `cal_parms.ks` and `cal_parms.bs`. */
    const ks: array<Float32>
    const bs: array<Float32>

    /** Every array has its eight slots, and no two arrays share storage. */
    ghost predicate Valid()
    {
      && distance.Length == MAX_ANCHOR_NUM && rxpower.Length == MAX_ANCHOR_NUM
      && caldistance.Length == MAX_ANCHOR_NUM && isActivate.Length == 8
      && ks.Length == MAX_ANCHOR_NUM && bs.Length == MAX_ANCHOR_NUM
      && distance != rxpower && distance != caldistance && distance != ks && distance != bs
      && rxpower != caldistance && rxpower != ks && rxpower != bs
      && caldistance != ks && caldistance != bs
      && ks != bs
    }

    /** Every array starts zeroed. The address and mode are set by ReadConfig. */
    constructor ()
      ensures Valid()
      ensures fresh(distance) && fresh(rxpower) && fresh(caldistance)
      ensures fresh(isActivate) && fresh(ks) && fresh(bs)
      ensures distance[..] == seq(MAX_ANCHOR_NUM, _ => FLOAT_ZERO)
      ensures rxpower[..] == seq(MAX_ANCHOR_NUM, _ => FLOAT_ZERO)
      ensures caldistance[..] == seq(MAX_ANCHOR_NUM, _ => FLOAT_ZERO)
      ensures isActivate[..] == Zeros(8)
      ensures ks[..] == seq(MAX_ANCHOR_NUM, _ => FLOAT_ZERO)
      ensures bs[..] == seq(MAX_ANCHOR_NUM, _ => FLOAT_ZERO)
    {
      distance := new Float32[MAX_ANCHOR_NUM](_ => FLOAT_ZERO);
      rxpower := new Float32[MAX_ANCHOR_NUM](_ => FLOAT_ZERO);
      ks := new Float32[MAX_ANCHOR_NUM](_ => FLOAT_ZERO);
      bs := new Float32[MAX_ANCHOR_NUM](_ => FLOAT_ZERO);
      caldistance := new Float32[MAX_ANCHOR_NUM](_ => FLOAT_ZERO);
      isActivate := new byte[8](_ => 0);
      shortAddr := 0;
      mode := Anchor;
    }

    /** Marks slot `index` active. The `state` argument is ignored: the slot
        becomes 1 whatever is passed, 0 included. */
    method SetState(index: byte, state: byte)
      requires Valid() && (index as int) < 8
      modifies isActivate
      ensures isActivate[..] == old(isActivate[..])[index as int := 1]
    {
      isActivate[index] := 1;
    }

    method UpdateDistance(index: byte, d: Float32)
      requires Valid() && (index as int) < MAX_ANCHOR_NUM
      modifies distance
      ensures distance[..] == old(distance[..])[index as int := d]
    {
      distance[index] := d;
    }

    method UpdateCaldistance(index: byte, d: Float32)
      requires Valid() && (index as int) < MAX_ANCHOR_NUM
      modifies caldistance
      ensures caldistance[..] == old(caldistance[..])[index as int := d]
    {
      caldistance[index] := d;
    }

    method UpdateRxpower(index: byte, power: Float32)
      requires Valid() && (index as int) < MAX_ANCHOR_NUM
      modifies rxpower
      ensures rxpower[..] == old(rxpower[..])[index as int := power]
    {
      rxpower[index] := power;
    }

    /** Stores one anchor's calibration and persists the whole `cal_parms`
        block at the start of the EEPROM; the rest of the EEPROM is kept. */
    method UpdateKb(index: byte, k: Float32, b: Float32, eeprom: array<byte>)
      requires Valid() && (index as int) < MAX_ANCHOR_NUM
      requires eeprom.Length >= CAL_PARMS_SIZE && eeprom != isActivate
      modifies ks, bs, eeprom
      ensures ks[..] == old(ks[..])[index as int := k]
      ensures bs[..] == old(bs[..])[index as int := b]
      ensures eeprom[..CAL_PARMS_SIZE] == EncodeCalParms(ks[..], bs[..])
      ensures eeprom[CAL_PARMS_SIZE..] == old(eeprom[CAL_PARMS_SIZE..])
    {
      ks[index] := k;
      bs[index] := b;
      WriteBytes(eeprom, EEPROM_UWB_CAL_START_ADDRESS, EncodeCalParms(ks[..], bs[..]));
    }

    /** Start-up configuration: the mode pin (HIGH selects a tag), the three
        index pins giving the short address, and `cal_parms` loaded from the
        EEPROM. */
    method ReadConfig(modePin: bool, indexPin0: bool, indexPin1: bool, indexPin2: bool, eeprom: array<byte>)
      requires Valid() && eeprom.Length >= CAL_PARMS_SIZE
      modifies this, ks, bs
      ensures mode == if modePin then Tag else Anchor
      ensures shortAddr as int == ShortAddress(indexPin0, indexPin1, indexPin2)
      ensures ks[..] == DecodeKs(eeprom[..CAL_PARMS_SIZE])
      ensures bs[..] == DecodeBs(eeprom[..CAL_PARMS_SIZE])
    {
      mode := if modePin then Tag else Anchor;
      shortAddr := (4 * PinLevel(indexPin0) + 2 * PinLevel(indexPin1) + PinLevel(indexPin2)) as uint16;
      var block := eeprom[..CAL_PARMS_SIZE];
      var loadedKs := DecodeKs(block);
      var loadedBs := DecodeBs(block);
      forall i | 0 <= i < MAX_ANCHOR_NUM {
        ks[i] := loadedKs[i];
      }
      forall i | 0 <= i < MAX_ANCHOR_NUM {
        bs[i] := loadedBs[i];
      }
      assert ks[..] == loadedKs && bs[..] == loadedBs;
      assert eeprom[..CAL_PARMS_SIZE] == block;
    }
  }

  /** Callback for a completed range: raw distance, calibrated distance with
      the anchor's current parameters, and receive power go to the anchor's
      slot. The library hands in a non-null device. */
  method NewRange(drv: UwbDriver, device: Device, ops: FloatOps)
    requires drv.Valid() && (device.shortAddress as int) < MAX_ANCHOR_NUM
    modifies drv.distance, drv.caldistance, drv.rxpower
    ensures var a := device.shortAddress as int;
      && drv.distance[..] == old(drv.distance[..])[a := device.range]
      && drv.caldistance[..] == old(drv.caldistance[..])[a := Calibrated(ops, drv.ks[a], device.range, drv.bs[a])]
      && drv.rxpower[..] == old(drv.rxpower[..])[a := device.rxPower]
  {
    var fromDevice := device.shortAddress;
    var d := device.range;
    var power := device.rxPower;
    var calDistance := Calibrated(ops, drv.ks[fromDevice], d, drv.bs[fromDevice]);
    var slot := (fromDevice as int % 256) as byte;
    drv.UpdateDistance(slot, d);
    drv.UpdateCaldistance(slot, calDistance);
    drv.UpdateRxpower(slot, power);
  }

  /** Callback for a newly seen device: marks its slot active; a null device
      is ignored. */
  method NewDevice(drv: UwbDriver, device: Option<Device>)
    requires drv.Valid()
    requires device.Some? ==> DeviceIndex(device.value) < MAX_ANCHOR_NUM
    modifies drv.isActivate
    ensures device.None? ==> drv.isActivate[..] == old(drv.isActivate[..])
    ensures device.Some? ==> drv.isActivate[..] == old(drv.isActivate[..])[DeviceIndex(device.value) := 1]
  {
    if device.None? {
      return;
    }
    var deviceIndex := DeviceIndex(device.value) as byte;
    drv.SetState(deviceIndex, 1);
  }

  /** Callback for a device that went silent. It passes state 0, but since
      SetState ignores the state the slot is marked active, never cleared. */
  method InactiveDevice(drv: UwbDriver, device: Option<Device>)
    requires drv.Valid()
    requires device.Some? ==> DeviceIndex(device.value) < MAX_ANCHOR_NUM
    modifies drv.isActivate
    ensures device.None? ==> drv.isActivate[..] == old(drv.isActivate[..])
    ensures device.Some? ==> drv.isActivate[..] == old(drv.isActivate[..])[DeviceIndex(device.value) := 1]
  {
    if device.None? {
      return;
    }
    var deviceIndex := DeviceIndex(device.value) as byte;
    drv.SetState(deviceIndex, 0);
  }

  /** On a freshly constructed driver, before ReadConfig has loaded any
      parameters, a range calibrates to +0.0 whatever the (finite) raw
      distance. */
  method RangeBeforeCalibration(device: Device, ops: FloatOps) returns (drv: UwbDriver)
    requires (device.shortAddress as int) < MAX_ANCHOR_NUM
    requires SignedZeroLaws(ops) && IsFinite(device.range)
    ensures drv.Valid()
    ensures drv.distance[device.shortAddress] == device.range
    ensures drv.caldistance[device.shortAddress] == FLOAT_ZERO
  {
    drv := new UwbDriver();
    NewRange(drv, device, ops);
    ZeroParametersCalibrateToZero(ops, device.range);
  }

  /** Parameters stored by UpdateKb survive a restart: a new driver that
      runs ReadConfig on the same EEPROM holds exactly the stored ks and bs. */
  method RestartAfterUpdateKb(drv: UwbDriver, index: byte, k: Float32, b: Float32, eeprom: array<byte>,
                              modePin: bool, indexPin0: bool, indexPin1: bool, indexPin2: bool)
    returns (restarted: UwbDriver)
    requires drv.Valid() && (index as int) < MAX_ANCHOR_NUM
    requires eeprom.Length >= CAL_PARMS_SIZE && eeprom != drv.isActivate
    modifies drv.ks, drv.bs, eeprom
    ensures restarted.Valid()
    ensures restarted.ks[..] == old(drv.ks[..])[index as int := k]
    ensures restarted.bs[..] == old(drv.bs[..])[index as int := b]
  {
    drv.UpdateKb(index, k, b, eeprom);
    CalParmsRoundTrip(drv.ks[..], drv.bs[..]);
    restarted := new UwbDriver();
    restarted.ReadConfig(modePin, indexPin0, indexPin1, indexPin2, eeprom);
  }
}
