/** `J1939Encoder` (backend/app.py:168-256): the 29-bit CAN identifier, the
    physical-to-raw conversion, and the composition `encode_spn`. */
module Encoder {
  import opened Wrappers
  import opened Bits
  import opened Frame

  // ---------------------------------------------------------------------
  // CAN identifier (lines 172-190)
  // ---------------------------------------------------------------------

  /** Bits 26-28: the priority. */
  function PriorityField(id: bv32): bv32 { (id >> 26) & 7 }

  /** Bits 24-25: the reserved and data-page bits. */
  function ReservedField(id: bv32): bv32 { (id >> 24) & 3 }

  /** Bits 16-23: the PDU Format byte. */
  function PduFormatField(id: bv32): bv32 { (id >> 16) & 0xFF }

  /** Bits 8-15: the PDU Specific byte. */
  function PduSpecificField(id: bv32): bv32 { (id >> 8) & 0xFF }

  /** Bits 0-7: the source address. */
  function SourceAddressField(id: bv32): bv32 { id & 0xFF }

  /** The `|=` chain of lines 183-188 that assembles the identifier from
      its fields. Fields that fit their widths are read back unchanged. */
  function Layout(priority: bv32, pduFormat: bv32, pduSpecific: bv32, sourceAddress: bv32): (id: bv32)
    ensures priority < 8 && pduFormat < 256 && pduSpecific < 256 && sourceAddress < 256 ==>
              && id < (1 as bv32) << 29
              && PriorityField(id) == priority
              && ReservedField(id) == 0
              && PduFormatField(id) == pduFormat
              && PduSpecificField(id) == pduSpecific
              && SourceAddressField(id) == sourceAddress
  {
    ((priority & 7) << 26)
    | ((0 & 1) << 25)
    | ((0 & 1) << 24)
    | ((pduFormat & 0xFF) << 16)
    | ((pduSpecific & 0xFF) << 8)
    | sourceAddress
  }

  /** `calculate_can_id(pgn, source_address)`. The priority is the constant
      6, whatever the catalog declares; PDU Specific is 0xFF for every PGN
      from 0xF000 up and the PGN's low byte below it. Python's `x & 0xFF`
      on an int is `x % 256` (also for negative `x`), and `x >> 8` floors. */
  function CanId(pgn: int, sourceAddress: int): (id: bv32)
    ensures id < (1 as bv32) << 29
    ensures PriorityField(id) == 6
    ensures ReservedField(id) == 0
    ensures PduFormatField(id) == ((pgn / 256) % 256) as bv32
    ensures PduSpecificField(id) == if pgn >= 0xF000 then 0xFF else (pgn % 256) as bv32
    ensures SourceAddressField(id) == (sourceAddress % 256) as bv32
  {
    var priority: bv32 := 6;
    var pduFormat := (pgn / 256) % 256;
    var pduSpecific := if pgn < 0xF000 then pgn % 256 else 0xFF;
    Layout(priority, pduFormat as bv32, pduSpecific as bv32, (sourceAddress % 256) as bv32)
  }

  // ---------------------------------------------------------------------
  // Physical to raw (lines 193-199)
  // ---------------------------------------------------------------------

  /** The error `physical_to_raw` raises. */
  datatype EncodeError = ZeroResolution

  /** Python's `round` on an exact real: the nearest integer, ties to even. */
  function RoundHalfEven(x: real): (r: int)
    ensures x - 0.5 <= r as real <= x + 0.5
    ensures (r as real - x == 0.5 || x - r as real == 0.5) ==> r % 2 == 0
  {
    var f := x.Floor;
    var frac := x - f as real;
    if frac < 0.5 then f
    else if frac > 0.5 then f + 1
    else if f % 2 == 0 then f
    else f + 1
  }

  /** `physical_to_raw`: fails exactly on a zero resolution; otherwise the
      scaled value rounded to the nearest integer, ties to even, and floored
      at 0. */
  function PhysicalToRaw(physicalValue: real, resolution: real, offset: real): (r: Result<int, EncodeError>)
    ensures r.Failure? <==> resolution == 0.0
    ensures r.Failure? ==> r.error == ZeroResolution
    ensures r.Success? ==> r.value >= 0
    ensures resolution != 0.0 && (physicalValue - offset) / resolution <= 0.5 ==> r == Success(0)
    ensures resolution != 0.0 && (physicalValue - offset) / resolution > 0.5 ==>
              r.Success? &&
              (physicalValue - offset) / resolution - 0.5 <= r.value as real <= (physicalValue - offset) / resolution + 0.5
    ensures resolution != 0.0 && r.Success? &&
            (var q := (physicalValue - offset) / resolution;
             r.value as real - q == 0.5 || q - r.value as real == 0.5) ==>
              r.value % 2 == 0
  {
    if resolution == 0.0 then Failure(ZeroResolution)
    else
      var raw := RoundHalfEven((physicalValue - offset) / resolution);
      Success(if raw > 0 then raw else 0)
  }

  function Abs(x: real): real { if x < 0.0 then -x else x }

  /** Scaling the raw value back, `raw * resolution + offset`, recovers the
      physical value to within half a resolution step, whenever the value is
      not below the bottom of the range by more than half a step. */
  lemma RawReconstructs(physicalValue: real, resolution: real, offset: real)
    requires resolution != 0.0
    requires (physicalValue - offset) / resolution >= -0.5
    ensures PhysicalToRaw(physicalValue, resolution, offset).Success?
    ensures Abs(PhysicalToRaw(physicalValue, resolution, offset).value as real * resolution + offset - physicalValue)
            <= Abs(resolution) / 2.0
  {
    var q := (physicalValue - offset) / resolution;
    var raw := PhysicalToRaw(physicalValue, resolution, offset).value;
    var d := raw as real - q;
    assert q * resolution == physicalValue - offset;
    assert raw as real * resolution + offset - physicalValue == d * resolution;
    HalfStep(d, resolution);
  }

  /** An error of at most half a unit scales to at most half a step. */
  lemma HalfStep(d: real, resolution: real)
    requires -0.5 <= d <= 0.5
    ensures Abs(d * resolution) <= Abs(resolution) / 2.0
  {
    if resolution >= 0.0 {
      assert -0.5 * resolution <= d * resolution <= 0.5 * resolution;
    } else {
      assert 0.5 * resolution <= d * resolution <= -0.5 * resolution;
    }
  }

  // ---------------------------------------------------------------------
  // Hex text of the data field (line 246)
  // ---------------------------------------------------------------------

  /** The upper-case hex digit of a nibble. */
  function HexDigit(n: nat): (c: char)
    requires n < 16
    ensures '0' <= c <= '9' || 'A' <= c <= 'F'
  {
    if n < 10 then ('0' as int + n) as char else ('A' as int + n - 10) as char
  }

  /** The value of an upper-case hex digit; `None` for any other character,
      as a receiver of `data_bytes` parses it. */
  function HexDigitValue(c: char): (r: Option<nat>)
    ensures r.Some? ==> r.value < 16 && HexDigit(r.value) == c
  {
    if '0' <= c <= '9' then Some(c as int - '0' as int)
    else if 'A' <= c <= 'F' then Some(c as int - 'A' as int + 10)
    else None
  }

  /** `data.hex().upper()`: two upper-case hex digits per byte, high nibble first. */
  function HexUpper(data: seq<bv8>): (s: string)
    ensures |s| == 2 * |data|
  {
    if data == [] then []
    else [HexDigit(data[0] as int / 16), HexDigit(data[0] as int % 16)] + HexUpper(data[1..])
  }

  /** Characters `2i` and `2i + 1` of `data_bytes` are the high and low
      nibble of byte `i`. */
  lemma {:induction false} HexUpperAt(data: seq<bv8>, i: nat)
    requires i < |data|
    ensures HexUpper(data)[2 * i] == HexDigit(data[i] as int / 16)
    ensures HexUpper(data)[2 * i + 1] == HexDigit(data[i] as int % 16)
  {
    if i > 0 {
      HexUpperAt(data[1..], i - 1);
      assert HexUpper(data)[2..] == HexUpper(data[1..]);
    }
  }

  /** Each hex digit reads back as the nibble it was written for. */
  lemma HexDigitRoundTrip(n: nat)
    requires n < 16
    ensures HexDigitValue(HexDigit(n)) == Some(n)
  {
  }

  // ---------------------------------------------------------------------
  // encode_spn (lines 227-256)
  // ---------------------------------------------------------------------

  /** The keys of the configuration dictionary `encode_spn` reads with
      `.get`; a missing key is `None`. */
  datatype SpnConfig = SpnConfig(
    resolution: Option<real>,
    offset: Option<real>,
    startByte: Option<int>,
    startBit: Option<int>,
    lengthBits: Option<int>,
    pgn: Option<int>,
    spn: Option<int>,
    unit: Option<string>)

  /** The dictionary `encode_spn` returns. `raw_hex`, `raw_binary`,
      `can_id_hex` and `pgn_hex` are formatting only and are not kept. */
  datatype EncodedFrame = EncodedFrame(
    physicalValue: real,
    rawValue: int,
    dataBytes: string,
    dataArray: seq<bv8>,
    canId: bv32,
    pgn: int,
    spn: Option<int>,
    resolution: real,
    offset: real,
    unit: string)

  /** The span `encode_spn` packs into, after defaults. */
  predicate ConfigSpanFits(config: SpnConfig)
  {
    SpanFits(config.startByte.GetOr(1), config.startBit.GetOr(1), config.lengthBits.GetOr(8))
  }

  /** `encode_spn`. Missing keys default to resolution 1.0, offset 0,
      start byte 1, start bit 1, 8 bits and PGN 0. The reported raw value is
      the unclamped `physical_to_raw` result, while the data field holds its
      saturation to the field width; the identifier uses source address 0. */
  function EncodeSpn(physicalValue: real, config: SpnConfig): (r: Result<EncodedFrame, EncodeError>)
    requires ConfigSpanFits(config)
    ensures r.Failure? <==> config.resolution.GetOr(1.0) == 0.0
    ensures r.Success? ==>
      var startByte, startBit, lengthBits := config.startByte.GetOr(1), config.startBit.GetOr(1), config.lengthBits.GetOr(8);
      var f := r.value;
      && f.rawValue == PhysicalToRaw(physicalValue, config.resolution.GetOr(1.0), config.offset.GetOr(0.0)).value
      && f.dataArray == Pack(f.rawValue, startByte, startBit, lengthBits)
      && ReadBits(f.dataArray, StartPosition(startByte, startBit), lengthBits)
           == (if f.rawValue > Pow2(lengthBits) - 1 then Pow2(lengthBits) - 1 else f.rawValue)
      && |f.dataArray| == 8 && |f.dataBytes| == 16 && f.dataBytes == HexUpper(f.dataArray)
      && f.canId == CanId(config.pgn.GetOr(0), 0)
      && f.pgn == config.pgn.GetOr(0) && f.spn == config.spn
      && f.physicalValue == physicalValue
      && f.resolution == config.resolution.GetOr(1.0) && f.offset == config.offset.GetOr(0.0)
      && f.unit == config.unit.GetOr("")
  {
    var resolution := config.resolution.GetOr(1.0);
    var offset := config.offset.GetOr(0.0);
    var startByte := config.startByte.GetOr(1);
    var startBit := config.startBit.GetOr(1);
    var lengthBits := config.lengthBits.GetOr(8);
    var rawValue :- PhysicalToRaw(physicalValue, resolution, offset);
    var data := Pack(rawValue, startByte, startBit, lengthBits);
    var pgn := config.pgn.GetOr(0);
    var canId := CanId(pgn, 0);
    Success(EncodedFrame(physicalValue, rawValue, HexUpper(data), data, canId, pgn, config.spn,
                         resolution, offset, config.unit.GetOr("")))
  }

  /** An empty configuration encodes with every default: scale 1, offset 0,
      the value's low byte in byte 1, PGN 0. */
  lemma EncodeSpnDefaults(physicalValue: real)
    ensures var r := EncodeSpn(physicalValue, SpnConfig(None, None, None, None, None, None, None, None));
            && r.Success?
            && r.value.rawValue == PhysicalToRaw(physicalValue, 1.0, 0.0).value
            && r.value.dataArray == Pack(r.value.rawValue, 1, 1, 8)
            && r.value.canId == CanId(0, 0)
            && r.value.pgn == 0 && r.value.spn == None && r.value.unit == ""
  {
  }

  /** The reported raw value and the transmitted one differ exactly when
      the scaled value does not fit the field: the frame then carries the
      field's maximum. */
  lemma ReportedRawExceedsFrame(physicalValue: real, config: SpnConfig)
    requires ConfigSpanFits(config)
    requires EncodeSpn(physicalValue, config).Success?
    ensures var f := EncodeSpn(physicalValue, config).value;
            var startByte, startBit, lengthBits := config.startByte.GetOr(1), config.startBit.GetOr(1), config.lengthBits.GetOr(8);
            (ReadBits(f.dataArray, StartPosition(startByte, startBit), lengthBits) == f.rawValue
             <==> f.rawValue <= Pow2(lengthBits) - 1)
  {
  }
}
