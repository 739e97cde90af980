/** The 8-byte CAN data field and the LSB-first bit packing of
    `J1939Encoder.encode_value` (backend/app.py:202-224). */
module Frame {
  import opened Bits

  /** Bit `j` (0 = least significant) of one byte, as 0 or 1. */
  function ByteBit(b: bv8, j: nat): (r: nat)
    requires j < 8
    ensures r < 2
  {
    if (b >> (j as bv8)) & 1 == 1 then 1 else 0
  }

  /** Absolute bit `p` of an 8-byte frame: bit `p % 8` of byte `p / 8`. */
  function FrameBit(data: seq<bv8>, p: nat): (r: nat)
    requires |data| == 8 && p < 64
    ensures r < 2
  {
    ByteBit(data[p / 8], p % 8)
  }

  /** `x | (1 << j)`: the byte with bit `j` set (line 220). */
  function OrMask(x: bv8, j: nat): bv8
    requires j < 8
  {
    x | ((1 as bv8) << (j as bv8))
  }

  /** `x & ~(1 << j)`: the byte with bit `j` cleared (line 222). */
  function AndNotMask(x: bv8, j: nat): bv8
    requires j < 8
  {
    x & !((1 as bv8) << (j as bv8))
  }

  /** One iteration of the packing loop on the byte it touches
      (lines 219-222): set bit `j` when the value's bit is 1, clear it
      when it is 0. */
  function SetByteBit(x: bv8, j: nat, bit: nat): bv8
    requires j < 8
  {
    if bit != 0 then OrMask(x, j) else AndNotMask(x, j)
  }

  lemma OrShiftBit(x: bv8, jb: bv8, kb: bv8)
    requires jb < 8 && kb < 8
    ensures ((x | ((1 as bv8) << jb)) >> kb) & 1 == if jb == kb then 1 else (x >> kb) & 1
  {
  }

  lemma AndNotShiftBit(x: bv8, jb: bv8, kb: bv8)
    requires jb < 8 && kb < 8
    ensures ((x & !((1 as bv8) << jb)) >> kb) & 1 == if jb == kb then 0 else (x >> kb) & 1
  {
  }

  /** SetByteBit gives bit `j` the new value and keeps the other seven. */
  lemma SetByteBitEffect(x: bv8, j: nat, bit: nat, k: nat)
    requires j < 8 && k < 8 && bit < 2
    ensures ByteBit(SetByteBit(x, j, bit), k) == if j == k then bit else ByteBit(x, k)
  {
    if bit != 0 {
      OrMaskBit(x, j, k);
    } else {
      AndNotMaskBit(x, j, k);
    }
  }

  lemma OrMaskBit(x: bv8, j: nat, k: nat)
    requires j < 8 && k < 8
    ensures ByteBit(OrMask(x, j), k) == if j == k then 1 else ByteBit(x, k)
  {
    OrShiftBit(x, j as bv8, k as bv8);
  }

  lemma AndNotMaskBit(x: bv8, j: nat, k: nat)
    requires j < 8 && k < 8
    ensures ByteBit(AndNotMask(x, j), k) == if j == k then 0 else ByteBit(x, k)
  {
    AndNotShiftBit(x, j as bv8, k as bv8);
  }

  /** The packing loop's update of absolute bit `p` of the frame. */
  function WriteBit(data: seq<bv8>, p: nat, bit: nat): (r: seq<bv8>)
    requires |data| == 8 && p < 64
    ensures |r| == 8
  {
    data[p / 8 := SetByteBit(data[p / 8], p % 8, bit)]
  }

  /** WriteBit changes bit `p` to `bit` and no other bit of the frame. */
  lemma WriteBitEffect(data: seq<bv8>, p: nat, bit: nat)
    requires |data| == 8 && p < 64 && bit < 2
    ensures forall q :: 0 <= q < 64 ==>
              FrameBit(WriteBit(data, p, bit), q) == if q == p then bit else FrameBit(data, q)
  {
    forall q | 0 <= q < 64
      ensures FrameBit(WriteBit(data, p, bit), q) == if q == p then bit else FrameBit(data, q)
    {
      if q / 8 == p / 8 {
        SamePosition(p, q);
        SetByteBitEffect(data[p / 8], p % 8, bit, q % 8);
      } else {
        assert WriteBit(data, p, bit)[q / 8] == data[q / 8];
      }
    }
  }

  lemma SamePosition(p: nat, q: nat)
    requires q / 8 == p / 8
    ensures q == p <==> q % 8 == p % 8
  {
  }

  /** The all-zero frame, `bytearray(8)`. */
  function ZeroFrame(): (r: seq<bv8>)
    ensures |r| == 8
  {
    [0, 0, 0, 0, 0, 0, 0, 0]
  }

  /** Every bit of the zero frame is 0. */
  lemma ZeroFrameBit()
    ensures forall p :: 0 <= p < 64 ==> FrameBit(ZeroFrame(), p) == 0
  {
    assert forall i | 0 <= i < 8 :: ZeroFrame()[i] == 0;
  }

  /** Absolute bit position of the first bit of a signal, from the 1-based
      `start_byte` and `start_bit` (lines 206-207, 216-217). */
  function StartPosition(startByte: int, startBit: int): int
  {
    (startByte - 1) * 8 + (startBit - 1)
  }

  /** A span `encode_value` can write without leaving the buffer: a
      non-negative width and, when any bit is written, every written
      position inside `[0, 64)`. */
  predicate SpanFits(startByte: int, startBit: int, lengthBits: int)
  {
    lengthBits >= 0 &&
    (lengthBits == 0 ||
     (0 <= StartPosition(startByte, startBit) && StartPosition(startByte, startBit) + lengthBits <= 64))
  }

  /** `raw_value` after the saturating clamp of lines 209-211. */
  function Saturate(raw: int, lengthBits: nat): (r: int)
    ensures r <= Pow2(lengthBits) - 1
    ensures raw >= 0 ==> 0 <= r
    ensures r == raw || (raw > Pow2(lengthBits) - 1 && r == Pow2(lengthBits) - 1)
  {
    var maxValue := Pow2(lengthBits) - 1;
    if raw > maxValue then maxValue else raw
  }

  /** The frame after the first `n` iterations of the loop of lines 213-222,
      writing bit `i` of `raw` at absolute position `start + i`: inside the
      part of the span written so far sit the value's bits, and every other
      bit is 0. */
  function PackPrefix(raw: int, start: int, n: nat): (r: seq<bv8>)
    requires n == 0 || (0 <= start && start + n <= 64)
    ensures |r| == 8
    ensures forall p :: 0 <= p < 64 ==>
              FrameBit(r, p) == if start <= p < start + n then Bit(raw, p - start) else 0
  {
    if n == 0 then ZeroFrameBit(); ZeroFrame()
    else
      var before := PackPrefix(raw, start, n - 1);
      WriteBitEffect(before, start + n - 1, Bit(raw, n - 1));
      WriteBit(before, start + n - 1, Bit(raw, n - 1))
  }

  /** Reads `n` bits LSB-first from absolute position `start`: the inverse
      of packing, as a receiver decodes the signal. */
  function ReadBits(data: seq<bv8>, start: int, n: nat): int
    requires |data| == 8
    requires n == 0 || (0 <= start && start + n <= 64)
  {
    if n == 0 then 0 else ReadBits(data, start, n - 1) + FrameBit(data, start + n - 1) * Pow2(n - 1)
  }

  /** Reading back the first `n` written bits of a packed frame gives the
      low `n` bits of the value that was packed. */
  lemma {:induction false} ReadBackPrefix(raw: int, start: int, len: nat, n: nat)
    requires len == 0 || (0 <= start && start + len <= 64)
    requires n <= len
    ensures ReadBits(PackPrefix(raw, start, len), start, n) == LowBits(raw, n)
  {
    if n > 0 {
      var p := start + n - 1;
      ReadBackPrefix(raw, start, len, n - 1);
      assert FrameBit(PackPrefix(raw, start, len), p) == Bit(raw, n - 1);
    }
  }

  /** The frame `encode_value(raw, start_byte, start_bit, length_bits)`
      returns. Inside the span sit the bits of the saturated value, least
      significant first, and every other bit is 0. A receiver decoding
      `length_bits` bits LSB-first from the signal's start gets the low bits
      of the saturated value; for a non-negative raw value that is exactly
      `min(raw, 2^length_bits - 1)`. */
  function Pack(raw: int, startByte: int, startBit: int, lengthBits: int): (r: seq<bv8>)
    requires SpanFits(startByte, startBit, lengthBits)
    ensures |r| == 8
    ensures var start := StartPosition(startByte, startBit);
            forall p :: 0 <= p < 64 ==>
              FrameBit(r, p) == if start <= p < start + lengthBits then Bit(Saturate(raw, lengthBits), p - start) else 0
    ensures ReadBits(r, StartPosition(startByte, startBit), lengthBits) == LowBits(Saturate(raw, lengthBits), lengthBits)
    ensures 0 <= ReadBits(r, StartPosition(startByte, startBit), lengthBits) < Pow2(lengthBits)
    ensures raw >= 0 ==>
              ReadBits(r, StartPosition(startByte, startBit), lengthBits)
              == if raw > Pow2(lengthBits) - 1 then Pow2(lengthBits) - 1 else raw
  {
    var value, start := Saturate(raw, lengthBits), StartPosition(startByte, startBit);
    ReadBackPrefix(value, start, lengthBits, lengthBits);
    LowBitsRange(value, lengthBits);
    if raw >= 0 then
      LowBitsOfSmall(value, lengthBits);
      PackPrefix(value, start, lengthBits)
    else
      PackPrefix(value, start, lengthBits)
  }

  /** Iteration `i` of `encode_value`'s loop addresses byte
      `byte_idx + (bit_idx + i) // 8` and bit `(bit_idx + i) % 8`
      (lines 216-217): byte `p / 8` and bit `p % 8` of the absolute position
      `p = 8 * byte_idx + bit_idx + i`. Python's `//` floors, as Dafny's `/`
      does for the positive divisor 8. */
  lemma StorePosition(byteIdx: int, bitIdx: int, i: nat)
    ensures (8 * byteIdx + bitIdx + i) / 8 == byteIdx + (bitIdx + i) / 8
    ensures (8 * byteIdx + bitIdx + i) % 8 == (bitIdx + i) % 8
  {
  }

  /** The body of one iteration of `encode_value`'s loop at absolute bit
      position `p`: set (`|=`) or clear (`&= ~`) bit `p % 8` of byte `p / 8`
      in place. `StorePosition` shows this is the byte and bit the source
      computes from `byte_idx`, `bit_idx` and `i`. */
  method StoreBit(data: array<bv8>, p: int, bitValue: nat)
    requires data.Length == 8 && 0 <= p < 64
    modifies data
    ensures data[..] == WriteBit(old(data[..]), p, bitValue)
  {
    var currentByte := p / 8;
    var currentBit := p % 8;
    if bitValue != 0 {
      data[currentByte] := OrMask(data[currentByte], currentBit);
    } else {
      data[currentByte] := AndNotMask(data[currentByte], currentBit);
    }
  }

  /** The loop of `encode_value`: bit `i` of `raw` (LSB first) goes to
      absolute position `start + i`, for `i` in `range(length_bits)`. */
  method WriteBits(data: array<bv8>, raw: int, start: int, lengthBits: nat)
    requires data.Length == 8 && data[..] == ZeroFrame()
    requires lengthBits == 0 || (0 <= start && start + lengthBits <= 64)
    modifies data
    ensures data[..] == PackPrefix(raw, start, lengthBits)
  {
    for i := 0 to lengthBits
      invariant data[..] == PackPrefix(raw, start, i)
    {
      var bitValue := Bit(raw, i);
      StoreBit(data, start + i, bitValue);
    }
  }

  /** `J1939Encoder.encode_value`: a fresh zeroed 8-byte buffer, the raw
      value clamped to the field's width, then the loop above. */
  method EncodeValue(rawValue: int, startByte: int, startBit: int, lengthBits: int) returns (data: array<bv8>)
    requires SpanFits(startByte, startBit, lengthBits)
    ensures fresh(data) && data.Length == 8
    ensures data[..] == Pack(rawValue, startByte, startBit, lengthBits)
  {
    data := new bv8[8](_ => 0);
    var byteIdx := startByte - 1;
    var bitIdx := startBit - 1;
    var maxValue := Pow2(lengthBits) - 1;
    var raw := rawValue;
    if raw > maxValue {
      raw := maxValue;
    }
    assert raw == Saturate(rawValue, lengthBits);
    WriteBits(data, raw, byteIdx * 8 + bitIdx, lengthBits);
  }
}
