# J1939 signal encoder — verified model

A Dafny model of the encoding core of the J1939 signal encoder web service
(`backend/app.py`). It covers:

- the `J1939Encoder` class: the CAN identifier, physical-to-raw
  scaling, bit packing into the 8-byte data field, and `encode_spn`;
- the static signal catalog (`PGN_DATABASE`, `LIVE_SIGNALS`);
- the listing and lookup logic of the request handlers.

The HTTP layer is not modelled. Each handler's JSON body is the return
value of a function or method.

Modules:

- `Wrappers`: `Option` and `Result`.
- `Bits`: Python's unbounded integers seen as bit strings. These are `>>`, `1 << n`,
  `(x >> i) & 1` and the low `n` bits of a number. Every definition divides by 2 only.
- `Frame`: `encode_value` as an imperative method on an `array<bv8>`
  (`EncodeValue` calls the loop `WriteBits`, whose body is the one-bit store `StoreBit`).
  The methods are proved against the pure function `Pack`, whose contract
  gives every bit of the frame and the value a receiver reads back.
- `Encoder`: `calculate_can_id` (as `CanId`, on `bv32`), `physical_to_raw`
  (over `real`, with an explicit round-half-to-even), the upper-case hex
  text of the data field, and `encode_spn` with its dictionary defaults.
- `Sorting`: Python's `sorted(..., key=...)` as an insertion sort, proved sorted
  and a permutation.
- `Catalog`: the two tables as sequences of (key, value) pairs in insertion
  order, `in` plus indexing as `Find`, and the well-formedness of the tables.
- `Service`: the `get_pgns`, `get_spns` and `get_live_signals` handlers as
  methods with the handlers' append loops, and the encode route as a function.
- `Examples`: the worked example, `engine_speed` at 1000 rpm. It gives raw 8000 =
  0x1F40, data `00 00 00 40 1F 00 00 00` and identifier 0x18F0FF00.

The identifier layout looks like J1939-21 but departs from it on purpose;
the model follows the code:

- PDU Specific becomes 0xFF for every PGN of at least 0xF000. The standard
  instead switches on the PDU Format byte being at least 240.
- The priority is always 6. The catalog's own `priority` is ignored.

One intended invariant does not hold for the code, and the model follows
the code:

- The intended invariant is that `raw_value` never exceeds
  `2^length_bits - 1`. The code reports the *unclamped* result of
  `physical_to_raw` as `raw_value` (lines 235, 243). Only the data field
  holds the saturated value.
  `Encoder.EncodeSpn` states this, and `Encoder.ReportedRawExceedsFrame`
  shows exactly when the two differ.

## Model

| member | source | states |
|---|---|---|
| Encoder.CanId | backend/app.py:172-190 | for every PGN and source address: the identifier is below 2^29; bits 26-28 hold 6; bits 24-25 are 0; bits 16-23 are `(pgn >> 8) & 0xFF`; bits 8-15 are 0xFF when `pgn >= 0xF000` and `pgn & 0xFF` otherwise; bits 0-7 are `source_address & 0xFF` |
| Encoder.Layout | backend/app.py:183-188 | the chain of or-assignments places each field that fits its width where it reads back unchanged, bits 24-25 are 0, and the result is below 2^29 |
| Encoder.RoundHalfEven | backend/app.py:198 | Python's `round` on an exact value: within 0.5 of the input, and even on a tie |
| Encoder.PhysicalToRaw | backend/app.py:193-199 | fails, with the zero-resolution error, exactly when the resolution is 0; otherwise never negative: 0 when the scaled value is at most 0.5, else within 0.5 of `(value - offset) / resolution`, and even when it lies exactly halfway between two integers (Python's `round` ties to even) |
| Encoder.RawReconstructs | backend/app.py:193-199 | for a non-zero resolution and a scaled value not below -0.5, `raw * resolution + offset` is within half a resolution step of the physical value |
| Encoder.HalfStep | backend/app.py:198 | a rounding error of at most half a unit scales to at most half a resolution step |
| Encoder.HexDigitValue | backend/app.py:246 | a character accepted as an upper-case hex digit is the digit of the nibble it is read as |
| Encoder.HexUpper | backend/app.py:246 | `data.hex().upper()` has two characters per byte (16 for the frame) |
| Encoder.HexUpperAt | backend/app.py:246 | characters `2i` and `2i + 1` are the high and the low nibble of byte `i` |
| Encoder.HexDigitRoundTrip | backend/app.py:246 | every nibble's hex digit reads back as that nibble |
| Encoder.EncodeSpn | backend/app.py:227-256 | missing keys default to resolution 1.0, offset 0, start byte 1, start bit 1, 8 bits, PGN 0 and unit ""; fails exactly on a zero resolution; `raw_value` is the unclamped `physical_to_raw` result; `data_array` is the 8-byte packing of it, which reads back as `min(raw, 2^length_bits - 1)`; `data_bytes` is the upper-case hex text of `data_array`, 16 characters; `can_id` is `calculate_can_id(pgn)` with source address 0 |
| Encoder.EncodeSpnDefaults | backend/app.py:229-239 | an empty configuration encodes with scale 1, offset 0, the value in byte 1, 8 bits and identifier `calculate_can_id(0)` |
| Encoder.ReportedRawExceedsFrame | backend/app.py:208-211 | the frame's read-back equals the reported `raw_value` exactly when that value fits in `length_bits` bits |
| Bits.Pow2 | backend/app.py:209 | `1 << n` is at least 1, so `max_value = (1 << n) - 1` is never negative |
| Bits.MaxValueBits | backend/app.py:209 | `max_value = (1 << n) - 1` has exactly its low `n` bits set: bit `i` is 1 for `i < n` and 0 from `n` up |
| Bits.Bit | backend/app.py:214 | `(raw_value >> i) & 0x01` is 0 or 1 |
| Bits.BitComplement | backend/app.py:214 | `-x - 1` (Python's `~x`) has every bit of `x` flipped, so for a negative value `Bit` yields its two's-complement bits, as Python's unbounded ints do |
| Bits.BitShift | backend/app.py:214 | bit `i + k` of a number is bit `i` of the number shifted right by `k` |
| Bits.LowBitsOfSmall | backend/app.py:208-214 | a number in `[0, 2^n)` is spelled exactly by its low `n` bits |
| Bits.LowBitsRange | backend/app.py:208 | the low `n` bits of any number lie in `[0, 2^n)` |
| Bits.LowBitsHalf | backend/app.py:214 | the low `n` bits are the last bit followed by the low `n - 1` bits of half the number |
| Frame.Saturate | backend/app.py:208-211 | the clamp yields at most `2^length_bits - 1`, keeps a value that fits, and never makes a non-negative value negative |
| Frame.SetByteBitEffect | backend/app.py:219-222 | or-ing in `1 << j` sets bit `j` of the byte, and-ing with `~(1 << j)` clears it, and both leave the other seven bits alone |
| Frame.WriteBitEffect | backend/app.py:216-222 | writing one bit of the frame changes that bit to the value written and no other bit of the 8 bytes |
| Frame.ZeroFrameBit | backend/app.py:204 | every one of the 64 bits of `bytearray(8)` is 0 |
| Frame.StoreBit | backend/app.py:216-222 | one iteration's in-place byte update is the frame with exactly bit `p` set to `bitValue` |
| Frame.StorePosition | backend/app.py:216-217 | the byte `byte_idx + (bit_idx + i) // 8` and bit `(bit_idx + i) % 8` of iteration `i` are byte `p / 8` and bit `p % 8` of the absolute position `p = 8 * byte_idx + bit_idx + i` |
| Frame.WriteBits | backend/app.py:213-222 | after the loop, the buffer equals the frame with the low `length_bits` bits of the value written LSB-first from the start position |
| Frame.EncodeValue | backend/app.py:202-224 | for every span inside the 8 bytes, a fresh 8-byte buffer equal to `Frame.Pack` of the clamped value, whose contract gives its bits and read-back |
| Frame.PackPrefix | backend/app.py:213-222 | after `n` iterations, each bit inside the written part of the span is the value's bit, least significant first, and every other bit is 0 |
| Frame.ReadBackPrefix | backend/app.py:213-222 | reading the first `n` written bits back LSB-first gives the low `n` bits of the packed value |
| Frame.Pack | backend/app.py:202-224 | the 8 bytes `encode_value` returns: each bit inside the span `[(start_byte-1)*8 + start_bit-1, ... + length_bits)` is the saturated value's bit, least significant first, and each bit outside is 0; reading `length_bits` bits back LSB-first gives the low bits of the saturated value, always in `[0, 2^length_bits)` even for a negative value, and for a non-negative value exactly `min(raw, 2^length_bits - 1)` |
| Sorting.SortBy | backend/app.py:280 | the result of `sorted` has the input's length, is in ascending key order and has exactly the elements of its input |
| Sorting.SortByOfSorted | backend/app.py:301 | sorting a list already in key order leaves it unchanged |
| Catalog.Find | backend/app.py:285-289 | `key in table` fails exactly when no entry has the key; a found value belongs to an entry with that key |
| Catalog.FindEntry | backend/app.py:311-314 | in a dictionary, looking up an entry's key finds that entry's value |
| Catalog.TablesAreDictionaries | backend/app.py:27-166 | no key occurs twice in `PGN_DATABASE`, in any of its SPN tables, or in `LIVE_SIGNALS` |
| Catalog.LiveSignalsEncodable | backend/app.py:109-166 | every live signal has a non-zero resolution and a bit span inside the 8-byte frame |
| Catalog.CatalogWellFormed | backend/app.py:27-106 | every SPN of the database has a non-zero resolution and a span inside the 8-byte frame |
| Catalog.LiveSignalsMatchCatalog | backend/app.py:27-166 | each live signal names an SPN of the database with the same resolution, offset, bit span and unit |
| Catalog.FoundSignalEncodable | backend/app.py:311-317 | a signal found by name can be encoded |
| Service.GetPgns | backend/app.py:270-280 | the listing is sorted ascending by PGN and holds exactly one entry per PGN of the database |
| Service.GetSpns | backend/app.py:282-301 | an unknown PGN gives the empty list, not an error; a known one gives its SPNs, sorted ascending by SPN, each exactly once |
| Service.ConfigOf | backend/app.py:314-317 | the configuration of an encodable live signal has a span that fits and a non-zero resolution |
| Service.EncodeRoute | backend/app.py:303-322 | a missing or unknown `signal_id` gives the invalid-signal error, before any encoding; a known one gives `encode_spn` of its `LIVE_SIGNALS` entry at the given value (default 0), which succeeds for every real value |
| Service.RangeEncodes | backend/app.py:192-199 | a value between the offset and a top that scales below `2^length_bits - 0.5`, at a positive resolution, encodes successfully, reconstructs within half a step and fits the field |
| Service.LiveSignalRangeEncodes | backend/app.py:108-166 | for every `LIVE_SIGNALS` entry and every value in `[min_physical, max_physical]`, `physical_to_raw` succeeds, `raw * resolution + offset` is within half a step of the value, and the raw value fits the field, so `encode_value` does not clamp it |
| Service.GetLiveSignals | backend/app.py:324-347 | every live signal once, in declaration order, with its configuration |
| Examples.EngineSpeedCanId | backend/app.py:172-190 | PGN 61444 from source address 0 gives identifier 0x18F0FF00 |
| Examples.EngineSpeedRaw | backend/app.py:110-123 | 1000 rpm at 0.125 rpm/bit with offset 0 gives raw 8000 |
| Examples.EngineSpeedBits | backend/app.py:214 | the values `(8000 >> i) & 1` for `i` in 0..15: ones at bits 6 and 8-12, zeros elsewhere (8000 = 0x1F40) |
| Examples.EngineSpeedStep | backend/app.py:213-222 | one loop iteration for a field at bit 24 writes bit `n` of `raw` at position `24 + n` |
| Examples.EngineSpeedPacking | backend/app.py:213-222 | sixteen iterations for raw 8000 from bit 24 give `00 00 00 40 1F 00 00 00` |
| Examples.EngineSpeedFrame | backend/app.py:202-224 | `encode_value(8000, 4, 1, 16)` is `00 00 00 40 1F 00 00 00` |
| Examples.EngineSpeedRoute | backend/app.py:303-322 | encoding `engine_speed` at 1000 gives raw 8000, that frame, identifier 0x18F0FF00, PGN 61444 and SPN 190 |
| Examples.UnknownSignalRejected | backend/app.py:311-312 | `oil_pressure`, which is not a key of `LIVE_SIGNALS`, is answered with the invalid-signal error (the general rule is the second `ensures` of `Service.EncodeRoute`) |
| Examples.PgnListingOrder | backend/app.py:270-280 | the PGN listing is 61444, 65265, 65269 |

## Left out

- Flask routing, `request.json`, `jsonify`, status codes, CORS, templates
  and static files (lines 1-24, 265-268, 401-407). The error answers are
  kept as `RouteError` values.
- `float(data.get('physical_value', 0))` and the 500 answer raised when it
  fails: the request carries the number already parsed, as an optional
  `real`.
- The SocketIO events and the live simulation (lines 349-399): the worker
  thread, the shared `live_simulation_active` flag, `random.uniform`,
  `time.sleep` and `time.time`. These are concurrency, timing and
  randomness, and they reuse `encode_spn` unchanged.
- Encoder.PhysicalToRaw: works on exact `real`s, not IEEE doubles. The
  catalog's resolutions (0.125, 1/256, 0.03125) are exact in both, but
  values such as 250.996 and the quotient `(value - offset) / resolution`
  are rounded in a double and not here. The model claims no float-exact
  result except for exactly representable inputs, such as the worked example.
  Reals also have no NaN or infinity. In Python, a NaN or infinite
  `physical_value`, or a quotient that overflows to infinity (1e308 at
  resolution 0.125), makes `round` at line 198 raise, and the encode route
  answers 500. The model has no such path: its "fails exactly on a zero
  resolution" and the route's success hold for every real value only.
- Formatting of `raw_hex`, `raw_binary`, `can_id_hex`, `pgn_hex` and the
  listing's `hex` fields. `data_bytes` is modelled: `Encoder.EncodeSpn`
  states it is `Encoder.HexUpper` of the data field, whose length and
  per-character layout are proved.
- The catalog's `priority`, `dlc`, `min_oper`, `max_oper` and
  `transmission_rate` fields of `PGN_DATABASE`, which no modelled
  code reads. `min_data` and `max_data` are kept in `Catalog.SpnDefinition`
  as table data only; no modelled code reads them either.
- Frame.EncodeValue:
  - Requires the written span to lie inside bits 0-63. Outside that span,
    Python raises `IndexError`, which the encode route turns into its
    500 answer.
  - For indices -8 to -1 Python instead wraps to the end of the buffer.
    Neither path is modelled, and no catalog entry reaches either.
  - A negative `length_bits` makes `1 << length_bits` raise `ValueError`.
    The precondition excludes it too.
- Encoder.EncodeSpn: requires the defaulted span to fit, for the reason
  above. It describes the data field through `Frame.Pack`, the function
  `Frame.EncodeValue` is proved to compute, because a function cannot call
  a method.
- Sorting.SortBy: stability is not proved. Every key in each list sorted
  here is distinct (`Catalog.TablesAreDictionaries`), so the sorted list is
  determined by sortedness and the permutation.
