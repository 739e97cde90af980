/** Worked examples on the catalog's own signals. Lemmas that take the
    example's inputs as parameters constrained by `requires` reason from the
    contracts of the members they call, one step at a time. */
module Examples {
  import opened Wrappers
  import opened Bits
  import opened Frame
  import opened Encoder
  import opened Sorting
  import opened Catalog
  import opened Service

  /** PGN 61444 (0xF004) from source address 0: priority 6, PDU Format
      0xF0, and PDU Specific 0xFF because the PGN is at least 0xF000. */
  lemma EngineSpeedCanId(pgn: int, sourceAddress: int)
    requires pgn == 61444 && sourceAddress == 0
    ensures CanId(pgn, sourceAddress) == 0x18F0FF00
  {
    assert (pgn / 256) % 256 == 0xF0;
  }

  /** 1000 rpm at 0.125 rpm per bit is raw 8000 = 0x1F40. */
  lemma EngineSpeedRaw()
    ensures PhysicalToRaw(1000.0, 0.125, 0.0) == Success(8000)
  {
  }

  /** One iteration of `encode_value`'s loop for a field starting at bit
      24: iteration `n` writes `b`, bit `n` of `raw`, at position `24 + n`
      of the frame built so far, giving the frame after `next == n + 1`
      iterations. */
  lemma EngineSpeedStep(raw: int, n: nat, next: nat, before: seq<bv8>, b: nat, after: seq<bv8>)
    requires n < 16 && next == n + 1
    requires PackPrefix(raw, 24, n) == before && Bit(raw, n) == b
    requires after == before[(24 + n) / 8 := SetByteBit(before[(24 + n) / 8], (24 + n) % 8, b)]
    ensures PackPrefix(raw, 24, next) == after
  {
    assert after == WriteBit(before, 24 + n, b);
  }

  /** The sixteen low bits of 8000 = 0x1F40, least significant first. */
  lemma EngineSpeedBits()
    ensures Bit(8000, 0) == 0 && Bit(8000, 1) == 0 && Bit(8000, 2) == 0 && Bit(8000, 3) == 0
            && Bit(8000, 4) == 0 && Bit(8000, 5) == 0 && Bit(8000, 6) == 1 && Bit(8000, 7) == 0
            && Bit(8000, 8) == 1 && Bit(8000, 9) == 1 && Bit(8000, 10) == 1 && Bit(8000, 11) == 1
            && Bit(8000, 12) == 1 && Bit(8000, 13) == 0 && Bit(8000, 14) == 0 && Bit(8000, 15) == 0
  {
    assert ShiftRight(8000, 8) == 31;
    BitShift(8000, 5, 8);
    BitShift(8000, 6, 8);
    BitShift(8000, 7, 8);
  }

  /** Iteration 0 for raw 8000. */
  lemma EngineSpeedLoop1(raw: int)
    requires PackPrefix(raw, 24, 0) == [0, 0, 0, 0, 0, 0, 0, 0] && Bit(raw, 0) == 0
    ensures PackPrefix(raw, 24, 1) == [0, 0, 0, 0, 0, 0, 0, 0]
  {
    EngineSpeedStep(raw, 0, 1, [0, 0, 0, 0, 0, 0, 0, 0], 0, [0, 0, 0, 0, 0, 0, 0, 0]);
  }

  /** Iteration 1 for raw 8000. */
  lemma EngineSpeedLoop2(raw: int)
    requires PackPrefix(raw, 24, 1) == [0, 0, 0, 0, 0, 0, 0, 0] && Bit(raw, 1) == 0
    ensures PackPrefix(raw, 24, 2) == [0, 0, 0, 0, 0, 0, 0, 0]
  {
    EngineSpeedStep(raw, 1, 2, [0, 0, 0, 0, 0, 0, 0, 0], 0, [0, 0, 0, 0, 0, 0, 0, 0]);
  }

  /** Iteration 2 for raw 8000. */
  lemma EngineSpeedLoop3(raw: int)
    requires PackPrefix(raw, 24, 2) == [0, 0, 0, 0, 0, 0, 0, 0] && Bit(raw, 2) == 0
    ensures PackPrefix(raw, 24, 3) == [0, 0, 0, 0, 0, 0, 0, 0]
  {
    EngineSpeedStep(raw, 2, 3, [0, 0, 0, 0, 0, 0, 0, 0], 0, [0, 0, 0, 0, 0, 0, 0, 0]);
  }

  /** Iteration 3 for raw 8000. */
  lemma EngineSpeedLoop4(raw: int)
    requires PackPrefix(raw, 24, 3) == [0, 0, 0, 0, 0, 0, 0, 0] && Bit(raw, 3) == 0
    ensures PackPrefix(raw, 24, 4) == [0, 0, 0, 0, 0, 0, 0, 0]
  {
    EngineSpeedStep(raw, 3, 4, [0, 0, 0, 0, 0, 0, 0, 0], 0, [0, 0, 0, 0, 0, 0, 0, 0]);
  }

  /** Iteration 4 for raw 8000. */
  lemma EngineSpeedLoop5(raw: int)
    requires PackPrefix(raw, 24, 4) == [0, 0, 0, 0, 0, 0, 0, 0] && Bit(raw, 4) == 0
    ensures PackPrefix(raw, 24, 5) == [0, 0, 0, 0, 0, 0, 0, 0]
  {
    EngineSpeedStep(raw, 4, 5, [0, 0, 0, 0, 0, 0, 0, 0], 0, [0, 0, 0, 0, 0, 0, 0, 0]);
  }

  /** Iteration 5 for raw 8000. */
  lemma EngineSpeedLoop6(raw: int)
    requires PackPrefix(raw, 24, 5) == [0, 0, 0, 0, 0, 0, 0, 0] && Bit(raw, 5) == 0
    ensures PackPrefix(raw, 24, 6) == [0, 0, 0, 0, 0, 0, 0, 0]
  {
    EngineSpeedStep(raw, 5, 6, [0, 0, 0, 0, 0, 0, 0, 0], 0, [0, 0, 0, 0, 0, 0, 0, 0]);
  }

  /** Iteration 6 for raw 8000. */
  lemma EngineSpeedLoop7(raw: int)
    requires PackPrefix(raw, 24, 6) == [0, 0, 0, 0, 0, 0, 0, 0] && Bit(raw, 6) == 1
    ensures PackPrefix(raw, 24, 7) == [0, 0, 0, 0x40, 0, 0, 0, 0]
  {
    EngineSpeedStep(raw, 6, 7, [0, 0, 0, 0, 0, 0, 0, 0], 1, [0, 0, 0, 0x40, 0, 0, 0, 0]);
  }

  /** Iteration 7 for raw 8000. */
  lemma EngineSpeedLoop8(raw: int)
    requires PackPrefix(raw, 24, 7) == [0, 0, 0, 0x40, 0, 0, 0, 0] && Bit(raw, 7) == 0
    ensures PackPrefix(raw, 24, 8) == [0, 0, 0, 0x40, 0, 0, 0, 0]
  {
    EngineSpeedStep(raw, 7, 8, [0, 0, 0, 0x40, 0, 0, 0, 0], 0, [0, 0, 0, 0x40, 0, 0, 0, 0]);
  }

  /** Iteration 8 for raw 8000. */
  lemma EngineSpeedLoop9(raw: int)
    requires PackPrefix(raw, 24, 8) == [0, 0, 0, 0x40, 0, 0, 0, 0] && Bit(raw, 8) == 1
    ensures PackPrefix(raw, 24, 9) == [0, 0, 0, 0x40, 0x1, 0, 0, 0]
  {
    EngineSpeedStep(raw, 8, 9, [0, 0, 0, 0x40, 0, 0, 0, 0], 1, [0, 0, 0, 0x40, 0x1, 0, 0, 0]);
  }

  /** Iteration 9 for raw 8000. */
  lemma EngineSpeedLoop10(raw: int)
    requires PackPrefix(raw, 24, 9) == [0, 0, 0, 0x40, 0x1, 0, 0, 0] && Bit(raw, 9) == 1
    ensures PackPrefix(raw, 24, 10) == [0, 0, 0, 0x40, 0x3, 0, 0, 0]
  {
    EngineSpeedStep(raw, 9, 10, [0, 0, 0, 0x40, 0x1, 0, 0, 0], 1, [0, 0, 0, 0x40, 0x3, 0, 0, 0]);
  }

  /** Iteration 10 for raw 8000. */
  lemma EngineSpeedLoop11(raw: int)
    requires PackPrefix(raw, 24, 10) == [0, 0, 0, 0x40, 0x3, 0, 0, 0] && Bit(raw, 10) == 1
    ensures PackPrefix(raw, 24, 11) == [0, 0, 0, 0x40, 0x7, 0, 0, 0]
  {
    EngineSpeedStep(raw, 10, 11, [0, 0, 0, 0x40, 0x3, 0, 0, 0], 1, [0, 0, 0, 0x40, 0x7, 0, 0, 0]);
  }

  /** Iteration 11 for raw 8000. */
  lemma EngineSpeedLoop12(raw: int)
    requires PackPrefix(raw, 24, 11) == [0, 0, 0, 0x40, 0x7, 0, 0, 0] && Bit(raw, 11) == 1
    ensures PackPrefix(raw, 24, 12) == [0, 0, 0, 0x40, 0xF, 0, 0, 0]
  {
    EngineSpeedStep(raw, 11, 12, [0, 0, 0, 0x40, 0x7, 0, 0, 0], 1, [0, 0, 0, 0x40, 0xF, 0, 0, 0]);
  }

  /** Iteration 12 for raw 8000. */
  lemma EngineSpeedLoop13(raw: int)
    requires PackPrefix(raw, 24, 12) == [0, 0, 0, 0x40, 0xF, 0, 0, 0] && Bit(raw, 12) == 1
    ensures PackPrefix(raw, 24, 13) == [0, 0, 0, 0x40, 0x1F, 0, 0, 0]
  {
    EngineSpeedStep(raw, 12, 13, [0, 0, 0, 0x40, 0xF, 0, 0, 0], 1, [0, 0, 0, 0x40, 0x1F, 0, 0, 0]);
  }

  /** Iteration 13 for raw 8000. */
  lemma EngineSpeedLoop14(raw: int)
    requires PackPrefix(raw, 24, 13) == [0, 0, 0, 0x40, 0x1F, 0, 0, 0] && Bit(raw, 13) == 0
    ensures PackPrefix(raw, 24, 14) == [0, 0, 0, 0x40, 0x1F, 0, 0, 0]
  {
    EngineSpeedStep(raw, 13, 14, [0, 0, 0, 0x40, 0x1F, 0, 0, 0], 0, [0, 0, 0, 0x40, 0x1F, 0, 0, 0]);
  }

  /** Iteration 14 for raw 8000. */
  lemma EngineSpeedLoop15(raw: int)
    requires PackPrefix(raw, 24, 14) == [0, 0, 0, 0x40, 0x1F, 0, 0, 0] && Bit(raw, 14) == 0
    ensures PackPrefix(raw, 24, 15) == [0, 0, 0, 0x40, 0x1F, 0, 0, 0]
  {
    EngineSpeedStep(raw, 14, 15, [0, 0, 0, 0x40, 0x1F, 0, 0, 0], 0, [0, 0, 0, 0x40, 0x1F, 0, 0, 0]);
  }

  /** Iteration 15 for raw 8000. */
  lemma EngineSpeedLoop16(raw: int)
    requires PackPrefix(raw, 24, 15) == [0, 0, 0, 0x40, 0x1F, 0, 0, 0] && Bit(raw, 15) == 0
    ensures PackPrefix(raw, 24, 16) == [0, 0, 0, 0x40, 0x1F, 0, 0, 0]
  {
    EngineSpeedStep(raw, 15, 16, [0, 0, 0, 0x40, 0x1F, 0, 0, 0], 0, [0, 0, 0, 0x40, 0x1F, 0, 0, 0]);
  }

  /** All sixteen iterations for raw 8000 from bit 24. */
  lemma EngineSpeedPacking(raw: int)
    requires raw == 8000
    ensures PackPrefix(raw, 24, 16) == [0, 0, 0, 0x40, 0x1F, 0, 0, 0]
  {
    EngineSpeedBits();
    EngineSpeedLoop1(raw);
    EngineSpeedLoop2(raw);
    EngineSpeedLoop3(raw);
    EngineSpeedLoop4(raw);
    EngineSpeedLoop5(raw);
    EngineSpeedLoop6(raw);
    EngineSpeedLoop7(raw);
    EngineSpeedLoop8(raw);
    EngineSpeedLoop9(raw);
    EngineSpeedLoop10(raw);
    EngineSpeedLoop11(raw);
    EngineSpeedLoop12(raw);
    EngineSpeedLoop13(raw);
    EngineSpeedLoop14(raw);
    EngineSpeedLoop15(raw);
    EngineSpeedLoop16(raw);
  }

  /** 8000 in the 16 bits from byte 4: `00 00 00 40 1F 00 00 00`. */
  lemma EngineSpeedFrame()
    ensures Pack(8000, 4, 1, 16) == [0, 0, 0, 0x40, 0x1F, 0, 0, 0]
  {
    EngineSpeedPacking(8000);
  }

  /** The encode route for `engine_speed` at 1000 rpm. */
  lemma EngineSpeedRoute(request: EncodeRequest)
    requires request == EncodeRequest(Some("engine_speed"), Some(1000.0))
    ensures var r := EncodeRoute(request);
            && r.Success?
            && r.value.rawValue == 8000
            && r.value.dataArray == [0, 0, 0, 0x40, 0x1F, 0, 0, 0]
            && r.value.canId == 0x18F0FF00
            && r.value.pgn == 61444 && r.value.spn == Some(190)
  {
    TablesAreDictionaries();
    FindEntry(LiveSignals, 0);
    var signal := LiveSignals[0].1;
    assert Find(LiveSignals, request.signalId.value) == Some(signal);
    EngineSpeedRaw();
    EngineSpeedFrame();
    EngineSpeedCanId(61444, 0);
  }

  /** A signal name that is not a key of `LIVE_SIGNALS` is answered with
      the 400 error. */
  lemma UnknownSignalRejected()
    ensures EncodeRoute(EncodeRequest(Some("oil_pressure"), Some(3.0))) == Failure(InvalidSignalId)
  {
  }

  /** The PGN listing comes out as 61444, 65265, 65269. */
  lemma PgnListingOrder()
    ensures var pgns := SortBy(PgnSummaries(PgnDatabase), PgnKey);
            |pgns| == 3 && pgns[0].pgn == 61444 && pgns[1].pgn == 65265 && pgns[2].pgn == 65269
  {
    var listed := PgnSummaries(PgnDatabase);
    assert listed[0].pgn == 61444 && listed[1].pgn == 65265 && listed[2].pgn == 65269;
    SortByOfSorted(listed, PgnKey);
  }
}
