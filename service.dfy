/** The catalog and encoding logic of the request handlers (backend/app.py:270-347),
    without the HTTP layer: each handler's JSON body becomes its return value. */
module Service {
  import opened Wrappers
  import opened Bits
  import opened Sorting
  import opened Catalog
  import opened Encoder

  // ---------------------------------------------------------------------
  // GET /api/pgns (lines 270-280)
  // ---------------------------------------------------------------------

  /** One entry of the PGN listing; the `hex` text is formatting only. */
  datatype PgnSummary = PgnSummary(pgn: int, name: string)

  function PgnKey(p: PgnSummary): int { p.pgn }

  function PgnSummaryOf(entry: (int, ParameterGroup)): PgnSummary
  {
    PgnSummary(entry.0, entry.1.name)
  }

  /** The list `get_pgns` appends, one summary per entry in dictionary order. */
  function PgnSummaries(table: seq<(int, ParameterGroup)>): seq<PgnSummary>
  {
    seq(|table|, k requires 0 <= k < |table| => PgnSummaryOf(table[k]))
  }

  /** `get_pgns`: one summary per PGN of the database, sorted ascending by PGN. */
  method GetPgns() returns (pgns: seq<PgnSummary>)
    ensures pgns == SortBy(PgnSummaries(PgnDatabase), PgnKey)
    ensures SortedBy(pgns, PgnKey)
    ensures multiset(pgns) == multiset(PgnSummaries(PgnDatabase))
  {
    var listed: seq<PgnSummary> := [];
    for i := 0 to |PgnDatabase|
      invariant |listed| == i && forall k :: 0 <= k < i ==> listed[k] == PgnSummaryOf(PgnDatabase[k])
    {
      listed := listed + [PgnSummaryOf(PgnDatabase[i])];
    }
    assert listed == PgnSummaries(PgnDatabase);
    pgns := SortBy(listed, PgnKey);
  }

  // ---------------------------------------------------------------------
  // GET /api/spns/<pgn> (lines 282-301)
  // ---------------------------------------------------------------------

  /** One entry of the SPN listing. */
  datatype SpnSummary = SpnSummary(
    spn: int,
    name: string,
    unit: string,
    resolution: real,
    offset: real,
    lengthBits: int,
    startByte: int,
    startBit: int)

  function SpnKey(s: SpnSummary): int { s.spn }

  /** The listing entry of one SPN; a missing `start_bit` reads as 1. */
  function SpnSummaryOf(entry: (int, SpnDefinition)): SpnSummary
  {
    var def := entry.1;
    SpnSummary(entry.0, def.name, def.unit, def.resolution, def.offset,
               def.lengthBits, def.startByte, def.startBit.GetOr(1))
  }

  /** The list `get_spns` appends, one summary per SPN in dictionary order. */
  function SpnSummaries(spns: seq<(int, SpnDefinition)>): seq<SpnSummary>
  {
    seq(|spns|, k requires 0 <= k < |spns| => SpnSummaryOf(spns[k]))
  }

  /** `get_spns(pgn)`: empty, and no error, for a PGN not in the database;
      otherwise one summary per SPN of that PGN, sorted ascending by SPN. */
  method GetSpns(pgn: int) returns (spns: seq<SpnSummary>)
    ensures Find(PgnDatabase, pgn).None? ==> spns == []
    ensures Find(PgnDatabase, pgn).Some? ==>
              var group := Find(PgnDatabase, pgn).value;
              && spns == SortBy(SpnSummaries(group.spns), SpnKey)
              && SortedBy(spns, SpnKey)
              && multiset(spns) == multiset(SpnSummaries(group.spns))
  {
    var found := Find(PgnDatabase, pgn);
    if found.None? {
      return [];
    }
    var group := found.value;
    var listed: seq<SpnSummary> := [];
    for i := 0 to |group.spns|
      invariant |listed| == i && forall k :: 0 <= k < i ==> listed[k] == SpnSummaryOf(group.spns[k])
    {
      listed := listed + [SpnSummaryOf(group.spns[i])];
    }
    assert listed == SpnSummaries(group.spns);
    spns := SortBy(listed, SpnKey);
  }

  // ---------------------------------------------------------------------
  // POST /api/encode (lines 303-322)
  // ---------------------------------------------------------------------

  /** The request body's two keys; a missing `physical_value` reads as 0. */
  datatype EncodeRequest = EncodeRequest(signalId: Option<string>, physicalValue: Option<real>)

  /** The two error answers: 400 for an unknown signal, 500 for an
      exception raised while encoding. */
  datatype RouteError = InvalidSignalId | EncodingFailure(cause: EncodeError)

  /** The `LIVE_SIGNALS` entry as the configuration dictionary
      `encode_spn` reads: every key present. */
  function ConfigOf(signal: LiveSignal): (config: SpnConfig)
    ensures Encodable(signal) ==> ConfigSpanFits(config) && config.resolution.GetOr(1.0) != 0.0
  {
    SpnConfig(Some(signal.resolution), Some(signal.offset), Some(signal.startByte), Some(signal.startBit),
              Some(signal.lengthBits), Some(signal.pgn), Some(signal.spn), Some(signal.unit))
  }

  /** The `encode_value` route: a missing or unknown `signal_id` is
      rejected before any encoding; a known one is encoded with its
      `LIVE_SIGNALS` configuration, and since every entry has a non-zero
      resolution and a fitting span, `encode_spn` succeeds for every real
      value. */
  function EncodeRoute(request: EncodeRequest): (r: Result<EncodedFrame, RouteError>)
    ensures request.signalId.None? ==> r == Failure(InvalidSignalId)
    ensures request.signalId.Some? ==>
              (r == Failure(InvalidSignalId) <==> Find(LiveSignals, request.signalId.value).None?)
    ensures request.signalId.Some? && Find(LiveSignals, request.signalId.value).Some? ==>
              var signal := Find(LiveSignals, request.signalId.value).value;
              (FoundSignalEncodable(request.signalId.value);
               var encoded := EncodeSpn(request.physicalValue.GetOr(0.0), ConfigOf(signal));
               encoded.Success? && r == Success(encoded.value))
  {
    if request.signalId.None? then Failure(InvalidSignalId)
    else
      var found := Find(LiveSignals, request.signalId.value);
      if found.None? then Failure(InvalidSignalId)
      else
        FoundSignalEncodable(request.signalId.value);
        match EncodeSpn(request.physicalValue.GetOr(0.0), ConfigOf(found.value))
        case Success(frame) => Success(frame)
        case Failure(e) => Failure(EncodingFailure(e))
  }

  /** A value between `offset` and `top`, at a positive resolution small
      enough that `top` scales below `2^lengthBits - 0.5`, encodes to a raw
      value that reconstructs it within half a step and fits the field. */
  lemma RangeEncodes(v: real, resolution: real, offset: real, top: real, lengthBits: nat)
    requires resolution > 0.0 && offset <= v <= top
    requires top - offset < (Pow2(lengthBits) as real - 0.5) * resolution
    ensures var r := PhysicalToRaw(v, resolution, offset);
            r.Success? &&
            Abs(r.value as real * resolution + offset - v) <= Abs(resolution) / 2.0 &&
            r.value < Pow2(lengthBits)
  {
    var q := (v - offset) / resolution;
    assert q * resolution == v - offset;
    RawReconstructs(v, resolution, offset);
    var raw := PhysicalToRaw(v, resolution, offset).value;
    assert raw as real <= q + 0.5;
    BelowScaled(v - offset, top - offset, Pow2(lengthBits) as real - 0.5, resolution);
  }

  /** Dividing by a positive step keeps `x <= y < bound * step` below `bound`. */
  lemma BelowScaled(x: real, y: real, bound: real, step: real)
    requires step > 0.0 && x <= y < bound * step
    ensures x / step < bound
  {
    assert (x / step) * step == x;
  }

  /** Every live signal's advertised range `[min_physical, max_physical]`
      scales to raw values that `physical_to_raw` reconstructs to within half
      a resolution step and that fit the signal's bit field, so no value in
      the range is clamped by `encode_value`. */
  lemma LiveSignalRangeEncodes(i: nat, v: real)
    requires i < |LiveSignals|
    requires LiveSignals[i].1.minPhysical <= v <= LiveSignals[i].1.maxPhysical
    ensures var s := LiveSignals[i].1;
            var r := PhysicalToRaw(v, s.resolution, s.offset);
            r.Success? &&
            Abs(r.value as real * s.resolution + s.offset - v) <= Abs(s.resolution) / 2.0 &&
            r.value < Pow2(s.lengthBits)
  {
    var s := LiveSignals[i].1;
    assert Pow2(8) == 256 && Pow2(16) == 65536;
    assert s.minPhysical == s.offset && s.resolution > 0.0;
    assert s.maxPhysical - s.offset < (Pow2(s.lengthBits) as real - 0.5) * s.resolution;
    RangeEncodes(v, s.resolution, s.offset, s.maxPhysical, s.lengthBits);
  }

  // ---------------------------------------------------------------------
  // GET /api/live/signals (lines 324-347)
  // ---------------------------------------------------------------------

  /** One entry of the live-signal listing: the key and its configuration
      (`pgn_hex` is formatting only). */
  datatype LiveSignalEntry = LiveSignalEntry(id: string, config: LiveSignal)

  /** `get_live_signals`: every live signal, in declaration order, unsorted. */
  method GetLiveSignals() returns (signals: seq<LiveSignalEntry>)
    ensures |signals| == |LiveSignals|
    ensures forall k :: 0 <= k < |signals| ==>
              signals[k] == LiveSignalEntry(LiveSignals[k].0, LiveSignals[k].1)
  {
    signals := [];
    for i := 0 to |LiveSignals|
      invariant |signals| == i
      invariant forall k :: 0 <= k < i ==> signals[k] == LiveSignalEntry(LiveSignals[k].0, LiveSignals[k].1)
    {
      signals := signals + [LiveSignalEntry(LiveSignals[i].0, LiveSignals[i].1)];
    }
  }
}
