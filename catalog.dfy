/** The static tables `PGN_DATABASE` and `LIVE_SIGNALS` (backend/app.py:27-166)
    and the dictionary lookup the request handlers do on them. A Python
    dict becomes a sequence of (key, value) pairs in insertion order, which
    is the order `dict.items()` yields. */
module Catalog {
  import opened Wrappers
  import opened Frame

  /** One SPN entry of `PGN_DATABASE[pgn]["spns"]`. `start_bit` is an
      option because `get_spns` reads it with a default. */
  datatype SpnDefinition = SpnDefinition(
    name: string,
    startByte: int,
    startBit: Option<int>,
    lengthBits: int,
    resolution: real,
    offset: real,
    unit: string,
    minData: real,
    maxData: real)

  /** One PGN entry of `PGN_DATABASE`. */
  datatype ParameterGroup = ParameterGroup(name: string, spns: seq<(int, SpnDefinition)>)

  /** One entry of `LIVE_SIGNALS`. */
  datatype LiveSignal = LiveSignal(
    pgn: int,
    spn: int,
    name: string,
    resolution: real,
    offset: real,
    unit: string,
    transmissionRate: int,
    minPhysical: real,
    maxPhysical: real,
    startByte: int,
    startBit: int,
    lengthBits: int)

  /** A dictionary's keys are pairwise distinct. */
  predicate DistinctKeys<K(==), V>(table: seq<(K, V)>)
  {
    forall i, j :: 0 <= i < j < |table| ==> table[i].0 != table[j].0
  }

  /** `key in table` together with `table[key]`. */
  function Find<K(==), V>(table: seq<(K, V)>, key: K): (r: Option<V>)
    ensures r.None? <==> forall i :: 0 <= i < |table| ==> table[i].0 != key
    ensures r.Some? ==> exists i :: 0 <= i < |table| && table[i] == (key, r.value)
  {
    if table == [] then None
    else if table[0].0 == key then Some(table[0].1)
    else Find(table[1..], key)
  }

  /** In a dictionary, the value found for the key of entry `i` is entry
      `i`'s value. */
  lemma {:induction false} FindEntry<K, V>(table: seq<(K, V)>, i: nat)
    requires DistinctKeys(table) && i < |table|
    ensures Find(table, table[i].0) == Some(table[i].1)
  {
    if i > 0 {
      assert table[0].0 != table[i].0;
      FindEntry(table[1..], i - 1);
    }
  }

  const PgnDatabase: seq<(int, ParameterGroup)> := [
    (61444, ParameterGroup("Engine Torque / Speed", [
      (190, SpnDefinition("Engine Speed", 4, Some(1), 16, 0.125, 0.0, "rpm", 0.0, 8031.875)),
      (512, SpnDefinition("Driver Demand Engine % Torque", 2, Some(1), 8, 1.0, -125.0, "%", -125.0, 125.0))])),
    (65265, ParameterGroup("Vehicle Speed", [
      (84, SpnDefinition("Wheel-Based Vehicle Speed", 2, Some(1), 16, 1.0 / 256.0, 0.0, "km/h", 0.0, 250.996))])),
    (65269, ParameterGroup("Environmental Data", [
      (170, SpnDefinition("Cab Interior Temperature", 2, Some(1), 16, 0.03125, -273.0, "°C", -273.0, 1735.0))]))
  ]

  const LiveSignals: seq<(string, LiveSignal)> := [
    ("engine_speed", LiveSignal(61444, 190, "Engine Speed", 0.125, 0.0, "rpm", 50, 0.0, 8031.875, 4, 1, 16)),
    ("vehicle_speed", LiveSignal(65265, 84, "Vehicle Speed", 1.0 / 256.0, 0.0, "km/h", 100, 0.0, 250.996, 2, 1, 16)),
    ("cab_temperature", LiveSignal(65269, 170, "Cab Temperature", 0.03125, -273.0, "°C", 1000, -273.0, 1735.0, 2, 1, 16)),
    ("driver_torque", LiveSignal(61444, 512, "Driver Torque", 1.0, -125.0, "%", 50, -125.0, 125.0, 2, 1, 8))
  ]

  /** A live signal can be encoded: its resolution is not zero and its bit
      span lies inside the 8-byte data field. */
  predicate Encodable(signal: LiveSignal)
  {
    signal.resolution != 0.0 && SpanFits(signal.startByte, signal.startBit, signal.lengthBits)
  }

  /** A catalog SPN has a non-zero resolution and a span inside 8 bytes. */
  predicate WellFormedSpn(def: SpnDefinition)
  {
    def.resolution != 0.0 && SpanFits(def.startByte, def.startBit.GetOr(1), def.lengthBits)
  }

  /** Both tables are dictionaries: no key occurs twice, at either level. */
  lemma TablesAreDictionaries()
    ensures DistinctKeys(PgnDatabase) && DistinctKeys(LiveSignals)
    ensures forall i :: 0 <= i < |PgnDatabase| ==> DistinctKeys(PgnDatabase[i].1.spns)
  {
  }

  /** Every entry of `LIVE_SIGNALS` can be encoded. */
  lemma LiveSignalsEncodable()
    ensures forall i :: 0 <= i < |LiveSignals| ==> Encodable(LiveSignals[i].1)
  {
  }

  /** Every SPN of `PGN_DATABASE` has a non-zero resolution and fits. */
  lemma CatalogWellFormed()
    ensures forall i, j :: 0 <= i < |PgnDatabase| && 0 <= j < |PgnDatabase[i].1.spns| ==>
              WellFormedSpn(PgnDatabase[i].1.spns[j].1)
  {
  }

  /** The live signals agree with the catalog: each names a PGN and SPN of
      `PGN_DATABASE` with the same scaling and bit span. */
  lemma LiveSignalsMatchCatalog()
    ensures forall i :: 0 <= i < |LiveSignals| ==>
              var s := LiveSignals[i].1;
              Find(PgnDatabase, s.pgn).Some? &&
              var group := Find(PgnDatabase, s.pgn).value;
              Find(group.spns, s.spn).Some? &&
              var def := Find(group.spns, s.spn).value;
              def.resolution == s.resolution && def.offset == s.offset &&
              def.startByte == s.startByte && def.startBit == Some(s.startBit) &&
              def.lengthBits == s.lengthBits && def.unit == s.unit
  {
  }

  /** A known signal name finds an encodable signal. */
  lemma FoundSignalEncodable(id: string)
    requires Find(LiveSignals, id).Some?
    ensures Encodable(Find(LiveSignals, id).value)
  {
    LiveSignalsEncodable();
  }
}
