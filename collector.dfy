/**
 * The ALTEO term-1 collector: it groups the plant/ESS rows read from the
 * database into plants, polls each plant's data logger over Modbus using a
 * register map chosen by device type and manufacturer, scales the register
 * values, and builds one plant record per successful poll.  The database,
 * the Modbus client and the register-map files are inputs.
 */
module Collector {
  import opened Wrappers
  import opened Words
  import Breaker

  type PlantId = Breaker.PlantId

  // ---------------------------------------------------------------
  // Register-map path (load_register_map)
  // ---------------------------------------------------------------

  const RegisterMapsDir: string := "register_maps/"

  /** Python's `str.lower()` on one character, for the ASCII letters. */
  function LowerChar(c: char): char
  {
    if 'A' <= c <= 'Z' then (c as int + 32) as char else c
  }

  function Lower(s: string): string
  {
    seq(|s|, i requires 0 <= i < |s| => LowerChar(s[i]))
  }

  predicate NoUpper(s: string)
  {
    forall i :: 0 <= i < |s| ==> !('A' <= s[i] <= 'Z')
  }

  /** Python truthiness of an optional string: present and non-empty. */
  predicate Truthy(s: Option<string>)
  {
    s.Some? && s.value != ""
  }

  /** The register-map file for a device, relative to the collector's directory. */
  function RegisterMapPath(deviceType: string, manufacturer: string, model: Option<string>): (r: Result<string>)
    ensures r.Err? <==> deviceType != "logger" && deviceType != "ess"
    ensures deviceType == "logger" ==>
      r == Ok(RegisterMapsDir + "logger/" + Lower(manufacturer) + ".json")
    ensures deviceType == "ess" && Truthy(model) ==>
      r == Ok(RegisterMapsDir + "ess/" + Lower(manufacturer) + "_" + Lower(model.value) + ".json")
    ensures deviceType == "ess" && !Truthy(model) ==>
      r == Ok(RegisterMapsDir + "ess/" + Lower(manufacturer) + ".json")
  {
    if deviceType == "logger" then
      Ok(RegisterMapsDir + "logger/" + Lower(manufacturer) + ".json")
    else if deviceType == "ess" then
      if Truthy(model) then Ok(RegisterMapsDir + "ess/" + Lower(manufacturer) + "_" + Lower(model.value) + ".json")
      else Ok(RegisterMapsDir + "ess/" + Lower(manufacturer) + ".json")
    else
      Err("Ismeretlen eszköztípus")
  }

  /** Lower-casing leaves no upper-case letter and is idempotent. */
  lemma LowerNormalises(s: string)
    ensures NoUpper(Lower(s))
    ensures Lower(Lower(s)) == Lower(s)
  {
  }

  /**
   * The chosen file does not depend on the case of the manufacturer or model
   * names, and the directory is fixed by the device type.
   */
  lemma RegisterMapPathIgnoresCase(deviceType: string, manufacturer: string, model: Option<string>)
    ensures RegisterMapPath(deviceType, Lower(manufacturer), model) == RegisterMapPath(deviceType, manufacturer, model)
    ensures Truthy(model) ==>
      RegisterMapPath(deviceType, manufacturer, Some(Lower(model.value))) == RegisterMapPath(deviceType, manufacturer, model)
  {
    LowerNormalises(manufacturer);
    if model.Some? {
      LowerNormalises(model.value);
    }
  }

  // ---------------------------------------------------------------
  // Register decoding (convert_registers_to_scaled_value)
  // ---------------------------------------------------------------

  /** The integer read from the registers: 32 bits from two, the first register otherwise. */
  function RawValue(registers: seq<Word>, signed: bool): (r: Option<int>)
    ensures r.None? <==> registers == []
    ensures |registers| == 2 ==>
      var raw := registers[0] * WordModulus + registers[1];
      0 <= raw < DWordModulus && r == Some(if signed then Signed32(raw) else raw)
    ensures registers != [] && |registers| != 2 ==> r == Some(registers[0])
  {
    if registers == [] then None
    else
      var raw := if |registers| == 2 then OrLow16(ShiftLeft16(registers[0]), registers[1]) else registers[0];
      assert 0 <= raw < DWordModulus by {
        if |registers| == 2 {
          assert registers[0] * WordModulus <= 0xFFFF * WordModulus;
        }
      }
      Bit31Iff(raw);
      if signed && Bit31(raw) then
        assert Low32(Complement(raw)) == DWordModulus - 1 - raw;
        Some(-(Low32(Complement(raw)) + 1))
      else
        Some(raw)
  }

  /** Dividing by a positive gain keeps the order of the dividends. */
  lemma DivideByGainMonotone(a: real, b: real, gain: real)
    requires a <= b && 0.0 < gain
    ensures a / gain <= b / gain
  {
    assert a / gain * gain == a;
    assert b / gain * gain == b;
  }

  lemma DivideByGainStrict(a: real, b: real, gain: real)
    requires a < b && 0.0 < gain
    ensures a / gain < b / gain
  {
    assert a / gain * gain == a;
    assert b / gain * gain == b;
  }

  /** Bounds of a decoded value after division by a positive gain. */
  lemma ScaledBounds(registers: seq<Word>, gain: real, signed: bool)
    requires registers != []
    ensures 0.0 < gain ==>
      var v := RawValue(registers, signed).value as real / gain;
      (|registers| == 2 && signed ==> -(SignBit32 as real) / gain <= v < (SignBit32 as real) / gain) &&
      (|registers| != 2 ==> 0.0 <= v)
  {
    var raw := RawValue(registers, signed).value;
    if 0.0 < gain {
      if |registers| == 2 && signed {
        DivideByGainMonotone(-(SignBit32 as real), raw as real, gain);
        DivideByGainStrict(raw as real, SignBit32 as real, gain);
      } else if |registers| != 2 {
        DivideByGainMonotone(0.0, raw as real, gain);
      }
    }
  }

  /**
   * The scaled value of a register list: none for an empty list, otherwise
   * the raw value divided by the gain (a zero gain raises ZeroDivisionError).
   */
  function ScaleRegisters(registers: seq<Word>, gain: real, signed: bool): (r: Result<Option<real>>)
    ensures registers == [] ==> r == Ok(None)
    ensures registers != [] ==> (r.Err? <==> gain == 0.0)
    ensures r.Ok? && registers != [] ==> r.value.Some? && r.value.value * gain == RawValue(registers, signed).value as real
    ensures r.Ok? && |registers| == 2 && signed && 0.0 < gain ==>
      -(SignBit32 as real) / gain <= r.value.value < (SignBit32 as real) / gain
    ensures r.Ok? && registers != [] && |registers| != 2 && 0.0 < gain ==> 0.0 <= r.value.value
  {
    if registers == [] then Ok(None)
    else if gain == 0.0 then Err("division by zero")
    else
      var raw := RawValue(registers, signed).value;
      ScaledBounds(registers, gain, signed);
      Ok(Some(raw as real / gain))
  }

  // ---------------------------------------------------------------
  // Device polling (poll_device)
  // ---------------------------------------------------------------

  /** One entry of a device's register map. */
  datatype RegisterMeta = RegisterMeta(address: nat, quantity: nat, gain: real, signed: Option<bool>)

  /** The map's `signed` flag; a missing flag means signed. */
  function SignedFlag(meta: RegisterMeta): bool
  {
    if meta.signed.Some? then meta.signed.value else true
  }

  /** What the Modbus client returned for a read: `None` when the read failed. */
  function RegistersOf(reply: Option<seq<Word>>): seq<Word>
  {
    if reply.Some? then reply.value else []
  }

  /** The scaled value of one register-map entry, given the client's reply. */
  function EntryValue(meta: RegisterMeta, reply: Option<seq<Word>>): Result<Option<real>>
  {
    ScaleRegisters(RegistersOf(reply), meta.gain, SignedFlag(meta))
  }

  predicate DistinctKeys<V>(entries: seq<(string, V)>)
  {
    forall i, j :: 0 <= i < j < |entries| ==> entries[i].0 != entries[j].0
  }

  /** Every entry of the map converts without raising. */
  predicate DevicePollOk(registerMap: seq<(string, RegisterMeta)>, replies: seq<Option<seq<Word>>>)
    requires |replies| == |registerMap|
  {
    forall i :: 0 <= i < |registerMap| ==> EntryValue(registerMap[i].1, replies[i]).Ok?
  }

  /** The values a device poll returns: each map key bound to its entry's scaled value. */
  function DeviceData(registerMap: seq<(string, RegisterMeta)>, replies: seq<Option<seq<Word>>>): map<string, Option<real>>
    requires |replies| == |registerMap| && DistinctKeys(registerMap) && DevicePollOk(registerMap, replies)
  {
    map i | 0 <= i < |registerMap| :: registerMap[i].0 := EntryValue(registerMap[i].1, replies[i]).value
  }

  /**
   * Reads every entry of the register map, in order; `replies[i]` is the
   * client's answer for entry i.  A failing read yields a missing value; an
   * entry whose conversion raises aborts the poll.
   */
  method PollDevice(registerMap: seq<(string, RegisterMeta)>, replies: seq<Option<seq<Word>>>)
    returns (r: Result<map<string, Option<real>>>)
    requires |replies| == |registerMap|
    requires DistinctKeys(registerMap)
    ensures r.Ok? <==> forall i :: 0 <= i < |registerMap| ==> EntryValue(registerMap[i].1, replies[i]).Ok?
    ensures r.Ok? ==> r.value.Keys == set i | 0 <= i < |registerMap| :: registerMap[i].0
    ensures r.Ok? ==> forall i :: 0 <= i < |registerMap| ==>
      r.value[registerMap[i].0] == EntryValue(registerMap[i].1, replies[i]).value
    ensures r.Ok? ==> r.value == DeviceData(registerMap, replies)
  {
    var data: map<string, Option<real>> := map[];
    var i := 0;
    while i < |registerMap|
      invariant 0 <= i <= |registerMap|
      invariant forall j :: 0 <= j < i ==> EntryValue(registerMap[j].1, replies[j]).Ok?
      invariant data.Keys == set j | 0 <= j < i :: registerMap[j].0
      invariant forall j :: 0 <= j < i ==> data[registerMap[j].0] == EntryValue(registerMap[j].1, replies[j]).value
    {
      var (key, meta) := registerMap[i];
      var v := ScaleRegisters(RegistersOf(replies[i]), meta.gain, SignedFlag(meta));
      if v.Err? {
        return Err(v.error);
      }
      data := data[key := v.value];
      i := i + 1;
    }
    assert data == DeviceData(registerMap, replies);
    return Ok(data);
  }

  // ---------------------------------------------------------------
  // Plant record (collect_plant_data)
  // ---------------------------------------------------------------

  /** One row of plant_data_term1 as the collector builds it. */
  datatype PlantRecord = PlantRecord(
    plantId: PlantId,
    timestamp: int,
    sumActivePower: Option<real>,
    cosPhi: Option<real>,
    availablePowerMin: real,
    availablePowerMax: Option<real>,
    referencePower: Option<real>,
    ghi: Option<real>,
    panelTemp: Option<real>)

  /** `data.get(key)`: a missing key reads as `None`. */
  function Get(data: map<string, Option<real>>, key: string): Option<real>
  {
    if key in data then data[key] else None
  }

  /**
   * The record for a plant whose logger answered with `loggerData`.  The
   * available maximum and the reference power are the magnitude of the
   * active power when that is present and non-zero (Python truthiness).
   */
  function BuildRecord(pid: PlantId, timestamp: int, loggerData: map<string, Option<real>>): (rec: PlantRecord)
    ensures rec.plantId == pid && rec.timestamp == timestamp
    ensures rec.sumActivePower == Get(loggerData, "sum_active_power")
    ensures rec.cosPhi == Get(loggerData, "cos_phi")
    ensures rec.availablePowerMin == 0.0
    ensures rec.availablePowerMax == rec.referencePower
    ensures rec.availablePowerMax.Some? <==> rec.sumActivePower.Some? && rec.sumActivePower.value != 0.0
    ensures rec.availablePowerMax.Some? ==>
      0.0 < rec.availablePowerMax.value &&
      (rec.availablePowerMax.value == rec.sumActivePower.value || rec.availablePowerMax.value == -rec.sumActivePower.value)
    ensures rec.ghi.None? && rec.panelTemp.None?
  {
    var sap := Get(loggerData, "sum_active_power");
    var magnitude := if sap.Some? && sap.value != 0.0 then Some(Abs(sap.value)) else None;
    PlantRecord(pid, timestamp, sap, Get(loggerData, "cos_phi"), 0.0, magnitude, magnitude, None, None)
  }

  /**
   * Polls one plant's logger and reports the result to the breaker.
   * `loggerMap` is the loaded register map, `None` when the file is missing.
   */
  method CollectPlantData(
    breaker: Breaker.CircuitBreaker, pid: PlantId, now: int,
    loggerMap: Option<seq<(string, RegisterMeta)>>, replies: seq<Option<seq<Word>>>)
    returns (rec: Option<PlantRecord>)
    requires loggerMap.Some? ==> |replies| == |loggerMap.value| && DistinctKeys(loggerMap.value)
    modifies breaker
    ensures loggerMap.None? ==> rec.None?
    ensures rec.None? ==> breaker.failed == old(breaker.failed)[pid := now]
    ensures rec.Some? ==> breaker.failed == old(breaker.failed) - {pid}
    ensures rec.Some? <==> loggerMap.Some? && DevicePollOk(loggerMap.value, replies)
    ensures rec.Some? ==> rec.value == BuildRecord(pid, now, DeviceData(loggerMap.value, replies))
  {
    if loggerMap.None? {
      breaker.OnFailure(pid, now);
      return None;
    }
    var data := PollDevice(loggerMap.value, replies);
    if data.Err? {
      breaker.OnFailure(pid, now);
      return None;
    }
    var record := BuildRecord(pid, now, data.value);
    breaker.OnSuccess(pid);
    return Some(record);
  }

  // ---------------------------------------------------------------
  // Grouping the plant/ESS rows (main)
  // ---------------------------------------------------------------

  /** One row of the plants LEFT JOIN ess_units query. */
  datatype PlantRow = PlantRow(
    plantId: PlantId,
    podId: string,
    name: string,
    ip: string,
    port: int,
    loggerSlaveId: int,
    loggerManufacturer: string,
    essId: Option<int>,
    essSlaveId: Option<int>,
    essManufacturer: Option<string>,
    essModel: Option<string>)

  datatype EssUnit = EssUnit(id: int, slaveId: Option<int>, manufacturer: Option<string>, model: Option<string>)

  datatype Plant = Plant(
    id: PlantId,
    podId: string,
    ip: string,
    port: int,
    loggerSlaveId: int,
    loggerManufacturer: string,
    essList: seq<EssUnit>)

  /** The row carries an ESS (Python truthiness of its ESS id). */
  predicate HasEss(r: PlantRow)
  {
    r.essId.Some? && r.essId.value != 0
  }

  function EssOfRow(r: PlantRow): EssUnit
    requires HasEss(r)
  {
    EssUnit(r.essId.value, r.essSlaveId, r.essManufacturer, r.essModel)
  }

  /** The plant fields a row contributes, with an empty ESS list. */
  function PlantOfRow(r: PlantRow): Plant
  {
    Plant(r.plantId, r.podId, r.ip, r.port, r.loggerSlaveId, r.loggerManufacturer, [])
  }

  /** The ESS units the rows list for `pid`, in row order. */
  function EssUnitsFor(rows: seq<PlantRow>, pid: PlantId): seq<EssUnit>
  {
    if rows == [] then []
    else (if rows[0].plantId == pid && HasEss(rows[0]) then [EssOfRow(rows[0])] else []) + EssUnitsFor(rows[1..], pid)
  }

  lemma {:induction false} EssUnitsForSnoc(rows: seq<PlantRow>, r: PlantRow, pid: PlantId)
    ensures EssUnitsFor(rows + [r], pid) ==
      EssUnitsFor(rows, pid) + (if r.plantId == pid && HasEss(r) then [EssOfRow(r)] else [])
  {
    if rows == [] {
      assert rows + [r] == [r];
      assert EssUnitsFor([r][1..], pid) == [];
    } else {
      assert (rows + [r])[1..] == rows[1..] + [r];
      EssUnitsForSnoc(rows[1..], r, pid);
    }
  }

  /** Row `j` is the first row for its plant. */
  predicate FirstForPlant(rows: seq<PlantRow>, j: int)
    requires 0 <= j < |rows|
  {
    forall k :: 0 <= k < j ==> rows[k].plantId != rows[j].plantId
  }

  predicate Distinct<T(==)>(s: seq<T>)
  {
    forall i, j :: 0 <= i < j < |s| ==> s[i] != s[j]
  }

  /**
   * Groups the rows into one plant per distinct plant id, taking the plant
   * fields from its first row and appending the ESS of every row that has
   * one, in row order.  `order` lists every plant id once; it stands for the
   * iteration order of the Python dict, and each step (`GroupRow`) appends an
   * id exactly when the row is the first one for it.
   */
  method GroupRows(rows: seq<PlantRow>) returns (plants: map<PlantId, Plant>, order: seq<PlantId>)
    ensures plants.Keys == set j | 0 <= j < |rows| :: rows[j].plantId
    ensures Distinct(order) && (set x | x in order) == plants.Keys
    ensures forall j :: 0 <= j < |rows| && FirstForPlant(rows, j) ==>
      plants[rows[j].plantId].(essList := []) == PlantOfRow(rows[j])
    ensures forall pid :: pid in plants ==> plants[pid].id == pid && plants[pid].essList == EssUnitsFor(rows, pid)
  {
    plants, order := map[], [];
    var i := 0;
    while i < |rows|
      invariant 0 <= i <= |rows|
      invariant Grouped(rows, i, plants, order)
    {
      ghost var plants0, order0 := plants, order;
      plants, order := GroupRow(plants, order, rows[i]);
      GroupedStep(rows, i, plants0, order0);
      i := i + 1;
    }
    GroupedFinal(rows, plants, order);
  }

  /** The body of the grouping loop for one row: insert the plant if new, then append its ESS. */
  method GroupRow(plants: map<PlantId, Plant>, order: seq<PlantId>, r: PlantRow)
    returns (plants': map<PlantId, Plant>, order': seq<PlantId>)
    ensures plants' == AddRow(plants, r)
    ensures order' == if r.plantId in plants then order else order + [r.plantId]
  {
    plants', order' := plants, order;
    if r.plantId !in plants' {
      plants' := plants'[r.plantId := PlantOfRow(r)];
      order' := order' + [r.plantId];
    }
    if HasEss(r) {
      var p := plants'[r.plantId];
      plants' := plants'[r.plantId := p.(essList := p.essList + [EssOfRow(r)])];
    }
  }

  lemma GroupedFinal(rows: seq<PlantRow>, plants: map<PlantId, Plant>, order: seq<PlantId>)
    requires Grouped(rows, |rows|, plants, order)
    ensures plants.Keys == set j | 0 <= j < |rows| :: rows[j].plantId
    ensures Distinct(order) && (set x | x in order) == plants.Keys
    ensures forall j :: 0 <= j < |rows| && FirstForPlant(rows, j) ==>
      plants[rows[j].plantId].(essList := []) == PlantOfRow(rows[j])
    ensures forall pid :: pid in plants ==> plants[pid].id == pid && plants[pid].essList == EssUnitsFor(rows, pid)
  {
    assert rows[..|rows|] == rows;
  }

  /** What grouping the first `n` rows has produced. */
  ghost predicate Grouped(rows: seq<PlantRow>, n: int, plants: map<PlantId, Plant>, order: seq<PlantId>)
    requires 0 <= n <= |rows|
  {
    && KeysCover(rows, n, plants, order)
    && HeadersFromFirstRow(rows, n, plants)
    && EssListsInRowOrder(rows, n, plants)
  }

  ghost predicate KeysCover(rows: seq<PlantRow>, n: int, plants: map<PlantId, Plant>, order: seq<PlantId>)
    requires 0 <= n <= |rows|
  {
    && plants.Keys == (set j | 0 <= j < n :: rows[j].plantId)
    && Distinct(order) && (set x | x in order) == plants.Keys
  }

  ghost predicate HeadersFromFirstRow(rows: seq<PlantRow>, n: int, plants: map<PlantId, Plant>)
    requires 0 <= n <= |rows|
  {
    forall j :: 0 <= j < n && FirstForPlant(rows, j) ==>
      rows[j].plantId in plants && plants[rows[j].plantId].(essList := []) == PlantOfRow(rows[j])
  }

  ghost predicate EssListsInRowOrder(rows: seq<PlantRow>, n: int, plants: map<PlantId, Plant>)
    requires 0 <= n <= |rows|
  {
    forall pid :: pid in plants ==> plants[pid].id == pid && plants[pid].essList == EssUnitsFor(rows[..n], pid)
  }

  /** The grouping loop's update for row `r`. */
  function AddRow(plants: map<PlantId, Plant>, r: PlantRow): map<PlantId, Plant>
  {
    var base := if r.plantId in plants then plants else plants[r.plantId := PlantOfRow(r)];
    if HasEss(r) then base[r.plantId := base[r.plantId].(essList := base[r.plantId].essList + [EssOfRow(r)])] else base
  }

  /** One iteration of the grouping loop extends `Grouped` by one row. */
  lemma GroupedStep(rows: seq<PlantRow>, i: int, plants: map<PlantId, Plant>, order: seq<PlantId>)
    requires 0 <= i < |rows| && Grouped(rows, i, plants, order)
    ensures Grouped(rows, i + 1, AddRow(plants, rows[i]),
                    if rows[i].plantId in plants then order else order + [rows[i].plantId])
  {
    var r := rows[i];
    var plants' := AddRow(plants, r);
    var order' := if r.plantId in plants then order else order + [r.plantId];
    KeysStep(rows, i, plants, order);
    HeadersStep(rows, i, plants, order);
    EssStep(rows, i, plants);
    assert Grouped(rows, i + 1, plants', order');
  }

  lemma KeysStep(rows: seq<PlantRow>, i: int, plants: map<PlantId, Plant>, order: seq<PlantId>)
    requires 0 <= i < |rows| && KeysCover(rows, i, plants, order)
    ensures KeysCover(rows, i + 1, AddRow(plants, rows[i]),
                      if rows[i].plantId in plants then order else order + [rows[i].plantId])
  {
    var r := rows[i];
    assert AddRow(plants, r).Keys == plants.Keys + {r.plantId};
    assert (set j | 0 <= j < i + 1 :: rows[j].plantId) == (set j | 0 <= j < i :: rows[j].plantId) + {r.plantId};
    if r.plantId !in plants {
      assert (set x | x in order + [r.plantId]) == (set x | x in order) + {r.plantId};
    }
  }

  lemma HeadersStep(rows: seq<PlantRow>, i: int, plants: map<PlantId, Plant>, order: seq<PlantId>)
    requires 0 <= i < |rows| && KeysCover(rows, i, plants, order) && HeadersFromFirstRow(rows, i, plants)
    ensures HeadersFromFirstRow(rows, i + 1, AddRow(plants, rows[i]))
  {
    var r := rows[i];
    var plants' := AddRow(plants, r);
    forall j | 0 <= j < i + 1 && FirstForPlant(rows, j)
      ensures rows[j].plantId in plants' && plants'[rows[j].plantId].(essList := []) == PlantOfRow(rows[j])
    {
      if j == i {
        assert r.plantId !in (set j | 0 <= j < i :: rows[j].plantId);
      }
    }
  }

  lemma EssStep(rows: seq<PlantRow>, i: int, plants: map<PlantId, Plant>)
    requires 0 <= i < |rows| && EssListsInRowOrder(rows, i, plants)
    requires plants.Keys == (set j | 0 <= j < i :: rows[j].plantId)
    ensures EssListsInRowOrder(rows, i + 1, AddRow(plants, rows[i]))
  {
    EssUnitsForPrefix(rows, i);
    var r := rows[i];
    if r.plantId !in plants {
      assert EssUnitsFor(rows[..i], r.plantId) == [] by {
        EssUnitsForAbsent(rows[..i], r.plantId);
      }
    }
  }

  /** A plant with no row has no ESS units. */
  lemma {:induction false} EssUnitsForAbsent(rows: seq<PlantRow>, pid: PlantId)
    requires forall j :: 0 <= j < |rows| ==> rows[j].plantId != pid
    ensures EssUnitsFor(rows, pid) == []
  {
    if rows != [] {
      EssUnitsForAbsent(rows[1..], pid);
    }
  }

  /** Extending the prefix by one row extends each plant's ESS list by that row's ESS, if any. */
  lemma EssUnitsForPrefix(rows: seq<PlantRow>, i: int)
    requires 0 <= i < |rows|
    ensures forall pid ::
      EssUnitsFor(rows[..i + 1], pid) ==
      EssUnitsFor(rows[..i], pid) + (if rows[i].plantId == pid && HasEss(rows[i]) then [EssOfRow(rows[i])] else [])
  {
    assert rows[..i + 1] == rows[..i] + [rows[i]];
    forall pid
      ensures EssUnitsFor(rows[..i + 1], pid) ==
        EssUnitsFor(rows[..i], pid) + (if rows[i].plantId == pid && HasEss(rows[i]) then [EssOfRow(rows[i])] else [])
    {
      EssUnitsForSnoc(rows[..i], rows[i], pid);
    }
  }

  // ---------------------------------------------------------------
  // Which plants a cycle polls (main, the should_skip filter)
  // ---------------------------------------------------------------

  /** The plants of `ids` a cycle polls when the breaker table is `failed` at `now`. */
  function Polled(ids: seq<PlantId>, failed: map<PlantId, int>, now: int): seq<PlantId>
  {
    if ids == [] then []
    else
      var rest := Polled(ids[..|ids| - 1], failed, now);
      var p := ids[|ids| - 1];
      if p in failed && Breaker.InCooldown(failed[p], now) then rest else rest + [p]
  }

  /** The breaker table after a cycle has queried every plant of `ids`: expired entries are gone. */
  function AfterQueries(ids: seq<PlantId>, failed: map<PlantId, int>, now: int): map<PlantId, int>
  {
    map p | p in failed && (p !in ids || Breaker.InCooldown(failed[p], now)) :: failed[p]
  }

  /**
   * Asks the breaker about every plant, in order, and keeps those it does
   * not skip.
   */
  method PlantsToPoll(breaker: Breaker.CircuitBreaker, ids: seq<PlantId>, now: int) returns (polled: seq<PlantId>)
    requires Distinct(ids)
    modifies breaker
    ensures polled == Polled(ids, old(breaker.failed), now)
    ensures breaker.failed == AfterQueries(ids, old(breaker.failed), now)
  {
    ghost var failed0 := breaker.failed;
    polled := [];
    var i := 0;
    while i < |ids|
      invariant 0 <= i <= |ids|
      invariant polled == Polled(ids[..i], failed0, now)
      invariant breaker.failed == AfterQueries(ids[..i], failed0, now)
    {
      var p := ids[i];
      assert p !in ids[..i];
      assert ids[..i + 1][..i] == ids[..i];
      var skip := breaker.ShouldSkip(p, now);
      if !skip {
        polled := polled + [p];
      }
      i := i + 1;
    }
    assert ids[..i] == ids;
  }

  /** A plant is polled exactly when the breaker table does not hold it inside its cooldown. */
  lemma {:induction false} PolledIff(ids: seq<PlantId>, failed: map<PlantId, int>, now: int, p: PlantId)
    ensures p in Polled(ids, failed, now) <==>
      p in ids && !(p in failed && Breaker.InCooldown(failed[p], now))
  {
    if ids != [] {
      var init := ids[..|ids| - 1];
      PolledIff(init, failed, now, p);
      assert ids == init + [ids[|ids| - 1]];
    }
  }
}
