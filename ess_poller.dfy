/**
 * The Hithium ESS poller: reads every register of the ESS register map,
 * converts the raw words (sign, gain), aggregates the temperature lists,
 * computes the charge and discharge headroom from capacity and SOC limits,
 * and reports the outcome to the circuit breaker.  The Modbus replies are
 * inputs; the database insert is not part of this model.
 */
module EssPoller {
  import opened Wrappers
  import opened Words
  import Breaker

  // ---------------------------------------------------------------
  // aggregate
  // ---------------------------------------------------------------

  /** Average, minimum and maximum; all three missing when there is no value. */
  datatype Stats = Stats(avg: Option<real>, min: Option<real>, max: Option<real>)

  const NoStats: Stats := Stats(None, None, None)

  /** `[v for v in values if v is not None]` */
  function Present(values: seq<Option<real>>): (vals: seq<real>)
    ensures |vals| <= |values|
    ensures forall v :: v in vals <==> Some(v) in values
    ensures forall v :: multiset(vals)[v] == multiset(values)[Some(v)]
  {
    if values == [] then []
    else
      var rest := Present(values[1..]);
      assert values == [values[0]] + values[1..];
      if values[0].Some? then [values[0].value] + rest else rest
  }

  /**
   * The filter keeps order: the present values of a concatenation are those
   * of each part, in turn, and a single element contributes its value or nothing.
   */
  lemma {:induction false} PresentConcat(a: seq<Option<real>>, b: seq<Option<real>>)
    ensures Present(a + b) == Present(a) + Present(b)
    decreases |a|
  {
    if a == [] {
      assert a + b == b;
    } else {
      assert (a + b)[0] == a[0];
      assert (a + b)[1..] == a[1..] + b;
      PresentConcat(a[1..], b);
    }
  }

  lemma PresentSingle(x: Option<real>)
    ensures Present([x]) == if x.Some? then [x.value] else []
  {
    assert [x][1..] == [];
  }

  function Sum(xs: seq<real>): real
  {
    if xs == [] then 0.0 else xs[0] + Sum(xs[1..])
  }

  function Min(xs: seq<real>): (m: real)
    requires xs != []
    ensures m in xs && forall x :: x in xs ==> m <= x
  {
    if |xs| == 1 then xs[0]
    else
      var rest := Min(xs[1..]);
      assert xs == [xs[0]] + xs[1..];
      if xs[0] <= rest then xs[0] else rest
  }

  function Max(xs: seq<real>): (m: real)
    requires xs != []
    ensures m in xs && forall x :: x in xs ==> x <= m
  {
    if |xs| == 1 then xs[0]
    else
      var rest := Max(xs[1..]);
      assert xs == [xs[0]] + xs[1..];
      if rest <= xs[0] then xs[0] else rest
  }

  /** The sum of a list lies between its length times its minimum and times its maximum. */
  lemma {:induction false} SumBounds(xs: seq<real>, lo: real, hi: real)
    requires forall x :: x in xs ==> lo <= x <= hi
    ensures |xs| as real * lo <= Sum(xs) <= |xs| as real * hi
  {
    if xs != [] {
      assert forall x :: x in xs[1..] ==> x in xs;
      SumBounds(xs[1..], lo, hi);
      assert xs[0] in xs;
    }
  }

  /** The arithmetic mean of a non-empty list. */
  function Mean(xs: seq<real>): real
    requires xs != []
  {
    Sum(xs) / |xs| as real
  }

  lemma QuotientAtLeast(xs: seq<real>, lo: real)
    requires xs != [] && |xs| as real * lo <= Sum(xs)
    ensures lo <= Sum(xs) / |xs| as real
  {
  }

  lemma QuotientAtMost(xs: seq<real>, hi: real)
    requires xs != [] && Sum(xs) <= |xs| as real * hi
    ensures Sum(xs) / |xs| as real <= hi
  {
  }

  /** The mean of a non-empty list is at least any lower bound of its elements. */
  lemma MeanAtLeast(xs: seq<real>, lo: real)
    requires xs != [] && forall x :: x in xs ==> lo <= x
    ensures lo <= Mean(xs)
  {
    SumBounds(xs, lo, Max(xs));
    QuotientAtLeast(xs, lo);
  }

  /** The mean of a non-empty list is at most any upper bound of its elements. */
  lemma MeanAtMost(xs: seq<real>, hi: real)
    requires xs != [] && forall x :: x in xs ==> x <= hi
    ensures Mean(xs) <= hi
  {
    SumBounds(xs, Min(xs), hi);
    QuotientAtMost(xs, hi);
  }

  /** Every present value lies between the minimum and the maximum of the present values. */
  lemma PresentBetween(values: seq<Option<real>>)
    requires Present(values) != []
    ensures forall i :: 0 <= i < |values| && values[i].Some? ==>
      Min(Present(values)) <= values[i].value <= Max(Present(values))
  {
    forall i | 0 <= i < |values| && values[i].Some?
      ensures Min(Present(values)) <= values[i].value <= Max(Present(values))
    {
      assert values[i].value in Present(values);
    }
  }

  lemma NoneWhenNothingPresent(values: seq<Option<real>>)
    requires Present(values) == []
    ensures forall i :: 0 <= i < |values| ==> values[i].None?
  {
  }

  /**
   * `aggregate`: the mean, minimum and maximum of the values that are
   * present, or nothing at all when none is.
   */
  function Aggregate(values: seq<Option<real>>): (r: Stats)
    ensures r == NoStats <==> forall i :: 0 <= i < |values| ==> values[i].None?
    ensures r != NoStats ==>
      && r.avg.Some? && r.min.Some? && r.max.Some?
      && r.min.value <= r.avg.value <= r.max.value
      && Some(r.min.value) in values && Some(r.max.value) in values
      && (forall i :: 0 <= i < |values| && values[i].Some? ==> r.min.value <= values[i].value <= r.max.value)
      && r.avg == Some(Mean(Present(values)))
  {
    var vals := Present(values);
    if vals == [] then
      NoneWhenNothingPresent(values);
      NoStats
    else
      MeanAtLeast(vals, Min(vals));
      MeanAtMost(vals, Max(vals));
      PresentBetween(values);
      Stats(Some(Mean(vals)), Some(Min(vals)), Some(Max(vals)))
  }

  // ---------------------------------------------------------------
  // calculate_capacity
  // ---------------------------------------------------------------

  /** Headroom to charge and to discharge, in kWh, each clamped at zero. */
  function CalculateCapacity(totalKwh: real, soc: real, minSoc: real, maxSoc: real): (r: (real, real))
    ensures 0.0 <= r.0 && 0.0 <= r.1
    ensures totalKwh * maxSoc / 100.0 - totalKwh * soc / 100.0 <= r.0
    ensures totalKwh * soc / 100.0 - totalKwh * minSoc / 100.0 <= r.1
    ensures r.0 == 0.0 || r.0 == totalKwh * maxSoc / 100.0 - totalKwh * soc / 100.0
    ensures r.1 == 0.0 || r.1 == totalKwh * soc / 100.0 - totalKwh * minSoc / 100.0
  {
    var current := totalKwh * soc / 100.0;
    var charge := totalKwh * maxSoc / 100.0 - current;
    var discharge := current - totalKwh * minSoc / 100.0;
    (if charge >= 0.0 then charge else 0.0, if discharge >= 0.0 then discharge else 0.0)
  }

  /**
   * With a non-negative capacity and the SOC inside its limits, the two
   * headrooms add up to the usable part of the capacity.
   */
  lemma CapacitySplitsUsableRange(totalKwh: real, soc: real, minSoc: real, maxSoc: real)
    requires 0.0 <= totalKwh && minSoc <= soc <= maxSoc
    ensures var r := CalculateCapacity(totalKwh, soc, minSoc, maxSoc);
      r.0 + r.1 == totalKwh * (maxSoc - minSoc) / 100.0
  {
    ScaleMonotone(totalKwh, soc, maxSoc);
    ScaleMonotone(totalKwh, minSoc, soc);
  }

  lemma ScaleMonotone(k: real, a: real, b: real)
    requires 0.0 <= k && a <= b
    ensures k * a / 100.0 <= k * b / 100.0
  {
    assert k * b - k * a == k * (b - a);
    assert 0.0 <= k * (b - a);
  }

  // ---------------------------------------------------------------
  // read_registers
  // ---------------------------------------------------------------

  /** One entry of the Hithium register map. */
  datatype RegisterConfig = RegisterConfig(fc: Option<int>, address: int, quantity: int, signed: Option<bool>, gain: Option<real>)

  /**
   * What the device answers at an entry's address and quantity, to a read
   * of holding registers and to a read of input registers (`None` when the
   * read fails).
   */
  datatype EntryReplies = EntryReplies(holding: Option<seq<Word>>, input: Option<seq<Word>>)

  /** Function code 3 reads holding registers; anything else (or none) reads input registers. */
  function ReplyFor(cfg: RegisterConfig, rs: EntryReplies): Option<seq<Word>>
  {
    if cfg.fc == Some(3) then rs.holding else rs.input
  }

  /** `cfg.get("signed")` is truthy; a missing flag means unsigned. */
  predicate SignedFlag(cfg: RegisterConfig)
  {
    cfg.signed == Some(true)
  }

  /** A register's value before the gain is applied. */
  function PreGain(cfg: RegisterConfig, w: Word): (v: int)
    ensures SignedFlag(cfg) ==> v == Signed16(w)
    ensures !SignedFlag(cfg) ==> v == w
    ensures -0x8000 <= v < WordModulus
  {
    if SignedFlag(cfg) && w >= 32768 then w - 65536 else w
  }

  predicate ZeroGain(cfg: RegisterConfig)
  {
    cfg.gain == Some(0.0)
  }

  /** A register's converted value, for a map entry whose gain is not zero. */
  function ConvertWord(cfg: RegisterConfig, w: Word): real
    requires !ZeroGain(cfg)
  {
    if cfg.gain.Some? then PreGain(cfg, w) as real / cfg.gain.value else PreGain(cfg, w) as real
  }

  /**
   * Reads one map entry: a failed read raises, a zero gain raises as soon as
   * a register has to be divided, and otherwise each register is converted
   * in order.
   */
  method ReadRegisters(cfg: RegisterConfig, rs: EntryReplies) returns (r: Result<seq<real>>)
    ensures cfg.fc == Some(3) ==> ReplyFor(cfg, rs) == rs.holding
    ensures cfg.fc != Some(3) ==> ReplyFor(cfg, rs) == rs.input
    ensures ReplyFor(cfg, rs).None? ==> r.Err?
    ensures ReplyFor(cfg, rs).Some? ==> (r.Err? <==> ZeroGain(cfg) && ReplyFor(cfg, rs).value != [])
    ensures r.Ok? ==> !ZeroGain(cfg) || ReplyFor(cfg, rs).value == []
    ensures r.Ok? ==> |r.value| == |ReplyFor(cfg, rs).value|
    ensures r.Ok? ==> forall i :: 0 <= i < |r.value| ==>
      !ZeroGain(cfg) && r.value[i] == ConvertWord(cfg, ReplyFor(cfg, rs).value[i])
  {
    var reply := if cfg.fc == Some(3) then rs.holding else rs.input;
    if reply.None? {
      return Err("Modbus read failed");
    }
    var regs := reply.value;
    var values: seq<real> := [];
    for i := 0 to |regs|
      invariant |values| == i
      invariant i > 0 ==> !ZeroGain(cfg)
      invariant forall j :: 0 <= j < i ==> !ZeroGain(cfg) && values[j] == ConvertWord(cfg, regs[j])
    {
      var v: real := regs[i] as real;
      if SignedFlag(cfg) && regs[i] >= 32768 {
        v := v - 65536.0;
      }
      if cfg.gain.Some? {
        if cfg.gain.value == 0.0 {
          return Err("division by zero");
        }
        v := v / cfg.gain.value;
      }
      values := values + [v];
    }
    return Ok(values);
  }

  // ---------------------------------------------------------------
  // poll_single_ess
  // ---------------------------------------------------------------

  /** What a map entry contributes to the raw table: its values, or `[]` when reading it raised. */
  function RegisterValues(cfg: RegisterConfig, rs: EntryReplies): (vs: seq<real>)
    ensures ReplyFor(cfg, rs).None? ==> vs == []
    ensures ReplyFor(cfg, rs).Some? && ZeroGain(cfg) ==> vs == []
    ensures ReplyFor(cfg, rs).Some? && !ZeroGain(cfg) ==>
      && |vs| == |ReplyFor(cfg, rs).value|
      && forall i :: 0 <= i < |vs| ==> vs[i] == ConvertWord(cfg, ReplyFor(cfg, rs).value[i])
  {
    var reply := ReplyFor(cfg, rs);
    if reply.None? || ZeroGain(cfg) then []
    else seq(|reply.value|, i requires 0 <= i < |reply.value| => ConvertWord(cfg, reply.value[i]))
  }

  predicate DistinctKeys<V>(entries: seq<(string, V)>)
  {
    forall i, j :: 0 <= i < j < |entries| ==> entries[i].0 != entries[j].0
  }

  /** The raw table: each map key bound to the values its registers gave. */
  function RawTable(hithiumMap: seq<(string, RegisterConfig)>, replies: seq<EntryReplies>): (raw: map<string, seq<real>>)
    requires |replies| == |hithiumMap| && DistinctKeys(hithiumMap)
    ensures raw.Keys == set i | 0 <= i < |hithiumMap| :: hithiumMap[i].0
    ensures forall i :: 0 <= i < |hithiumMap| ==> raw[hithiumMap[i].0] == RegisterValues(hithiumMap[i].1, replies[i])
  {
    map i | 0 <= i < |hithiumMap| :: hithiumMap[i].0 := RegisterValues(hithiumMap[i].1, replies[i])
  }

  const TotalCapacity: string := "totalCapacity"
  const AverageCurrentSoc: string := "averageCurrentSOC"
  const AllowedMinSoc: string := "allowedMinSOC"
  const AllowedMaxSoc: string := "allowedMaxSOC"
  const BatteryCellTemp: string := "averageBatterycellTemp"
  const ContainerInsideTemp: string := "averageContainerInsideTemp"

  const RequiredKeys: seq<string> := [TotalCapacity, AverageCurrentSoc, AllowedMinSoc, AllowedMaxSoc]

  /** The first required key that is missing or has no value, in the order checked. */
  function FirstMissing(raw: map<string, seq<real>>, keys: seq<string>): (m: Option<string>)
    ensures m.None? <==> forall i :: 0 <= i < |keys| ==> keys[i] in raw && raw[keys[i]] != []
    ensures m.Some? ==> m.value in keys && (m.value !in raw || raw[m.value] == [])
  {
    if keys == [] then None
    else if keys[0] !in raw || raw[keys[0]] == [] then Some(keys[0])
    else
      var rest := FirstMissing(raw, keys[1..]);
      assert forall i :: 1 <= i < |keys| ==> keys[i] == keys[1..][i - 1];
      rest
  }

  /** What one poll of an ESS reports. */
  datatype EssReading = EssReading(
    batt: Stats,
    cont: Stats,
    soc: real,
    minSoc: real,
    maxSoc: real,
    chargeKwh: real,
    dischargeKwh: real)

  function AsPresent(xs: seq<real>): seq<Option<real>>
  {
    seq(|xs|, i requires 0 <= i < |xs| => Some(xs[i]))
  }

  /** Every required key present with a value. */
  predicate HasRequired(raw: map<string, seq<real>>)
  {
    forall k :: k in RequiredKeys ==> k in raw && raw[k] != []
  }

  /**
   * The reading assembled from the raw table: polling fails when a required
   * value is missing, or when a temperature key is absent from the map;
   * otherwise the first value of each required key is used.
   */
  function EssFromRaw(raw: map<string, seq<real>>): (r: Result<EssReading>)
    ensures r.Ok? <==> HasRequired(raw) && BatteryCellTemp in raw && ContainerInsideTemp in raw
    ensures !HasRequired(raw) ==> r.Err? && |r.error| > 0
    ensures r.Ok? ==>
      && r.value.soc == raw[AverageCurrentSoc][0]
      && r.value.minSoc == raw[AllowedMinSoc][0]
      && r.value.maxSoc == raw[AllowedMaxSoc][0]
      && (r.value.chargeKwh, r.value.dischargeKwh)
         == CalculateCapacity(raw[TotalCapacity][0], raw[AverageCurrentSoc][0], raw[AllowedMinSoc][0], raw[AllowedMaxSoc][0])
      && r.value.batt == Aggregate(AsPresent(raw[BatteryCellTemp]))
      && r.value.cont == Aggregate(AsPresent(raw[ContainerInsideTemp]))
  {
    var missing := FirstMissing(raw, RequiredKeys);
    if missing.Some? then Err("[ESS] Missing required value: " + missing.value)
    else if BatteryCellTemp !in raw then Err("KeyError: " + BatteryCellTemp)
    else if ContainerInsideTemp !in raw then Err("KeyError: " + ContainerInsideTemp)
    else
      assert RequiredKeys[0] == TotalCapacity && RequiredKeys[1] == AverageCurrentSoc;
      assert RequiredKeys[2] == AllowedMinSoc && RequiredKeys[3] == AllowedMaxSoc;
      var capacity := CalculateCapacity(raw[TotalCapacity][0], raw[AverageCurrentSoc][0],
                                        raw[AllowedMinSoc][0], raw[AllowedMaxSoc][0]);
      Ok(EssReading(
        Aggregate(AsPresent(raw[BatteryCellTemp])),
        Aggregate(AsPresent(raw[ContainerInsideTemp])),
        raw[AverageCurrentSoc][0], raw[AllowedMinSoc][0], raw[AllowedMaxSoc][0],
        capacity.0, capacity.1))
  }

  /** Reads every entry of the map in order; an entry whose read raised is recorded as `[]`. */
  method ReadAll(hithiumMap: seq<(string, RegisterConfig)>, replies: seq<EntryReplies>)
    returns (raw: map<string, seq<real>>)
    requires |replies| == |hithiumMap| && DistinctKeys(hithiumMap)
    ensures raw == RawTable(hithiumMap, replies)
  {
    raw := map[];
    var i := 0;
    while i < |hithiumMap|
      invariant 0 <= i <= |hithiumMap|
      invariant raw.Keys == set j | 0 <= j < i :: hithiumMap[j].0
      invariant forall j :: 0 <= j < i ==> raw[hithiumMap[j].0] == RegisterValues(hithiumMap[j].1, replies[j])
    {
      var (key, cfg) := hithiumMap[i];
      var values := ReadRegisters(cfg, replies[i]);
      var vs: seq<real> := if values.Ok? then values.value else [];
      assert vs == RegisterValues(cfg, replies[i]) by {
        if values.Ok? {
          assert values.value == RegisterValues(cfg, replies[i]);
        }
      }
      raw := raw[key := vs];
      i := i + 1;
    }
  }

  /** `poll_single_ess`: reads the whole map, then assembles the reading. */
  method PollSingleEss(hithiumMap: seq<(string, RegisterConfig)>, replies: seq<EntryReplies>)
    returns (r: Result<EssReading>)
    requires |replies| == |hithiumMap| && DistinctKeys(hithiumMap)
    ensures r == EssFromRaw(RawTable(hithiumMap, replies))
  {
    var raw := ReadAll(hithiumMap, replies);
    r := EssFromRaw(raw);
  }

  /** Polls one ESS and reports success or failure of the plant to the breaker. */
  method PollEss(
    breaker: Breaker.CircuitBreaker, plantId: Breaker.PlantId, now: int,
    hithiumMap: seq<(string, RegisterConfig)>, replies: seq<EntryReplies>)
    returns (r: Result<EssReading>)
    requires |replies| == |hithiumMap| && DistinctKeys(hithiumMap)
    modifies breaker
    ensures r == EssFromRaw(RawTable(hithiumMap, replies))
    ensures r.Ok? ==> breaker.failed == old(breaker.failed) - {plantId}
    ensures r.Err? ==> breaker.failed == old(breaker.failed)[plantId := now]
  {
    r := PollSingleEss(hithiumMap, replies);
    if r.Ok? {
      breaker.OnSuccess(plantId);
    } else {
      breaker.OnFailure(plantId, now);
    }
  }
}
