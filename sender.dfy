/**
 * The sender: builds the measurement payload of one POD (point of delivery)
 * for the partner API, mirrors the last heartbeat received, and stores the
 * first control of a successful response in the per-POD controls inbox,
 * moving the stored heartbeat only forward.  Query results, the API key and
 * the HTTP response are inputs.
 */
module Sender {
  import opened Wrappers
  import EssPoller
  import EnvSensors

  // ---------------------------------------------------------------
  // payload
  // ---------------------------------------------------------------

  /** The latest `plant_data_term1` row of a plant, as the sender reads it. */
  datatype Measurement = Measurement(
    plantId: int,
    podId: string,
    sumActivePower: Option<real>,
    cosPhi: Option<real>,
    availablePowerMin: Option<real>,
    availablePowerMax: Option<real>,
    referencePower: Option<real>)

  /** The latest `ess_data_term1` row of a plant. */
  datatype EssRow = EssRow(
    availableCapacityCharge: Option<real>,
    availableCapacityDischarge: Option<real>,
    averageCurrentSoc: Option<real>,
    allowedMinSoc: Option<real>,
    allowedMaxSoc: Option<real>)

  /** One measurement entry; a missing value is sent as JSON `null`. */
  datatype Entry = Entry(measurement: string, measuredAt: string, value: Option<real>, quality: int)

  datatype PodPayload = PodPayload(pod: string, values: seq<Entry>)

  const BaseNames: seq<string> :=
    ["heartbeatMirrored", "availablePowerMin", "availablePowerMax", "sumActivePower", "cosPhi", "referencePower"]

  const EssNames: seq<string> :=
    ["availableCapacityCharge", "availableCapacityDischarge",
     "averageBatterycellTemp", "averageBatterycellTempMIN", "averageBatterycellTempMAX",
     "averageContainerInsideTemp", "averageContainerInsideTempMIN", "averageContainerInsideTempMAX",
     "averageCurrentSOC", "allowedMinSOC", "allowedMaxSOC"]

  const EnvNames: seq<string> :=
    ["averageEnvironmentTemp", "averageEnvironmentTempMIN", "averageEnvironmentTempMAX"]

  function BaseValues(m: Measurement, heartbeat: int): seq<Option<real>>
  {
    [Some(heartbeat as real), m.availablePowerMin, m.availablePowerMax, m.sumActivePower, m.cosPhi, m.referencePower]
  }

  function EssValues(ess: EssRow, batt: EssPoller.Stats, cont: EssPoller.Stats): seq<Option<real>>
  {
    [ess.availableCapacityCharge, ess.availableCapacityDischarge,
     batt.avg, batt.min, batt.max,
     cont.avg, cont.min, cont.max,
     ess.averageCurrentSoc, ess.allowedMinSoc, ess.allowedMaxSoc]
  }

  function EnvValues(env: EssPoller.Stats): seq<Option<real>>
  {
    [env.avg, env.min, env.max]
  }

  /** Entries pairing each name with its value, all with quality 1 and the same timestamp. */
  function Entries(names: seq<string>, vals: seq<Option<real>>, measuredAt: string): (es: seq<Entry>)
    requires |names| == |vals|
    ensures |es| == |names|
    ensures forall i :: 0 <= i < |es| ==> es[i] == Entry(names[i], measuredAt, vals[i], 1)
  {
    seq(|names|, i requires 0 <= i < |names| => Entry(names[i], measuredAt, vals[i], 1))
  }

  function Names(es: seq<Entry>): seq<string>
  {
    seq(|es|, i requires 0 <= i < |es| => es[i].measurement)
  }

  function Readings(es: seq<Entry>): seq<Option<real>>
  {
    seq(|es|, i requires 0 <= i < |es| => es[i].value)
  }

  /** The payload `build_payload` returns, as a value. */
  function Payload(
    m: Measurement, ess: Option<EssRow>, heartbeat: int,
    batt: EssPoller.Stats, cont: EssPoller.Stats, env: EssPoller.Stats, measuredAt: string)
    : seq<PodPayload>
  {
    var base := Entries(BaseNames, BaseValues(m, heartbeat), measuredAt);
    var withEss := if ess.Some? then base + Entries(EssNames, EssValues(ess.value, batt, cont), measuredAt) else base;
    var all := if env.avg.Some? then withEss + Entries(EnvNames, EnvValues(env), measuredAt) else withEss;
    [PodPayload(m.podId, all)]
  }

  lemma NamesOfConcat(a: seq<Entry>, b: seq<Entry>)
    ensures Names(a + b) == Names(a) + Names(b)
    ensures Readings(a + b) == Readings(a) + Readings(b)
  {
  }

  lemma NamesOfEntries(names: seq<string>, vals: seq<Option<real>>, measuredAt: string)
    requires |names| == |vals|
    ensures Names(Entries(names, vals, measuredAt)) == names
    ensures Readings(Entries(names, vals, measuredAt)) == vals
  {
  }

  /**
   * The payload is one element for the measurement's POD; its entries are
   * the six base measurements, then the eleven ESS measurements when
   * there is an ESS row, then the three environment measurements when the
   * environment average is known, each carrying its value, quality 1 and
   * the shared timestamp.
   */
  lemma PayloadShape(
    m: Measurement, ess: Option<EssRow>, heartbeat: int,
    batt: EssPoller.Stats, cont: EssPoller.Stats, env: EssPoller.Stats, measuredAt: string)
    ensures var p := Payload(m, ess, heartbeat, batt, cont, env, measuredAt);
      && |p| == 1 && p[0].pod == m.podId
      && |p[0].values| == 6 + (if ess.Some? then 11 else 0) + (if env.avg.Some? then 3 else 0)
      && Names(p[0].values) == BaseNames + (if ess.Some? then EssNames else []) + (if env.avg.Some? then EnvNames else [])
      && Readings(p[0].values) ==
           BaseValues(m, heartbeat)
           + (if ess.Some? then EssValues(ess.value, batt, cont) else [])
           + (if env.avg.Some? then EnvValues(env) else [])
      && p[0].values[0] == Entry("heartbeatMirrored", measuredAt, Some(heartbeat as real), 1)
      && forall i :: 0 <= i < |p[0].values| ==> p[0].values[i].quality == 1 && p[0].values[i].measuredAt == measuredAt
  {
    var base := Entries(BaseNames, BaseValues(m, heartbeat), measuredAt);
    NamesOfEntries(BaseNames, BaseValues(m, heartbeat), measuredAt);
    var withEss := base;
    if ess.Some? {
      var e := Entries(EssNames, EssValues(ess.value, batt, cont), measuredAt);
      NamesOfEntries(EssNames, EssValues(ess.value, batt, cont), measuredAt);
      NamesOfConcat(base, e);
      withEss := base + e;
    }
    assert Names(withEss) == BaseNames + (if ess.Some? then EssNames else []);
    assert Readings(withEss) == BaseValues(m, heartbeat) + (if ess.Some? then EssValues(ess.value, batt, cont) else []);
    if env.avg.Some? {
      var v := Entries(EnvNames, EnvValues(env), measuredAt);
      NamesOfEntries(EnvNames, EnvValues(env), measuredAt);
      NamesOfConcat(withEss, v);
    }
  }

  /** `build_payload`: the base entries, extended in place by the ESS and environment entries. */
  method BuildPayload(
    m: Measurement, ess: Option<EssRow>, heartbeat: int,
    batt: EssPoller.Stats, cont: EssPoller.Stats, env: EssPoller.Stats, measuredAt: string)
    returns (r: seq<PodPayload>)
    ensures r == Payload(m, ess, heartbeat, batt, cont, env, measuredAt)
  {
    var values := Entries(BaseNames, BaseValues(m, heartbeat), measuredAt);
    if ess.Some? {
      values := values + Entries(EssNames, EssValues(ess.value, batt, cont), measuredAt);
    }
    if env.avg.Some? {
      values := values + Entries(EnvNames, EnvValues(env), measuredAt);
    }
    r := [PodPayload(m.podId, values)];
  }

  // ---------------------------------------------------------------
  // heartbeat and the controls inbox
  // ---------------------------------------------------------------

  /** `get_last_heartbeat(pod) or 1`: a missing or zero heartbeat is mirrored as 1. */
  function MirroredHeartbeat(stored: Option<int>): (h: int)
    ensures stored.None? || stored == Some(0) ==> h == 1
    ensures stored.Some? && stored.value != 0 ==> h == stored.value
    ensures h != 0
  {
    if stored.None? || stored.value == 0 then 1 else stored.value
  }

  /** One row of `alteo_controls_inbox`. */
  datatype InboxRow = InboxRow(
    heartbeat: Option<int>,
    sumSetpoint: Option<real>,
    scheduledReference: Option<real>,
    receivedAt: int)

  /**
   * The conflict condition of the upsert, in SQL's three-valued logic: a
   * stored NULL heartbeat is always replaced, and a NULL incoming heartbeat
   * never beats a stored one.
   */
  predicate HeartbeatAdvances(stored: Option<int>, incoming: Option<int>)
  {
    stored.None? || (incoming.Some? && stored.value < incoming.value)
  }

  /** The inbox after `update_heartbeat_inbox`. */
  function Upserted(
    rows: map<string, InboxRow>, pod: string,
    heartbeat: Option<int>, sumSetpoint: Option<real>, scheduledReference: Option<real>, now: int)
    : (r: map<string, InboxRow>)
    ensures r.Keys == rows.Keys + {pod}
    ensures forall p :: p in rows && p != pod ==> r[p] == rows[p]
    ensures pod !in rows ==> r[pod] == InboxRow(heartbeat, sumSetpoint, scheduledReference, now)
    ensures pod in rows ==>
      (r[pod] == rows[pod] || r[pod] == InboxRow(heartbeat, sumSetpoint, scheduledReference, now))
    ensures pod in rows && rows[pod].heartbeat.Some? ==>
      r[pod].heartbeat.Some? && rows[pod].heartbeat.value <= r[pod].heartbeat.value
    ensures pod in rows && (r[pod] != rows[pod]) ==> HeartbeatAdvances(rows[pod].heartbeat, heartbeat)
    ensures pod in rows && HeartbeatAdvances(rows[pod].heartbeat, heartbeat) ==>
      r[pod] == InboxRow(heartbeat, sumSetpoint, scheduledReference, now)
    ensures pod in rows && !HeartbeatAdvances(rows[pod].heartbeat, heartbeat) ==> r == rows
  {
    if pod !in rows || HeartbeatAdvances(rows[pod].heartbeat, heartbeat) then
      rows[pod := InboxRow(heartbeat, sumSetpoint, scheduledReference, now)]
    else rows
  }

  /** A stored heartbeat never decreases, for any sequence of upserts. */
  lemma {:induction false} HeartbeatMonotone(
    rows: map<string, InboxRow>, msgs: seq<(string, Option<int>, Option<real>, Option<real>, int)>, pod: string)
    requires pod in rows && rows[pod].heartbeat.Some?
    ensures var r := UpsertAll(rows, msgs);
      pod in r && r[pod].heartbeat.Some? && rows[pod].heartbeat.value <= r[pod].heartbeat.value
    decreases |msgs|
  {
    if msgs != [] {
      var (p, h, s, sr, t) := msgs[0];
      var next := Upserted(rows, p, h, s, sr, t);
      HeartbeatMonotone(next, msgs[1..], pod);
    }
  }

  /** Repeating an upsert with the same message at the same time changes nothing more. */
  lemma UpsertIdempotent(
    rows: map<string, InboxRow>, pod: string,
    heartbeat: Option<int>, sumSetpoint: Option<real>, scheduledReference: Option<real>, now: int)
    ensures var once := Upserted(rows, pod, heartbeat, sumSetpoint, scheduledReference, now);
      Upserted(once, pod, heartbeat, sumSetpoint, scheduledReference, now) == once
  {
  }

  /** The upserts of a sequence of responses, applied in order. */
  function UpsertAll(rows: map<string, InboxRow>, msgs: seq<(string, Option<int>, Option<real>, Option<real>, int)>)
    : map<string, InboxRow>
    decreases |msgs|
  {
    if msgs == [] then rows
    else
      var (p, h, s, sr, t) := msgs[0];
      UpsertAll(Upserted(rows, p, h, s, sr, t), msgs[1..])
  }

  /** The `alteo_controls_inbox` table: one row per POD. */
  class PodInbox {
    var rows: map<string, InboxRow>

    constructor (rows0: map<string, InboxRow>)
      ensures rows == rows0
    {
      rows := rows0;
    }

    /** `get_last_heartbeat`: the POD's stored heartbeat, missing when there is no row. */
    function LastHeartbeat(pod: string): (h: Option<int>)
      reads this
      ensures pod !in rows ==> h.None?
      ensures pod in rows ==> h == rows[pod].heartbeat
    {
      if pod in rows then rows[pod].heartbeat else None
    }

    /** `update_heartbeat_inbox`: insert, or update only when the heartbeat advances. */
    method UpdateHeartbeatInbox(
      pod: string, heartbeat: Option<int>, sumSetpoint: Option<real>, scheduledReference: Option<real>, now: int)
      modifies this
      ensures rows == Upserted(old(rows), pod, heartbeat, sumSetpoint, scheduledReference, now)
    {
      if pod !in rows || HeartbeatAdvances(rows[pod].heartbeat, heartbeat) {
        rows := rows[pod := InboxRow(heartbeat, sumSetpoint, scheduledReference, now)];
      }
    }
  }

  // ---------------------------------------------------------------
  // send_sync
  // ---------------------------------------------------------------

  /** One element of the response's `controls` list; a missing field reads as `None`. */
  datatype ControlMsg = ControlMsg(heartbeat: Option<int>, sumSetPoint: Option<real>, scheduledReference: Option<real>)

  /** The HTTP status, and the `controls` field when the body is a JSON object that has one. */
  datatype Response = Response(status: int, controls: Option<seq<ControlMsg>>)

  datatype SendOutcome =
    | Sent(payload: seq<PodPayload>, status: int)
    | SendFailed(error: string)

  /** Python truthiness of the API key read from the environment. */
  predicate KeyPresent(apiKey: Option<string>)
  {
    apiKey.Some? && apiKey.value != ""
  }

  /** The response carries a first control to store. */
  predicate StoresControl(resp: Response)
  {
    resp.status == 200 && resp.controls.Some? && resp.controls.value != []
  }

  /**
   * `send_sync` for one measurement: the payload mirrors the stored
   * heartbeat and carries the ESS statistics only with an ESS row; nothing
   * is posted without an API key, and the inbox changes only for a 200
   * response with a non-empty controls list, from its first element.
   * `response` is `None` when the request itself raised.
   */
  method SendSync(
    inbox: PodInbox, m: Measurement, ess: Option<EssRow>,
    batt: EssPoller.Stats, cont: EssPoller.Stats, envRow: Option<EssPoller.Stats>,
    apiKey: Option<string>, response: Option<Response>, measuredAt: string, now: int)
    returns (outcome: SendOutcome)
    modifies inbox
    ensures outcome.Sent? <==> KeyPresent(apiKey) && response.Some?
    ensures outcome.Sent? ==>
      && outcome.status == response.value.status
      && outcome.payload == Payload(
           m, ess, MirroredHeartbeat(old(inbox.LastHeartbeat(m.podId))),
           if ess.Some? then batt else EssPoller.NoStats,
           if ess.Some? then cont else EssPoller.NoStats,
           EnvSensors.StatsTriple(envRow), measuredAt)
    ensures outcome.Sent? && StoresControl(response.value) ==>
      var c := response.value.controls.value[0];
      inbox.rows == Upserted(old(inbox.rows), m.podId, c.heartbeat, c.sumSetPoint, c.scheduledReference, now)
    ensures !(outcome.Sent? && StoresControl(response.value)) ==> inbox.rows == old(inbox.rows)
  {
    var pod := m.podId;
    var heartbeat := MirroredHeartbeat(inbox.LastHeartbeat(pod));
    var env := EnvSensors.StatsTriple(envRow);
    var battStats, contStats := EssPoller.NoStats, EssPoller.NoStats;
    if ess.Some? {
      battStats, contStats := batt, cont;
    }
    var payload := BuildPayload(m, ess, heartbeat, battStats, contStats, env, measuredAt);
    if !KeyPresent(apiKey) {
      return SendFailed("ALTEO_API_KEY environment variable is not set");
    }
    if response.None? {
      return SendFailed("request failed");
    }
    var status := response.value.status;
    if status == 200 {
      var controls := if response.value.controls.Some? then response.value.controls.value else [];
      if controls != [] {
        var c := controls[0];
        inbox.UpdateHeartbeatInbox(pod, c.heartbeat, c.sumSetPoint, c.scheduledReference, now);
      }
    }
    outcome := Sent(payload, status);
  }

  /**
   * `send_sync` as written.  With an ESS row it asks `get_24h_avg_min_max`
   * for the battery statistics, and that call always raises: its query
   * aggregates the reserved word `column` instead of the column passed in,
   * and even a result row would be indexed by position on a dict cursor.
   * The except clause then ends the call, so nothing is posted and the
   * inbox is untouched.  Without an ESS row it is `SendSync`.
   */
  method SendSyncAsWritten(
    inbox: PodInbox, m: Measurement, ess: Option<EssRow>,
    batt: EssPoller.Stats, cont: EssPoller.Stats, envRow: Option<EssPoller.Stats>,
    apiKey: Option<string>, response: Option<Response>, measuredAt: string, now: int)
    returns (outcome: SendOutcome)
    modifies inbox
    ensures ess.Some? ==> outcome.SendFailed? && inbox.rows == old(inbox.rows)
    ensures ess.None? ==> (outcome.Sent? <==> KeyPresent(apiKey) && response.Some?)
    ensures ess.None? && outcome.Sent? ==>
      outcome.payload == Payload(m, None, MirroredHeartbeat(old(inbox.LastHeartbeat(m.podId))),
        EssPoller.NoStats, EssPoller.NoStats, EnvSensors.StatsTriple(envRow), measuredAt)
    ensures ess.None? && outcome.Sent? && StoresControl(response.value) ==>
      var c := response.value.controls.value[0];
      inbox.rows == Upserted(old(inbox.rows), m.podId, c.heartbeat, c.sumSetPoint, c.scheduledReference, now)
    ensures !(outcome.Sent? && StoresControl(response.value)) ==> inbox.rows == old(inbox.rows)
  {
    if ess.Some? {
      return SendFailed("syntax error at or near \"column\"");
    }
    outcome := SendSync(inbox, m, ess, batt, cont, envRow, apiKey, response, measuredAt, now);
  }

  /**
   * As written, a plant with an ESS row is never synchronised, whatever the
   * API key and the response; the intended `SendSync` posts its payload
   * whenever there is a key and a response.
   */
  method EssPlantNeverSynced(
    inbox: PodInbox, m: Measurement, row: EssRow,
    batt: EssPoller.Stats, cont: EssPoller.Stats, envRow: Option<EssPoller.Stats>,
    key: string, response: Response, measuredAt: string, now: int)
    returns (asWritten: SendOutcome, intended: SendOutcome)
    requires key != ""
    modifies inbox
    ensures asWritten.SendFailed?
    ensures intended.Sent? && |intended.payload| == 1
    ensures |intended.payload[0].values| >= |BaseNames| + |EssNames|
  {
    asWritten := SendSyncAsWritten(inbox, m, Some(row), batt, cont, envRow, Some(key), Some(response), measuredAt, now);
    intended := SendSync(inbox, m, Some(row), batt, cont, envRow, Some(key), Some(response), measuredAt, now);
    PayloadShape(m, Some(row), MirroredHeartbeat(old(inbox.LastHeartbeat(m.podId))), batt, cont,
      EnvSensors.StatsTriple(envRow), measuredAt);
  }

  // ---------------------------------------------------------------
  // cycle pacing
  // ---------------------------------------------------------------

  const CycleTime: real := 2.0

  /** `max(0, CYCLE_TIME - elapsed)`: never negative, and the cycle lasts at least two seconds. */
  function CycleSleep(elapsed: real): (s: real)
    ensures 0.0 <= s
    ensures CycleTime <= elapsed + s
    ensures s == 0.0 || elapsed + s == CycleTime
  {
    if 0.0 >= CycleTime - elapsed then 0.0 else CycleTime - elapsed
  }
}
