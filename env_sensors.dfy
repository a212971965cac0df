/**
 * The environment-sensor poller: one input register read as a signed
 * tenth-of-a-degree temperature, stored at most once per sensor and second,
 * and the rule that turns the windowed statistics into a triple.  The
 * Modbus reply is an input and the readings table a class with a map field.
 */
module EnvSensors {
  import opened Wrappers
  import opened Words
  import EssPoller

  /** `poll_sensor_sync`: the temperature in degrees from register 0, or an error when nothing came back. */
  function SensorTemperature(reply: Option<seq<Word>>): (r: Result<real>)
    ensures r.Err? <==> reply.None? || reply.value == []
    ensures r.Ok? ==> r.value == Signed16(reply.value[0]) as real / 10.0
    ensures r.Ok? ==> -3276.8 <= r.value <= 3276.7
    ensures r.Ok? && reply.value[0] <= 32767 ==> r.value == reply.value[0] as real / 10.0
    ensures r.Ok? && reply.value[0] > 32767 ==> r.value == (reply.value[0] as int - 65536) as real / 10.0
  {
    if reply.None? || reply.value == [] then Err("No data from environment sensor")
    else
      var raw: int := reply.value[0];
      var signed := if raw > 32767 then raw - 65536 else raw;
      Ok(signed as real / 10.0)
  }

  const MicrosPerSecond: int := 1_000_000

  /** The timestamp with its microseconds cleared, as whole seconds. */
  function MeasuredAt(nowMicros: int): (s: int)
    ensures s * MicrosPerSecond <= nowMicros < (s + 1) * MicrosPerSecond
  {
    nowMicros / MicrosPerSecond
  }

  /** A key of the readings table: sensor id and second. */
  type ReadingKey = (int, int)

  /** The `environment_data_term1` rows: one temperature per (sensor, second). */
  class ReadingsTable {
    var rows: map<ReadingKey, real>

    constructor (rows0: map<ReadingKey, real>)
      ensures rows == rows0
    {
      rows := rows0;
    }

    /** `INSERT ... ON CONFLICT (sensor_id, measured_at) DO NOTHING` */
    method InsertIfAbsent(sensorId: int, measuredAt: int, temperature: real)
      modifies this
      ensures (sensorId, measuredAt) in old(rows) ==> rows == old(rows)
      ensures (sensorId, measuredAt) !in old(rows) ==> rows == old(rows)[(sensorId, measuredAt) := temperature]
    {
      if (sensorId, measuredAt) !in rows {
        rows := rows[(sensorId, measuredAt) := temperature];
      }
    }
  }

  /**
   * `poll_once`: reads the sensor and stores the reading under the current
   * second, unless that second already has one; a failed read stores nothing.
   */
  method PollOnce(table: ReadingsTable, sensorId: int, nowMicros: int, reply: Option<seq<Word>>)
    returns (r: Result<real>)
    modifies table
    ensures r == SensorTemperature(reply)
    ensures r.Err? ==> table.rows == old(table.rows)
    ensures r.Ok? && (sensorId, MeasuredAt(nowMicros)) in old(table.rows) ==> table.rows == old(table.rows)
    ensures r.Ok? && (sensorId, MeasuredAt(nowMicros)) !in old(table.rows) ==>
      table.rows == old(table.rows)[(sensorId, MeasuredAt(nowMicros)) := r.value]
  {
    r := SensorTemperature(reply);
    if r.Ok? {
      table.InsertIfAbsent(sensorId, MeasuredAt(nowMicros), r.value);
    }
  }

  /** Two readings of one sensor within the same second: the first one is kept. */
  method SameSecondKeepsFirst(table: ReadingsTable, sensorId: int, t1: int, t2: int, reply1: Option<seq<Word>>, reply2: Option<seq<Word>>)
    requires MeasuredAt(t1) == MeasuredAt(t2)
    requires (sensorId, MeasuredAt(t1)) !in table.rows
    requires SensorTemperature(reply1).Ok?
    modifies table
    ensures table.rows == old(table.rows)[(sensorId, MeasuredAt(t1)) := SensorTemperature(reply1).value]
  {
    var first := PollOnce(table, sensorId, t1, reply1);
    var second := PollOnce(table, sensorId, t2, reply2);
  }

  /**
   * The statistics triple: kept when the query returned a row whose average
   * is not missing, otherwise all three are missing.
   */
  function StatsTriple(row: Option<EssPoller.Stats>): (r: EssPoller.Stats)
    ensures r == EssPoller.NoStats || (row.Some? && r == row.value)
    ensures r.avg.None? ==> r == EssPoller.NoStats
    ensures row.Some? && row.value.avg.Some? ==> r == row.value
  {
    if row.Some? && row.value.avg.Some? then row.value else EssPoller.NoStats
  }

  /**
   * Statistics computed as `aggregate` computes them pass the rule
   * unchanged: the rule only normalises a row with a missing average.
   */
  lemma StatsTripleKeepsAggregate(values: seq<Option<real>>)
    ensures StatsTriple(Some(EssPoller.Aggregate(values))) == EssPoller.Aggregate(values)
  {
  }
}
