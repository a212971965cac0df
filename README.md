# ESS control loop — a Dafny model

This project models the deterministic rules of a battery-storage (ESS)
control loop for the ALTEO partner API. The loop is made of several Python
services:

- **collector** (`collector_alteo_term1.py`): groups plants and their ESS
  units, polls each plant's data logger over Modbus, decodes and scales the
  registers, and builds a `plant_data_term1` record.
- **circuit breaker** (`breaker.py`): a per-plant table of recent failures
  with a five-minute cooldown, shared by the pollers.
- **ESS poller** (`poll_ess_hithium.py`): reads the Hithium register map,
  sign-converts and scales each register, aggregates temperatures, checks the
  required values and computes the charge/discharge headroom.
- **environment sensor poller** (`poll_environment_sensors.py`): decodes one
  signed tenth-of-a-degree register and stores at most one reading per sensor
  and second.
- **control executor** (`control_executor.py`): takes the latest unapplied
  control of a POD (point of delivery), computes the ESS setpoint, applies
  the capacity guards, encodes the setpoint as two 16-bit registers, writes
  it and marks the control applied, or rolls back.
- **sender** (`sender.py`): builds the measurement payload, mirrors the last
  heartbeat, and stores the first returned control in the per-POD controls
  inbox, where the stored heartbeat only moves forward.
- **test generator** (`control_test_generator.py`): forces a fixed ascending
  setpoint schedule into every POD's inbox row.

Every device reply, query result, clock reading and HTTP response is a
parameter. Tables the code changes in place are classes with a `map` field:

- `Breaker.CircuitBreaker`
- `Control.ControlQueue` (table `alteo_control_inbox`)
- `Sender.PodInbox` (table `alteo_controls_inbox`)
- `EnvSensors.ReadingsTable`

Loops that fill a dictionary or list are methods with loop invariants, each
tied to a function of its inputs. Python's integer bit operations are written
as the exact arithmetic they compute (`Words`). Python's `int()` on a float
is truncation toward zero (`Words.Trunc`). Python truthiness is written out
where the code relies on it: an ESS id of 0, an empty model name, a
heartbeat of 0.

Modules: `Wrappers` (Option/Result), `Words`, `Breaker`, `Collector`,
`Control`, `EssPoller`, `EnvSensors`, `Sender`, `TestGenerator`.

Where the code disagrees with its own names, the model follows what the code
does:

- The sender's statistics helpers and their results are named "24h"
  (`get_24h_env_temp_avg_min_max` at `sender.py:99`, `get_24h_avg_min_max` at
  `sender.py:126`, the payload names at `sender.py:275-277`), and the
  environment poller's statistics query covers 24 hours. The sender's queries
  use a five-minute window (`sender.py:112`, `sender.py:137`). The window is a
  query result here and only the rule applied to its row is modelled.
- The executor reads `alteo_control_inbox`. The sender and the test generator
  write `alteo_controls_inbox`. These are two tables in the code, and they are
  modelled as two stores.

## Model

| member | source | states |
|---|---|---|
| Breaker.CircuitBreaker.constructor | breaker.py:4 | the failure table starts empty |
| Breaker.CircuitBreaker.ShouldSkip | breaker.py:7-16 | skip iff the plant is recorded and less than 5 minutes have passed since its failure; an expired entry is removed, and otherwise the table is unchanged; no other plant's entry changes |
| Breaker.CircuitBreaker.OnFailure | breaker.py:18-20 | the plant's failure time becomes `now`, overwriting an earlier one; other plants unchanged |
| Breaker.CircuitBreaker.OnSuccess | breaker.py:23-26 | the plant is removed; a no-op for an absent plant; other plants unchanged |
| Breaker.UnknownPlantIsPolled | breaker.py:9-10 | an unrecorded plant is not skipped and the table stays the same |
| Breaker.FailureStartsCooldown | breaker.py:12-13 | right after a failure, a query within the cooldown skips and leaves the table untouched |
| Breaker.ExpiredCooldownClears | breaker.py:14-16 | after the cooldown the first query clears the plant and a second query also polls it |
| Breaker.SuccessClears | breaker.py:23-26 | after a success the plant is polled at any time |
| Breaker.RefailureRestartsCooldown | breaker.py:20 | a second failure restarts the cooldown from the later time |
| Words.Signed16 | poll_environment_sensors.py:24-26 | the two's-complement reading of a register lies in [-32768, 32767] and agrees with the word mod 2^16 |
| Words.Signed32 | collector_alteo_term1.py:35-36 | the two's-complement reading of a 32-bit value lies in [-2^31, 2^31) and agrees with it mod 2^32 |
| Words.Bit31Iff | collector_alteo_term1.py:35 | for a 32-bit value, `raw & 0x80000000` is set iff raw >= 2^31 |
| Words.Trunc | control_executor.py:107 | `int()` truncates toward zero: the result is within 1 of x, on the side toward 0 |
| Collector.RegisterMapPath | collector_alteo_term1.py:11-20 | logger → `logger/<lower mfr>.json`; ess with a model → `ess/<lower mfr>_<lower model>.json`; ess without one → `ess/<lower mfr>.json`; any other device type is an error |
| Collector.LowerNormalises | collector_alteo_term1.py:15-17 | lower-casing leaves no upper-case letter and is idempotent |
| Collector.RegisterMapPathIgnoresCase | collector_alteo_term1.py:15-17 | the chosen path does not depend on the case of manufacturer and model |
| Collector.RawValue | collector_alteo_term1.py:27-36 | no value for no registers; two registers give hi·65536+lo in [0, 2^32), sign-converted when signed; otherwise the first register, never sign-extended |
| Collector.ScaledBounds | collector_alteo_term1.py:35-37 | dividing by a positive gain keeps a signed 32-bit value within [-2^31, 2^31)/gain and a single-register value non-negative |
| Collector.ScaleRegisters | collector_alteo_term1.py:27-37 | no value for an empty list; a zero gain raises; otherwise value·gain equals the raw value, with the signed and single-register bounds above |
| Collector.PollDevice | collector_alteo_term1.py:102-109 | succeeds iff every entry converts; then it binds exactly the map's keys, each to its entry's scaled value (a failed read gives no value) |
| Collector.BuildRecord | collector_alteo_term1.py:126-136 | available minimum 0; available maximum equals the reference power, and both are the magnitude of the active power when it is present and non-zero, absent otherwise; ghi and panel temperature absent |
| Collector.CollectPlantData | collector_alteo_term1.py:112-144 | a record exists iff the map was found and every entry converted, and it is the record built from the polled data; success clears the plant in the breaker, any failure records it at `now` |
| Collector.EssUnitsForSnoc | collector_alteo_term1.py:163-169 | appending a row extends a plant's ESS list by that row's ESS exactly when the row belongs to the plant and carries a truthy ESS id |
| Collector.GroupRow | collector_alteo_term1.py:152-169 | one loop step: a new plant id gets the plant built from this row and joins `order`; the row's ESS, if any, is appended to that plant's list |
| Collector.GroupRows | collector_alteo_term1.py:149-169 | one plant per distinct plant id, each id listed once in `order`, with its header fields from the first row for that id and its ESS list holding, in row order, the ESS of every row for it with a truthy ESS id |
| Collector.PlantsToPoll | collector_alteo_term1.py:175 | the plants a cycle polls are those the breaker does not skip, in order; the breaker table loses exactly the expired entries of the queried plants |
| Collector.PolledIff | collector_alteo_term1.py:175 | a plant is polled iff it is listed and not inside its cooldown |
| Control.CalculateEssSetpoint | control_executor.py:83-93 | an unknown SOC raises "SOC unknown"; otherwise the result is defined iff a target exists, and current + setpoint = target |
| Control.WithinDeadband | control_executor.py:96-99 | false without a previous value; otherwise true iff the two differ by less than 1.0 kW |
| Control.SplitWords | control_executor.py:113 | hi·65536 + lo of the split words equals the value mod 2^32 |
| Control.EncodeSetpoint | control_executor.py:106-113 | the two words satisfy hi·65536 + lo = int(kw·10) mod 2^32 |
| Control.Signed32Unique | control_executor.py:110-111 | two signed 32-bit values that agree mod 2^32 are equal |
| Control.EncodeDecodeRoundTrip | control_executor.py:106-113 | when int(kw·10) fits in int32, the collector's signed two-register decoder returns it from the encoded words, and scaling by 10 gives it over 10 |
| Control.ControlQueue.constructor | control_executor.py:26-35 | the queue holds the given rows |
| Control.ControlQueue.LatestUnappliedControl | control_executor.py:26-35 | none iff the POD has no unapplied control; otherwise an unapplied control of the POD received no earlier than any other |
| Control.ControlQueue.MarkControlApplied | control_executor.py:38-46 | the row is flagged applied at `now` with the value and note; nothing else changes |
| Control.AtMostZero | control_executor.py:167 | comparing a missing capacity raises; otherwise it is `capacity <= 0` |
| Control.HandleControlForPod | control_executor.py:132-187 | each outcome holds exactly when its cause does. NotLocked iff the lock was not taken; NoPendingControl iff locked and the POD has no unapplied control; in both nothing changes. Missing plant or ESS state: marked applied without a value, "Missing state data". Positive setpoint and discharge capacity ≤ 0, or negative setpoint and charge capacity ≤ 0: applied 0 with the note, no write. A write happens exactly when every check passes; it targets the ESS's ip and port at register 600 and carries EncodeSetpoint(target − current); on success the control is marked applied with that setpoint. Rolled back iff the SOC or the target is unknown, a guard compares a NULL capacity, or the write failed; then the control stays unapplied |
| EssPoller.Present | poll_ess_hithium.py:27 | a value is kept iff it was present, as many times as it occurs |
| EssPoller.PresentConcat | poll_ess_hithium.py:27 | the filter keeps order: the present values of a concatenation are those of each part, in turn |
| EssPoller.PresentSingle | poll_ess_hithium.py:27 | a single element contributes its value, or nothing when it is `None` |
| EssPoller.Min | poll_ess_hithium.py:30 | the minimum is a member and a lower bound |
| EssPoller.Max | poll_ess_hithium.py:30 | the maximum is a member and an upper bound |
| EssPoller.SumBounds | poll_ess_hithium.py:30 | a sum lies between length·lower bound and length·upper bound |
| EssPoller.MeanAtLeast | poll_ess_hithium.py:30 | the mean of a non-empty list is at least any lower bound of its elements |
| EssPoller.MeanAtMost | poll_ess_hithium.py:30 | the mean of a non-empty list is at most any upper bound of its elements |
| EssPoller.Aggregate | poll_ess_hithium.py:26-30 | all three missing iff no value is present; otherwise min ≤ avg ≤ max, min and max are present values bounding every present value, and avg is their mean |
| EssPoller.CalculateCapacity | poll_ess_hithium.py:33-37 | both headrooms are ≥ 0; each is its formula (total·max/100 − current, current − total·min/100) or 0 when that is negative |
| EssPoller.CapacitySplitsUsableRange | poll_ess_hithium.py:33-37 | with total ≥ 0 and min ≤ soc ≤ max, charge + discharge = total·(max − min)/100 |
| EssPoller.PreGain | poll_ess_hithium.py:53-55 | signed: the two's-complement reading in [-32768, 32767]; unsigned: the word itself |
| EssPoller.ReadRegisters | poll_ess_hithium.py:40-60 | the reply used is the holding-register reply for function code 3 and the input-register reply otherwise; a failed read raises; a zero gain raises iff there is a register; otherwise one converted value per register, in order |
| EssPoller.RegisterValues | poll_ess_hithium.py:77-81 | a failed read contributes `[]`, and so does a zero gain (it raises on the first register, or there is none); otherwise the converted values of the reply for the entry's function code |
| EssPoller.RawTable | poll_ess_hithium.py:75-81 | the raw table binds every map key to what its read contributed |
| EssPoller.FirstMissing | poll_ess_hithium.py:83-85 | none iff every required key is present with a value; otherwise a required key that is missing or empty |
| EssPoller.EssFromRaw | poll_ess_hithium.py:83-110 | succeeds iff the four required values are present and both temperature keys exist; the SOC values are the first of each list, the headroom is CalculateCapacity of the first values, and temperatures are aggregated |
| EssPoller.ReadAll | poll_ess_hithium.py:75-81 | the loop builds exactly the raw table; a failing register becomes `[]` instead of aborting |
| EssPoller.PollSingleEss | poll_ess_hithium.py:65-110 | the reading is EssFromRaw of the raw table |
| EssPoller.PollEss | poll_ess_hithium.py:115-170 | the poll result is reported to the breaker: success clears the plant, failure records it at `now` |
| EnvSensors.SensorTemperature | poll_environment_sensors.py:20-28 | no register data raises; otherwise raw/10 for raw ≤ 32767 and (raw − 65536)/10 above, i.e. Signed16/10, within [-3276.8, 3276.7] |
| EnvSensors.MeasuredAt | poll_environment_sensors.py:34 | the timestamp truncated to its second |
| EnvSensors.ReadingsTable.constructor | poll_environment_sensors.py:41-47 | the table holds the given rows |
| EnvSensors.ReadingsTable.InsertIfAbsent | poll_environment_sensors.py:39-50 | a new (sensor, second) key is added; an existing one keeps its first reading |
| EnvSensors.PollOnce | poll_environment_sensors.py:30-50 | a failed read stores nothing; otherwise the temperature is stored under (sensor, second) unless that key already has a reading |
| EnvSensors.SameSecondKeepsFirst | poll_environment_sensors.py:34-47 | of two readings in one second, the first is kept |
| EnvSensors.StatsTriple | poll_environment_sensors.py:79-82 | the row's triple when its average is present, otherwise all three missing |
| EnvSensors.StatsTripleKeepsAggregate | sender.py:120-123 | statistics computed as `aggregate` computes them pass the rule unchanged |
| Sender.Entries | sender.py:286-364 | each entry pairs a name with its value, quality 1 and the shared timestamp |
| Sender.NamesOfEntries | sender.py:286-364 | the entries' names and values are the given lists |
| Sender.PayloadShape | sender.py:279-366 | one element for the measurement's POD; 6 entries, plus 11 with an ESS row, plus 3 when the environment average is known; names in the fixed order, first heartbeatMirrored with the heartbeat; values in that order; quality 1 and the same timestamp everywhere |
| Sender.BuildPayload | sender.py:272-366 | the list extended in place is the payload above |
| Sender.MirroredHeartbeat | sender.py:379 | a missing or zero stored heartbeat is mirrored as 1, any other as itself |
| Sender.Upserted | sender.py:236-265 | inserts an unknown POD; replaces an existing row with the incoming one exactly when its heartbeat is NULL or smaller than a non-NULL incoming one, and otherwise leaves the table as it was; other PODs unchanged; a stored heartbeat never decreases |
| Sender.HeartbeatMonotone | sender.py:254-255 | over any sequence of upserts a POD's stored heartbeat never decreases |
| Sender.UpsertIdempotent | sender.py:248-255 | repeating an upsert with the same message changes nothing |
| Sender.PodInbox.constructor | sender.py:241-255 | the inbox holds the given rows |
| Sender.PodInbox.LastHeartbeat | sender.py:192-208 | the POD's stored heartbeat, missing when there is no row |
| Sender.PodInbox.UpdateHeartbeatInbox | sender.py:236-265 | the inbox becomes Upserted of the old inbox |
| Sender.SendSync | sender.py:373-458 | sent iff the API key is set and the request returned; the payload mirrors the stored heartbeat and carries ESS statistics only with an ESS row; the inbox changes only for status 200 with a non-empty controls list, from its first element |
| Sender.SendSyncAsWritten | sender.py:373-458 | as written: with an ESS row the statistics query raises, nothing is posted and the inbox is unchanged; without one it behaves as SendSync |
| Sender.EssPlantNeverSynced | sender.py:391-402 | with an API key and a response, a plant with an ESS row fails as written, where the intended send posts a payload with the base and ESS entries |
| Sender.CycleSleep | sender.py:481-482 | the sleep is never negative, and elapsed + sleep ≥ 2 s, with equality unless the sleep is 0 |
| TestGenerator.StepIndex | control_test_generator.py:87-91 | ⌊elapsed minutes / 5⌋ when that is below 3, and 3 otherwise; non-negative for non-negative elapsed time |
| TestGenerator.Setpoint | control_test_generator.py:87-93 | as written: for elapsed ≥ 0 the sequence element at the step index; an index in −4..−1 selects the element that many places from the end; below −4 it raises; any value it gives is in the sequence |
| TestGenerator.BackwardClockPicksLastStep | control_test_generator.py:84-93 | a clock one minute behind the start selects 300 kW |
| TestGenerator.BackwardClockRaises | control_test_generator.py:84-93 | a clock 21 minutes behind the start raises IndexError |
| TestGenerator.ClampedStepIndex | control_test_generator.py:88-91 | always a valid index, equal to the source's for elapsed ≥ 0 |
| TestGenerator.ClampedSetpoint | control_test_generator.py:12-17 | always an element of the sequence, equal to the source's for elapsed ≥ 0 |
| TestGenerator.Schedule | control_test_generator.py:12-17 | 50 kW on [0, 5) min, 100 on [5, 10), 200 on [10, 15), 300 from 15 min on |
| TestGenerator.SetpointMonotone | control_test_generator.py:12-17 | the setpoint never decreases as elapsed time grows |
| TestGenerator.WriteTestSetpoint | control_test_generator.py:41-65 | the POD's row is overwritten unconditionally with heartbeat 1 and sum_setpoint = scheduled_reference = setpoint |
| TestGenerator.GeneratorRound | control_test_generator.py:93-96 | every POD gets the same row with the clamped setpoint, which is the lookup's setpoint for elapsed ≥ 0; every other row is unchanged |

## Left out

- Modbus, Postgres, HTTP and JSON file loading are not modelled. Their results are parameters: register replies (`None` for a failed read), query rows, register maps as key/entry lists, the API response, and the lock result. A failed Modbus write is the boolean `writeOk`.
- The `print` logging and the `alteo_send_log` insert (`store_alteo_response`) are not modelled. The send log is written only, never read.
- The pollers' database inserts (`store_term1_data`, the `ess_data_term1` insert) are not modelled. `PollEss` does not model a failure of that insert, which would also record a breaker failure.
- Concurrency is not modelled: asyncio `gather`, thread pools, the LISTEN/NOTIFY loop of the executor, and the advisory unlock in `finally`.
- The wall clock becomes integer parameters: breaker times in seconds, readings in microseconds, elapsed time as a real.
- Timestamps, including the ISO-8601 string of the payload, are opaque values.
- Floats are exact `real`s. No IEEE rounding is modelled.
- SQL query semantics are not modelled: `DISTINCT ON`, the joins, `ORDER BY ... LIMIT 1` reads, and the AVG/MIN/MAX windows. Their rows are inputs.
- `get_24h_avg_min_max` (sender.py:126-148) is not modelled as a query. The battery and container statistics are inputs of `Sender.SendSync`.
- Sender.SendSync: models the intended statistics for a plant with an ESS row. As written, the statistics call raises for such a plant and nothing is sent (see Findings); that behaviour is `Sender.SendSyncAsWritten`.
- TestGenerator.GeneratorRound: writes the clamped schedule. For a negative elapsed time (a wall clock set back) the code as written writes a step counted from the end of the list, such as 300 kW at −60 s, or raises IndexError below −1200 s and writes nothing; that lookup is `TestGenerator.Setpoint` (see Findings).
- `control_fetcher.py` and `db.py` are not part of this model.
- `Collector.LowerChar`: lower-cases ASCII letters only, because Python's Unicode case mapping is outside the model.
- `Collector.PollDevice`, `EssPoller.PollSingleEss`: require distinct map keys, since the maps come from JSON objects. A missing `gain` (a KeyError in the collector) is not modelled: it is a form of the register-map file.
- `Sender.Upserted`: `received_at` of a newly inserted row is taken to be `now`, the column default.
- `Control.ControlQueue.LatestUnappliedControl`: among controls received at the same time, which one it returns is unspecified, as SQL leaves the tie open.
- `Breaker.CircuitBreaker.ShouldSkip` is not consulted by the ESS poller (poll_ess_hithium.py:116-117 is a string literal), and the model does not call it there.
- Commented-out code is not modelled (collector_alteo_term1.py:120-124).

## Findings

| source | as written | input that shows it | evidently intended | confidence | as-written member | corrected member |
|---|---|---|---|---|---|---|
| control_test_generator.py:87-93 | `step_index` is clamped only from above, and `time.time()` is a wall clock, so a negative elapsed time indexes `TEST_SEQUENCE` from the end or raises | wall clock set back 60 s after start: step index −1 selects 300 kW; set back 1260 s: index −5 raises IndexError and ends the generator | clamp the index to [0, 3], or measure time with a monotonic clock, so the first step is 50 kW | low; not executed | TestGenerator.Setpoint (with TestGenerator.BackwardClockPicksLastStep, TestGenerator.BackwardClockRaises) | TestGenerator.ClampedSetpoint (with TestGenerator.Schedule, TestGenerator.SetpointMonotone; used by TestGenerator.GeneratorRound) |
| sender.py:126-148 | for a plant with an ESS row, `send_sync` calls `get_24h_avg_min_max`, whose query aggregates the reserved word `column` instead of the column passed in, and whose result row (a dict) is indexed by position; the call raises, the except at sender.py:457-458 swallows it, and nothing is posted | any plant whose latest `ess_data_term1` row exists | the windowed average, minimum and maximum of the named column, read by name, so the payload carries the ESS statistics | medium; not executed | Sender.SendSyncAsWritten (with Sender.EssPlantNeverSynced) | Sender.SendSync (with Sender.PayloadShape) |
