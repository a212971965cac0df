/**
 * The control test generator: a fixed ascending schedule of setpoints, one
 * step every five minutes and holding the last step, forced into the
 * controls inbox of every active POD on each round.  Elapsed time is an
 * input; the list of PODs is the result of a query.
 */
module TestGenerator {
  import opened Wrappers
  import Sender

  const StepMinutes: int := 5

  const TestSequence: seq<int> := [50, 100, 200, 300]

  /** `int(elapsed_minutes // STEP_MINUTES)`, with the upper clamp of the source and no lower one. */
  function StepIndex(elapsedSeconds: real): (i: int)
    ensures i <= |TestSequence| - 1
    ensures 0.0 <= elapsedSeconds ==> 0 <= i
    ensures var steps := (elapsedSeconds / 60.0 / StepMinutes as real).Floor;
      && (steps >= |TestSequence| - 1 ==> i == |TestSequence| - 1)
      && (steps < |TestSequence| - 1 ==> i == steps)
  {
    var index := (elapsedSeconds / 60.0 / StepMinutes as real).Floor;
    if index >= |TestSequence| then |TestSequence| - 1 else index
  }

  /**
   * `TEST_SEQUENCE[step_index]` as written: a negative index counts from the
   * end of the list, and one below `-4` raises.
   */
  function Setpoint(elapsedSeconds: real): (r: Result<int>)
    ensures r.Err? <==> StepIndex(elapsedSeconds) < -|TestSequence|
    ensures 0.0 <= elapsedSeconds ==> r == Ok(TestSequence[StepIndex(elapsedSeconds)])
    ensures -|TestSequence| <= StepIndex(elapsedSeconds) < 0 ==>
      r == Ok(TestSequence[|TestSequence| + StepIndex(elapsedSeconds)])
    ensures r.Ok? ==> r.value in TestSequence
  {
    var i := StepIndex(elapsedSeconds);
    if 0 <= i then Ok(TestSequence[i])
    else if -|TestSequence| <= i then Ok(TestSequence[|TestSequence| + i])
    else Err("list index out of range")
  }

  /** A wall clock set back by one minute after the start selects the last, largest step. */
  lemma BackwardClockPicksLastStep()
    ensures Setpoint(-60.0) == Ok(300)
  {
    assert (-60.0 / 60.0 / 5.0) == -0.2;
  }

  /** A wall clock set back by more than twenty minutes makes the lookup raise. */
  lemma BackwardClockRaises()
    ensures Setpoint(-1260.0).Err?
  {
    assert (-1260.0 / 60.0 / 5.0) == -4.2;
  }

  /** The step index clamped at both ends: the schedule as evidently intended. */
  function ClampedStepIndex(elapsedSeconds: real): (i: int)
    ensures 0 <= i < |TestSequence|
    ensures 0.0 <= elapsedSeconds ==> i == StepIndex(elapsedSeconds)
  {
    var index := StepIndex(elapsedSeconds);
    if index < 0 then 0 else index
  }

  function ClampedSetpoint(elapsedSeconds: real): (sp: int)
    ensures sp in TestSequence
    ensures 0.0 <= elapsedSeconds ==> Setpoint(elapsedSeconds) == Ok(sp)
  {
    TestSequence[ClampedStepIndex(elapsedSeconds)]
  }

  lemma FloorMonotone(x: real, y: real)
    requires x <= y
    ensures x.Floor <= y.Floor
  {
  }

  /** 50 kW for the first five minutes, then 100, 200, and 300 kW from the fifteenth minute on. */
  lemma Schedule(elapsedSeconds: real)
    requires 0.0 <= elapsedSeconds
    ensures elapsedSeconds < 300.0 ==> ClampedSetpoint(elapsedSeconds) == 50
    ensures 300.0 <= elapsedSeconds < 600.0 ==> ClampedSetpoint(elapsedSeconds) == 100
    ensures 600.0 <= elapsedSeconds < 900.0 ==> ClampedSetpoint(elapsedSeconds) == 200
    ensures 900.0 <= elapsedSeconds ==> ClampedSetpoint(elapsedSeconds) == 300
  {
    var q := elapsedSeconds / 60.0 / 5.0;
    assert q == elapsedSeconds / 300.0;
  }

  /** Later rounds never force a smaller setpoint. */
  lemma SetpointMonotone(e1: real, e2: real)
    requires e1 <= e2
    ensures ClampedSetpoint(e1) <= ClampedSetpoint(e2)
  {
    FloorMonotone(e1 / 60.0 / 5.0, e2 / 60.0 / 5.0);
    var i1, i2 := ClampedStepIndex(e1), ClampedStepIndex(e2);
    assert i1 <= i2;
  }

  /** The row `write_test_setpoint` forces: heartbeat 1, and the setpoint as both values. */
  function TestRow(setpoint: int, now: int): Sender.InboxRow
  {
    Sender.InboxRow(Some(1), Some(setpoint as real), Some(setpoint as real), now)
  }

  /** `write_test_setpoint`: an unconditional upsert of the POD's row. */
  method WriteTestSetpoint(inbox: Sender.PodInbox, pod: string, setpoint: int, now: int)
    modifies inbox
    ensures inbox.rows == old(inbox.rows)[pod := TestRow(setpoint, now)]
    ensures inbox.rows[pod].heartbeat == Some(1)
    ensures inbox.rows[pod].sumSetpoint == inbox.rows[pod].scheduledReference == Some(setpoint as real)
  {
    inbox.rows := inbox.rows[pod := TestRow(setpoint, now)];
  }

  /**
   * One round of the generator: the setpoint of the clamped schedule is
   * written to every POD, and every other row is left as it was.  For a
   * non-negative elapsed time this is the setpoint the lookup as written
   * selects.
   */
  method GeneratorRound(inbox: Sender.PodInbox, pods: seq<string>, elapsedSeconds: real, now: int)
    returns (setpoint: int)
    modifies inbox
    ensures setpoint == ClampedSetpoint(elapsedSeconds)
    ensures 0.0 <= elapsedSeconds ==> Setpoint(elapsedSeconds) == Ok(setpoint)
    ensures inbox.rows.Keys == old(inbox.rows).Keys + (set p | p in pods)
    ensures forall p :: p in pods ==> inbox.rows[p] == TestRow(setpoint, now)
    ensures forall p :: p in old(inbox.rows) && p !in pods ==> inbox.rows[p] == old(inbox.rows)[p]
  {
    setpoint := ClampedSetpoint(elapsedSeconds);
    for i := 0 to |pods|
      invariant inbox.rows.Keys == old(inbox.rows).Keys + (set p | p in pods[..i])
      invariant forall p :: p in pods[..i] ==> inbox.rows[p] == TestRow(setpoint, now)
      invariant forall p :: p in old(inbox.rows) && p !in pods[..i] ==> inbox.rows[p] == old(inbox.rows)[p]
    {
      assert pods[..i + 1] == pods[..i] + [pods[i]];
      WriteTestSetpoint(inbox, pods[i], setpoint, now);
    }
    assert pods[..|pods|] == pods;
  }
}
