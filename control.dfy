/**
 * The control executor: for one POD it takes the latest unapplied control
 * from the control inbox, computes the ESS setpoint as the difference
 * between the requested and the current plant power, guards it against a
 * lack of charge or discharge capacity, writes it to the ESS as a signed
 * 32-bit value in two Modbus registers, and marks the control applied.
 * The advisory lock, the latest plant and ESS state, and the outcome of
 * the Modbus write are inputs.
 */
module Control {
  import opened Wrappers
  import opened Words
  import Collector

  const EssPowerSetpointReg: nat := 600
  const EssScale: int := 10
  const DeadbandKw: real := 1.0
  const MinWriteInterval: real := 2.0

  // ---------------------------------------------------------------
  // Control logic helpers
  // ---------------------------------------------------------------

  /**
   * The ESS setpoint that closes the gap between the requested and the
   * current power.  An unknown SOC raises; so does a missing target, whose
   * subtraction fails in Python.
   */
  function CalculateEssSetpoint(targetKw: Option<real>, currentKw: real, soc: Option<real>): (r: Result<real>)
    ensures soc.None? ==> r == Err("SOC unknown")
    ensures soc.Some? ==> (r.Ok? <==> targetKw.Some?)
    ensures r.Ok? ==> currentKw + r.value == targetKw.value
  {
    if soc.None? then Err("SOC unknown")
    else if targetKw.None? then Err("unsupported operand type for -: 'NoneType'")
    else Ok(targetKw.value - currentKw)
  }

  /** The new value differs from the previous one by less than the deadband. */
  function WithinDeadband(newKw: real, lastKw: Option<real>): (r: bool)
    ensures lastKw.None? ==> !r
    ensures lastKw.Some? ==> (r <==> -DeadbandKw < newKw - lastKw.value < DeadbandKw)
  {
    if lastKw.None? then false else Abs(newKw - lastKw.value) < DeadbandKw
  }

  // ---------------------------------------------------------------
  // Setpoint encoding (write_ess_power)
  // ---------------------------------------------------------------

  lemma ModUnique(r: int, m: int, a: int, k: int)
    requires 0 < m && 0 <= k < m && r == a * m + k
    ensures r % m == k
  {
    var q, s := r / m, r % m;
    assert (q - a) * m == k - s;
    if q > a {
      MulAtLeast(q - a, m);
    } else if q < a {
      MulAtLeast(a - q, m);
    }
  }

  lemma MulAtLeast(x: int, m: int)
    requires 1 <= x && 0 < m
    ensures m <= x * m
  {
  }

  /** Splitting into two 16-bit words keeps exactly the low 32 bits. */
  lemma SplitWords(r: int)
    ensures Low16(ShiftRight16(r)) * WordModulus + Low16(r) == r % DWordModulus
  {
    var q, l := r / WordModulus, r % WordModulus;
    var a, b := q / WordModulus, q % WordModulus;
    assert r == q * WordModulus + l;
    assert q == a * WordModulus + b;
    assert r == a * DWordModulus + (b * WordModulus + l) by {
      assert q * WordModulus == a * DWordModulus + b * WordModulus;
    }
    assert 0 <= b * WordModulus + l < DWordModulus by {
      assert b * WordModulus <= (WordModulus - 1) * WordModulus;
    }
    ModUnique(r, DWordModulus, a, b * WordModulus + l);
  }

  /**
   * The two registers written for a setpoint of `kw` kW: `int(kw * 10)` as a
   * two's-complement 32-bit value, high word first.
   */
  function EncodeSetpoint(kw: real): (regs: (Word, Word))
    ensures regs.0 * WordModulus + regs.1 == Trunc(kw * EssScale as real) % DWordModulus
  {
    var raw := Trunc(kw * EssScale as real);
    var raw32 := if raw < 0 then DWordModulus + raw else raw;
    SplitWords(raw32);
    assert raw32 % DWordModulus == raw % DWordModulus;
    (Low16(ShiftRight16(raw32)), Low16(raw32))
  }

  /** Two 32-bit two's-complement readings that agree modulo 2^32 are equal. */
  lemma Signed32Unique(v: int, raw: int)
    requires -SignBit32 <= v < SignBit32 && -SignBit32 <= raw < SignBit32
    requires (v - raw) % DWordModulus == 0
    ensures v == raw
  {
    var d := v - raw;
    assert -DWordModulus < d < DWordModulus;
    assert d == (d / DWordModulus) * DWordModulus;
  }

  /**
   * Reading the written registers back with the collector's signed decoder
   * yields `int(kw * 10)` whenever it fits in 32 signed bits, and the value
   * scaled by the same factor is the setpoint truncated to 0.1 kW.
   */
  lemma {:induction false} EncodeDecodeRoundTrip(kw: real)
    requires -SignBit32 <= Trunc(kw * EssScale as real) < SignBit32
    ensures var regs := EncodeSetpoint(kw);
      Collector.RawValue([regs.0, regs.1], true) == Some(Trunc(kw * EssScale as real))
    ensures var regs := EncodeSetpoint(kw);
      Collector.ScaleRegisters([regs.0, regs.1], EssScale as real, true)
        == Ok(Some(Trunc(kw * EssScale as real) as real / EssScale as real))
  {
    var raw := Trunc(kw * EssScale as real);
    var regs := EncodeSetpoint(kw);
    var word32 := regs.0 * WordModulus + regs.1;
    assert word32 == raw % DWordModulus;
    var v := Collector.RawValue([regs.0, regs.1], true).value;
    assert v == Signed32(word32);
    assert (v - raw) % DWordModulus == 0 by {
      assert (v - word32) % DWordModulus == 0;
      assert (word32 - raw) % DWordModulus == 0 by {
        assert raw == (raw / DWordModulus) * DWordModulus + word32;
      }
      assert v - raw == (v - word32) + (word32 - raw);
      ModSum(v - word32, word32 - raw);
    }
    Signed32Unique(v, raw);
  }

  lemma ModSum(x: int, y: int)
    requires x % DWordModulus == 0 && y % DWordModulus == 0
    ensures (x + y) % DWordModulus == 0
  {
    var a, b := x / DWordModulus, y / DWordModulus;
    assert x == a * DWordModulus && y == b * DWordModulus;
    assert x + y == (a + b) * DWordModulus;
    ModUnique(x + y, DWordModulus, a + b, 0);
  }

  // ---------------------------------------------------------------
  // The control inbox (alteo_control_inbox)
  // ---------------------------------------------------------------

  /** One row of the control inbox. */
  datatype ControlRow = ControlRow(
    pod: string,
    sumSetpoint: Option<real>,
    receivedAt: int,
    applied: bool,
    appliedAt: Option<int>,
    appliedValue: Option<real>,
    note: Option<string>)

  /** Row `id` is an unapplied control for `pod`. */
  predicate Pending(rows: map<int, ControlRow>, pod: string, id: int)
  {
    id in rows && rows[id].pod == pod && !rows[id].applied
  }

  predicate HasPending(rows: map<int, ControlRow>, pod: string)
  {
    exists id :: id in rows && Pending(rows, pod, id)
  }

  /** Row `id` is an unapplied control for `pod` received no earlier than any other. */
  predicate IsLatestPending(rows: map<int, ControlRow>, pod: string, id: int)
  {
    Pending(rows, pod, id) &&
    forall k :: k in rows && Pending(rows, pod, k) ==> rows[k].receivedAt <= rows[id].receivedAt
  }

  /** The inbox after mark_control_applied: an UPDATE of row `id`, if there is one. */
  function MarkedApplied(rows: map<int, ControlRow>, id: int, value: Option<real>, note: Option<string>, now: int)
    : map<int, ControlRow>
  {
    if id in rows then rows[id := rows[id].(applied := true, appliedAt := Some(now), appliedValue := value, note := note)]
    else rows
  }

  lemma NonEmptyHasElement(s: set<int>)
    requires s != {}
    ensures exists k :: k in s
  {
    if forall k :: k !in s {
      assert false;
    }
  }

  class ControlQueue {
    var rows: map<int, ControlRow>

    constructor (rows0: map<int, ControlRow>)
      ensures rows == rows0
    {
      rows := rows0;
    }

    /** The latest unapplied control for `pod`, if any (ORDER BY received_at DESC LIMIT 1). */
    method LatestUnappliedControl(pod: string) returns (ctrl: Option<int>)
      ensures ctrl.None? <==> !HasPending(rows, pod)
      ensures ctrl.Some? ==> IsLatestPending(rows, pod, ctrl.value)
    {
      ctrl := None;
      var unseen := rows.Keys;
      while unseen != {}
        invariant unseen <= rows.Keys
        invariant ctrl.Some? ==> Pending(rows, pod, ctrl.value)
        invariant forall k :: k in rows && k !in unseen && Pending(rows, pod, k) ==>
          ctrl.Some? && rows[k].receivedAt <= rows[ctrl.value].receivedAt
        decreases unseen
      {
        NonEmptyHasElement(unseen);
        var k :| k in unseen;
        if Pending(rows, pod, k) && (ctrl.None? || rows[ctrl.value].receivedAt < rows[k].receivedAt) {
          ctrl := Some(k);
        }
        unseen := unseen - {k};
      }
    }

    /** Marks control `id` applied at `now` with the given value and note. */
    method MarkControlApplied(id: int, value: Option<real>, note: Option<string>, now: int)
      modifies this
      ensures rows == MarkedApplied(old(rows), id, value, note, now)
    {
      if id in rows {
        rows := rows[id := rows[id].(applied := true, appliedAt := Some(now), appliedValue := value, note := note)];
      }
    }
  }

  // ---------------------------------------------------------------
  // handle_control_for_pod
  // ---------------------------------------------------------------

  /** The latest ESS state: address, SOC and available capacities (any may be NULL). */
  datatype EssState = EssState(ip: string, port: int, soc: Option<real>, capCharge: Option<real>, capDischarge: Option<real>)

  datatype Outcome =
    | NotLocked
    | NoPendingControl
    | MissingState
    | NoDischargeCapacity
    | NoChargeCapacity
    | Applied(kw: real)
    | RolledBack(error: string)

  /** `x <= 0` in Python: comparing `None` raises. */
  function AtMostZero(x: Option<real>): (r: Result<bool>)
    ensures r.Ok? <==> x.Some?
    ensures r.Ok? ==> (r.value <==> x.value <= 0.0)
  {
    if x.None? then Err("'<=' not supported between instances of 'NoneType' and 'int'") else Ok(x.value <= 0.0)
  }

  /** The capacity guards let a setpoint of `kw` through. */
  predicate CapacityAllows(kw: real, ess: EssState)
  {
    && (0.0 < kw ==> ess.capDischarge.Some? && 0.0 < ess.capDischarge.value)
    && (kw < 0.0 ==> ess.capCharge.Some? && 0.0 < ess.capCharge.value)
  }

  /** The setpoint computed for control `id` of `rows` against the given plant and ESS state. */
  function SetpointFor(rows: map<int, ControlRow>, id: int, plantKw: real, ess: EssState): Result<real>
    requires id in rows
  {
    CalculateEssSetpoint(rows[id].sumSetpoint, plantKw, ess.soc)
  }

  /** A guard `kw > 0 and cap <= 0` (or `kw < 0 and cap <= 0`) compares `None` and raises. */
  predicate GuardRaises(kw: real, ess: EssState)
  {
    (0.0 < kw && ess.capDischarge.None?) || (kw < 0.0 && ess.capCharge.None?)
  }

  /** The Modbus request sent to one ESS: a multi-register write at `register`. */
  datatype WriteRequest = WriteRequest(ip: string, port: int, register: nat, words: (Word, Word))

  /**
   * Handles the latest control for `pod`.  `handled` is the control the
   * handler picked, `sent` the request it sent to the ESS (whether or not
   * the write then succeeded).
   */
  method HandleControlForPod(
    q: ControlQueue, pod: string, locked: bool,
    plantKw: Option<real>, ess: Option<EssState>, writeOk: bool, now: int)
    returns (outcome: Outcome, handled: Option<int>, sent: Option<WriteRequest>)
    modifies q
    // Nothing happens without the lock or without an unapplied control.
    ensures outcome == NotLocked <==> !locked
    ensures outcome == NoPendingControl <==> locked && !HasPending(old(q.rows), pod)
    ensures !locked ==> handled.None?
    ensures locked ==> (handled.None? <==> !HasPending(old(q.rows), pod))
    ensures handled.None? ==> sent.None? && q.rows == old(q.rows)
    ensures handled.Some? ==> IsLatestPending(old(q.rows), pod, handled.value)
    // Missing plant or ESS state: applied without a value.
    ensures outcome == MissingState <==> handled.Some? && (plantKw.None? || ess.None?)
    ensures outcome == MissingState ==>
      sent.None? && q.rows == MarkedApplied(old(q.rows), handled.value, None, Some("Missing state data"), now)
    // The capacity guards: applied with 0 and no write, exactly when the guard holds.
    ensures outcome == NoDischargeCapacity <==>
      && handled.Some? && plantKw.Some? && ess.Some?
      && var kw := SetpointFor(old(q.rows), handled.value, plantKw.value, ess.value);
      && kw.Ok? && kw.value > 0.0
      && ess.value.capDischarge.Some? && ess.value.capDischarge.value <= 0.0
    ensures outcome == NoDischargeCapacity ==>
      sent.None? && q.rows == MarkedApplied(old(q.rows), handled.value, Some(0.0), Some("No discharge capacity"), now)
    ensures outcome == NoChargeCapacity <==>
      && handled.Some? && plantKw.Some? && ess.Some?
      && var kw := SetpointFor(old(q.rows), handled.value, plantKw.value, ess.value);
      && kw.Ok? && kw.value < 0.0
      && ess.value.capCharge.Some? && ess.value.capCharge.value <= 0.0
    ensures outcome == NoChargeCapacity ==>
      sent.None? && q.rows == MarkedApplied(old(q.rows), handled.value, Some(0.0), Some("No charge capacity"), now)
    // A write happens exactly when every check has passed, and it carries target - current.
    ensures sent.Some? <==>
      && handled.Some? && plantKw.Some? && ess.Some?
      && SetpointFor(old(q.rows), handled.value, plantKw.value, ess.value).Ok?
      && CapacityAllows(SetpointFor(old(q.rows), handled.value, plantKw.value, ess.value).value, ess.value)
    ensures sent.Some? ==>
      sent.value == WriteRequest(ess.value.ip, ess.value.port, EssPowerSetpointReg,
        EncodeSetpoint(SetpointFor(old(q.rows), handled.value, plantKw.value, ess.value).value))
    // A successful write marks the control applied with the setpoint.
    ensures outcome.Applied? <==> sent.Some? && writeOk
    ensures outcome.Applied? ==>
      && plantKw.value + outcome.kw == old(q.rows)[handled.value].sumSetpoint.value
      && q.rows == MarkedApplied(old(q.rows), handled.value, Some(outcome.kw), None, now)
    // An unknown SOC or target, a guard on a NULL capacity, or a failed write rolls back.
    ensures outcome.RolledBack? <==>
      && handled.Some? && plantKw.Some? && ess.Some?
      && var kw := SetpointFor(old(q.rows), handled.value, plantKw.value, ess.value);
      && (kw.Err? || GuardRaises(kw.value, ess.value) || (sent.Some? && !writeOk))
    ensures outcome.RolledBack? ==> q.rows == old(q.rows) && handled.Some? && Pending(q.rows, pod, handled.value)
  {
    handled, sent := None, None;
    if !locked {
      return NotLocked, handled, sent;
    }
    handled := q.LatestUnappliedControl(pod);
    if handled.None? {
      return NoPendingControl, handled, sent;
    }
    var id := handled.value;
    var targetKw := q.rows[id].sumSetpoint;
    if plantKw.None? || ess.None? {
      q.MarkControlApplied(id, None, Some("Missing state data"), now);
      return MissingState, handled, sent;
    }
    var state := ess.value;
    var essKw := CalculateEssSetpoint(targetKw, plantKw.value, state.soc);
    if essKw.Err? {
      return RolledBack(essKw.error), handled, sent;
    }
    var kw := essKw.value;
    if 0.0 < kw {
      var noDischarge := AtMostZero(state.capDischarge);
      if noDischarge.Err? {
        return RolledBack(noDischarge.error), handled, sent;
      }
      if noDischarge.value {
        q.MarkControlApplied(id, Some(0.0), Some("No discharge capacity"), now);
        return NoDischargeCapacity, handled, sent;
      }
    }
    if kw < 0.0 {
      var noCharge := AtMostZero(state.capCharge);
      if noCharge.Err? {
        return RolledBack(noCharge.error), handled, sent;
      }
      if noCharge.value {
        q.MarkControlApplied(id, Some(0.0), Some("No charge capacity"), now);
        return NoChargeCapacity, handled, sent;
      }
    }
    sent := Some(WriteRequest(state.ip, state.port, EssPowerSetpointReg, EncodeSetpoint(kw)));
    if !writeOk {
      return RolledBack("Modbus write failed"), handled, sent;
    }
    q.MarkControlApplied(id, Some(kw), None, now);
    return Applied(kw), handled, sent;
  }
}
