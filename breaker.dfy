/**
 * The per-plant circuit breaker shared by the pollers: a module-level table
 * from plant to the time of its last failure, and a five-minute cooldown
 * during which the plant is skipped.  Time is a parameter, in seconds.
 */
module Breaker {

  type PlantId = int

  const CooldownMinutes: int := 5
  const CooldownSeconds: int := CooldownMinutes * 60

  /** A failure recorded at `lastFail` still blocks the plant at `now`. */
  predicate InCooldown(lastFail: int, now: int)
  {
    now - lastFail < CooldownSeconds
  }

  /** `after` agrees with `before` on every plant other than `p`. */
  ghost predicate OthersUnchanged(before: map<PlantId, int>, after: map<PlantId, int>, p: PlantId)
  {
    forall q :: q != p ==> (q in after <==> q in before) && (q in after ==> after[q] == before[q])
  }

  class CircuitBreaker {
    /** Plants whose last poll failed, with the time of that failure. */
    var failed: map<PlantId, int>

    constructor ()
      ensures failed == map[]
    {
      failed := map[];
    }

    /**
     * Whether to leave `p` out of the next cycle.  An entry whose cooldown
     * has elapsed is removed on the way.
     */
    method ShouldSkip(p: PlantId, now: int) returns (skip: bool)
      modifies this
      ensures skip <==> p in old(failed) && InCooldown(old(failed)[p], now)
      ensures failed == if p in old(failed) && !skip then old(failed) - {p} else old(failed)
      ensures OthersUnchanged(old(failed), failed, p)
    {
      if p !in failed {
        return false;
      }
      var lastFail := failed[p];
      if InCooldown(lastFail, now) {
        skip := true;
      } else {
        failed := failed - {p};
        skip := false;
      }
    }

    /** Records a failure of `p` at `now`, restarting any running cooldown. */
    method OnFailure(p: PlantId, now: int)
      modifies this
      ensures failed == old(failed)[p := now]
      ensures OthersUnchanged(old(failed), failed, p)
    {
      failed := failed[p := now];
    }

    /** Forgets `p` after a successful poll; a no-op when `p` is not recorded. */
    method OnSuccess(p: PlantId)
      modifies this
      ensures failed == old(failed) - {p}
      ensures p !in old(failed) ==> failed == old(failed)
      ensures OthersUnchanged(old(failed), failed, p)
    {
      if p in failed {
        failed := failed - {p};
      }
    }
  }

  // Call sequences that show the cooldown behaviour end to end.

  /** A plant that is not recorded is polled and the table is left alone. */
  method UnknownPlantIsPolled(b: CircuitBreaker, p: PlantId, now: int) returns (skip: bool)
    requires p !in b.failed
    modifies b
    ensures !skip && b.failed == old(b.failed)
  {
    skip := b.ShouldSkip(p, now);
  }

  /** Within five minutes of a failure the plant is skipped, and the table is not touched. */
  method FailureStartsCooldown(b: CircuitBreaker, p: PlantId, t: int, later: int) returns (skip: bool)
    requires later - t < CooldownSeconds
    modifies b
    ensures skip
    ensures b.failed == old(b.failed)[p := t]
  {
    b.OnFailure(p, t);
    skip := b.ShouldSkip(p, later);
  }

  /** Once the cooldown has elapsed, the first query clears the plant and a second one also polls it. */
  method ExpiredCooldownClears(b: CircuitBreaker, p: PlantId, t: int, later: int, again: int)
    returns (first: bool, second: bool)
    requires CooldownSeconds <= later - t
    modifies b
    ensures !first && !second
    ensures p !in b.failed && b.failed == old(b.failed) - {p}
  {
    b.OnFailure(p, t);
    first := b.ShouldSkip(p, later);
    second := b.ShouldSkip(p, again);
  }

  /** A success clears the plant, so it is polled at any later time. */
  method SuccessClears(b: CircuitBreaker, p: PlantId, now: int) returns (skip: bool)
    modifies b
    ensures !skip && p !in b.failed
  {
    b.OnSuccess(p);
    skip := b.ShouldSkip(p, now);
  }

  /** A second failure overwrites the first: the cooldown runs from the later time. */
  method RefailureRestartsCooldown(b: CircuitBreaker, p: PlantId, t1: int, t2: int, later: int)
    returns (skip: bool)
    requires t1 <= t2 && CooldownSeconds <= later - t1 && later - t2 < CooldownSeconds
    modifies b
    ensures skip && p in b.failed && b.failed[p] == t2
  {
    b.OnFailure(p, t1);
    b.OnFailure(p, t2);
    skip := b.ShouldSkip(p, later);
  }
}
