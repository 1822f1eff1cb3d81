/** The per-frame timer rule shared by the unit attack cooldown (Unit.checkCooldown),
    the villager dialogue timer (Villager.dialogueTimer) and the passive monster's
    safety timer (PassiveMonster.update): a timer below its limit advances by the
    frame's delta, a timer above its limit is clamped back to the limit, and a timer
    at its limit stays where it is. */
module Timers {

  /** One frame of a timer counting `time` up towards `limit`. */
  function Tick(time: int, limit: int, delta: int): int
  {
    if time < limit then time + delta
    else if time != limit then limit
    else time
  }

  /** The timer after `n` frames that each last `delta` milliseconds. */
  function Run(time: int, limit: int, delta: int, n: nat): int
    decreases n
  {
    if n == 0 then time else Run(Tick(time, limit, delta), limit, delta, n - 1)
  }

  /** The number of frames after which a timer at `time` has settled on `limit`
      when every frame lasts `delta` > 0 milliseconds. */
  function FramesToSettle(time: int, limit: int, delta: int): (n: nat)
    requires delta > 0
    ensures n >= 1
    decreases limit - time
  {
    if time >= limit then 1 else 1 + FramesToSettle(time + delta, limit, delta)
  }

  /** A timer that has reached its limit never leaves it. */
  lemma {:induction false} RunStaysAtLimit(limit: int, delta: int, n: nat)
    ensures Run(limit, limit, delta, n) == limit
  {
    if n > 0 {
      RunStaysAtLimit(limit, delta, n - 1);
    }
  }

  /** With frames of positive length, a timer settles on its limit after
      FramesToSettle frames and stays there for every later frame: a cooldown always
      becomes ready again, a dialogue is always cleared, a fleeing monster always
      feels safe again. */
  lemma {:induction false} RunSettles(time: int, limit: int, delta: int, n: nat)
    requires delta > 0
    requires n >= FramesToSettle(time, limit, delta)
    ensures Run(time, limit, delta, n) == limit
    decreases limit - time
  {
    if time >= limit {
      RunStaysAtLimit(limit, delta, n - 1);
    } else {
      RunSettles(time + delta, limit, delta, n - 1);
    }
  }
}
