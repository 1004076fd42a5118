/**
  Points in time and timers: src/base/Timestamp.h, src/net/Timer.h, src/net/Timer.cc and
  `howMuchTimeFromNow` of src/net/TimerQueue.cc. A timestamp is a number of microseconds.
 */
module Timer {
  import opened Common

  const MICROS_PER_SECOND := 1_000_000

  /** `Timestamp::invalid()`. */
  const INVALID := 0

  predicate IsValid(when: int)
  {
    when > 0
  }

  /** `addTime` multiplies in `int`, so it is defined only while the product fits. */
  function AddTime(when: int, interval: int): int
    requires Int32(interval * MICROS_PER_SECOND)
  {
    when + interval * MICROS_PER_SECOND
  }

  lemma ProductFits(interval: int)
    ensures Int32(interval * MICROS_PER_SECOND) <==> -2147 <= interval <= 2147
  {
  }

  /** The conversion from `double` to `int` on the way into `addTime` and `addTimer`. */
  function Truncated(x: real): int
  {
    if x >= 0.0 then x.Floor else -((-x).Floor)
  }

  /** So `runEvery` makes a repeating timer exactly from one second on, and of whole seconds. */
  lemma EveryNeedsASecond(x: real)
    ensures Truncated(x) > 0 <==> x >= 1.0
    ensures Truncated(x) > 0 ==> Truncated(x) as real <= x < Truncated(x) as real + 1.0
  {
  }

  /** The time `AddTime` gives for an interval with a fraction: too early, by less than a second. */
  predicate WithinASecond(when: int, clock: int, interval: real)
  {
    var early := interval * 1_000_000.0 - (when - clock) as real;
    if interval >= 0.0 then 0.0 <= early < 1_000_000.0 else -1_000_000.0 < early <= 0.0
  }

  lemma FractionIsLost(clock: int, interval: real)
    requires Int32(Truncated(interval) * MICROS_PER_SECOND)
    ensures WithinASecond(AddTime(clock, Truncated(interval)), clock, interval)
  {
    var whole := Truncated(interval);
    assert if interval >= 0.0 then whole as real <= interval < whole as real + 1.0
           else whole as real - 1.0 < interval <= whole as real;
    assert (whole * MICROS_PER_SECOND) as real == whole as real * 1_000_000.0;
  }

  datatype Timespec = Timespec(sec: int, nsec: int)

  function HowMuchTimeFromNow(when: int, now: int): Timespec
  {
    var micros := if when - now < 100 then 100 else when - now;
    Timespec(micros / MICROS_PER_SECOND, micros % MICROS_PER_SECOND * 1000)
  }

  /** The microseconds a timespec stands for. */
  function Micros(t: Timespec): int
  {
    t.sec * MICROS_PER_SECOND + t.nsec / 1000
  }

  /** The value given to the timer is normalised and not zero, and means the time that is left, or 100. */
  lemma TimespecIsExact(when: int, now: int)
    ensures var t := HowMuchTimeFromNow(when, now);
            && 0 <= t.sec && 0 <= t.nsec < 1_000_000_000 && t.nsec % 1000 == 0
            && t != Timespec(0, 0)
            && Micros(t) == (if when - now < 100 then 100 else when - now)
  {
  }

  class Timer {
    const address: nat
    const interval: int
    const repeat: bool
    var expiration: int

    constructor (address: nat, when: int, interval: int)
      ensures this.address == address && this.interval == interval && repeat == (interval > 0)
      ensures expiration == when
    {
      this.address, this.interval, this.repeat := address, interval, interval > 0;
      expiration := when;
    }

    method Restart(now: int)
      requires repeat ==> Int32(interval * MICROS_PER_SECOND)
      modifies this
      ensures expiration == if repeat then AddTime(now, interval) else INVALID
    {
      if repeat {
        expiration := AddTime(now, interval);
      } else {
        expiration := INVALID;
      }
    }
  }
}
