// Millisecond stopwatches over one free-running tick counter. The counter
// wraps, and elapsed time is computed in the counter's unsigned arithmetic,
// which stays correct across a roll-over.

module Stopwatch {

  /**
   * TimerTick_t is a target-defined unsigned type; it is taken here as
   * 16 bits wide, so every tick value and difference is reduced modulo 2^16.
   */
  const TickModulus: nat := 0x1_0000

  type Tick = x: int | 0 <= x < TickModulus

  /** `now - start` in TimerTick_t arithmetic. */
  function Elapsed(start: Tick, now: Tick): (r: Tick)
    ensures (start + r) % TickModulus == now
    ensures r == 0 <==> start == now
  {
    if start <= now then now - start else now - start + TickModulus
  }

  /** Elapsed time is the true number of ticks since `start`, for any delay shorter than one roll-over. */
  lemma ElapsedAcrossRollover(start: Tick, delay: nat)
    requires delay < TickModulus
    ensures Elapsed(start, (start + delay) % TickModulus) == delay
  {
    if start + delay >= TickModulus {
      assert (start + delay) % TickModulus == start + delay - TickModulus;
    }
  }

  /** The remaining time of stopwatchTimeUntilLimit, given the elapsed time. */
  function UntilLimit(elapsed: Tick, limit: Tick): (r: Tick)
    ensures r <= limit
    ensures r == 0 <==> elapsed >= limit
    ensures r > 0 ==> elapsed + r == limit
  {
    if elapsed >= limit then 0 else limit - elapsed
  }

  /** A stopwatch's state (StopWatch_t). */
  datatype Watch = Watch(startTime: Tick, active: bool)

  /** stopwatchZero. */
  function Zeroed(w: Watch, now: Tick): Watch
  {
    w.(startTime := now)
  }

  /** stopwatchStart: zero, then activate. */
  function Started(w: Watch, now: Tick): Watch
  {
    Watch(now, true)
  }

  /** stopwatchStop: only the active flag changes. */
  function Stopped(w: Watch): Watch
  {
    w.(active := false)
  }

  /**
   * Start makes an active watch that reads 0 now and `d` after `d` ticks;
   * Stop keeps the start time; Zero keeps the active flag.
   */
  lemma WatchOperations(w: Watch, now: Tick, delay: nat)
    requires delay < TickModulus
    ensures Started(w, now).active && Elapsed(Started(w, now).startTime, now) == 0
    ensures Elapsed(Started(w, now).startTime, (now + delay) % TickModulus) == delay
    ensures !Stopped(w).active && Stopped(w).startTime == w.startTime
    ensures Zeroed(w, now).active == w.active && Elapsed(Zeroed(w, now).startTime, now) == 0
  {
    ElapsedAcrossRollover(now, delay);
  }

  /** The module's time base, curr_time_ms. */
  class Clock {
    var now: Tick

    constructor ()
      ensures now == 0
    {
      now := 0;
    }

    /** stopwatchTick: one more millisecond, wrapping. */
    method Tick()
      modifies this
      ensures now == (old(now) + 1) % TickModulus
    {
      now := if now == TickModulus - 1 then 0 else now + 1;
    }
  }

  /** A stopwatch object. */
  class StopWatch {
    var startTime: Tick
    var active: bool

    function Value(): Watch
      reads this
    {
      Watch(startTime, active)
    }

    /** A zero-initialised static stopwatch. */
    constructor ()
      ensures Value() == Watch(0, false)
    {
      startTime := 0;
      active := false;
    }

    method Start(clock: Clock)
      modifies this
      ensures Value() == Started(old(Value()), clock.now)
    {
      Zero(clock);
      active := true;
    }

    method Stop()
      modifies this
      ensures Value() == Stopped(old(Value()))
    {
      active := false;
    }

    method Zero(clock: Clock)
      modifies this
      ensures Value() == Zeroed(old(Value()), clock.now)
    {
      startTime := clock.now;
    }

    function IsActive(): bool
      reads this
    {
      active
    }

    /**
     * stopwatchTimeElapsed. Its assertion that the watch is active is
     * compiled out of a release build, so an inactive watch is read too.
     */
    method TimeElapsed(clock: Clock, zeroAfterCheck: bool) returns (r: Tick)
      modifies this
      ensures r == Elapsed(old(startTime), clock.now)
      ensures Value() == if zeroAfterCheck then Zeroed(old(Value()), clock.now) else old(Value())
    {
      r := if clock.now >= startTime then clock.now - startTime else clock.now - startTime + TickModulus;
      if zeroAfterCheck {
        startTime := clock.now;
      }
    }

    /** stopwatchTimeUntilLimit. */
    method TimeUntilLimit(clock: Clock, limit: Tick) returns (r: Tick)
      ensures r == UntilLimit(Elapsed(startTime, clock.now), limit)
      ensures r <= limit && (r == 0 <==> Elapsed(startTime, clock.now) >= limit)
    {
      var elapsed := if clock.now >= startTime then clock.now - startTime else clock.now - startTime + TickModulus;
      if elapsed >= limit {
        r := 0;
      } else {
        r := limit - elapsed;
      }
    }
  }
}
