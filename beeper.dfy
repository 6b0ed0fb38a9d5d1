// The beeper manager: other tasks ask for a beep pattern, and the beeper task
// plays it as a series of cycles, each an on time and an off time, timed by
// one stopwatch; the end-of-list pattern stops the beeping. A request is meant
// to take over from a running pattern of lower priority; as written, a request
// made while a pattern runs is dropped.

module Beeper {
  import opened Stopwatch
  import opened BeepPatterns

  /** Beep_t: on and off times of one cycle, in milliseconds. */
  datatype Beep = Beep(onMs: nat, offMs: nat)

  /** The pattern tables. */
  const FunctionTable: seq<Beep> := [Beep(50, 0)]
  const EepromNotInitTable: seq<Beep> := [Beep(25, 50), Beep(50, 0)]
  const PowerOnOffTable: seq<Beep> := [Beep(150, 0)]
  const BluetoothTable: seq<Beep> := [Beep(100, 200), Beep(100, 200)]
  const NextFunctionTable: seq<Beep> := [Beep(100, 200), Beep(100, 200), Beep(100, 200)]
  const NextProfileTable: seq<Beep> := [Beep(100, 200), Beep(100, 200), Beep(100, 200), Beep(100, 200)]
  const RnetTable: seq<Beep> := [Beep(100, 200), Beep(100, 200), Beep(100, 200), Beep(100, 200), Beep(100, 200)]
  const ModeSwitchActiveTable: seq<Beep> := [Beep(37, 50), Beep(25, 0)]
  const RnetSleepTable: seq<Beep> :=
    [Beep(50, 200), Beep(50, 200), Beep(50, 200), Beep(100, 200), Beep(100, 200), Beep(100, 200)]

  /**
   * BeepPatternNumCycles: the number of cycles a pattern plays. Patterns
   * without a table of their own have none; their session still plays its
   * first cycle.
   */
  function NumCycles(p: BeepPattern): nat
  {
    match p
    case UserButtonShortPress => |FunctionTable|
    case EepromNotInitOnBoot => |EepromNotInitTable|
    case AnnouncePowerOn => |PowerOnOffTable|
    case AnnounceBluetooth => |BluetoothTable|
    case AnnounceNextFunction => |NextFunctionTable|
    case AnnounceNextProfile => |NextProfileTable|
    case ModeActive => |ModeSwitchActiveTable|
    case AnnounceRnetSeatingActive => |RnetTable|
    case AnnounceBeeperRnetSleep => |RnetSleepTable|
    case _ => 0
  }

  /**
   * BeepPatternPatternGet as written: the RNet-seating announcement is given
   * the four-cycle next-profile table while it is counted as five cycles.
   */
  function PatternTableAsWritten(p: BeepPattern): (r: seq<Beep>)
    ensures 1 <= |r|
    ensures p != AnnounceRnetSeatingActive ==> NumCycles(p) <= |r|
  {
    match p
    case UserButtonShortPress => FunctionTable
    case EepromNotInitOnBoot => EepromNotInitTable
    case AnnouncePowerOn => PowerOnOffTable
    case AnnounceBluetooth => BluetoothTable
    case AnnounceNextFunction => NextFunctionTable
    case AnnounceNextProfile => NextProfileTable
    case ModeActive => ModeSwitchActiveTable
    case AnnounceRnetSeatingActive => NextProfileTable
    case AnnounceBeeperRnetSleep => RnetSleepTable
    case _ => FunctionTable
  }

  /** BeepPatternPatternGet with the RNet-seating announcement given its own table. */
  function PatternTable(p: BeepPattern): seq<Beep>
  {
    if p == AnnounceRnetSeatingActive then RnetTable else PatternTableAsWritten(p)
  }

  /** The last cycle the RNet-seating announcement plays reads past the end of the table it is given. */
  lemma RnetSeatingOverrunsItsTable()
    ensures NumCycles(AnnounceRnetSeatingActive) == 5
    ensures |PatternTableAsWritten(AnnounceRnetSeatingActive)| == 4
    ensures forall p :: p != AnnounceRnetSeatingActive ==> PatternTableAsWritten(p) == PatternTable(p)
  {
  }

  /**
   * Every table of the corrected lookup covers every cycle its pattern plays,
   * including the first cycle of a pattern counted as none, and every cycle
   * sounds for some time.
   */
  lemma TableCoversCycles(p: BeepPattern)
    ensures 1 <= |PatternTable(p)| && NumCycles(p) <= |PatternTable(p)|
    ensures forall k :: 0 <= k < |PatternTable(p)| ==> PatternTable(p)[k].onMs > 0
  {
  }

  /**
   * The priorities listed in beep_pattern_prio, by enumerator value; the
   * entries past the ten initialisers are zero.
   */
  const Priorities: seq<nat> := [3, 4, 5, 6, 8, 1, 2, 7, 9, 0, 0, 0]

  function Priority(p: BeepPattern): nat
    requires p != PatternEol
  {
    Priorities[Index(p)]
  }

  /** What beep_pattern_prio holds: the table is declared bool, so each priority is stored as 0 or 1. */
  function StoredPriority(p: BeepPattern): int
    requires p != PatternEol
  {
    if Priorities[Index(p)] != 0 then 1 else 0
  }

  /**
   * CanRunBeepPattern as written: the request is compared with
   * session_pattern, which holds the request itself, over the stored table.
   */
  function CanRunAsWritten(running: bool, pattern: BeepPattern, sessionPattern: BeepPattern): (r: bool)
    requires pattern != PatternEol && sessionPattern != PatternEol
    ensures r <==> !running || (Priority(pattern) != 0 && Priority(sessionPattern) == 0)
  {
    !running || StoredPriority(pattern) > StoredPriority(sessionPattern)
  }

  /** CanRunBeepPattern as intended: the request is compared with the running pattern by priority. */
  function CanRun(running: bool, pattern: BeepPattern, current: BeepPattern): (r: bool)
    requires pattern != PatternEol && (running ==> current != PatternEol)
    ensures r <==> !running || Priority(pattern) > Priority(current)
  {
    !running || Priority(pattern) > Priority(current)
  }

  /**
   * As written, a request can only start while nothing plays: the call
   * compares the request with itself, and even against the running pattern
   * the bool table makes the short press and the Bluetooth announcement
   * equal, although the Bluetooth announcement is listed higher.
   */
  lemma PriorityIsIgnoredAsWritten(running: bool, p: BeepPattern)
    requires p != PatternEol
    ensures CanRunAsWritten(running, p, p) <==> !running
    ensures !CanRunAsWritten(true, AnnounceBluetooth, AnnounceBluetooth)
    ensures CanRun(true, AnnounceBluetooth, UserButtonShortPress)
    ensures !CanRunAsWritten(true, AnnounceBluetooth, UserButtonShortPress)
  {
  }

  /** beeper.c's state: the patterns, the cycle, the flags, the buzzer, the wait and the stopwatch. */
  datatype BeeperState = BeeperState(session: BeepPattern, curr: BeepPattern, cycle: nat, running: bool,
                                     signal: bool, buzzer: bool, waitMs: nat, watch: Watch)

  /** A pass's new state and whether it signalled a blocked caller that its pattern completed. */
  datatype Outcome = Outcome(next: BeeperState, signalled: bool)

  /** BeepPatternStop, and the beeper task clearing the flag once it has signalled the completion. */
  function Stop(s: BeeperState): (o: Outcome)
    ensures !o.next.running && !o.next.buzzer && !o.next.signal && !o.next.watch.active
    ensures o.next.session == PatternEol && o.next.curr == PatternEol && o.signalled == s.signal
  {
    Outcome(s.(session := PatternEol, curr := PatternEol, running := false, signal := false,
               buzzer := false, watch := Stopped(s.watch)), s.signal)
  }

  /** StartBeepPattern: the session pattern becomes the running one from its first cycle, buzzer on. */
  function StartPattern(s: BeeperState, now: Tick): (t: BeeperState)
    ensures t.running && t.buzzer && t.curr == s.session && t.cycle == 0 && t.watch == Watch(now, true)
  {
    s.(running := true, curr := s.session, cycle := 0, watch := Started(s.watch, now), buzzer := true)
  }

  /**
   * The take-over branch as written: BeepPatternStop clears the session
   * pattern before StartBeepPattern copies it, so the session that starts
   * is the end-of-list pattern.
   */
  function TakeOverAsWritten(s: BeeperState, now: Tick): (o: Outcome)
    ensures o.next.running && o.next.buzzer && o.next.cycle == 0 && o.next.watch == Watch(now, true)
    ensures o.next.curr == (if s.running then PatternEol else s.session)
    ensures o.signalled == (s.running && s.signal)
  {
    var o := if s.running then Stop(s) else Outcome(s, false);
    Outcome(StartPattern(o.next, now), o.signalled)
  }

  /** The take-over branch with the request kept across the stop. */
  function TakeOver(s: BeeperState, now: Tick): (o: Outcome)
    ensures o.next.running && o.next.buzzer && o.next.cycle == 0 && o.next.watch == Watch(now, true)
    ensures o.next.curr == s.session && o.next.session == s.session
    ensures o.signalled == (s.running && s.signal)
  {
    var o := if s.running then Stop(s) else Outcome(s, false);
    Outcome(StartPattern(o.next.(session := s.session), now), o.signalled)
  }

  /**
   * As written, a request allowed to take over a running pattern starts a
   * session of the end-of-list pattern instead, and leaves the beeper running
   * with no pattern; the corrected branch starts the request.
   */
  lemma TakeOverLosesRequestAsWritten(s: BeeperState, now: Tick)
    requires s.running && s.session != PatternEol
    ensures TakeOverAsWritten(s, now).next.curr == PatternEol && TakeOverAsWritten(s, now).next.running
    ensures TakeOver(s, now).next.curr == s.session && TakeOver(s, now).next.running
  {
  }

  /** The first half of a pass: a changed session pattern is stopped, started or dropped. */
  function Arbitrate(s: BeeperState, now: Tick): (o: Outcome)
    requires s.running ==> s.curr != PatternEol
    ensures o.next.session == o.next.curr
    ensures s.curr == s.session ==> o == Outcome(s, false)
    ensures s.session == PatternEol && s.curr != PatternEol ==> !o.next.running && !o.next.buzzer
  {
    if s.curr != s.session then
      var o :=
        if s.session == PatternEol then Stop(s)
        else if CanRun(s.running, s.session, s.curr) then TakeOver(s, now)
        else Outcome(s, false);
      o.(next := o.next.(session := o.next.curr))
    else Outcome(s, false)
  }

  /** The first half of a pass as written. */
  function ArbitrateAsWritten(s: BeeperState, now: Tick): (o: Outcome)
    ensures o.next.session == o.next.curr
    ensures s.curr == s.session ==> o == Outcome(s, false)
    ensures s.session == PatternEol && s.curr != PatternEol ==> !o.next.running && !o.next.buzzer
  {
    if s.curr != s.session then
      var o :=
        if s.session == PatternEol then Stop(s)
        else if CanRunAsWritten(s.running, s.session, s.session) then TakeOverAsWritten(s, now)
        else Outcome(s, false);
      o.(next := o.next.(session := o.next.curr))
    else Outcome(s, false)
  }

  /**
   * As written, a request made while a pattern runs is dropped, whatever its
   * priority; the corrected first half starts the Bluetooth announcement
   * over a running short-press beep.
   */
  lemma RequestDroppedWhileRunningAsWritten(s: BeeperState, now: Tick)
    requires Inv(s) && s.running && s.session != PatternEol && s.session != s.curr
    ensures ArbitrateAsWritten(s, now) == Outcome(s.(session := s.curr), false)
    ensures s.curr == UserButtonShortPress && s.session == AnnounceBluetooth ==>
      Arbitrate(s, now).next.curr == AnnounceBluetooth
  {
  }

  /**
   * The second half of a pass: within a cycle's on time the beeper task waits out
   * the rest of it; then the buzzer goes off, and at the end of the off time
   * the next cycle starts or, after the last, the pattern stops.
   */
  function Advance(s: BeeperState, now: Tick): (o: Outcome)
    requires s.running ==> s.cycle < |PatternTable(s.session)|
    ensures !s.running ==> o == Outcome(s, false)
    ensures o.next.running ==> o.next.session == s.session && o.next.curr == s.curr
    ensures !o.next.running && s.running ==> o.next.curr == PatternEol && !o.next.buzzer
  {
    if !s.running then Outcome(s, false)
    else
      var b := PatternTable(s.session)[s.cycle];
      var elapsed := Elapsed(s.watch.startTime, now);
      if elapsed < b.onMs then Outcome(s.(waitMs := b.onMs - elapsed), false)
      else
        var off := s.(buzzer := false);
        var timeToBeOff := b.onMs + b.offMs;
        if b.offMs == 0 || elapsed >= timeToBeOff then
          var c := s.cycle + 1;
          if c < NumCycles(s.session) then
            Outcome(off.(cycle := c, watch := Zeroed(s.watch, now), buzzer := true,
                         waitMs := PatternTable(s.session)[c].onMs), false)
          else Stop(off.(cycle := c))
        else Outcome(off.(waitMs := timeToBeOff - elapsed), false)
  }

  /**
   * What holds between passes: the beeper runs exactly when a pattern is
   * current, the current cycle is within that pattern's table, and the
   * buzzer sounds only while a pattern runs.
   */
  predicate Inv(s: BeeperState)
  {
    (s.running <==> s.curr != PatternEol) &&
    (s.running ==> s.cycle < |PatternTable(s.curr)|) &&
    (s.buzzer ==> s.running)
  }

  /** One pass of BeepPatternTask's loop at time `now`. */
  function Pass(s: BeeperState, now: Tick): (o: Outcome)
    requires Inv(s)
    ensures o.next.session == o.next.curr
  {
    var a := Arbitrate(s, now);
    TableCoversCycles(a.next.curr);
    var b := Advance(a.next, now);
    Outcome(b.next, a.signalled || b.signalled)
  }

  /** After the first half of a pass the session pattern is the current one, and the invariant holds. */
  lemma ArbitrateKeepsInv(s: BeeperState, now: Tick)
    requires Inv(s)
    ensures Inv(Arbitrate(s, now).next) && Arbitrate(s, now).next.session == Arbitrate(s, now).next.curr
  {
    TableCoversCycles(s.session);
  }

  lemma AdvanceKeepsInv(s: BeeperState, now: Tick)
    requires Inv(s) && s.session == s.curr
    ensures Inv(Advance(s, now).next) && Advance(s, now).next.session == Advance(s, now).next.curr
  {
    TableCoversCycles(s.curr);
  }

  /** Every pass keeps the invariant and leaves the session pattern equal to the current one. */
  lemma PassKeepsInv(s: BeeperState, now: Tick)
    requires Inv(s)
    ensures Inv(Pass(s, now).next) && Pass(s, now).next.session == Pass(s, now).next.curr
  {
    ArbitrateKeepsInv(s, now);
    AdvanceKeepsInv(Arbitrate(s, now).next, now);
  }

  /** One pass of BeepPatternTask's loop as written. */
  function PassAsWritten(s: BeeperState, now: Tick): (o: Outcome)
    requires Inv(s)
    ensures o.next.session == o.next.curr
  {
    var a := ArbitrateAsWritten(s, now);
    TableCoversCycles(a.next.curr);
    var b := Advance(a.next, now);
    Outcome(b.next, a.signalled || b.signalled)
  }

  /** The first half of a pass as written keeps the invariant and leaves the session pattern equal to the current one. */
  lemma ArbitrateAsWrittenKeepsInv(s: BeeperState, now: Tick)
    requires Inv(s)
    ensures Inv(ArbitrateAsWritten(s, now).next)
    ensures ArbitrateAsWritten(s, now).next.session == ArbitrateAsWritten(s, now).next.curr
  {
    TableCoversCycles(s.session);
  }

  /** Every pass as written keeps the invariant and leaves the session pattern equal to the current one. */
  lemma PassAsWrittenKeepsInv(s: BeeperState, now: Tick)
    requires Inv(s)
    ensures Inv(PassAsWritten(s, now).next) && PassAsWritten(s, now).next.session == PassAsWritten(s, now).next.curr
  {
    ArbitrateAsWrittenKeepsInv(s, now);
    AdvanceKeepsInv(ArbitrateAsWritten(s, now).next, now);
  }

  /**
   * While nothing runs, the first half of a pass as written does what the
   * corrected one does: a request is started, or the end of list stops.
   */
  lemma ArbitrationAgreesWhenIdle(s: BeeperState, now: Tick)
    requires Inv(s) && !s.running
    ensures ArbitrateAsWritten(s, now) == Arbitrate(s, now)
    ensures PassAsWritten(s, now) == Pass(s, now)
  {
  }

  /**
   * A request of higher priority than the running pattern takes over from
   * its first cycle with the buzzer on; one of no higher priority is dropped
   * and the running pattern goes on.
   */
  lemma PriorityDecidesTakeOver(s: BeeperState, now: Tick)
    requires Inv(s) && s.running && s.session != PatternEol && s.session != s.curr
    ensures var a := Arbitrate(s, now).next;
      if Priority(s.session) > Priority(s.curr) then
        a.curr == s.session && a.cycle == 0 && a.running && a.buzzer && a.watch == Watch(now, true)
      else a == s.(session := s.curr)
  {
  }

  /** Asking for the end-of-list pattern stops the running pattern and silences the buzzer. */
  lemma EndOfListStops(s: BeeperState, now: Tick)
    requires Inv(s) && s.running && s.session == PatternEol
    ensures var o := Pass(s, now);
      !o.next.running && !o.next.buzzer && o.next.curr == PatternEol && o.signalled == s.signal
  {
  }

  /**
   * The timing of one cycle of a running pattern: until its on time has
   * elapsed the buzzer keeps its state and the beeper task waits out the rest of
   * it; during its off time the buzzer is off and the beeper task waits out the
   * rest of that; at the end of the cycle the next one starts with the
   * buzzer on and the stopwatch zeroed, or after the last the pattern stops.
   */
  lemma CycleTiming(s: BeeperState, now: Tick)
    requires Inv(s) && s.running && s.session == s.curr
    ensures var b := PatternTable(s.curr)[s.cycle];
      var elapsed := Elapsed(s.watch.startTime, now);
      var n := Advance(s, now).next;
      (elapsed < b.onMs ==> n == s.(waitMs := b.onMs - elapsed) && n.waitMs > 0) &&
      (b.onMs <= elapsed < b.onMs + b.offMs ==>
        n == s.(buzzer := false, waitMs := b.onMs + b.offMs - elapsed) && n.waitMs > 0) &&
      (b.onMs <= elapsed && (b.offMs == 0 || b.onMs + b.offMs <= elapsed) ==>
        if s.cycle + 1 < NumCycles(s.curr) then
          n.running && n.buzzer && n.cycle == s.cycle + 1 && n.watch == Zeroed(s.watch, now) &&
          n.waitMs == PatternTable(s.curr)[s.cycle + 1].onMs
        else !n.running && !n.buzzer && n.curr == PatternEol)
  {
  }

  /** An event beeperBeep can hand back. */
  datatype Event = NoEvent | StartBeepSeq

  /** beeper.c's globals, the buzzer line and the beep stopwatch. */
  class BeeperTask {
    var sessionPattern: BeepPattern
    var currSessionPattern: BeepPattern
    var currSessionCycle: nat
    var running: bool
    var signalCallingTask: bool
    /** The buzzer output, as beeperBspActiveGet reads it back. */
    var buzzer: bool
    var waitMs: nat
    const watch: StopWatch

    function Value(): BeeperState
      reads this, watch
    {
      BeeperState(sessionPattern, currSessionPattern, currSessionCycle, running, signalCallingTask,
                  buzzer, waitMs, watch.Value())
    }

    /** The zero-initialised statics; beeper_is_running and the stopwatch have explicit initialisers. */
    constructor ()
      ensures Value() == BeeperState(AnnouncePowerOn, AnnouncePowerOn, 0, false, false, false, 25, Watch(0, false))
    {
      sessionPattern := AnnouncePowerOn;
      currSessionPattern := AnnouncePowerOn;
      currSessionCycle := 0;
      running := false;
      signalCallingTask := false;
      buzzer := false;
      waitMs := 25;
      watch := new StopWatch();
    }

    /** beeperInit: no pattern, no cycle, not running, nobody to signal, buzzer off. */
    method Init()
      modifies this
      ensures Value() == old(Value()).(session := PatternEol, curr := PatternEol, cycle := 0,
                                       running := false, signal := false, buzzer := false)
      ensures Inv(Value())
    {
      buzzer := false;
      sessionPattern := PatternEol;
      currSessionPattern := PatternEol;
      currSessionCycle := 0;
      running := false;
      signalCallingTask := false;
    }

    /**
     * beeperBeep: with the sound on, the pattern becomes the session's and
     * the start event is handed back once the scheduler runs.
     */
    method Beep(pattern: BeepPattern, soundEnabled: bool, osRunning: bool) returns (e: Event)
      modifies this
      ensures Value() == if soundEnabled then old(Value()).(session := pattern) else old(Value())
      ensures e == StartBeepSeq <==> soundEnabled && osRunning
    {
      e := NoEvent;
      if soundEnabled {
        e := BeepPatternStart(pattern, osRunning);
      }
    }

    /** beeperBeepBlocking: as beeperBeep, and the caller is to be told when the pattern completes. */
    method BeepBlocking(pattern: BeepPattern, soundEnabled: bool, osRunning: bool) returns (e: Event)
      modifies this
      ensures Value() == if soundEnabled then old(Value()).(session := pattern, signal := true) else old(Value())
      ensures e == StartBeepSeq <==> soundEnabled && osRunning
    {
      e := NoEvent;
      if soundEnabled {
        signalCallingTask := true;
        e := BeepPatternStart(pattern, osRunning);
      }
    }

    /** BeepPatternStart. */
    method BeepPatternStart(pattern: BeepPattern, osRunning: bool) returns (e: Event)
      modifies this
      ensures Value() == old(Value()).(session := pattern)
      ensures e == StartBeepSeq <==> osRunning
    {
      sessionPattern := pattern;
      e := if osRunning then StartBeepSeq else NoEvent;
    }

    /** BeepPatternStop, with the beeper task's clearing of the flag after it signals. */
    method PatternStop() returns (signalled: bool)
      modifies this, watch
      ensures Outcome(Value(), signalled) == Stop(old(Value()))
    {
      sessionPattern := PatternEol;
      currSessionPattern := PatternEol;
      running := false;
      watch.Stop();
      if buzzer {
        buzzer := false;
      }
      signalled := signalCallingTask;
      if signalled {
        signalCallingTask := false;
      }
    }

    /** StartBeepPattern. */
    method PatternStart(clock: Clock)
      modifies this, watch
      ensures Value() == StartPattern(old(Value()), clock.now)
    {
      running := true;
      currSessionPattern := sessionPattern;
      currSessionCycle := 0;
      watch.Start(clock);
      buzzer := true;
    }

    /** The beeper task's start: a pattern asked for before the scheduler ran is started. */
    method TaskOpen(clock: Clock)
      requires Inv(Value())
      modifies this, watch
      ensures Value() == if old(sessionPattern) != PatternEol then StartPattern(old(Value()), clock.now) else old(Value())
      ensures Inv(Value())
    {
      if sessionPattern != PatternEol {
        TableCoversCycles(sessionPattern);
        PatternStart(clock);
      }
    }

    /** One pass of BeepPatternTask's loop as written, after the wait for the start event or the timeout. */
    method TaskPass(clock: Clock) returns (signalled: bool)
      requires Inv(Value())
      modifies this, watch
      ensures Outcome(Value(), signalled) == PassAsWritten(old(Value()), clock.now)
      ensures Inv(Value()) && sessionPattern == currSessionPattern
    {
      PassAsWrittenKeepsInv(Value(), clock.now);
      ArbitrateAsWrittenKeepsInv(Value(), clock.now);
      var s1 := Arbitration(clock);
      var s2 := CycleStep(clock);
      signalled := s1 || s2;
    }

    /**
     * The pass's first half as written: a changed session pattern is stopped,
     * started or dropped, CanRunBeepPattern being passed the request twice.
     */
    method Arbitration(clock: Clock) returns (signalled: bool)
      modifies this, watch
      ensures Outcome(Value(), signalled) == ArbitrateAsWritten(old(Value()), clock.now)
    {
      signalled := false;
      if currSessionPattern != sessionPattern {
        if sessionPattern == PatternEol {
          signalled := PatternStop();
        } else if CanRunAsWritten(running, sessionPattern, sessionPattern) {
          signalled := TakeOverStep(clock);
        }
        sessionPattern := currSessionPattern;
      }
    }

    /** The take-over branch as written: a running pattern is stopped, then the session pattern started. */
    method TakeOverStep(clock: Clock) returns (signalled: bool)
      modifies this, watch
      ensures Outcome(Value(), signalled) == TakeOverAsWritten(old(Value()), clock.now)
    {
      signalled := false;
      if running {
        signalled := PatternStop();
      }
      PatternStart(clock);
    }

    /** The pass's second half: the timing of the running cycle. */
    method CycleStep(clock: Clock) returns (signalled: bool)
      requires running ==> currSessionCycle < |PatternTable(sessionPattern)|
      modifies this, watch
      ensures Outcome(Value(), signalled) == Advance(old(Value()), clock.now)
    {
      signalled := false;
      if running {
        var b := PatternTable(sessionPattern)[currSessionCycle];
        var elapsed := watch.TimeElapsed(clock, false);
        if elapsed < b.onMs {
          waitMs := b.onMs - elapsed;
        } else {
          if buzzer {
            buzzer := false;
          }
          var timeToBeOff := b.onMs + b.offMs;
          if b.offMs == 0 || elapsed >= timeToBeOff {
            currSessionCycle := currSessionCycle + 1;
            if currSessionCycle < NumCycles(sessionPattern) {
              TableCoversCycles(sessionPattern);
              watch.Zero(clock);
              buzzer := true;
              waitMs := PatternTable(sessionPattern)[currSessionCycle].onMs;
            } else {
              signalled := PatternStop();
            }
          } else {
            waitMs := timeToBeOff - elapsed;
          }
        }
      }
    }
  }
}
