// The beep patterns other modules ask the beeper for.

module BeepPatterns {

  /** BeepPattern_t, in declaration order. */
  datatype BeepPattern =
    | AnnouncePowerOn
    | AnnounceBluetooth
    | AnnounceNextFunction
    | AnnounceNextProfile
    | AnnounceRnetSeatingActive
    | AnnounceBeeperRnetSleep
    | UserButtonShortPress
    | GotoIdle
    | ResumeDriving
    | EepromNotInitOnBoot
    | ModeActive
    | PadActive
    | PatternEol

  /** The enumerator's value. */
  function Index(p: BeepPattern): (i: nat)
    ensures i <= 12 && (i == 12 <==> p == PatternEol)
  {
    match p
    case AnnouncePowerOn => 0
    case AnnounceBluetooth => 1
    case AnnounceNextFunction => 2
    case AnnounceNextProfile => 3
    case AnnounceRnetSeatingActive => 4
    case AnnounceBeeperRnetSleep => 5
    case UserButtonShortPress => 6
    case GotoIdle => 7
    case ResumeDriving => 8
    case EepromNotInitOnBoot => 9
    case ModeActive => 10
    case PadActive => 11
    case PatternEol => 12
  }

  /** Distinct patterns have distinct values. */
  lemma IndexInjective(p: BeepPattern, q: BeepPattern)
    ensures Index(p) == Index(q) <==> p == q
  {
  }
}
