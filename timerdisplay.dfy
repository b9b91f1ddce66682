/**
 * The focus timer's read-out: the "HH:MM:SS" clock, the status line and
 * its colour, and the elapsed/remaining pair shown during a session.
 */
module TimerDisplay {
  import opened Wrappers
  import opened Numbers
  import opened Clock

  /** `formatTime(seconds)`: hours, minutes and seconds, each padded to two digits, joined by ':'. */
  function FormatTime(seconds: int): string {
    Pad2(Hours(seconds)) + ":" + Pad2(Minutes(seconds)) + ":" + Pad2(Secs(seconds))
  }

  /** The clock of a non-negative count reads back as that count: no second is lost or gained. */
  lemma FormatTimeReadsBack(seconds: int)
    requires seconds >= 0
    ensures ReadClock(FormatTime(seconds)) == Some(seconds)
  {
    FieldsRecombine(seconds);
    ReadThreeFields(Hours(seconds), Minutes(seconds), Secs(seconds));
  }

  /** Under one hour the clock starts with "00:". */
  lemma FormatTimeUnderAnHour(seconds: int)
    requires 0 <= seconds < 3600
    ensures FormatTime(seconds)[..3] == "00:"
  {
    assert Hours(seconds) == 0;
    assert Pad2(0) == "00";
  }

  function StatusText(isActive: bool, isPaused: bool): string {
    if !isActive then "Ready to Focus" else if isPaused then "Paused" else "Focusing"
  }

  function StatusColor(isActive: bool, isPaused: bool): string {
    if !isActive then "text-text-secondary" else if isPaused then "text-warning" else "text-accent"
  }

  /** Text and colour follow the same three cases: not active (whatever the pause flag), active and paused, running. */
  lemma StatusCases(isActive: bool, isPaused: bool)
    ensures StatusText(isActive, isPaused) == "Ready to Focus" <==> !isActive
    ensures StatusText(isActive, isPaused) == "Paused" <==> isActive && isPaused
    ensures StatusText(isActive, isPaused) == "Focusing" <==> isActive && !isPaused
    ensures StatusColor(isActive, isPaused) == "text-text-secondary" <==> !isActive
    ensures StatusColor(isActive, isPaused) == "text-warning" <==> isActive && isPaused
    ensures StatusColor(isActive, isPaused) == "text-accent" <==> isActive && !isPaused
  {
  }

  /** The "Elapsed" figure: the clock of `duration - timeRemaining`. */
  function Elapsed(duration: int, timeRemaining: int): string {
    FormatTime(duration - timeRemaining)
  }

  /**
   * While the countdown lies within the duration, the elapsed clock reads
   * back as the seconds gone; with the remaining clock, which reads back as
   * `timeRemaining`, the two add up to the duration.
   */
  lemma ElapsedReadsBack(duration: int, timeRemaining: int)
    requires 0 <= timeRemaining <= duration
    ensures ReadClock(Elapsed(duration, timeRemaining)) == Some(duration - timeRemaining)
    ensures ReadClock(FormatTime(timeRemaining)) == Some(timeRemaining)
    ensures ReadClock(Elapsed(duration, timeRemaining)).value + ReadClock(FormatTime(timeRemaining)).value == duration
  {
    var gone, left := ReadClock(Elapsed(duration, timeRemaining)), ReadClock(FormatTime(timeRemaining));
    assert gone == Some(duration - timeRemaining) by {
      FormatTimeReadsBack(duration - timeRemaining);
    }
    assert left == Some(timeRemaining) by {
      FormatTimeReadsBack(timeRemaining);
    }
  }
}
