/**
 * The running-challenge panel: the countdown clock (minutes and seconds,
 * with hours only from one hour on), its colour by the share of time left,
 * the buttons offered, and the duration and elapsed figures.
 */
module ActiveChallenge {
  import opened Wrappers
  import opened Numbers
  import opened Clock
  import TimerDisplay
  import WillpowerChallenges

  /** `formatTime(seconds)`: "HH:MM:SS" when the hours are positive, "MM:SS" otherwise; NaN prints as "NaN" in each field. */
  function FormatTime(t: Num): string {
    match t
    case NaN => "NaN:NaN"
    case Int(seconds) =>
      if Hours(seconds) > 0 then Pad2(Hours(seconds)) + ":" + Pad2(Minutes(seconds)) + ":" + Pad2(Secs(seconds))
      else Pad2(Minutes(seconds)) + ":" + Pad2(Secs(seconds))
  }

  /** The clock of a non-negative count reads back as that count. */
  lemma FormatTimeReadsBack(seconds: int)
    requires seconds >= 0
    ensures ReadClock(FormatTime(Int(seconds))) == Some(seconds)
  {
    FieldsRecombine(seconds);
    if Hours(seconds) > 0 {
      LongClockReadsBack(seconds);
    } else {
      ShortClockReadsBack(seconds);
    }
  }

  lemma LongClockReadsBack(seconds: int)
    requires seconds >= 0 && Hours(seconds) > 0
    ensures ReadClock(FormatTime(Int(seconds))) == Some(seconds)
  {
    FieldsRecombine(seconds);
    ReadThreeFields(Hours(seconds), Minutes(seconds), Secs(seconds));
  }

  lemma ShortClockReadsBack(seconds: int)
    requires seconds >= 0 && Hours(seconds) == 0
    ensures ReadClock(FormatTime(Int(seconds))) == Some(seconds)
  {
    FieldsRecombine(seconds);
    ReadTwoFields(Minutes(seconds), Secs(seconds));
  }

  /** From one hour on the panel prints the focus timer's clock. */
  lemma SameClockFromAnHour(seconds: int)
    requires seconds >= 3600
    ensures FormatTime(Int(seconds)) == TimerDisplay.FormatTime(seconds)
  {
    assert Hours(seconds) >= 1;
  }

  /** Below one hour it prints the focus timer's clock without its leading "00:". */
  lemma ShorterClockUnderAnHour(seconds: int)
    requires 0 <= seconds < 3600
    ensures TimerDisplay.FormatTime(seconds) == "00:" + FormatTime(Int(seconds))
  {
    ClocksUnderAnHour(seconds);
    DropHours(TimerDisplay.FormatTime(seconds), FormatTime(Int(seconds)), "00",
      Pad2(Minutes(seconds)), Pad2(Secs(seconds)));
  }

  /** Both clocks under an hour, field by field. */
  lemma ClocksUnderAnHour(seconds: int)
    requires 0 <= seconds < 3600
    ensures TimerDisplay.FormatTime(seconds) == "00" + ":" + Pad2(Minutes(seconds)) + ":" + Pad2(Secs(seconds))
    ensures FormatTime(Int(seconds)) == Pad2(Minutes(seconds)) + ":" + Pad2(Secs(seconds))
  {
    assert Hours(seconds) == 0;
    assert Pad2(0) == "00";
  }

  /** A clock whose hours field is "00" is "00:" followed by its minutes and seconds. */
  lemma DropHours(long: string, short: string, h: string, m: string, s: string)
    requires long == h + ":" + m + ":" + s && short == m + ":" + s && h == "00"
    ensures long == "00:" + short
  {
  }

  /**
   * Whether `(remaining / duration) * 100 <= k`, computed exactly: by
   * cross-multiplication for a non-zero duration; for a zero duration the
   * quotient is -Infinity (below every bound) for a negative remainder, and
   * +Infinity or NaN (above none) otherwise.
   */
  predicate PercentAtMost(remaining: int, duration: int, k: int) {
    if duration > 0 then 100 * remaining <= k * duration
    else if duration < 0 then 100 * remaining >= k * duration
    else remaining < 0
  }

  /** `getTimeColor()`; any NaN makes every comparison false. */
  function TimeColor(remaining: Num, duration: Num): string {
    if remaining.Int? && duration.Int? && PercentAtMost(remaining.value, duration.value, 10) then "text-error"
    else if remaining.Int? && duration.Int? && PercentAtMost(remaining.value, duration.value, 25) then "text-warning"
    else "text-accent"
  }

  /** For a positive duration the colour bands are: at most 10% left, more than 10% up to 25%, more than 25%. */
  lemma TimeColorBands(remaining: int, duration: int)
    requires duration > 0
    ensures TimeColor(Int(remaining), Int(duration)) == "text-error" <==> 100 * remaining <= 10 * duration
    ensures TimeColor(Int(remaining), Int(duration)) == "text-warning" <==>
      10 * duration < 100 * remaining <= 25 * duration
    ensures TimeColor(Int(remaining), Int(duration)) == "text-accent" <==> 100 * remaining > 25 * duration
  {
  }

  /** A NaN countdown is never shown in a warning colour. */
  lemma NaNIsAccent(duration: Num)
    ensures TimeColor(NaN, duration) == "text-accent"
  {
  }

  /** The buttons offered: the verdict pair once the countdown is exactly 0, otherwise the running set. */
  datatype Controls = Verdict | Running

  function ControlsFor(timeRemaining: Num): Controls {
    if timeRemaining == Int(0) then Verdict else Running
  }

  /** Names of the offered buttons, in order. */
  function ButtonLabels(c: Controls): seq<string> {
    match c
    case Verdict => ["Success!", "Failed"]
    case Running => ["Complete", "Give Up", "Stop"]
  }

  /**
   * What the panel shows for a challenge: the task, the countdown and the
   * elapsed time (each printed by `FormatTime`), the countdown's colour, the
   * buttons, and the duration in whole minutes.
   */
  datatype Panel = Panel(
    task: string, remaining: Num, color: string, controls: Controls,
    durationMinutes: Num, elapsed: Num)

  /** `a - b` on numbers that may be NaN. */
  function Minus(a: Num, b: Num): Num {
    if a.Int? && b.Int? then Int(a.value - b.value) else NaN
  }

  /** `Math.round(duration / 60)`. */
  function RoundMinutes(d: Num): Num {
    match d
    case NaN => NaN
    case Int(s) => Int(RoundRatio(s, 60))
  }

  /** The panel, or nothing without a challenge. */
  function Render(challenge: Option<WillpowerChallenges.Challenge>, timeRemaining: Num): (r: Option<Panel>)
    ensures r.None? <==> challenge.None?
  {
    match challenge
    case None => None
    case Some(c) =>
      Some(Panel(c.task, timeRemaining, TimeColor(timeRemaining, c.duration), ControlsFor(timeRemaining),
        RoundMinutes(c.duration), Minus(c.duration, timeRemaining)))
  }

  /** The verdict pair is offered exactly at 0. */
  lemma VerdictExactlyAtZero(c: WillpowerChallenges.Challenge, timeRemaining: Num)
    ensures Render(Some(c), timeRemaining).value.controls == Verdict <==> timeRemaining == Int(0)
  {
  }

  /**
   * While the countdown lies within the duration, the elapsed figure is the
   * seconds gone, so that its clock reads back as them
   * (`FormatTimeReadsBack`), and with the countdown it makes up the duration.
   */
  lemma ElapsedIsTimeGone(c: WillpowerChallenges.Challenge, remaining: int)
    requires c.duration.Int? && 0 <= remaining <= c.duration.value
    ensures Render(Some(c), Int(remaining)).value.elapsed.Int?
    ensures Render(Some(c), Int(remaining)).value.elapsed.value >= 0
    ensures Render(Some(c), Int(remaining)).value.elapsed.value + remaining == c.duration.value
  {
  }

  /** A NaN duration or countdown makes the elapsed figure NaN. */
  lemma ElapsedNaN(c: WillpowerChallenges.Challenge, timeRemaining: Num)
    requires c.duration.NaN? || timeRemaining.NaN?
    ensures Render(Some(c), timeRemaining).value.elapsed == NaN
    ensures FormatTime(Render(Some(c), timeRemaining).value.elapsed) == "NaN:NaN"
  {
  }

  /**
   * In the engine's own states the verdict pair never shows: while a
   * challenge is current the countdown is NaN or at least one second, and
   * the tick that reaches 0 completes the challenge at once.
   */
  lemma VerdictNeverShown(e: WillpowerChallenges.ChallengeEngine)
    requires e.Valid() && e.current.Some?
    ensures Render(e.current, e.timeRemaining).value.controls == Running
  {
  }
}
