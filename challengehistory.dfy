/**
 * The history panel of the willpower page: each finished challenge with
 * its outcome icon and colour, its aMCC change as a signed percentage and
 * its duration, and below them the numbers of successes and failures and
 * the success rate.
 */
module ChallengeHistory {
  import opened Wrappers
  import opened Numbers
  import opened Seqs
  import Durations
  import WillpowerChallenges

  type Record = WillpowerChallenges.ChallengeRecord

  /**
   * `formatDuration(seconds)`: the whole minutes, as "Hh Mm" from sixty
   * minutes on; a NaN duration gives NaN minutes, which fail the test and
   * print as "NaNm".
   */
  function FormatDuration(seconds: Num): string {
    match seconds
    case NaN => "NaNm"
    case Int(s) =>
      var minutes := s / 60;
      if minutes >= 60 then IntToString(minutes / 60) + "h " + IntToString(Rem(minutes, 60)) + "m"
      else IntToString(minutes) + "m"
  }

  /** For a non-negative duration this is the shared "Hh Mm" form of its whole minutes. */
  lemma FormatDurationOfMinutes(seconds: int)
    requires seconds >= 0
    ensures FormatDuration(Int(seconds)) == Durations.HoursMinutes(seconds / 60)
  {
    var m := seconds / 60;
    if m >= 60 {
      assert m / 60 > 0;
      JoinedFields(IntToString(m / 60), IntToString(Rem(m, 60)));
    } else {
      assert m / 60 == 0 && Rem(m, 60) == m;
    }
  }

  /** "Xh Ym" is the hours field, a space and the minutes field. */
  lemma JoinedFields(x: string, y: string)
    ensures x + "h " + y + "m" == (x + ['h']) + " " + (y + ['m'])
  {
  }

  /** Reading the rendering back gives the whole minutes. */
  lemma FormatDurationReadsBack(seconds: int)
    requires seconds >= 0
    ensures Durations.ReadHoursMinutes(FormatDuration(Int(seconds))) == Some(seconds / 60)
  {
    FormatDurationOfMinutes(seconds);
    Durations.HoursMinutesRoundTrip(seconds / 60);
  }

  /** `getOutcomeIcon`. */
  function OutcomeIcon(outcome: string): string {
    if outcome == "success" then "CheckCircle" else if outcome == "failure" then "XCircle" else "Clock"
  }

  /** `getOutcomeColor`. */
  function OutcomeColor(outcome: string): string {
    if outcome == "success" then "text-success" else if outcome == "failure" then "text-error" else "text-text-secondary"
  }

  /** The colour variable of the outcome icon, `var(--color-…)`. */
  function IconColorName(outcome: string): string {
    if outcome == "success" then "success" else if outcome == "failure" then "error" else "text-secondary"
  }

  /**
   * Success and failure have their own icon and colour and every other
   * outcome the neutral pair; the icon is drawn in the colour of the badge.
   */
  lemma OutcomeStyles(outcome: string)
    ensures OutcomeIcon(outcome) == "CheckCircle" <==> outcome == "success"
    ensures OutcomeIcon(outcome) == "XCircle" <==> outcome == "failure"
    ensures OutcomeIcon(outcome) == "Clock" <==> outcome != "success" && outcome != "failure"
    ensures OutcomeColor(outcome) == "text-" + IconColorName(outcome)
  {
  }

  /** The outcomes the willpower page records get their own styles. */
  lemma RecordedOutcomesStyled(c: WillpowerChallenges.Challenge, endTime: int)
    ensures OutcomeColor(WillpowerChallenges.SuccessRecord(c, endTime).outcome) == "text-success"
    ensures OutcomeColor(WillpowerChallenges.FailureRecord(c, endTime).outcome) == "text-error"
  {
  }

  datatype ChangeView = ChangeView(text: string, color: string, icon: string)

  /** `getaMCCChangeDisplay(change)`. */
  function ChangeDisplay(change: int): ChangeView {
    if change > 0 then ChangeView("+" + IntToString(change) + "%", "text-success", "TrendingUp")
    else if change < 0 then ChangeView(IntToString(change) + "%", "text-error", "TrendingDown")
    else ChangeView("0%", "text-text-secondary", "Minus")
  }

  /** The colour and icon follow the sign of the change. */
  lemma ChangeDisplaySign(change: int)
    ensures ChangeDisplay(change).color == "text-success" <==> change > 0
    ensures ChangeDisplay(change).color == "text-error" <==> change < 0
    ensures ChangeDisplay(change).icon == "TrendingUp" <==> change > 0
    ensures ChangeDisplay(change).icon == "TrendingDown" <==> change < 0
    ensures ChangeDisplay(change).icon == "Minus" <==> change == 0
  {
  }

  /** The text is a percentage: without its '%', `parseInt` reads the change back, sign included. */
  lemma ChangeTextReadsBack(change: int)
    ensures var t := ChangeDisplay(change).text;
      |t| >= 2 && t[|t| - 1] == '%' && ParseInt(t[..|t| - 1]) == Some(change)
  {
    var t := ChangeDisplay(change).text;
    if change > 0 {
      var digits := NatToString(change);
      assert t[..|t| - 1] == "+" + digits;
      assert ParseUnsigned(digits) == Some(change) by {
        DigitsValueOfNatToString(change);
        ParseUnsignedOfDigits(digits);
      }
      ParseIntOfPlus(digits);
    } else if change < 0 {
      assert t[..|t| - 1] == IntToString(change);
      ParseIntOfIntToString(change);
    } else {
      assert t[..|t| - 1] == IntToString(0);
      ParseIntOfIntToString(0);
    }
  }

  function IsSuccess(): Record -> bool {
    (c: Record) => c.outcome == "success"
  }

  function IsFailure(): Record -> bool {
    (c: Record) => c.outcome == "failure"
  }

  /** `history.filter(c => c.outcome === 'success').length`. */
  function Successes(history: seq<Record>): nat {
    |Filter(history, IsSuccess())|
  }

  /** `history.filter(c => c.outcome === 'failure').length`. */
  function Failures(history: seq<Record>): nat {
    |Filter(history, IsFailure())|
  }

  /** No challenge is counted twice: successes and failures together are at most the history's length. */
  lemma {:induction false} CountsBounded(history: seq<Record>)
    ensures Successes(history) + Failures(history) <= |history|
  {
    if history != [] {
      CountsBounded(history[1..]);
    }
  }

  /** `Math.round((successes / history.length) * 100)`, for a non-empty history. */
  function Rate(history: seq<Record>): int
    requires history != []
  {
    RoundRatio(100 * Successes(history), |history|)
  }

  /** The rate is a percentage: 0 with no success, 100 with nothing but successes, and never outside 0..100. */
  lemma RateBounds(history: seq<Record>)
    requires history != []
    ensures 0 <= Rate(history) <= 100
    ensures Successes(history) == 0 ==> Rate(history) == 0
    ensures Successes(history) == |history| ==> Rate(history) == 100
  {
    CountsBounded(history);
    RoundPercent(Successes(history), |history|);
  }

  /** What one history entry shows. */
  datatype Item = Item(
    icon: string, iconColor: string, task: string, change: ChangeView,
    duration: string, outcome: string, outcomeColor: string)

  function ItemOf(c: Record): Item {
    Item(OutcomeIcon(c.outcome), IconColorName(c.outcome), c.task, ChangeDisplay(c.amccChange),
      FormatDuration(c.duration), c.outcome, OutcomeColor(c.outcome))
  }

  datatype Summary = Summary(successes: nat, failures: nat, rate: int)

  /** The panel: an empty state without history, otherwise the count, one entry per challenge in order, and the summary. */
  datatype Panel = Empty | Listing(total: nat, items: seq<Item>, summary: Summary)

  /** The panel for a history that may be missing (`None`). */
  function Render(history: Option<seq<Record>>): (p: Panel)
    ensures p.Empty? <==> history.None? || history.value == []
    ensures p.Listing? ==> p.total == |p.items| == |history.value|
    ensures p.Listing? ==> forall i :: 0 <= i < |history.value| ==> p.items[i] == ItemOf(history.value[i])
  {
    match history
    case None => Empty
    case Some(h) =>
      if h == [] then Empty
      else
        Listing(|h|, seq(|h|, i requires 0 <= i < |h| => ItemOf(h[i])),
          Summary(Successes(h), Failures(h), Rate(h)))
  }

  /** The summary of a listing counts each challenge at most once and shows a rate between 0 and 100. */
  lemma SummaryBounded(history: seq<Record>)
    requires history != []
    ensures var s := Render(Some(history)).summary;
      s.successes + s.failures <= |history| && 0 <= s.rate <= 100
  {
    CountsBounded(history);
    RateBounds(history);
  }
}
