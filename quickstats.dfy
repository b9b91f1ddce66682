/**
 * The dashboard's quick statistics: the completion and focus percentages
 * of the day, the colour band of a percentage, the capped progress bar,
 * and the focus minutes in the shared "Hh Mm" form.
 */
module QuickStats {
  import opened Wrappers
  import opened Numbers
  import Durations

  datatype DailyStats = DailyStats(
    tasksCompleted: nat, totalTasks: nat, focusTime: nat, focusGoal: nat,
    notesCreated: nat, willpowerLevel: nat, streak: nat)

  /** The built-in figures of the day. */
  const Mock: DailyStats := DailyStats(8, 12, 150, 240, 3, 85, 7)

  /** `Math.round((part / whole) * 100)` for a positive whole, in exact arithmetic. */
  function Percentage(part: nat, whole: nat): int
    requires whole > 0
  {
    RoundRatio(100 * part, whole)
  }

  /** The two percentages of the built-in day: 8 of 12 tasks and 150 of 240 minutes. */
  lemma MockPercentages()
    ensures Percentage(Mock.tasksCompleted, Mock.totalTasks) == 67
    ensures Percentage(Mock.focusTime, Mock.focusGoal) == 63
  {
    assert 2 * 12 * 67 <= 2 * 800 + 12 < 2 * 12 * 67 + 2 * 12;
    assert 2 * 240 * 63 <= 2 * 15000 + 240 < 2 * 240 * 63 + 2 * 240;
    RoundRatioUnique(800, 12, 67);
    RoundRatioUnique(15000, 240, 63);
  }

  /** A part of at most the whole is shown as 0..100 percent, 0 for none and 100 for all. */
  lemma PercentageBounds(part: nat, whole: nat)
    requires 0 < whole && part <= whole
    ensures 0 <= Percentage(part, whole) <= 100
    ensures part == 0 ==> Percentage(part, whole) == 0
    ensures part == whole ==> Percentage(part, whole) == 100
  {
    RoundPercent(part, whole);
  }

  /** `getProgressColor(percentage)`. */
  function ProgressColor(percentage: int): string {
    if percentage >= 80 then "success"
    else if percentage >= 60 then "accent"
    else if percentage >= 40 then "warning"
    else "error"
  }

  /** The colour bands: 80 and up, 60 to 79, 40 to 59, below 40. */
  lemma ProgressColorBands(percentage: int)
    ensures ProgressColor(percentage) == "success" <==> percentage >= 80
    ensures ProgressColor(percentage) == "accent" <==> 60 <= percentage < 80
    ensures ProgressColor(percentage) == "warning" <==> 40 <= percentage < 60
    ensures ProgressColor(percentage) == "error" <==> percentage < 40
  {
  }

  /** Both built-in percentages fall in the accent band. */
  lemma MockColors()
    ensures ProgressColor(Percentage(Mock.tasksCompleted, Mock.totalTasks)) == "accent"
    ensures ProgressColor(Percentage(Mock.focusTime, Mock.focusGoal)) == "accent"
  {
    MockPercentages();
  }

  /** `colorClasses[color]`: the bar's background class. */
  const ColorClasses: map<string, string> := map[
    "success" := "bg-success", "accent" := "bg-accent", "warning" := "bg-warning", "error" := "bg-error"]

  /** Every band has a bar colour. */
  lemma EveryBandHasAClass(percentage: int)
    ensures ProgressColor(percentage) in ColorClasses
  {
  }

  /** `Math.min(percentage, 100)`: the width of the bar's fill. */
  function BarWidth(percentage: int): int {
    if percentage < 100 then percentage else 100
  }

  /** The fill never exceeds the bar, and below 100 it is the percentage itself. */
  lemma BarWidthCapped(percentage: int)
    ensures BarWidth(percentage) <= 100
    ensures BarWidth(percentage) == 100 <==> percentage >= 100
    ensures percentage <= 100 ==> BarWidth(percentage) == percentage
  {
  }

  /** `formatTime(minutes)` is the shared "Hh Mm" form; the built-in figures read "2h 30m / 4h 0m". */
  lemma MockFocusTime()
    ensures Durations.HoursMinutes(Mock.focusTime) + " / " + Durations.HoursMinutes(Mock.focusGoal) == "2h 30m / 4h 0m"
  {
    assert Rem(150, 60) == 30 && Rem(240, 60) == 0;
    assert IntToString(30) == "30" by {
      assert NatToString(30) == NatToString(3) + [DigitChar(0)];
    }
    assert IntToString(2) == "2" && IntToString(4) == "4" && IntToString(0) == "0";
  }
}
