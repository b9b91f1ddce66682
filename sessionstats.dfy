/**
 * The statistics card of the focus hub: sessions today, focus time and the
 * streak, each with its colours; the streak message; the daily-goal bar
 * (four sessions) and the weekly bar (ten hours), both capped at full; and
 * the badge once the daily goal is reached.
 */
module SessionStats {
  import opened Wrappers
  import opened Text
  import opened Numbers
  import Durations

  /** `getStreakMessage()`: no streak, below 5, below 10, below 20, and the rest. */
  function StreakMessage(streak: int): string {
    if streak == 0 then "Start your streak!"
    else if streak < 5 then "Building momentum"
    else if streak < 10 then "Great consistency!"
    else if streak < 20 then "Focus master!"
    else "Legendary streak!"
  }

  /** `getStreakColor()`: no streak, below 5, below 10, and the rest. */
  function StreakColor(streak: int): string {
    if streak == 0 then "text-text-secondary"
    else if streak < 5 then "text-warning"
    else if streak < 10 then "text-accent"
    else "text-success"
  }

  /** The message bands, each by its range of the streak. */
  lemma StreakMessageBands(streak: int)
    requires streak >= 0
    ensures StreakMessage(streak) == "Start your streak!" <==> streak == 0
    ensures StreakMessage(streak) == "Building momentum" <==> 1 <= streak < 5
    ensures StreakMessage(streak) == "Great consistency!" <==> 5 <= streak < 10
    ensures StreakMessage(streak) == "Focus master!" <==> 10 <= streak < 20
    ensures StreakMessage(streak) == "Legendary streak!" <==> streak >= 20
  {
  }

  /**
   * The colour bands coincide with the message bands except the last:
   * both "Focus master!" and "Legendary streak!" are shown in the success colour.
   */
  lemma StreakColorFollowsMessage(streak: int)
    ensures StreakColor(streak) == "text-text-secondary" <==> StreakMessage(streak) == "Start your streak!"
    ensures StreakColor(streak) == "text-warning" <==> StreakMessage(streak) == "Building momentum"
    ensures StreakColor(streak) == "text-accent" <==> StreakMessage(streak) == "Great consistency!"
    ensures StreakColor(streak) == "text-success" <==>
      StreakMessage(streak) == "Focus master!" || StreakMessage(streak) == "Legendary streak!"
  {
  }

  /** `Math.min((completedSessions / 4) * 100, 100)`: a quarter of the bar per session. */
  function DailyGoalWidth(completedSessions: nat): int {
    if 25 * completedSessions < 100 then 25 * completedSessions else 100
  }

  /** `Math.min((totalFocusTime / 600) * 100, 100)`, in exact arithmetic. */
  function WeeklyWidth(totalFocusTime: nat): real {
    var w := totalFocusTime as real / 600.0 * 100.0;
    if w < 100.0 then w else 100.0
  }

  /** The badge: `completedSessions >= 4`. */
  predicate GoalAchieved(completedSessions: nat) {
    completedSessions >= 4
  }

  /**
   * Both bars stay within 0..100; the daily bar is full exactly when the badge
   * shows, the weekly one exactly from ten hours (600 minutes) on, and below
   * that it grows with the focus time.
   */
  lemma BarsCapped(completedSessions: nat, totalFocusTime: nat)
    ensures 0 <= DailyGoalWidth(completedSessions) <= 100
    ensures DailyGoalWidth(completedSessions) == 100 <==> GoalAchieved(completedSessions)
    ensures 0.0 <= WeeklyWidth(totalFocusTime) <= 100.0
    ensures WeeklyWidth(totalFocusTime) == 100.0 <==> totalFocusTime >= 600
    ensures totalFocusTime < 600 ==> WeeklyWidth(totalFocusTime) == totalFocusTime as real / 6.0
  {
  }

  /** The weekly bar never shrinks as focus time grows. */
  lemma WeeklyWidthMonotone(a: nat, b: nat)
    requires a <= b
    ensures WeeklyWidth(a) <= WeeklyWidth(b)
  {
  }

  /** `stat.color.replace('text-', 'var(--color-')`: the colour the icon is drawn in. */
  function IconColor(color: string): string {
    ReplaceFirst(color, "text-", "var(--color-")
  }

  /**
   * Every colour the card uses starts with "text-", so the icon colour is the
   * colour's name after "var(--color-"; the source writes no closing parenthesis.
   */
  lemma IconColorOfTextColor(color: string)
    requires "text-" <= color
    ensures IconColor(color) == "var(--color-" + color[5..]
  {
    ReplaceFirstPrefix(color, "text-", "var(--color-");
  }

  /** The streak colour is drawn as "var(--color-" and its name. */
  lemma StreakIconColor(streak: int)
    ensures "text-" <= StreakColor(streak)
    ensures IconColor(StreakColor(streak)) == "var(--color-" + StreakColor(streak)[5..]
  {
    IconColorOfTextColor(StreakColor(streak));
  }

  datatype Stat = Stat(title: string, value: string, icon: string, color: string, bgColor: string)

  /** The three cards: sessions today, focus time, the streak in days. */
  function Stats(completedSessions: nat, totalFocusTime: nat, streak: int): seq<Stat> {
    [
      Stat("Sessions Today", IntToString(completedSessions), "Target", "text-accent", "bg-accent/10"),
      Stat("Focus Time", Durations.HoursMinutes(totalFocusTime), "Clock", "text-success", "bg-success/10"),
      Stat("Current Streak", IntToString(streak) + " days", "Flame", StreakColor(streak),
        if streak > 0 then "bg-warning/10" else "bg-surface/50")
    ]
  }

  /** Everything the card shows. */
  datatype Card = Card(
    stats: seq<Stat>, streakMessage: string, streakColor: string, keepItUp: bool,
    dailyLabel: string, dailyWidth: int, weeklyLabel: string, weeklyWidth: real, badge: bool)

  function Render(completedSessions: nat, totalFocusTime: nat, streak: int): Card {
    Card(Stats(completedSessions, totalFocusTime, streak), StreakMessage(streak), StreakColor(streak), streak > 0,
      IntToString(completedSessions) + "/4 sessions", DailyGoalWidth(completedSessions),
      Durations.HoursMinutes(totalFocusTime) + "/10h", WeeklyWidth(totalFocusTime), GoalAchieved(completedSessions))
  }

  /**
   * The focus-time card and the weekly label show the same figure, which
   * reads back as the minutes; the sessions card reads back as the count; the
   * streak card and message share one colour; the reminder under the message
   * shows exactly for a running streak, and the badge exactly with a full daily bar.
   */
  lemma CardAgrees(completedSessions: nat, totalFocusTime: nat, streak: int)
    ensures var c := Render(completedSessions, totalFocusTime, streak);
      |c.stats| == 3
      && Durations.ReadHoursMinutes(c.stats[1].value) == Some(totalFocusTime)
      && c.weeklyLabel == c.stats[1].value + "/10h"
      && ParseInt(c.stats[0].value) == Some(completedSessions)
      && c.stats[2].color == c.streakColor
      && (c.keepItUp <==> streak > 0)
      && (c.badge <==> c.dailyWidth == 100)
  {
    Durations.HoursMinutesRoundTrip(totalFocusTime);
    ParseIntOfIntToString(completedSessions);
    BarsCapped(completedSessions, totalFocusTime);
  }
}
