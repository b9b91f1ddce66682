/**
 * The dashboard's recent-activity list: how long ago each activity was,
 * the colours looked up from its colour name with a default, and the
 * summary counts by activity type.
 */
module RecentActivity {
  import opened Wrappers
  import opened Numbers
  import opened Seqs

  datatype Activity = Activity(
    id: int, kind: string, title: string, description: string,
    timestamp: int, icon: string, color: string)

  const MsPerMinute: int := 1000 * 60

  /** `getTimeAgo(timestamp)`, with `now` read from the clock: whole minutes elapsed, then hours, then days. */
  function TimeAgo(timestamp: int, now: int): string {
    LabelForMinutes((now - timestamp) / MsPerMinute)
  }

  /** The label for `minutes` whole minutes elapsed. */
  function LabelForMinutes(minutes: int): string {
    if minutes < 1 then "Just now"
    else if minutes < 60 then IntToString(minutes) + "m ago"
    else
      var hours := minutes / 60;
      if hours < 24 then IntToString(hours) + "h ago"
      else IntToString(hours / 24) + "d ago"
  }

  /** Each bucket with the count it prints: minutes below an hour, hours below a day, whole days beyond. */
  lemma TimeAgoBuckets(minutes: int)
    ensures minutes < 1 ==> LabelForMinutes(minutes) == "Just now"
    ensures 1 <= minutes < 60 ==> LabelForMinutes(minutes) == IntToString(minutes) + "m ago"
    ensures 60 <= minutes < 1440 ==>
      LabelForMinutes(minutes) == IntToString(minutes / 60) + "h ago" && 1 <= minutes / 60 < 24
    ensures minutes >= 1440 ==>
      LabelForMinutes(minutes) == IntToString(minutes / 1440) + "d ago" && minutes / 1440 >= 1
  {
    if minutes >= 1440 {
      assert (minutes / 60) / 24 == minutes / 1440;
    }
  }

  /** The boundary between minutes and hours: 59 minutes is "59m ago", 60 is "1h ago". */
  lemma MinuteHourBoundary()
    ensures LabelForMinutes(59) == "59m ago"
    ensures LabelForMinutes(60) == "1h ago"
  {
    assert IntToString(59) == "59" by {
      assert NatToString(59) == NatToString(5) + [DigitChar(9)];
    }
    assert IntToString(1) == "1";
  }

  /** Only a label past "Just now" ends in " ago", so every count is at least 1. */
  lemma JustNowExactly(minutes: int)
    ensures LabelForMinutes(minutes) == "Just now" <==> minutes < 1
  {
    if minutes >= 1 {
      var t := LabelForMinutes(minutes);
      assert t[|t| - 1] == 'o';
    }
  }

  /** The colour names and the text colour each stands for. */
  const ColorMap: map<string, string> := map[
    "success" := "text-success", "accent" := "text-accent", "warning" := "text-warning",
    "error" := "text-error", "text-secondary" := "text-text-secondary"]

  const BgColorMap: map<string, string> := map[
    "success" := "bg-success/10", "accent" := "bg-accent/10", "warning" := "bg-warning/10",
    "error" := "bg-error/10", "text-secondary" := "bg-surface/50"]

  /** `colorMap[color] || 'text-text-secondary'`. */
  function ActivityColor(color: string): string {
    if color in ColorMap then ColorMap[color] else "text-text-secondary"
  }

  /** `colorMap[color] || 'bg-surface/50'`. */
  function ActivityBgColor(color: string): string {
    if color in BgColorMap then BgColorMap[color] else "bg-surface/50"
  }

  /** Both tables know the same five colour names. */
  lemma ColorNames(color: string)
    ensures color in ColorMap <==> color in {"success", "accent", "warning", "error", "text-secondary"}
    ensures color in BgColorMap <==> color in ColorMap
  {
  }

  /** A known colour name gets the text colour of that name ("text-secondary" the secondary text colour). */
  lemma ActivityColorKnown(color: string)
    requires color in ColorMap
    ensures ActivityColor(color) == "text-" + color
  {
  }

  /** Any other name falls back to the secondary text colour and the neutral background. */
  lemma ColorDefaults(color: string)
    requires color !in ColorMap
    ensures ActivityColor(color) == "text-text-secondary"
    ensures ActivityBgColor(color) == "bg-surface/50"
  {
    ColorNames(color);
  }

  /** The four signal colours get a tinted background of their name. */
  lemma SignalBackground(color: string)
    requires color in {"success", "accent", "warning", "error"}
    ensures ActivityBgColor(color) == "bg-" + color + "/10"
  {
  }

  /** Exactly the names other than the four signal colours, "text-secondary" included, get the neutral background. */
  lemma NeutralBackground(color: string)
    ensures ActivityBgColor(color) == "bg-surface/50" <==> color !in {"success", "accent", "warning", "error"}
  {
    if color in {"success", "accent", "warning", "error"} {
      SignalBackground(color);
      var b := ActivityBgColor(color);
      assert b[|b| - 1] == '0';
    }
  }

  /** `recentActivities.filter(a => a.type === kind).length`. */
  function CountOf(activities: seq<Activity>, kind: string): nat {
    |Filter(activities, (a: Activity) => a.kind == kind)|
  }

  function Kinds(activities: seq<Activity>): seq<string> {
    seq(|activities|, i requires 0 <= i < |activities| => activities[i].kind)
  }

  /** Each summary figure is the number of activities of that type. */
  lemma {:induction false} CountIsOccurrences(activities: seq<Activity>, kind: string)
    ensures CountOf(activities, kind) == multiset(Kinds(activities))[kind]
  {
    if activities != [] {
      CountIsOccurrences(activities[1..], kind);
      assert Kinds(activities) == [activities[0].kind] + Kinds(activities[1..]);
    }
  }

  /** The summary: tasks completed, focus sessions, notes created, challenges. */
  function Summary(activities: seq<Activity>): seq<nat> {
    [CountOf(activities, "task_completed"), CountOf(activities, "focus_session"),
      CountOf(activities, "note_created"), CountOf(activities, "willpower_challenge")]
  }

  /** The four figures together never count an activity twice. */
  lemma {:induction false} SummaryBounded(activities: seq<Activity>)
    ensures var s := Summary(activities); s[0] + s[1] + s[2] + s[3] <= |activities|
  {
    if activities != [] {
      SummaryBounded(activities[1..]);
    }
  }
}
