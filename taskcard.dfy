/**
 * The task card of the task board: the total focus time in "Hh Mm" form
 * and how long ago the last focus session was.
 */
module TaskCard {
  import opened Wrappers
  import opened Numbers
  import Durations
  import TaskManagement

  /** `formatFocusTime(minutes)`: "0m" for no focus time, otherwise the shared "Hh Mm" form. */
  function FormatFocusTime(minutes: int): string {
    if minutes == 0 then "0m" else Durations.HoursMinutes(minutes)
  }

  /** The early return for 0 gives what the shared form gives anyway, so the card prints every count as the other pages do. */
  lemma FormatFocusTimeIsShared(minutes: int)
    ensures FormatFocusTime(minutes) == Durations.HoursMinutes(minutes)
  {
    if minutes == 0 {
      assert Rem(0, 60) == 0 && 0 / 60 == 0;
      assert IntToString(0) == "0";
    }
  }

  /** So the card's figure reads back as the task's focus minutes. */
  lemma FocusTimeReadsBack(t: TaskManagement.Task)
    requires t.focusTime >= 0
    ensures Durations.ReadHoursMinutes(FormatFocusTime(t.focusTime)) == Some(t.focusTime)
  {
    FormatFocusTimeIsShared(t.focusTime);
    Durations.HoursMinutesRoundTrip(t.focusTime);
  }

  /** What the "Last:" line shows: nothing, a relative label, or the date in the browser's locale. */
  datatype LastSession = NoSession | Ago(text: string) | LocaleDate(time: int)

  const MsPerHour: int := 1000 * 60 * 60

  /**
   * `formatLastSession(date)`, with `now` read from the clock and both
   * times in milliseconds: whole hours elapsed, then whole days.
   */
  function FormatLastSession(date: Option<int>, now: int): LastSession {
    match date
    case None => NoSession
    case Some(d) => LabelForHours((now - d) / MsPerHour, d)
  }

  /** The label for `hours` whole hours since the session at `d`. */
  function LabelForHours(hours: int, d: int): LastSession {
    if hours < 1 then Ago("Just now")
    else if hours < 24 then Ago(IntToString(hours) + "h ago")
    else
      var days := hours / 24;
      if days == 1 then Ago("Yesterday")
      else if days < 7 then Ago(IntToString(days) + "d ago")
      else LocaleDate(d)
  }

  /** The elapsed whole hours: `Math.floor` of the milliseconds over an hour's worth, negative for a future date. */
  lemma ElapsedHours(d: int, now: int)
    ensures var h := (now - d) / MsPerHour;
      MsPerHour * h <= now - d < MsPerHour * (h + 1)
  {
  }

  /**
   * The buckets by whole hours elapsed: under one (or a future date), under a
   * day, the second day, days three to seven, and a week or more.
   */
  lemma LastSessionBuckets(hours: int, d: int)
    ensures var r := LabelForHours(hours, d);
      (r == Ago("Just now") <==> hours < 1)
      && (1 <= hours < 24 ==> r == Ago(IntToString(hours) + "h ago"))
      && (r == Ago("Yesterday") <==> 24 <= hours < 48)
      && (48 <= hours < 168 ==> r == Ago(IntToString(hours / 24) + "d ago") && 2 <= hours / 24 < 7)
      && (r.LocaleDate? <==> hours >= 168)
      && (r.LocaleDate? ==> r.time == d)
  {
    if 1 <= hours < 24 {
      EndsInAgo(IntToString(hours) + "h");
    } else if 48 <= hours < 168 {
      EndsInAgo(IntToString(hours / 24) + "d");
    }
  }

  /** A count label ends in "ago", so it is neither "Just now" nor "Yesterday". */
  lemma EndsInAgo(n: string)
    ensures n + " ago" != "Just now" && n + " ago" != "Yesterday"
  {
    var t := n + " ago";
    assert t[|t| - 1] == 'o';
  }

  /** A task without a last session shows no "Last:" line. */
  lemma NoLastSession(now: int)
    ensures FormatLastSession(None, now) == NoSession
  {
  }

  /** The hour and day labels read back, without their unit and " ago", as the elapsed whole hours and days. */
  lemma AgoReadsBack(hours: int, d: int)
    requires 1 <= hours < 24 || 48 <= hours < 168
    ensures var t := LabelForHours(hours, d).text;
      |t| > 5 && ParseInt(t[..|t| - 5]) == Some(if hours < 24 then hours else hours / 24)
  {
    var n := if hours < 24 then hours else hours / 24;
    var u := if hours < 24 then 'h' else 'd';
    var t := IntToString(n) + [u] + " ago";
    assert LabelForHours(hours, d).text == t;
    assert t[..|t| - 5] == IntToString(n);
    ParseIntOfIntToString(n);
  }
}
