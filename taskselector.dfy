/**
 * The task picker of the focus hub: a dropdown that opens only when
 * enabled, hands the chosen task to the session and closes, and shows for
 * each task its status, its focus minutes, how long ago it was last
 * focused on and at most three of its tags.
 */
module TaskSelector {
  import opened Wrappers
  import opened Text
  import opened Numbers
  import opened Seqs
  import FocusHub
  import TaskCard

  /** `getTaskStatusColor(status)`. */
  function StatusColor(status: string): string {
    if status == "todo" then "text-text-secondary"
    else if status == "in-progress" then "text-warning"
    else if status == "done" then "text-success"
    else "text-text-secondary"
  }

  /** `getTaskStatusIcon(status)`. */
  function StatusIcon(status: string): string {
    if status == "todo" then "Circle"
    else if status == "in-progress" then "Clock"
    else if status == "done" then "CheckCircle"
    else "Circle"
  }

  /** An unknown status is shown as a task still to do. */
  lemma UnknownStatusLooksTodo(status: string)
    requires status != "todo" && status != "in-progress" && status != "done"
    ensures StatusColor(status) == StatusColor("todo") && StatusIcon(status) == StatusIcon("todo")
  {
  }

  /** Each known status has its own icon. */
  lemma KnownStatusesDiffer()
    ensures StatusIcon("todo") != StatusIcon("in-progress") && StatusIcon("in-progress") != StatusIcon("done")
    ensures StatusIcon("todo") != StatusIcon("done")
  {
  }

  /** `status.replace('-', ' ')`: the status as shown. */
  function StatusText(status: string): string {
    ReplaceFirst(status, "-", " ")
  }

  /** "in-progress" is shown as "in progress". */
  lemma InProgressText()
    ensures StatusText("in-progress") == "in progress"
  {
    var s := "in-progress";
    assert "-" <= s[2..];
    assert s[0] == 'i' && s[1] == 'n';
    forall j | 0 <= j < 2
      ensures !("-" <= s[j..])
    {
      assert s[j..][0] == s[j];
    }
    ReplaceFirstAt(s, "-", " ", 2);
    assert s[..2] + " " + s[3..] == "in progress";
  }

  /** A status without a hyphen is shown as it is. */
  lemma NoHyphenUnchanged(status: string)
    requires '-' !in status
    ensures StatusText(status) == status
  {
    IncludesAt(status, "-");
    forall i | 0 <= i <= |status| - 1
      ensures !("-" <= status[i..])
    {
      assert status[i] != '-';
    }
    ReplaceFirstAbsent(status, "-", " ");
  }

  const MsPerHour: int := 1000 * 60 * 60

  /** `formatLastFocus(lastFocusSession)`, with `now` read from the clock; times in milliseconds. */
  function FormatLastFocus(lastFocusSession: Option<int>, now: int): string {
    match lastFocusSession
    case None => "Never"
    case Some(d) => LastFocusLabel((now - d) / MsPerHour)
  }

  /** The label for `hours` whole hours elapsed: whole days first, then whole hours. */
  function LastFocusLabel(hours: int): string {
    var days := hours / 24;
    if days > 0 then IntToString(days) + "d ago"
    else if hours > 0 then IntToString(hours) + "h ago"
    else "Recently"
  }

  /** The buckets: a day or more, one to 23 hours, and under an hour (or a future time). */
  lemma LastFocusBuckets(hours: int)
    ensures hours >= 24 ==> LastFocusLabel(hours) == IntToString(hours / 24) + "d ago" && hours / 24 >= 1
    ensures 1 <= hours < 24 ==> LastFocusLabel(hours) == IntToString(hours) + "h ago"
    ensures LastFocusLabel(hours) == "Recently" <==> hours < 1
  {
    if hours >= 1 {
      var t := LastFocusLabel(hours);
      assert t[|t| - 1] == 'o';
    }
  }

  /**
   * The picker and the task card agree on the hour labels and on days
   * three to seven; for the second day the picker writes "1d ago" where the
   * card writes "Yesterday".
   */
  lemma AgreesWithTaskCard(hours: int, d: int)
    ensures 1 <= hours < 24 || 48 <= hours < 168 ==>
      TaskCard.LabelForHours(hours, d) == TaskCard.Ago(LastFocusLabel(hours))
    ensures 24 <= hours < 48 ==>
      TaskCard.LabelForHours(hours, d) == TaskCard.Ago("Yesterday") && LastFocusLabel(hours) == "1d ago"
  {
    TaskCard.LastSessionBuckets(hours, d);
    LastFocusBuckets(hours);
    assert IntToString(1) == "1";
  }

  /** `task.tags.slice(0, 3)`, each written with a leading '#'. */
  function TagChips(tags: seq<string>): seq<string> {
    var shown := Take(tags, 3);
    seq(|shown|, i requires 0 <= i < |shown| => "#" + shown[i])
  }

  /** `+${task.tags.length - 3} more`, for more than three tags. */
  function MoreTags(tags: seq<string>): Option<string> {
    if |tags| > 3 then Some("+" + IntToString(|tags| - 3) + " more") else None
  }

  /**
   * The first three tags are shown in order, and the note accounts for the
   * rest: no note up to three tags, otherwise one whose number, read without
   * " more", is the count of tags not shown.
   */
  lemma TagsAccounted(tags: seq<string>)
    ensures |TagChips(tags)| == if |tags| < 3 then |tags| else 3
    ensures forall i :: 0 <= i < |TagChips(tags)| ==> TagChips(tags)[i] == "#" + tags[i]
    ensures MoreTags(tags).None? <==> |tags| <= 3
    ensures MoreTags(tags).Some? ==>
      var t := MoreTags(tags).value;
      |t| > 5 && ParseInt(t[..|t| - 5]) == Some(|tags| - 3) && |TagChips(tags)| + (|tags| - 3) == |tags|
  {
    if |tags| > 3 {
      var n := |tags| - 3;
      var t := "+" + IntToString(n) + " more";
      assert t[..|t| - 5] == "+" + NatToString(n);
      assert ParseUnsigned(NatToString(n)) == Some(n) by {
        DigitsValueOfNatToString(n);
        ParseUnsignedOfDigits(NatToString(n));
      }
      ParseIntOfPlus(NatToString(n));
    }
  }

  /** `selectedTask?.id === task.id`: no row is marked without a selection. */
  predicate IsSelected(selected: Option<FocusHub.FocusTask>, task: FocusHub.FocusTask) {
    selected.Some? && selected.value.id == task.id
  }

  /** The picker's own state: whether the dropdown is open. */
  class Picker {
    var isOpen: bool

    constructor ()
      ensures !isOpen
    {
      isOpen := false;
    }

    /** The list is drawn only while open and enabled. */
    predicate MenuShown(disabled: bool)
      reads this
    {
      isOpen && !disabled
    }

    /** The dropdown button flips the list open or shut, unless disabled. */
    method Toggle(disabled: bool)
      modifies this
      ensures isOpen == if disabled then old(isOpen) else !old(isOpen)
    {
      if !disabled {
        isOpen := !isOpen;
      }
    }

    /** A click on the backdrop closes the list. */
    method CloseBackdrop()
      modifies this
      ensures !isOpen
    {
      isOpen := false;
    }

    /**
     * `handleTaskSelect`, wired as the hub wires it (disabled during a
     * session): while disabled nothing happens; otherwise the hub takes the
     * task and the list closes.
     */
    method Select(task: FocusHub.FocusTask, hub: FocusHub.FocusSession)
      requires hub.Valid()
      modifies this, hub
      ensures hub.Valid()
      ensures old(hub.isActive) ==> (
        isOpen == old(isOpen) && hub.selectedTask == old(hub.selectedTask)
        && hub.statusMessage == old(hub.statusMessage))
      ensures !old(hub.isActive) ==> !isOpen && hub.selectedTask == Some(task) && IsSelected(hub.selectedTask, task)
      ensures !old(hub.isActive) ==> hub.statusMessage == FocusHub.SelectedMessage(task.title)
      ensures hub.isActive == old(hub.isActive) && hub.isPaused == old(hub.isPaused)
      ensures hub.duration == old(hub.duration) && hub.timeRemaining == old(hub.timeRemaining)
      ensures hub.completedSessions == old(hub.completedSessions) && hub.totalFocusTime == old(hub.totalFocusTime)
    {
      var disabled := hub.isActive;
      if !disabled {
        hub.TaskSelect(task);
        isOpen := false;
      }
    }
  }
}
