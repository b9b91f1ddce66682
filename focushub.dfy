/**
 * The focus-session state machine of the focus hub: a countdown of a
 * chosen duration over a selected task, which can be started, paused and
 * resumed, stopped early (crediting the whole minutes focused) or run to
 * completion (crediting the whole duration and counting one session).
 */
module FocusHub {
  import opened Wrappers
  import Numbers

  /** A task offered for a focus session. */
  datatype FocusTask = FocusTask(
    id: int, title: string, tags: seq<string>, status: string,
    focusTime: int, lastFocusSession: Option<int>)

  const NoTaskMessage: string := "Please select a task before starting a focus session"
  const ResumedMessage: string := "Session resumed"
  const PausedMessage: string := "Session paused"
  const StoppedMessage: string := "Session stopped"
  const TaskLockedMessage: string := "Cannot change task during an active session"
  const DurationLockedMessage: string := "Cannot change duration during an active session"

  function StartedMessage(title: string): string {
    "Focus session started for \"" + title + "\""
  }

  function StoppedAfterMessage(minutes: int): string {
    "Session stopped. You focused for " + Numbers.IntToString(minutes) + " minutes."
  }

  /** The completion line; `selectedTask?.title` prints as "undefined" when no task is selected. */
  function CompletedMessage(task: Option<FocusTask>): string {
    "\U{1F389} Focus session completed! Great work on \"" + (if task.Some? then task.value.title else "undefined") + "\""
  }

  function SelectedMessage(title: string): string {
    "Task selected: \"" + title + "\""
  }

  /** `Math.floor((duration - timeRemaining) / 60)`: the whole minutes elapsed. */
  function FocusedMinutes(duration: int, timeRemaining: int): (r: int)
    ensures 60 * r <= duration - timeRemaining < 60 * r + 60
    ensures timeRemaining <= duration ==> r >= 0
  {
    (duration - timeRemaining) / 60
  }

  /** The whole minutes a completed session of `duration` seconds credits. */
  function SessionMinutes(duration: int): (r: int)
    ensures 60 * r <= duration < 60 * r + 60
  {
    duration / 60
  }

  /** Stopping right at the end credits as much as completing: the two credits agree once the countdown is 0. */
  lemma StopAtZeroCreditsSession(duration: int)
    ensures FocusedMinutes(duration, 0) == SessionMinutes(duration)
  {
  }

  /** Stopping never credits more than completing would. */
  lemma {:induction false} StopCreditsAtMostSession(duration: int, timeRemaining: int)
    requires 0 <= timeRemaining <= duration
    ensures FocusedMinutes(duration, timeRemaining) <= SessionMinutes(duration)
  {
    var f, s := FocusedMinutes(duration, timeRemaining), SessionMinutes(duration);
    assert 60 * f <= duration - timeRemaining <= duration < 60 * s + 60;
  }

  class FocusSession {
    var selectedTask: Option<FocusTask>
    var duration: nat
    var timeRemaining: int
    var isActive: bool
    var isPaused: bool
    var statusMessage: string
    var completedSessions: nat
    var totalFocusTime: nat

    /**
     * The countdown lies between 0 and the duration, and outside a session it
     * equals the duration (the effect that copies the duration into the
     * countdown whenever no session is active).
     */
    ghost predicate Valid()
      reads this
    {
      0 <= timeRemaining <= duration && (!isActive ==> timeRemaining == duration)
    }

    /** The hub as it loads: no task, 25 minutes, nothing credited. */
    constructor ()
      ensures Valid()
      ensures selectedTask == None && duration == 1500 && timeRemaining == 1500
      ensures !isActive && !isPaused && statusMessage == ""
      ensures completedSessions == 0 && totalFocusTime == 0
    {
      selectedTask := None;
      duration := 1500;
      timeRemaining := 1500;
      isActive := false;
      isPaused := false;
      statusMessage := "";
      completedSessions := 0;
      totalFocusTime := 0;
    }

    /** Starting (or resuming through the start button) needs a selected task; without one only the message changes. */
    method Start()
      requires Valid()
      modifies this
      ensures Valid()
      ensures selectedTask == old(selectedTask) && duration == old(duration) && timeRemaining == old(timeRemaining)
      ensures completedSessions == old(completedSessions) && totalFocusTime == old(totalFocusTime)
      ensures old(selectedTask).None? ==> (
        isActive == old(isActive) && isPaused == old(isPaused) && statusMessage == NoTaskMessage)
      ensures old(selectedTask).Some? ==> (
        isActive && !isPaused && statusMessage == StartedMessage(old(selectedTask).value.title))
    {
      if selectedTask.None? {
        statusMessage := NoTaskMessage;
        return;
      }
      isActive := true;
      isPaused := false;
      statusMessage := StartedMessage(selectedTask.value.title);
    }

    /** Pause and resume: the flag flips, whatever state the session is in. */
    method Pause()
      requires Valid()
      modifies this
      ensures Valid()
      ensures isPaused == !old(isPaused)
      ensures statusMessage == if old(isPaused) then ResumedMessage else PausedMessage
      ensures selectedTask == old(selectedTask) && duration == old(duration) && timeRemaining == old(timeRemaining)
      ensures isActive == old(isActive)
      ensures completedSessions == old(completedSessions) && totalFocusTime == old(totalFocusTime)
    {
      statusMessage := if isPaused then ResumedMessage else PausedMessage;
      isPaused := !isPaused;
    }

    /** Stopping: the timer resets to the duration and the whole minutes focused, if any, are credited. */
    method Stop()
      requires Valid()
      modifies this
      ensures Valid()
      ensures !isActive && !isPaused && timeRemaining == duration
      ensures selectedTask == old(selectedTask) && duration == old(duration)
      ensures completedSessions == old(completedSessions)
      ensures var focused := FocusedMinutes(old(duration), old(timeRemaining));
        if focused > 0 then
          totalFocusTime == old(totalFocusTime) + focused && statusMessage == StoppedAfterMessage(focused)
        else
          totalFocusTime == old(totalFocusTime) && statusMessage == StoppedMessage
    {
      var focused := FocusedMinutes(duration, timeRemaining);
      isActive := false;
      isPaused := false;
      timeRemaining := duration;
      if focused > 0 {
        totalFocusTime := totalFocusTime + focused;
        statusMessage := StoppedAfterMessage(focused);
      } else {
        statusMessage := StoppedMessage;
      }
    }

    /** Completion: one more session, the whole duration's minutes credited, the timer reset. */
    method Complete()
      requires Valid()
      modifies this
      ensures Valid()
      ensures !isActive && !isPaused && timeRemaining == duration
      ensures selectedTask == old(selectedTask) && duration == old(duration)
      ensures completedSessions == old(completedSessions) + 1
      ensures totalFocusTime == old(totalFocusTime) + SessionMinutes(old(duration))
      ensures statusMessage == CompletedMessage(old(selectedTask))
    {
      isActive := false;
      isPaused := false;
      completedSessions := completedSessions + 1;
      totalFocusTime := totalFocusTime + SessionMinutes(duration);
      timeRemaining := duration;
      statusMessage := CompletedMessage(selectedTask);
    }

    /**
     * One second of the interval timer, which runs only while a session is
     * active, not paused, and has time left: the countdown drops by one, and
     * the tick that finds one second or less left completes the session.
     */
    method Tick()
      requires Valid()
      modifies this
      ensures Valid()
      ensures totalFocusTime >= old(totalFocusTime) && completedSessions >= old(completedSessions)
      ensures selectedTask == old(selectedTask) && duration == old(duration)
      ensures !(old(isActive) && !old(isPaused) && old(timeRemaining) > 0) ==> (
        timeRemaining == old(timeRemaining) && isActive == old(isActive) && isPaused == old(isPaused)
        && statusMessage == old(statusMessage)
        && completedSessions == old(completedSessions) && totalFocusTime == old(totalFocusTime))
      ensures old(isActive) && !old(isPaused) && old(timeRemaining) > 1 ==> (
        timeRemaining == old(timeRemaining) - 1 && isActive && !isPaused
        && statusMessage == old(statusMessage)
        && completedSessions == old(completedSessions) && totalFocusTime == old(totalFocusTime))
      ensures old(isActive) && !old(isPaused) && old(timeRemaining) == 1 ==> (
        !isActive && !isPaused && timeRemaining == duration
        && completedSessions == old(completedSessions) + 1
        && totalFocusTime == old(totalFocusTime) + SessionMinutes(old(duration))
        && statusMessage == CompletedMessage(old(selectedTask)))
    {
      if isActive && !isPaused && timeRemaining > 0 {
        if timeRemaining <= 1 {
          Complete();
        } else {
          timeRemaining := timeRemaining - 1;
        }
      }
    }

    /** Choosing a task, refused during a session. */
    method TaskSelect(task: FocusTask)
      requires Valid()
      modifies this
      ensures Valid()
      ensures duration == old(duration) && timeRemaining == old(timeRemaining)
      ensures isActive == old(isActive) && isPaused == old(isPaused)
      ensures completedSessions == old(completedSessions) && totalFocusTime == old(totalFocusTime)
      ensures old(isActive) ==> selectedTask == old(selectedTask) && statusMessage == TaskLockedMessage
      ensures !old(isActive) ==> selectedTask == Some(task) && statusMessage == SelectedMessage(task.title)
    {
      if isActive {
        statusMessage := TaskLockedMessage;
        return;
      }
      selectedTask := Some(task);
      statusMessage := SelectedMessage(task.title);
    }

    /** Choosing a duration, refused during a session; outside one the countdown follows the new duration. */
    method DurationChange(newDuration: nat)
      requires Valid()
      modifies this
      ensures Valid()
      ensures selectedTask == old(selectedTask) && isActive == old(isActive) && isPaused == old(isPaused)
      ensures completedSessions == old(completedSessions) && totalFocusTime == old(totalFocusTime)
      ensures old(isActive) ==> (
        duration == old(duration) && timeRemaining == old(timeRemaining) && statusMessage == DurationLockedMessage)
      ensures !old(isActive) ==> (
        duration == newDuration && timeRemaining == newDuration && statusMessage == old(statusMessage))
    {
      if isActive {
        statusMessage := DurationLockedMessage;
        return;
      }
      duration := newDuration;
      timeRemaining := newDuration;
    }
  }
}
