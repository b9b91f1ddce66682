/**
 * The focus hub's buttons: the start button, whose label, icon and
 * enabled state follow the session, and the pause and stop buttons, which
 * exist only during a session.
 */
module SessionControls {
  import opened Wrappers
  import FocusHub

  /** `getStartButtonText()`. */
  function StartButtonText(isActive: bool, isPaused: bool): string {
    if isActive && isPaused then "Resume" else if isActive then "Running" else "Start Focus"
  }

  /** `getStartButtonIcon()`. */
  function StartButtonIcon(isActive: bool, isPaused: bool): string {
    if isActive && isPaused then "Play" else if isActive then "Target" else "Play"
  }

  /** `disabled || (isActive && !isPaused)`. */
  predicate StartDisabled(isActive: bool, isPaused: bool, disabled: bool) {
    disabled || (isActive && !isPaused)
  }

  /** The one label the pause button shows at a time. */
  function PauseButtonText(isPaused: bool): string {
    if isPaused then "Resume" else "Pause"
  }

  /** What the controls show: the start button, and the pause and stop buttons during a session. */
  datatype Controls = Controls(
    startText: string, startIcon: string, startDisabled: bool,
    pauseText: Option<string>, showStop: bool)

  function Render(isActive: bool, isPaused: bool, disabled: bool): (c: Controls)
    ensures c.pauseText.Some? <==> isActive
    ensures c.showStop <==> isActive
  {
    Controls(StartButtonText(isActive, isPaused), StartButtonIcon(isActive, isPaused),
      StartDisabled(isActive, isPaused, disabled),
      if isActive then Some(PauseButtonText(isPaused)) else None, isActive)
  }

  /**
   * The three states of the start button: idle, where it starts unless
   * disabled; running, where it is always disabled and marked with the
   * target; paused, where it resumes unless disabled.
   */
  lemma StartButtonStates(isActive: bool, isPaused: bool, disabled: bool)
    ensures StartButtonText(isActive, isPaused) == "Start Focus" <==> !isActive
    ensures StartButtonText(isActive, isPaused) == "Running" <==> isActive && !isPaused
    ensures StartButtonText(isActive, isPaused) == "Resume" <==> isActive && isPaused
    ensures StartButtonIcon(isActive, isPaused) == "Target" <==> StartButtonText(isActive, isPaused) == "Running"
    ensures StartDisabled(isActive, isPaused, disabled) <==>
      disabled || StartButtonText(isActive, isPaused) == "Running"
  {
  }

  /** While paused both the start and the pause button read "Resume". */
  lemma BothResumeWhilePaused(isPaused: bool)
    requires isPaused
    ensures Render(true, isPaused, false).pauseText == Some(StartButtonText(true, isPaused))
  {
  }

  /**
   * A press of the start button, wired as the hub wires it (`disabled` is
   * "no task selected"): a disabled button does nothing; an enabled one
   * starts or resumes the session, after which the button shows "Running"
   * and is disabled.
   */
  method PressStart(hub: FocusHub.FocusSession)
    requires hub.Valid()
    modifies hub
    ensures hub.Valid()
    ensures StartDisabled(old(hub.isActive), old(hub.isPaused), old(hub.selectedTask).None?) ==> (
      hub.isActive == old(hub.isActive) && hub.isPaused == old(hub.isPaused)
      && hub.statusMessage == old(hub.statusMessage) && hub.timeRemaining == old(hub.timeRemaining))
    ensures !StartDisabled(old(hub.isActive), old(hub.isPaused), old(hub.selectedTask).None?) ==> (
      hub.isActive && !hub.isPaused && StartButtonText(hub.isActive, hub.isPaused) == "Running"
      && StartDisabled(hub.isActive, hub.isPaused, hub.selectedTask.None?)
      && hub.statusMessage == FocusHub.StartedMessage(old(hub.selectedTask).value.title))
    ensures hub.timeRemaining == old(hub.timeRemaining)
    ensures hub.selectedTask == old(hub.selectedTask) && hub.duration == old(hub.duration)
    ensures hub.completedSessions == old(hub.completedSessions) && hub.totalFocusTime == old(hub.totalFocusTime)
  {
    if !StartDisabled(hub.isActive, hub.isPaused, hub.selectedTask.None?) {
      hub.Start();
    }
  }

  /**
   * A press of the pause button, which exists only during a session: the
   * pause flag flips, and with it the two labels between "Pause"/"Running"
   * and "Resume"/"Resume".
   */
  method PressPause(hub: FocusHub.FocusSession)
    requires hub.Valid() && hub.isActive
    modifies hub
    ensures hub.Valid() && hub.isActive && hub.isPaused == !old(hub.isPaused)
    ensures PauseButtonText(hub.isPaused) == (if old(hub.isPaused) then "Pause" else "Resume")
    ensures StartButtonText(hub.isActive, hub.isPaused) == (if old(hub.isPaused) then "Running" else "Resume")
    ensures hub.statusMessage == if old(hub.isPaused) then FocusHub.ResumedMessage else FocusHub.PausedMessage
    ensures hub.selectedTask == old(hub.selectedTask) && hub.timeRemaining == old(hub.timeRemaining)
    ensures hub.duration == old(hub.duration)
    ensures hub.completedSessions == old(hub.completedSessions) && hub.totalFocusTime == old(hub.totalFocusTime)
  {
    hub.Pause();
  }

  /**
   * A press of the stop button ends the session, so the pause and stop
   * buttons disappear; the countdown resets to the duration and the whole
   * minutes focused, if any, are credited.
   */
  method PressStop(hub: FocusHub.FocusSession)
    requires hub.Valid() && hub.isActive
    modifies hub
    ensures hub.Valid() && !hub.isActive && !hub.isPaused && hub.timeRemaining == hub.duration
    ensures hub.selectedTask == old(hub.selectedTask) && hub.duration == old(hub.duration)
    ensures hub.completedSessions == old(hub.completedSessions)
    ensures var focused := FocusHub.FocusedMinutes(old(hub.duration), old(hub.timeRemaining));
      if focused > 0 then
        hub.totalFocusTime == old(hub.totalFocusTime) + focused && hub.statusMessage == FocusHub.StoppedAfterMessage(focused)
      else
        hub.totalFocusTime == old(hub.totalFocusTime) && hub.statusMessage == FocusHub.StoppedMessage
    ensures Render(hub.isActive, hub.isPaused, hub.selectedTask.None?).pauseText.None?
    ensures !Render(hub.isActive, hub.isPaused, hub.selectedTask.None?).showStop
    ensures StartButtonText(hub.isActive, hub.isPaused) == "Start Focus"
  {
    hub.Stop();
  }
}
