/**
 * The duration picker of the focus hub: four presets, a custom number of
 * minutes between 1 and 180, the "Hh Mm" rendering of the chosen duration
 * and the name of the preset it matches.
 */
module DurationSelector {
  import opened Wrappers
  import opened Numbers
  import Durations
  import FocusHub

  datatype Preset = Preset(buttonText: string, value: nat, description: string)

  const Presets: seq<Preset> := [
    Preset("25 min", 25 * 60, "Pomodoro"),
    Preset("45 min", 45 * 60, "Deep Work"),
    Preset("60 min", 60 * 60, "Extended"),
    Preset("90 min", 90 * 60, "Flow State")
  ]

  /** `presetDurations.find(preset => preset.value === duration)`. */
  function FindPreset(ps: seq<Preset>, duration: int): (r: Option<Preset>)
    ensures r.Some? ==> r.value in ps && r.value.value == duration
    ensures r.None? ==> forall p :: p in ps ==> p.value != duration
  {
    if ps == [] then None
    else if ps[0].value == duration then Some(ps[0])
    else FindPreset(ps[1..], duration)
  }

  function GetCurrentPreset(duration: int): Option<Preset> {
    FindPreset(Presets, duration)
  }

  /** The caption under the duration: the matching preset's name, or "Custom Duration". */
  function Caption(duration: int): string {
    match GetCurrentPreset(duration)
    case Some(p) => p.description
    case None => "Custom Duration"
  }

  /** Exactly the four preset values have a preset, each its own. */
  lemma CurrentPresetExactly(duration: int)
    ensures GetCurrentPreset(duration).Some? <==> duration in {1500, 2700, 3600, 5400}
    ensures duration == 1500 ==> Caption(duration) == "Pomodoro"
    ensures duration == 2700 ==> Caption(duration) == "Deep Work"
    ensures duration == 3600 ==> Caption(duration) == "Extended"
    ensures duration == 5400 ==> Caption(duration) == "Flow State"
    ensures duration !in {1500, 2700, 3600, 5400} ==> Caption(duration) == "Custom Duration"
  {
    if duration !in {1500, 2700, 3600, 5400} {
      assert forall p :: p in Presets ==> p.value in {1500, 2700, 3600, 5400};
    }
  }

  /** `formatDuration(seconds)`: whole hours and the whole minutes left over; the seconds left over are dropped. */
  function FormatDuration(seconds: int): string {
    var hours := seconds / 3600;
    var minutes := Rem(seconds, 3600) / 60;
    if hours > 0 then IntToString(hours) + "h " + IntToString(minutes) + "m"
    else IntToString(minutes) + "m"
  }

  /** For a non-negative duration the picker shows the shared "Hh Mm" form of its whole minutes. */
  lemma FormatDurationOfMinutes(seconds: int)
    requires seconds >= 0
    ensures FormatDuration(seconds) == Durations.HoursMinutes(seconds / 60)
  {
    var m := seconds / 60;
    var h := seconds / 3600;
    assert seconds == 60 * m + seconds % 60;
    assert m / 60 == h && Rem(m, 60) == Rem(seconds, 3600) / 60 by {
      assert seconds == 3600 * h + seconds % 3600;
      assert m == 60 * h + (seconds % 3600) / 60;
    }
    assert Durations.Field(h, 'h') + " " + Durations.Field(m % 60, 'm') == IntToString(h) + "h " + IntToString(m % 60) + "m";
  }

  /** Reading the rendering back gives the whole minutes, and the hours appear exactly from 3600 seconds on. */
  lemma FormatDurationReadsBack(seconds: int)
    requires seconds >= 0
    ensures Durations.ReadHoursMinutes(FormatDuration(seconds)) == Some(seconds / 60)
    ensures 'h' in FormatDuration(seconds) <==> seconds >= 3600
  {
    FormatDurationOfMinutes(seconds);
    Durations.HoursMinutesRoundTrip(seconds / 60);
    Durations.HoursShownFromAnHour(seconds / 60);
  }

  /** `handleCustomSubmit`'s test `minutes && minutes > 0 && minutes <= 180`, and the seconds it then emits. */
  function CustomSeconds(text: string): Option<nat> {
    match ParseInt(text)
    case Some(m) => if 0 < m <= 180 then Some(m * 60) else None
    case None => None
  }

  /** The Set button's `!customDuration || parseInt(customDuration) <= 0 || parseInt(customDuration) > 180`; a comparison with NaN is false. */
  predicate SetDisabled(text: string) {
    text == [] || (ParseInt(text).Some? && (ParseInt(text).value <= 0 || ParseInt(text).value > 180))
  }

  /**
   * A custom value is taken exactly when it parses to 1..180 minutes, and
   * then as that many whole minutes of seconds, at most three hours. An
   * accepted value always has the Set button enabled; with the button
   * enabled, only a text that does not parse is refused.
   */
  lemma CustomSecondsExactly(text: string)
    ensures CustomSeconds(text).Some? <==> ParseInt(text).Some? && 1 <= ParseInt(text).value <= 180
    ensures CustomSeconds(text).Some? ==> (
      CustomSeconds(text).value == 60 * ParseInt(text).value
      && 60 <= CustomSeconds(text).value <= 10800 && CustomSeconds(text).value % 60 == 0)
    ensures CustomSeconds(text).Some? ==> !SetDisabled(text)
    ensures !SetDisabled(text) && CustomSeconds(text).None? ==> ParseInt(text).None?
  {
  }

  /** The picker's own state; the duration itself lives in the focus session. */
  class DurationPicker {
    var customDuration: string
    var showCustomInput: bool

    constructor ()
      ensures customDuration == "" && !showCustomInput
    {
      customDuration, showCustomInput := "", false;
    }

    /**
     * `handlePresetSelect`: ignored when disabled; otherwise the custom input
     * closes and the preset goes to the session, which takes it outside a
     * session and refuses it, with its lock message, during one.
     */
    method PresetSelect(value: nat, disabled: bool, hub: FocusHub.FocusSession)
      requires hub.Valid()
      modifies this, hub
      ensures hub.Valid()
      ensures disabled ==> (
        customDuration == old(customDuration) && showCustomInput == old(showCustomInput)
        && hub.duration == old(hub.duration) && hub.timeRemaining == old(hub.timeRemaining)
        && hub.statusMessage == old(hub.statusMessage))
      ensures !disabled ==> customDuration == old(customDuration) && !showCustomInput
      ensures !disabled && !old(hub.isActive) ==> (
        hub.duration == value && hub.timeRemaining == value && hub.statusMessage == old(hub.statusMessage))
      ensures !disabled && old(hub.isActive) ==> (
        hub.duration == old(hub.duration) && hub.timeRemaining == old(hub.timeRemaining)
        && hub.statusMessage == FocusHub.DurationLockedMessage)
      ensures hub.isActive == old(hub.isActive) && hub.isPaused == old(hub.isPaused)
      ensures hub.totalFocusTime == old(hub.totalFocusTime)
      ensures hub.completedSessions == old(hub.completedSessions) && hub.selectedTask == old(hub.selectedTask)
    {
      if !disabled {
        hub.DurationChange(value);
        showCustomInput := false;
      }
    }

    /** The custom button opens the input unless disabled. */
    method OpenCustom(disabled: bool)
      modifies this
      ensures showCustomInput == (old(showCustomInput) || !disabled)
      ensures customDuration == old(customDuration)
    {
      if !disabled {
        showCustomInput := true;
      }
    }

    method EditCustom(text: string)
      modifies this
      ensures customDuration == text && showCustomInput == old(showCustomInput)
    {
      customDuration := text;
    }

    /** Cancel closes the input and empties it. */
    method CancelCustom()
      modifies this
      ensures customDuration == "" && !showCustomInput
    {
      customDuration, showCustomInput := "", false;
    }

    /**
     * `handleCustomSubmit`: an accepted value goes to the session and the
     * input closes, emptied; a refused one changes nothing. The handler does
     * not look at `disabled`: during a session the session itself refuses it.
     */
    method CustomSubmit(hub: FocusHub.FocusSession)
      requires hub.Valid()
      modifies this, hub
      ensures hub.Valid()
      ensures CustomSeconds(old(customDuration)).None? ==> (
        customDuration == old(customDuration) && showCustomInput == old(showCustomInput)
        && hub.duration == old(hub.duration) && hub.timeRemaining == old(hub.timeRemaining)
        && hub.statusMessage == old(hub.statusMessage))
      ensures CustomSeconds(old(customDuration)).Some? ==> customDuration == "" && !showCustomInput
      ensures CustomSeconds(old(customDuration)).Some? && !old(hub.isActive) ==> (
        hub.duration == CustomSeconds(old(customDuration)).value
        && hub.timeRemaining == CustomSeconds(old(customDuration)).value
        && hub.statusMessage == old(hub.statusMessage))
      ensures CustomSeconds(old(customDuration)).Some? && old(hub.isActive) ==>
        hub.statusMessage == FocusHub.DurationLockedMessage
      ensures old(hub.isActive) ==> hub.duration == old(hub.duration) && hub.timeRemaining == old(hub.timeRemaining)
      ensures hub.isActive == old(hub.isActive) && hub.isPaused == old(hub.isPaused)
      ensures hub.totalFocusTime == old(hub.totalFocusTime)
      ensures hub.completedSessions == old(hub.completedSessions) && hub.selectedTask == old(hub.selectedTask)
    {
      var seconds := CustomSeconds(customDuration);
      if seconds.Some? {
        hub.DurationChange(seconds.value);
        customDuration := "";
        showCustomInput := false;
      }
    }
  }
}
