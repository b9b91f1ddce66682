/**
 * The willpower-challenge engine: a timed challenge is created from a
 * form, counted down one second per tick, and ended by success (by the
 * user or when the countdown runs out), by failure, or by stopping it.
 * Success raises the "aMCC level" by 5 up to 100, failure lowers it by 10
 * down to 0, and each of the two prepends a record to a history that
 * keeps the ten most recent.
 */
module WillpowerChallenges {
  import opened Wrappers
  import opened Text
  import opened Numbers
  import opened Seqs

  /** The timeframe chosen in the form: a number of minutes, or "custom" (minutes typed in a text field). */
  datatype Timeframe = Minutes(minutes: int) | Custom

  /** The running challenge. */
  datatype Challenge = Challenge(id: int, task: string, duration: Num, startTime: int, status: string)

  /** A finished challenge as the history keeps it. */
  datatype ChallengeRecord = ChallengeRecord(
    id: int, task: string, duration: Num, startTime: int,
    endTime: int, status: string, outcome: string, amccChange: int)

  datatype Outcome = Success | Failure

  const CompletedMessage: string := "\U{1F389} Challenge completed successfully! aMCC level increased by 5%"
  const FailedMessage: string := "Challenge failed. aMCC level decreased by 10%. Try again!"
  const StoppedMessage: string := "Challenge stopped"
  const NoDescriptionMessage: string := "Please enter a task description"
  const BadDurationMessage: string := "Please enter a valid duration"

  /** The status line shown when a challenge starts, quoting its description. */
  function StartedMessage(description: string): string {
    "Challenge started: \"" + description + "\""
  }

  /** `min(100, level + 5)`. */
  function SuccessLevel(level: int): int {
    if level + 5 < 100 then level + 5 else 100
  }

  /** `max(0, level - 10)`. */
  function FailureLevel(level: int): int {
    if level - 10 > 0 then level - 10 else 0
  }

  function LevelStep(level: int, o: Outcome): int {
    match o
    case Success => SuccessLevel(level)
    case Failure => FailureLevel(level)
  }

  /** The level after a series of outcomes, earliest first. */
  function LevelAfter(level: int, outcomes: seq<Outcome>): int {
    if outcomes == [] then level
    else LevelStep(LevelAfter(level, outcomes[..|outcomes| - 1]), outcomes[|outcomes| - 1])
  }

  /** A level that starts inside [0, 100] stays inside it, whatever the outcomes. */
  lemma {:induction false} LevelStaysInRange(level: int, outcomes: seq<Outcome>)
    requires 0 <= level <= 100
    ensures 0 <= LevelAfter(level, outcomes) <= 100
  {
    if outcomes != [] {
      LevelStaysInRange(level, outcomes[..|outcomes| - 1]);
    }
  }

  function Repeat(o: Outcome, k: nat): (r: seq<Outcome>)
    ensures |r| == k && forall i :: 0 <= i < k ==> r[i] == o
  {
    seq(k, _ => o)
  }

  /** `k` successes in a row from a level of at most 100 give `min(100, level + 5k)`. */
  lemma {:induction false} SuccessesInARow(level: int, k: nat)
    requires level <= 100
    ensures LevelAfter(level, Repeat(Success, k)) == if level + 5 * k < 100 then level + 5 * k else 100
  {
    if k > 0 {
      assert Repeat(Success, k)[..k - 1] == Repeat(Success, k - 1);
      SuccessesInARow(level, k - 1);
    }
  }

  /** `k` failures in a row from a level of at least 0 give `max(0, level - 10k)`. */
  lemma {:induction false} FailuresInARow(level: int, k: nat)
    requires level >= 0
    ensures LevelAfter(level, Repeat(Failure, k)) == if level - 10 * k > 0 then level - 10 * k else 0
  {
    if k > 0 {
      assert Repeat(Failure, k)[..k - 1] == Repeat(Failure, k - 1);
      FailuresInARow(level, k - 1);
    }
  }

  /** `[rec, ...history.slice(0, 9)]`: the new record in front, the nine most recent older ones behind it in their order. */
  function Prepend(rec: ChallengeRecord, history: seq<ChallengeRecord>): (r: seq<ChallengeRecord>)
    ensures |r| == if |history| < 9 then |history| + 1 else 10
    ensures r[0] == rec
    ensures forall i :: 1 <= i < |r| ==> r[i] == history[i - 1]
  {
    [rec] + Take(history, 9)
  }

  /** The history after several outcomes, the records given newest first. */
  function HistoryAfter(history: seq<ChallengeRecord>, newestFirst: seq<ChallengeRecord>): seq<ChallengeRecord> {
    if newestFirst == [] then history else Prepend(newestFirst[0], HistoryAfter(history, newestFirst[1..]))
  }

  /** After at least one outcome the history is the ten most recent records, newest first, whatever came before. */
  lemma {:induction false} HistoryIsWindow(history: seq<ChallengeRecord>, newestFirst: seq<ChallengeRecord>)
    requires newestFirst != []
    ensures HistoryAfter(history, newestFirst) == Take(newestFirst + history, 10)
  {
    var x, rest := newestFirst[0], newestFirst[1..];
    assert newestFirst + history == [x] + (rest + history);
    if rest == [] {
      TakeCons(x, history, 9);
    } else {
      HistoryIsWindow(history, rest);
      TakeTake(rest + history, 10, 9);
      TakeCons(x, rest + history, 9);
    }
  }

  /** The record of a challenge completed at `endTime`. */
  function SuccessRecord(c: Challenge, endTime: int): (r: ChallengeRecord)
    ensures r.id == c.id && r.task == c.task && r.duration == c.duration && r.startTime == c.startTime
    ensures r.endTime == endTime && r.status == "completed" && r.outcome == "success" && r.amccChange == 5
  {
    ChallengeRecord(c.id, c.task, c.duration, c.startTime, endTime, "completed", "success", 5)
  }

  /** The record of a challenge failed at `endTime`. */
  function FailureRecord(c: Challenge, endTime: int): (r: ChallengeRecord)
    ensures r.id == c.id && r.task == c.task && r.duration == c.duration && r.startTime == c.startTime
    ensures r.endTime == endTime && r.status == "failed" && r.outcome == "failure" && r.amccChange == -10
  {
    ChallengeRecord(c.id, c.task, c.duration, c.startTime, endTime, "failed", "failure", -10)
  }

  /** The duration in seconds the form asks for: sixty times the chosen minutes, or sixty times `parseInt` of the custom text. */
  function ChallengeDuration(tf: Timeframe, custom: string): Num {
    match tf
    case Minutes(m) => Int(60 * m)
    case Custom =>
      match ParseInt(custom)
      case None => NaN
      case Some(m) => Int(60 * m)
  }

  /** `duration <= 0`, which is false for NaN. */
  predicate DurationRejected(d: Num) {
    d.Int? && d.value <= 0
  }

  /** A timeframe in minutes is accepted exactly when it is positive, and then gives that many minutes in seconds. */
  lemma MinutesTimeframe(m: int)
    ensures !DurationRejected(ChallengeDuration(Minutes(m), "")) <==> m > 0
    ensures ChallengeDuration(Minutes(m), "") == Int(60 * m)
  {
  }

  /** A custom duration typed as an integer gives that many minutes in seconds, and is accepted exactly when positive. */
  lemma CustomTimeframe(m: int)
    ensures ChallengeDuration(Custom, IntToString(m)) == Int(60 * m)
    ensures !DurationRejected(ChallengeDuration(Custom, IntToString(m))) <==> m > 0
  {
    ParseIntOfIntToString(m);
  }

  /** An empty custom duration is NaN seconds, which the `<= 0` test lets through. */
  lemma EmptyCustomDurationAccepted()
    ensures ChallengeDuration(Custom, "") == NaN
    ensures !DurationRejected(ChallengeDuration(Custom, ""))
  {
    assert TrimStart("") == "";
  }

  /** The state of the willpower-challenge page. */
  class ChallengeEngine {
    var level: int
    var history: seq<ChallengeRecord>
    var current: Option<Challenge>
    var timeRemaining: Num
    var isActive: bool
    var statusMessage: string
    var lastPerformance: string
    var taskDescription: string
    var timeframe: Timeframe
    var customDuration: string

    /** A challenge is running exactly while one is current, and a running countdown has at least one second left (or is NaN and never ticks). */
    ghost predicate Valid()
      reads this
    {
      (isActive <==> current.Some?) &&
      (isActive ==> timeRemaining.NaN? || timeRemaining.value >= 1)
    }

    /** The page as it loads: the level and history read from storage, no challenge, an empty form with 30 minutes chosen. */
    constructor (savedLevel: int, savedHistory: seq<ChallengeRecord>)
      ensures Valid()
      ensures level == savedLevel && history == savedHistory
      ensures current == None && timeRemaining == Int(0) && !isActive
      ensures statusMessage == "" && lastPerformance == ""
      ensures taskDescription == "" && timeframe == Minutes(30) && customDuration == ""
    {
      level := savedLevel;
      history := savedHistory;
      current := None;
      timeRemaining := Int(0);
      isActive := false;
      statusMessage := "";
      lastPerformance := "";
      taskDescription := "";
      timeframe := Minutes(30);
      customDuration := "";
    }

    /** The form's inputs: description, timeframe and custom minutes. */
    method EditForm(description: string, tf: Timeframe, custom: string)
      requires Valid()
      modifies this
      ensures Valid()
      ensures taskDescription == description && timeframe == tf && customDuration == custom
      ensures level == old(level) && history == old(history) && current == old(current)
      ensures timeRemaining == old(timeRemaining) && isActive == old(isActive)
      ensures statusMessage == old(statusMessage) && lastPerformance == old(lastPerformance)
    {
      taskDescription, timeframe, customDuration := description, tf, custom;
    }

    /**
     * Starts a challenge from the form. A blank description, or a duration
     * that is a number `<= 0`, only sets the status message.
     */
    method CreateChallenge(id: int, now: int)
      requires Valid()
      modifies this
      ensures Valid()
      ensures level == old(level) && history == old(history) && lastPerformance == old(lastPerformance)
      ensures timeframe == old(timeframe)
      ensures AllSpace(old(taskDescription)) ==> (
        statusMessage == NoDescriptionMessage && current == old(current) && timeRemaining == old(timeRemaining)
        && isActive == old(isActive) && taskDescription == old(taskDescription) && customDuration == old(customDuration))
      ensures !AllSpace(old(taskDescription)) && DurationRejected(ChallengeDuration(old(timeframe), old(customDuration))) ==> (
        statusMessage == BadDurationMessage && current == old(current) && timeRemaining == old(timeRemaining)
        && isActive == old(isActive) && taskDescription == old(taskDescription) && customDuration == old(customDuration))
      ensures !AllSpace(old(taskDescription)) && !DurationRejected(ChallengeDuration(old(timeframe), old(customDuration))) ==> (
        var d := ChallengeDuration(old(timeframe), old(customDuration));
        current == Some(Challenge(id, old(taskDescription), d, now, "active")) && timeRemaining == d && isActive
        && taskDescription == "" && customDuration == ""
        && statusMessage == StartedMessage(old(taskDescription)))
    {
      // `!taskDescription.trim()`: the trimmed text is empty exactly when it is all white space (`TrimEmptyIffAllSpace`).
      var blank := AllSpace(taskDescription);
      var duration := ChallengeDuration(timeframe, customDuration);
      if blank {
        statusMessage := NoDescriptionMessage;
      } else if DurationRejected(duration) {
        statusMessage := BadDurationMessage;
      } else {
        var description := taskDescription;
        current := Some(Challenge(id, description, duration, now, "active"));
        timeRemaining := duration;
        isActive := true;
        statusMessage := StartedMessage(description);
        taskDescription := "";
        customDuration := "";
      }
    }

    /** Success, by the user or by the countdown: the level rises by 5 up to 100 and a success record is prepended. Nothing happens without a challenge. */
    method Complete(now: int)
      requires Valid()
      modifies this
      ensures Valid()
      ensures timeRemaining == old(timeRemaining)
      ensures taskDescription == old(taskDescription) && timeframe == old(timeframe) && customDuration == old(customDuration)
      ensures old(current).None? ==> (
        level == old(level) && history == old(history) && current == old(current)
        && isActive == old(isActive) && statusMessage == old(statusMessage) && lastPerformance == old(lastPerformance))
      ensures old(current).Some? ==> (
        !isActive && current == None
        && level == SuccessLevel(old(level))
        && history == Prepend(SuccessRecord(old(current).value, now), old(history))
        && lastPerformance == "success" && statusMessage == CompletedMessage)
    {
      if current.None? {
        return;
      }
      isActive := false;
      var rec := SuccessRecord(current.value, now);
      level := SuccessLevel(level);
      lastPerformance := "success";
      history := Prepend(rec, history);
      current := None;
      statusMessage := CompletedMessage;
    }

    /** Giving up: the level falls by 10 down to 0 and a failure record is prepended. Nothing happens without a challenge. */
    method Fail(now: int)
      requires Valid()
      modifies this
      ensures Valid()
      ensures timeRemaining == old(timeRemaining)
      ensures taskDescription == old(taskDescription) && timeframe == old(timeframe) && customDuration == old(customDuration)
      ensures old(current).None? ==> (
        level == old(level) && history == old(history) && current == old(current)
        && isActive == old(isActive) && statusMessage == old(statusMessage) && lastPerformance == old(lastPerformance))
      ensures old(current).Some? ==> (
        !isActive && current == None
        && level == FailureLevel(old(level))
        && history == Prepend(FailureRecord(old(current).value, now), old(history))
        && lastPerformance == "failure" && statusMessage == FailedMessage)
    {
      if current.None? {
        return;
      }
      isActive := false;
      var rec := FailureRecord(current.value, now);
      level := FailureLevel(level);
      lastPerformance := "failure";
      history := Prepend(rec, history);
      current := None;
      statusMessage := FailedMessage;
    }

    /** Stopping: the challenge is dropped with the countdown at 0; the level and the history stay as they are. */
    method Stop()
      requires Valid()
      modifies this
      ensures Valid()
      ensures level == old(level) && history == old(history) && lastPerformance == old(lastPerformance)
      ensures taskDescription == old(taskDescription) && timeframe == old(timeframe) && customDuration == old(customDuration)
      ensures old(current).None? ==> (
        current == old(current) && isActive == old(isActive)
        && timeRemaining == old(timeRemaining) && statusMessage == old(statusMessage))
      ensures old(current).Some? ==> (
        current == None && !isActive && timeRemaining == Int(0)
        && statusMessage == StoppedMessage)
    {
      if current.None? {
        return;
      }
      isActive := false;
      current := None;
      timeRemaining := Int(0);
      statusMessage := StoppedMessage;
    }

    /**
     * One second of the interval timer, which runs only while a challenge is
     * active with a positive number of seconds left: the countdown drops by
     * one, and the tick that finds one second or less left sets it to 0 and
     * completes the challenge.
     */
    method Tick(now: int)
      requires Valid()
      modifies this
      ensures Valid()
      ensures taskDescription == old(taskDescription) && timeframe == old(timeframe) && customDuration == old(customDuration)
      ensures !(old(isActive) && old(timeRemaining).Int? && old(timeRemaining).value > 0) ==> (
        level == old(level) && history == old(history) && current == old(current) && timeRemaining == old(timeRemaining)
        && isActive == old(isActive) && statusMessage == old(statusMessage) && lastPerformance == old(lastPerformance))
      ensures old(isActive) && old(timeRemaining).Int? && old(timeRemaining).value > 1 ==> (
        timeRemaining == Int(old(timeRemaining).value - 1)
        && level == old(level) && history == old(history) && current == old(current)
        && isActive && statusMessage == old(statusMessage) && lastPerformance == old(lastPerformance))
      ensures old(isActive) && old(timeRemaining) == Int(1) ==> (
        timeRemaining == Int(0) && !isActive && current == None
        && level == SuccessLevel(old(level))
        && history == Prepend(SuccessRecord(old(current).value, now), old(history))
        && lastPerformance == "success" && statusMessage == CompletedMessage)
    {
      if isActive && timeRemaining.Int? && timeRemaining.value > 0 {
        if timeRemaining.value <= 1 {
          Complete(now);
          timeRemaining := Int(0);
        } else {
          timeRemaining := Int(timeRemaining.value - 1);
        }
      }
    }
  }
}
