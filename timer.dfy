/**
 * The stopwatch (src/hooks/useTimer.ts) and its keyboard shortcuts
 * (src/pages/Timer.tsx). React state cells become fields; each callback and
 * the one-second interval is a method, called one after another. The wall
 * clock arrives as `now`, the outcome of the remote insert as a parameter,
 * and the fullscreen request a transition makes is returned.
 */
module FocusTimer {
  import opened Wrappers
  import opened Types
  import DateUtils

  datatype SaveStatus = Success | Error

  /** What the remote insert did: stored the row, reported failure, or threw. */
  datatype StoreOutcome = Stored | Refused | Threw

  /** The fullscreen request a transition makes (best effort in the browser). */
  datatype Screen = EnterFullscreen | ExitFullscreen | ToggleFullscreen | NoScreenChange

  /** The record handed to the store on stop; the store assigns the id. */
  datatype NewSession = NewSession(startTime: int, endTime: int, duration: int, source: Source)

  /** Every state cell of the hook at once. */
  datatype TimerState = TimerState(
    seconds: nat,
    isRunning: bool,
    isPaused: bool,
    startTime: Option<int>,
    lastSavedMessage: Option<string>,
    saveStatus: Option<SaveStatus>,
    exitFullscreenOnPause: bool)

  /** Sessions shorter than this many seconds are discarded. */
  const MinimumSeconds := 5
  const SavedPrefix := "Sesión guardada exitosamente: "
  const SaveFailedMessage := "Error al guardar la sesión. " + "Inténtalo de nuevo."
  const TooShortMessage := "Sesión muy corta " + "(menos de 5 segundos). No se guardó."

  /** The success text: the prefix, then the detailed duration. It can never
      be mistaken for either failure text. */
  function SavedMessage(seconds: nat): (r: string)
    ensures |r| > |SavedPrefix| && r[..|SavedPrefix|] == SavedPrefix
    ensures r != SaveFailedMessage && r != TooShortMessage
  {
    var r := SavedPrefix + DateUtils.FormatDurationDetailed(seconds);
    assert r[0] == SavedPrefix[0] == 'S';
    assert r[7] == SavedPrefix[7] == 'g';
    assert SaveFailedMessage[0] == 'E' && TooShortMessage[7] == 'm';
    r
  }

  /** The success text names the saved duration: different durations give
      different texts. */
  lemma SavedMessageInjective(a: nat, b: nat)
    requires SavedMessage(a) == SavedMessage(b)
    ensures a == b
  {
    var n := |SavedPrefix|;
    assert DateUtils.FormatDurationDetailed(a) == SavedMessage(a)[n..];
    assert DateUtils.FormatDurationDetailed(b) == SavedMessage(b)[n..];
    DateUtils.FormatDurationDetailedInjective(a, b);
  }

  class Timer {
    var seconds: nat
    var isRunning: bool
    var isPaused: bool
    var startTime: Option<int>
    var lastSavedMessage: Option<string>
    var saveStatus: Option<SaveStatus>
    /** The one setting the hook reads, loaded when it mounts. */
    var exitFullscreenOnPause: bool

    function State(): TimerState
      reads this
    {
      TimerState(seconds, isRunning, isPaused, startTime, lastSavedMessage, saveStatus, exitFullscreenOnPause)
    }

    /** Paused only while running; a start time exactly while running; the
        counter is zero whenever the timer is stopped. */
    ghost predicate Valid()
      reads this
    {
      (isPaused ==> isRunning) &&
      (isRunning <==> startTime.Some?) &&
      (!isRunning ==> seconds == 0)
    }

    constructor ()
      ensures Valid()
      ensures State() == TimerState(0, false, false, None, None, None, true)
    {
      seconds := 0;
      isRunning := false;
      isPaused := false;
      startTime := None;
      lastSavedMessage := None;
      saveStatus := None;
      exitFullscreenOnPause := true;
    }

    /** The settings fetched on mount replace the initial defaults. */
    method LoadSettings(settings: Settings)
      requires Valid()
      modifies this
      ensures Valid()
      ensures State() == old(State()).(exitFullscreenOnPause := settings.exitFullscreenOnPause)
    {
      exitFullscreenOnPause := settings.exitFullscreenOnPause;
    }

    /** Starts a fresh session when stopped, resumes when paused, and does
        nothing while counting. */
    method Start(now: int) returns (screen: Screen)
      requires Valid()
      modifies this
      ensures Valid()
      ensures !old(isRunning) ==>
        State() == old(State()).(seconds := 0, isRunning := true, isPaused := false, startTime := Some(now)) &&
        screen == EnterFullscreen
      ensures old(isRunning) && old(isPaused) ==>
        State() == old(State()).(isPaused := false) && screen == NoScreenChange
      ensures old(isRunning) && !old(isPaused) ==>
        State() == old(State()) && screen == NoScreenChange
    {
      screen := NoScreenChange;
      if !isRunning {
        startTime := Some(now);
        seconds := 0;
        isRunning := true;
        isPaused := false;
        screen := EnterFullscreen;
      } else if isPaused {
        isPaused := false;
      }
    }

    /** Pauses a counting timer; leaves fullscreen if the setting asks so. */
    method Pause() returns (screen: Screen)
      requires Valid()
      modifies this
      ensures Valid()
      ensures old(isRunning) && !old(isPaused) ==>
        State() == old(State()).(isPaused := true) &&
        screen == (if exitFullscreenOnPause then ExitFullscreen else NoScreenChange)
      ensures !(old(isRunning) && !old(isPaused)) ==>
        State() == old(State()) && screen == NoScreenChange
    {
      screen := NoScreenChange;
      if isRunning && !isPaused {
        isPaused := true;
        if exitFullscreenOnPause {
          screen := ExitFullscreen;
        }
      }
    }

    /** One beat of the one-second interval, which only runs while counting. */
    method Tick()
      requires Valid()
      modifies this
      ensures Valid()
      ensures State() ==
        if old(isRunning) && !old(isPaused) then old(State()).(seconds := old(seconds) + 1)
        else old(State())
    {
      if isRunning && !isPaused {
        seconds := seconds + 1;
      }
    }

    /** Submits the session when it lasted at least MinimumSeconds, reports
        the outcome, and always returns to the stopped state. */
    method StopAndSave(now: int, outcome: StoreOutcome) returns (submitted: Option<NewSession>, screen: Screen)
      requires Valid()
      modifies this
      ensures Valid()
      ensures submitted ==
        if old(isRunning) && old(startTime).Some? && old(seconds) >= MinimumSeconds
        then Some(NewSession(old(startTime).value, now, old(seconds), Web))
        else None
      ensures (lastSavedMessage, saveStatus) ==
        if submitted.Some? then
          if outcome == Stored then (Some(SavedMessage(old(seconds))), Some(Success))
          else (Some(SaveFailedMessage), Some(Error))
        else if old(isRunning) && old(seconds) < MinimumSeconds then (Some(TooShortMessage), Some(Error))
        else (old(lastSavedMessage), old(saveStatus))
      ensures seconds == 0 && !isRunning && !isPaused && startTime == None
      ensures exitFullscreenOnPause == old(exitFullscreenOnPause)
      ensures screen == ExitFullscreen
    {
      submitted := None;
      if isRunning && startTime.Some? && seconds >= MinimumSeconds {
        submitted := Some(NewSession(startTime.value, now, seconds, Web));
        match outcome
        case Stored =>
          lastSavedMessage := Some(SavedMessage(seconds));
          saveStatus := Some(Success);
        case Refused =>
          lastSavedMessage := Some(SaveFailedMessage);
          saveStatus := Some(Error);
        case Threw =>
          lastSavedMessage := Some(SaveFailedMessage);
          saveStatus := Some(Error);
      } else if isRunning && seconds < MinimumSeconds {
        lastSavedMessage := Some(TooShortMessage);
        saveStatus := Some(Error);
      }
      isRunning := false;
      isPaused := false;
      seconds := 0;
      startTime := None;
      screen := ExitFullscreen;
    }

    /** While paused, zeroes the counter and restarts the session's clock;
        otherwise does nothing. */
    method Reset(now: int)
      requires Valid()
      modifies this
      ensures Valid()
      ensures State() ==
        if old(isPaused) then old(State()).(seconds := 0, startTime := Some(now))
        else old(State())
    {
      if isPaused {
        seconds := 0;
        startTime := Some(now);
      }
    }

    /** Space: start when stopped, resume when paused, pause when counting. */
    method OnSpace(now: int) returns (screen: Screen)
      requires Valid()
      modifies this
      ensures Valid()
      ensures !old(isRunning) ==>
        State() == old(State()).(seconds := 0, isRunning := true, isPaused := false, startTime := Some(now)) &&
        screen == EnterFullscreen
      ensures old(isRunning) && old(isPaused) ==>
        State() == old(State()).(isPaused := false) && screen == NoScreenChange
      ensures old(isRunning) && !old(isPaused) ==>
        State() == old(State()).(isPaused := true) &&
        screen == (if exitFullscreenOnPause then ExitFullscreen else NoScreenChange)
    {
      if !isRunning {
        screen := Start(now);
      } else if isPaused {
        screen := Start(now);
      } else {
        screen := Pause();
      }
    }

    /** R: reset, only while paused. */
    method OnR(now: int)
      requires Valid()
      modifies this
      ensures Valid()
      ensures State() ==
        if old(isPaused) then old(State()).(seconds := 0, startTime := Some(now))
        else old(State())
    {
      if isPaused {
        Reset(now);
      }
    }

    /** F: toggle fullscreen; no timer field changes. */
    method OnF() returns (screen: Screen)
      ensures screen == ToggleFullscreen
    {
      screen := ToggleFullscreen;
    }

    /** Escape: leave fullscreen; no timer field changes. */
    method OnEscape() returns (screen: Screen)
      ensures screen == ExitFullscreen
    {
      screen := ExitFullscreen;
    }
  }

  /** Pressing Space twice while counting pauses and resumes: the elapsed
      seconds and the start time are as before. */
  method SpaceTwice(timer: Timer, now1: int, now2: int)
    requires timer.Valid() && timer.isRunning && !timer.isPaused
    modifies timer
    ensures timer.Valid()
    ensures timer.State() == old(timer.State())
  {
    var _ := timer.OnSpace(now1);
    var _ := timer.OnSpace(now2);
  }

  /** A session stopped before five ticks is never submitted. */
  method ShortSessionIsDiscarded(timer: Timer, start: int, stop: int, outcome: StoreOutcome)
      returns (submitted: Option<NewSession>)
    requires timer.Valid() && !timer.isRunning
    modifies timer
    ensures submitted == None
    ensures timer.lastSavedMessage == Some(TooShortMessage) && timer.saveStatus == Some(Error)
  {
    var _ := timer.Start(start);
    timer.Tick();
    timer.Tick();
    timer.Tick();
    timer.Tick();
    var screen;
    submitted, screen := timer.StopAndSave(stop, outcome);
  }
}
