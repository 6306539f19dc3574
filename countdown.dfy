/**
 * The countdown half of the component: a set length configured from minutes
 * and seconds, a 10 ms interval counting down while running, and sets that
 * restart on their own 2 s after each completion until the target is reached.
 */
module CountdownEngine {
  import opened Options
  import opened Feedback
  import opened TimerInputs

  /** Period of the countdown interval, in milliseconds. */
  const TickMs: nat := 10

  class Countdown {
    var timerMinutes: nat
    var timerSeconds: nat
    var timerTime: nat
    var timerTotal: nat
    var isTimerRunning: bool
    var completedSets: nat
    var targetSets: nat
    /**
     * The automatic restarts armed at set completions and not fired yet,
     * oldest first. Each holds the set length it captured when armed; nothing
     * ever cancels one.
     */
    var pendingRestarts: seq<nat>

    /** The fields stay in range and the remaining time never exceeds the set length. */
    ghost predicate Valid()
      reads this
    {
      && timerSeconds <= MaxSeconds
      && MinSets <= targetSets <= MaxSets
      && timerTime <= timerTotal
    }

    /** The initial screen: a 5:00 set, one set, stopped. */
    constructor ()
      ensures Valid()
      ensures timerMinutes == 5 && timerSeconds == 0
      ensures timerTime == 300000 && timerTotal == 300000
      ensures !isTimerRunning && completedSets == 0 && targetSets == 1 && pendingRestarts == []
    {
      timerMinutes, timerSeconds := 5, 0;
      timerTime, timerTotal := 300000, 300000;
      isTimerRunning := false;
      completedSets, targetSets := 0, 1;
      pendingRestarts := [];
    }

    /** The presets, length inputs and sets stepper are shown only in this idle state. */
    predicate ConfigVisible()
      reads this
    {
      !isTimerRunning && timerTime == timerTotal
    }

    /** START/PAUSE is disabled only for a zero set length. */
    predicate StartEnabled()
      reads this
    {
      timerTotal != 0
    }

    /** START/PAUSE: toggles running. */
    method StartStop() returns (events: seq<Event>)
      requires Valid()
      requires StartEnabled()
      modifies this
      ensures Valid()
      ensures isTimerRunning == !old(isTimerRunning)
      ensures timerTime == old(timerTime) && timerTotal == old(timerTotal)
      ensures completedSets == old(completedSets) && targetSets == old(targetSets)
      ensures timerMinutes == old(timerMinutes) && timerSeconds == old(timerSeconds)
      ensures pendingRestarts == old(pendingRestarts)
      ensures events == [Click]
    {
      isTimerRunning := !isTimerRunning;
      events := [Click];
    }

    /**
     * One firing of the 10 ms interval, which only runs while the timer runs.
     * Above 10 ms left it counts down by 10; otherwise the set completes: the
     * time is clamped to 0, the timer stops, the alarm and vibration are
     * requested, the set is counted, and a restart is armed if sets remain.
     */
    method Tick() returns (events: seq<Event>)
      requires Valid()
      modifies this
      ensures Valid()
      ensures timerTotal == old(timerTotal) && targetSets == old(targetSets)
      ensures timerMinutes == old(timerMinutes) && timerSeconds == old(timerSeconds)
      ensures !old(isTimerRunning) ==>
        && timerTime == old(timerTime) && !isTimerRunning
        && completedSets == old(completedSets) && pendingRestarts == old(pendingRestarts)
        && events == []
      ensures old(isTimerRunning) && old(timerTime) > TickMs ==>
        && timerTime == old(timerTime) - TickMs && isTimerRunning
        && completedSets == old(completedSets) && pendingRestarts == old(pendingRestarts)
        && events == []
      ensures old(isTimerRunning) && old(timerTime) <= TickMs ==>
        && timerTime == 0 && !isTimerRunning
        && completedSets == old(completedSets) + 1
        && pendingRestarts == old(pendingRestarts) + (if completedSets < targetSets then [timerTotal] else [])
        && events == [Alarm, Vibrate(AlarmVibration)]
    {
      events := [];
      if isTimerRunning {
        var prevTime := timerTime;
        if prevTime <= TickMs {
          isTimerRunning := false;
          events := [Alarm, Vibrate(AlarmVibration)];
          var newCompletedSets := completedSets + 1;
          completedSets := newCompletedSets;
          if newCompletedSets < targetSets {
            pendingRestarts := pendingRestarts + [timerTotal];
          }
          timerTime := 0;
        } else {
          timerTime := prevTime - TickMs;
        }
      }
    }

    /**
     * The oldest armed restart fires, 2 s after its set completed: the next set
     * starts from the full set length. This reads the set length current when
     * it fires; see `RestRestartAsWritten` for the length captured at arming.
     */
    method RestRestart()
      requires Valid()
      requires pendingRestarts != []
      modifies this
      ensures Valid()
      ensures timerTime == timerTotal && isTimerRunning
      ensures pendingRestarts == old(pendingRestarts)[1..]
      ensures timerTotal == old(timerTotal) && completedSets == old(completedSets) && targetSets == old(targetSets)
      ensures timerMinutes == old(timerMinutes) && timerSeconds == old(timerSeconds)
    {
      pendingRestarts := pendingRestarts[1..];
      timerTime := timerTotal;
      isTimerRunning := true;
    }

    /**
     * The restart as the interval callback arms it: the closure sets the
     * remaining time to the set length captured when the set completed, even
     * if the timer was reconfigured since. This can break `Valid()`.
     */
    method RestRestartAsWritten()
      requires pendingRestarts != []
      modifies this
      ensures timerTime == old(pendingRestarts)[0] && isTimerRunning
      ensures pendingRestarts == old(pendingRestarts)[1..]
      ensures timerTotal == old(timerTotal) && completedSets == old(completedSets) && targetSets == old(targetSets)
      ensures timerMinutes == old(timerMinutes) && timerSeconds == old(timerSeconds)
    {
      timerTime := pendingRestarts[0];
      pendingRestarts := pendingRestarts[1..];
      isTimerRunning := true;
    }

    /** RESET: stops, recomputes the set length from the inputs, refills it and clears the sets. */
    method Reset()
      requires Valid()
      modifies this
      ensures Valid() && ConfigVisible()
      ensures timerTotal == SetLength(timerMinutes, timerSeconds) && timerTime == timerTotal
      ensures !isTimerRunning && completedSets == 0
      ensures timerMinutes == old(timerMinutes) && timerSeconds == old(timerSeconds)
      ensures targetSets == old(targetSets) && pendingRestarts == old(pendingRestarts)
    {
      isTimerRunning := false;
      var totalMs := SetLength(timerMinutes, timerSeconds);
      timerTime := totalMs;
      timerTotal := totalMs;
      completedSets := 0;
    }

    /** SET: the same effect as RESET, applying the typed minutes and seconds. */
    method SetTimer()
      requires Valid()
      modifies this
      ensures Valid() && ConfigVisible()
      ensures timerTotal == SetLength(timerMinutes, timerSeconds) && timerTime == timerTotal
      ensures !isTimerRunning && completedSets == 0
      ensures timerMinutes == old(timerMinutes) && timerSeconds == old(timerSeconds)
      ensures targetSets == old(targetSets) && pendingRestarts == old(pendingRestarts)
    {
      var totalMs := SetLength(timerMinutes, timerSeconds);
      timerTime := totalMs;
      timerTotal := totalMs;
      isTimerRunning := false;
      completedSets := 0;
    }

    /** A preset button: sets the inputs and the set length to `seconds`, stopped and with no sets done. */
    method PresetClick(seconds: nat) returns (events: seq<Event>)
      requires Valid()
      modifies this
      ensures Valid() && ConfigVisible()
      ensures timerMinutes == seconds / 60 && timerSeconds == seconds % 60
      ensures timerTotal == seconds * 1000 && timerTime == timerTotal
      ensures SetLength(timerMinutes, timerSeconds) == timerTotal
      ensures !isTimerRunning && completedSets == 0
      ensures targetSets == old(targetSets) && pendingRestarts == old(pendingRestarts)
      ensures events == [Click]
    {
      var totalMs := seconds * 1000;
      timerMinutes := seconds / 60;
      timerSeconds := seconds % 60;
      PresetFields(seconds);
      timerTime := totalMs;
      timerTotal := totalMs;
      isTimerRunning := false;
      completedSets := 0;
      events := [Click];
    }

    /** Typing in the minutes field; the set length changes only on SET or RESET. */
    method EnterMinutes(entry: Option<int>)
      requires Valid()
      modifies this
      ensures Valid()
      ensures timerMinutes == ClampMinutes(entry)
      ensures timerSeconds == old(timerSeconds) && timerTime == old(timerTime) && timerTotal == old(timerTotal)
      ensures isTimerRunning == old(isTimerRunning) && completedSets == old(completedSets)
      ensures targetSets == old(targetSets) && pendingRestarts == old(pendingRestarts)
    {
      timerMinutes := ClampMinutes(entry);
    }

    /** Typing in the seconds field. */
    method EnterSeconds(entry: Option<int>)
      requires Valid()
      modifies this
      ensures Valid()
      ensures timerSeconds == ClampSeconds(entry)
      ensures timerMinutes == old(timerMinutes) && timerTime == old(timerTime) && timerTotal == old(timerTotal)
      ensures isTimerRunning == old(isTimerRunning) && completedSets == old(completedSets)
      ensures targetSets == old(targetSets) && pendingRestarts == old(pendingRestarts)
    {
      timerSeconds := ClampSeconds(entry);
    }

    /** The sets "-" button. */
    method FewerSetsClick()
      requires Valid()
      modifies this
      ensures Valid()
      ensures targetSets == FewerSets(old(targetSets))
      ensures timerMinutes == old(timerMinutes) && timerSeconds == old(timerSeconds)
      ensures timerTime == old(timerTime) && timerTotal == old(timerTotal)
      ensures isTimerRunning == old(isTimerRunning) && completedSets == old(completedSets)
      ensures pendingRestarts == old(pendingRestarts)
    {
      targetSets := FewerSets(targetSets);
    }

    /** The sets "+" button. */
    method MoreSetsClick()
      requires Valid()
      modifies this
      ensures Valid()
      ensures targetSets == MoreSets(old(targetSets))
      ensures timerMinutes == old(timerMinutes) && timerSeconds == old(timerSeconds)
      ensures timerTime == old(timerTime) && timerTotal == old(timerTotal)
      ensures isTimerRunning == old(isTimerRunning) && completedSets == old(completedSets)
      ensures pendingRestarts == old(pendingRestarts)
    {
      targetSets := MoreSets(targetSets);
    }
  }
}
