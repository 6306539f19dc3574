/**
 * The stopwatch half of the component: elapsed time advanced by a 10 ms
 * interval while running, laps with their splits, and the history of saved
 * sessions.
 */
module StopwatchEngine {
  import opened LapStats
  import opened History
  import opened Feedback

  /** Period of the stopwatch interval, in milliseconds. */
  const TickMs: nat := 10

  /** The caption of the start/stop button. */
  datatype StartCaption = Start | Stop | Resume

  class Stopwatch {
    var time: nat
    var isRunning: bool
    var isPaused: bool
    var laps: seq<nat>
    var splitTimes: seq<nat>
    var workoutHistory: seq<WorkoutRecord>

    /**
     * What every handler keeps: the splits are the ones recomputable from the
     * laps, laps are in order and not after the current time, the history is
     * bounded and holds well-formed records. `isPaused` always equals
     * `isRunning`, because start/stop sets both from the same value.
     */
    ghost predicate Valid()
      reads this
    {
      && isPaused == isRunning
      && splitTimes == Splits(laps)
      && LapsUpTo(laps, time)
      && |workoutHistory| <= HistoryLimit
      && forall k :: 0 <= k < |workoutHistory| ==> WellFormed(workoutHistory[k])
    }

    constructor ()
      ensures Valid()
      ensures time == 0 && !isRunning && !isPaused
      ensures laps == [] && splitTimes == [] && workoutHistory == []
    {
      time, isRunning, isPaused := 0, false, false;
      laps, splitTimes, workoutHistory := [], [], [];
    }

    /** One firing of the 10 ms interval, which only runs while the stopwatch runs. */
    method Tick()
      requires Valid()
      modifies this
      ensures Valid()
      ensures time == old(time) + (if isRunning then TickMs else 0)
      ensures isRunning == old(isRunning) && isPaused == old(isPaused)
      ensures laps == old(laps) && splitTimes == old(splitTimes) && workoutHistory == old(workoutHistory)
    {
      if isRunning {
        time := time + TickMs;
      }
    }

    /** `n` firings of the interval: a running stopwatch gains exactly `10 * n` ms. */
    method Advance(n: nat)
      requires Valid()
      modifies this
      ensures Valid()
      ensures time == old(time) + (if isRunning then TickMs * n else 0)
      ensures isRunning == old(isRunning) && isPaused == old(isPaused)
      ensures laps == old(laps) && splitTimes == old(splitTimes) && workoutHistory == old(workoutHistory)
    {
      var i := 0;
      while i < n
        invariant 0 <= i <= n
        invariant Valid()
        invariant time == old(time) + (if isRunning then TickMs * i else 0)
        invariant isRunning == old(isRunning) && isPaused == old(isPaused)
        invariant laps == old(laps) && splitTimes == old(splitTimes) && workoutHistory == old(workoutHistory)
      {
        Tick();
        i := i + 1;
      }
    }

    /** START/STOP: toggles running; the paused flag is set to the new running state. */
    method StartStop() returns (events: seq<Event>)
      requires Valid()
      modifies this
      ensures Valid()
      ensures isRunning == !old(isRunning) && isPaused == isRunning
      ensures time == old(time) && laps == old(laps) && splitTimes == old(splitTimes)
      ensures workoutHistory == old(workoutHistory)
      ensures events == [Click]
    {
      var wasRunning := isRunning;
      isRunning := !wasRunning;
      isPaused := !wasRunning;
      events := [Click];
    }

    /**
     * LAP: while running, records the current time as a lap and the time since
     * the previous lap as its split; otherwise nothing happens.
     */
    method Lap() returns (events: seq<Event>)
      requires Valid()
      modifies this
      ensures Valid()
      ensures time == old(time) && isRunning == old(isRunning) && isPaused == old(isPaused)
      ensures workoutHistory == old(workoutHistory)
      ensures old(isRunning) ==>
        && laps == old(laps) + [time]
        && splitTimes == old(splitTimes) + [NextSplit(old(laps), time)]
        && events == [Click, Vibrate(LapVibration)]
      ensures !old(isRunning) ==> laps == old(laps) && splitTimes == old(splitTimes) && events == []
    {
      if isRunning {
        var newLap := time;
        var splitTime := if |laps| > 0 then time - laps[|laps| - 1] else time;
        SplitsAppend(laps, newLap);
        laps := laps + [newLap];
        splitTimes := splitTimes + [splitTime];
        events := [Click, Vibrate(LapVibration)];
      } else {
        events := [];
      }
    }

    /**
     * RESET: a session with laps is saved to the front of the history (at most
     * ten kept), then the stopwatch is stopped and cleared. `date` is the
     * current timestamp.
     */
    method Reset(date: string)
      requires Valid()
      modifies this
      ensures Valid()
      ensures |old(laps)| > 0 ==>
        workoutHistory == Archive(WorkoutRecord(date, old(time), old(laps)), old(workoutHistory))
      ensures |old(laps)| == 0 ==> workoutHistory == old(workoutHistory)
      ensures time == 0 && laps == [] && splitTimes == [] && !isRunning && !isPaused
    {
      if |laps| > 0 {
        var workout := WorkoutRecord(date, time, laps);
        workoutHistory := Archive(workout, workoutHistory);
      }
      isRunning, isPaused := false, false;
      time := 0;
      laps, splitTimes := [], [];
    }

    /**
     * Load: shows the `k`-th saved session, with its splits recomputed from its
     * laps. Whether the stopwatch runs is left as it was.
     */
    method LoadWorkout(k: nat)
      requires Valid()
      requires k < |workoutHistory|
      modifies this
      ensures Valid()
      ensures time == old(workoutHistory[k]).totalTime && laps == old(workoutHistory[k]).laps
      ensures splitTimes == Splits(laps)
      ensures isRunning == old(isRunning) && isPaused == old(isPaused)
      ensures workoutHistory == old(workoutHistory)
    {
      var workout := workoutHistory[k];
      time := workout.totalTime;
      laps := workout.laps;
      AscendingIffSplitsNonNegative(workout.laps);
      splitTimes := Splits(workout.laps);
    }

    /** Clear All: empties the history when the user confirms the prompt. */
    method ClearHistory(confirmed: bool)
      requires Valid()
      modifies this
      ensures Valid()
      ensures workoutHistory == if confirmed then [] else old(workoutHistory)
      ensures time == old(time) && isRunning == old(isRunning) && isPaused == old(isPaused)
      ensures laps == old(laps) && splitTimes == old(splitTimes)
    {
      if confirmed {
        workoutHistory := [];
      }
    }

    /** The splits shown add up to the last lap, so no time is lost or counted twice between laps. */
    lemma SplitsAddUpToLastLap()
      requires Valid()
      ensures Sum(splitTimes) == if laps == [] then 0 else laps[|laps| - 1]
      ensures forall i :: 0 <= i < |splitTimes| ==> splitTimes[i] <= time
    {
      SumOfSplits(laps);
      forall i | 0 <= i < |splitTimes|
        ensures splitTimes[i] <= time
      {
        assert splitTimes[i] <= laps[i];
      }
    }

    /** The start/stop caption: STOP while running, RESUME when paused, START otherwise. */
    function Caption(): (caption: StartCaption)
      reads this
      ensures caption == Stop <==> isRunning
    {
      if isRunning then Stop else if isPaused then Resume else Start
    }

    /** "RESUME" is never shown: the paused flag is only ever set together with running. */
    lemma ResumeNeverShown()
      requires Valid()
      ensures Caption() != Resume
      ensures !isRunning ==> Caption() == Start
    {
    }
  }
}
