/**
 * Sessions driven through the two engines the way the screen drives them, with
 * what each must end in: a two-lap stopwatch session, saving and reloading it,
 * a two-set countdown, a set counted beyond the target, and a restart after
 * the timer was reconfigured during the rest.
 */
module Scenarios {
  import opened Options
  import opened LapStats
  import opened History
  import opened StopwatchEngine
  import opened CountdownEngine

  /**
   * Start, run 1230 ms, lap, run 500 ms, lap, reset, reset again: the laps,
   * the splits, and one saved record.
   */
  method TwoLapSession() returns (laps: seq<nat>, splits: seq<nat>, saved: seq<WorkoutRecord>)
    ensures laps == [1230, 1730] && splits == [1230, 500]
    ensures saved == [WorkoutRecord("2024-01-01T00:00:00.000Z", 1730, [1230, 1730])]
  {
    var sw := new Stopwatch();
    var events := sw.StartStop();
    sw.Advance(123);
    events := sw.Lap();
    sw.Advance(50);
    events := sw.Lap();
    laps, splits := sw.laps, sw.splitTimes;
    sw.Reset("2024-01-01T00:00:00.000Z");
    sw.Reset("2024-01-01T00:01:00.000Z");
    saved := sw.workoutHistory;
  }

  /** The statistics of those splits: best 500, worst 1230, average exactly 1730 / 2 = 865 ms. */
  lemma TwoLapStatistics()
    ensures BestLap([1230, 500]) == Some(500) && WorstLap([1230, 500]) == Some(1230)
    ensures AverageLap([1230, 500]) == Some(Ratio(1730, 2))
  {
    var splits := [1230, 500];
    assert splits[..1] == [1230];
    assert Sum(splits) == 1730;
  }

  /** Resetting a session with laps and loading the saved record gives back its time, laps and splits. */
  method SaveAndReload(sw: Stopwatch, date: string)
    requires sw.Valid() && sw.laps != []
    modifies sw
    ensures sw.Valid()
    ensures sw.time == old(sw.time) && sw.laps == old(sw.laps) && sw.splitTimes == old(sw.splitTimes)
    ensures !sw.isRunning
    ensures |sw.workoutHistory| > 0 && sw.workoutHistory[0] == WorkoutRecord(date, old(sw.time), old(sw.laps))
  {
    sw.Reset(date);
    sw.LoadWorkout(0);
  }

  /** Lets the countdown interval fire until the running set completes. */
  method RunSet(t: Countdown)
    requires t.Valid() && t.isTimerRunning
    modifies t
    ensures t.Valid() && !t.isTimerRunning && t.timerTime == 0
    ensures t.completedSets == old(t.completedSets) + 1
    ensures t.pendingRestarts == old(t.pendingRestarts) + (if t.completedSets < t.targetSets then [t.timerTotal] else [])
    ensures t.timerTotal == old(t.timerTotal) && t.targetSets == old(t.targetSets)
    ensures t.timerMinutes == old(t.timerMinutes) && t.timerSeconds == old(t.timerSeconds)
  {
    while t.isTimerRunning
      invariant t.Valid()
      invariant t.timerTotal == old(t.timerTotal) && t.targetSets == old(t.targetSets)
      invariant t.timerMinutes == old(t.timerMinutes) && t.timerSeconds == old(t.timerSeconds)
      invariant t.isTimerRunning ==>
        t.completedSets == old(t.completedSets) && t.pendingRestarts == old(t.pendingRestarts)
      invariant !t.isTimerRunning ==>
        && t.timerTime == 0
        && t.completedSets == old(t.completedSets) + 1
        && t.pendingRestarts == old(t.pendingRestarts) + (if t.completedSets < t.targetSets then [t.timerTotal] else [])
      decreases t.timerTime + (if t.isTimerRunning then 1 else 0)
    {
      var events := t.Tick();
    }
  }

  /** A 30 s preset with two sets: one alarm per set, one automatic restart, then complete. */
  method ThirtySecondsTwice() returns (completed: nat, remaining: nat, running: bool, pending: nat)
    ensures completed == 2 && remaining == 0 && !running && pending == 0
  {
    var t := new Countdown();
    var events := t.PresetClick(30);
    t.MoreSetsClick();
    events := t.StartStop();
    RunSet(t);
    assert t.completedSets == 1 && t.pendingRestarts == [30000];
    t.RestRestart();
    assert t.timerTime == 30000 && t.isTimerRunning;
    RunSet(t);
    completed, remaining, running, pending := t.completedSets, t.timerTime, t.isTimerRunning, |t.pendingRestarts|;
  }

  /**
   * After the only set has run out, START is still enabled (the set length is
   * not 0), and the next tick, starting from 0 ms, completes another set.
   */
  method SetBeyondTarget() returns (completed: nat, target: nat)
    ensures completed == 2 && target == 1
    ensures completed > target
  {
    var t := new Countdown();
    var events := t.PresetClick(30);
    events := t.StartStop();
    RunSet(t);
    assert t.completedSets == t.targetSets && t.pendingRestarts == [];
    assert t.StartEnabled();
    events := t.StartStop();
    events := t.Tick();
    completed, target := t.completedSets, t.targetSets;
  }

  /**
   * A 1:00 set of two completes; during the rest the timer is reset and the
   * 30 s preset chosen. The restart armed at completion is still pending.
   */
  method ReconfiguredDuringRest() returns (t: Countdown)
    ensures fresh(t) && t.Valid()
    ensures t.pendingRestarts == [60000] && t.timerTotal == 30000 && t.timerTime == 30000
  {
    t := new Countdown();
    var events := t.PresetClick(60);
    t.MoreSetsClick();
    events := t.StartStop();
    RunSet(t);
    assert t.pendingRestarts == [60000];
    t.Reset();
    assert t.ConfigVisible();
    events := t.PresetClick(30);
  }

  /**
   * The restart as written refills the stale 60 s length, more than the 30 s
   * set now configured; the corrected restart refills the current length.
   */
  method RestartAfterReconfiguring() returns (asWritten: nat, corrected: nat, total: nat)
    ensures asWritten == 60000 && corrected == 30000 && total == 30000
    ensures asWritten > total
  {
    var stale := ReconfiguredDuringRest();
    stale.RestRestartAsWritten();
    asWritten := stale.timerTime;
    var fixed := ReconfiguredDuringRest();
    fixed.RestRestart();
    corrected, total := fixed.timerTime, fixed.timerTotal;
  }
}
