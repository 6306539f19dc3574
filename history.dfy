/**
 * The workout history: a record per stopwatch session that had laps, saved when
 * the stopwatch is reset, newest first, at most ten kept.
 */
module History {
  import opened LapStats

  /** A saved session. `date` is the ISO timestamp, taken as given. */
  datatype WorkoutRecord = WorkoutRecord(date: string, totalTime: nat, laps: seq<nat>)

  const HistoryLimit: nat := 10

  /** A record a stopwatch can produce: laps in order, none after the total time. */
  predicate WellFormed(w: WorkoutRecord) {
    LapsUpTo(w.laps, w.totalTime)
  }

  /** `[w, ...history].slice(0, 10)`: the new record in front, the oldest dropped beyond ten. */
  function Archive(w: WorkoutRecord, history: seq<WorkoutRecord>): (r: seq<WorkoutRecord>)
    ensures |r| == if |history| < HistoryLimit then |history| + 1 else HistoryLimit
    ensures r[0] == w
    ensures forall k :: 1 <= k < |r| ==> r[k] == history[k - 1]
  {
    var all := [w] + history;
    if |all| <= HistoryLimit then all else all[..HistoryLimit]
  }

  /** The history after saving `records` one after another, starting from none. */
  function Saved(records: seq<WorkoutRecord>): seq<WorkoutRecord> {
    if records == [] then []
    else Archive(records[|records| - 1], Saved(records[..|records| - 1]))
  }

  /** The ten most recent of `records`, most recent first. */
  function NewestFirst(records: seq<WorkoutRecord>): (r: seq<WorkoutRecord>)
    ensures |r| == if |records| < HistoryLimit then |records| else HistoryLimit
  {
    var n := if |records| < HistoryLimit then |records| else HistoryLimit;
    seq(n, k requires 0 <= k < n => records[|records| - 1 - k])
  }

  /** However many sessions are saved, the history holds the ten most recent, newest first. */
  lemma {:induction false} SavedIsNewestFirst(records: seq<WorkoutRecord>)
    ensures Saved(records) == NewestFirst(records)
  {
    if records != [] {
      var front := records[..|records| - 1];
      SavedIsNewestFirst(front);
      var r, expected := Saved(records), NewestFirst(records);
      assert |r| == |expected|;
      forall k | 0 <= k < |r|
        ensures r[k] == expected[k]
      {
        if k > 0 {
          assert r[k] == NewestFirst(front)[k - 1];
        }
      }
    }
  }
}
