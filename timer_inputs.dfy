/**
 * The countdown's configuration inputs and the rules the timer screen applies
 * to them: clamping of typed minutes and seconds, the sets stepper, the preset
 * buttons, the set length they give, and the colour of the progress ring.
 */
module TimerInputs {
  import opened Options

  const MaxSeconds: nat := 59
  const MinSets: nat := 1
  const MaxSets: nat := 99

  /** A preset button: its caption and the set length it selects, in seconds. */
  datatype Preset = Preset(caption: string, seconds: nat)

  const Presets: seq<Preset> := [
    Preset("30s", 30), Preset("1m", 60), Preset("3m", 180),
    Preset("5m", 300), Preset("10m", 600), Preset("15m", 900)
  ]

  /**
   * The minutes field: `Math.max(0, parseInt(text) || 0)`. `entry` is what
   * `parseInt` gave, `None` for NaN. Only negatives are clamped; the field's
   * `max="99"` is not enforced on typed values.
   */
  function ClampMinutes(entry: Option<int>): (minutes: nat)
    ensures entry.Some? && entry.value >= 0 ==> minutes == entry.value
    ensures entry.None? || entry.value < 0 ==> minutes == 0
  {
    var v := entry.GetOr(0);
    if v < 0 then 0 else v
  }

  /** The seconds field: `Math.max(0, Math.min(59, parseInt(text) || 0))`. */
  function ClampSeconds(entry: Option<int>): (seconds: nat)
    ensures seconds <= MaxSeconds
    ensures entry.Some? && 0 <= entry.value <= MaxSeconds ==> seconds == entry.value
    ensures entry.Some? && entry.value > MaxSeconds ==> seconds == MaxSeconds
    ensures entry.None? || entry.value < 0 ==> seconds == 0
  {
    var v := entry.GetOr(0);
    var capped := if v < MaxSeconds then v else MaxSeconds;
    if capped < 0 then 0 else capped
  }

  /** Clamping an already clamped value changes nothing. */
  lemma ClampsIdempotent(entry: Option<int>)
    ensures ClampMinutes(Some(ClampMinutes(entry))) == ClampMinutes(entry)
    ensures ClampSeconds(Some(ClampSeconds(entry))) == ClampSeconds(entry)
  {
  }

  /** The sets "-" button: `Math.max(1, targetSets - 1)`. */
  function FewerSets(target: int): (t: int)
    ensures t >= MinSets
    ensures target > MinSets ==> t == target - 1
    ensures target <= MinSets ==> t == MinSets
  {
    if target - 1 < MinSets then MinSets else target - 1
  }

  /** The sets "+" button: `Math.min(99, targetSets + 1)`. */
  function MoreSets(target: int): (t: int)
    ensures t <= MaxSets
    ensures target < MaxSets ==> t == target + 1
    ensures target >= MaxSets ==> t == MaxSets
  {
    if target + 1 > MaxSets then MaxSets else target + 1
  }

  /** The two buttons undo each other away from the ends of [1, 99], and never leave it. */
  lemma SetsStepperRoundTrip(target: int)
    requires MinSets <= target <= MaxSets
    ensures MinSets <= FewerSets(target) <= MaxSets && MinSets <= MoreSets(target) <= MaxSets
    ensures target < MaxSets ==> FewerSets(MoreSets(target)) == target
    ensures target > MinSets ==> MoreSets(FewerSets(target)) == target
  {
  }

  /** The length of one set in milliseconds: `(timerMinutes * 60 + timerSeconds) * 1000`. */
  function SetLength(minutes: nat, seconds: nat): nat {
    (minutes * 60 + seconds) * 1000
  }

  /** A preset's minutes and seconds fields describe exactly its length. */
  lemma PresetFields(seconds: nat)
    ensures seconds % 60 <= MaxSeconds
    ensures SetLength(seconds / 60, seconds % 60) == seconds * 1000
  {
  }

  /** Every preset button gives a non-zero set length whose seconds field is in range. */
  lemma PresetsStartable()
    ensures forall i :: 0 <= i < |Presets| ==>
      && Presets[i].seconds % 60 <= MaxSeconds
      && SetLength(Presets[i].seconds / 60, Presets[i].seconds % 60) == Presets[i].seconds * 1000 > 0
  {
    forall i | 0 <= i < |Presets|
      ensures SetLength(Presets[i].seconds / 60, Presets[i].seconds % 60) == Presets[i].seconds * 1000 > 0
    {
      PresetFields(Presets[i].seconds);
    }
  }

  /** The ring colour: red at zero, orange below 20 % left, blue otherwise. */
  datatype RingColour = Red | Orange | Blue

  /**
   * `getCircleProgress() < 20`, where the progress is `remaining / total * 100`
   * and 0 when the total is 0, compared exactly by cross-multiplication.
   */
  predicate BelowFifth(remaining: nat, total: nat) {
    total == 0 || remaining * 5 < total
  }

  /** `getCircleProgress()`: the remaining share of the set in percent, 0 for an empty set. */
  function CircleProgress(remaining: nat, total: nat): real {
    if total == 0 then 0.0 else (remaining as real / total as real) * 100.0
  }

  /** The exact threshold is the progress test: below a fifth iff the progress is below 20. */
  lemma BelowFifthIsProgressBelow20(remaining: nat, total: nat)
    ensures BelowFifth(remaining, total) <==> CircleProgress(remaining, total) < 20.0
  {
    if total > 0 {
      PercentBelow20(remaining as real, total as real);
      FifthAsReal(remaining, total);
    }
  }

  /** The integer test carries over to reals. */
  lemma FifthAsReal(remaining: nat, total: nat)
    ensures remaining * 5 < total <==> remaining as real * 5.0 < total as real
  {
    assert (remaining * 5) as real == remaining as real * 5.0;
  }

  /** For a positive `t`, `r / t` is below 20 % iff `r * 5 < t`. */
  lemma PercentBelow20(r: real, t: real)
    requires t > 0.0
    ensures (r / t) * 100.0 < 20.0 <==> r * 5.0 < t
  {
    var q := r / t;
    assert q * t == r;
    assert (q * t) * 5.0 == (q * 5.0) * t;
    if q * 5.0 < 1.0 {
      assert (q * 5.0) * t < 1.0 * t;
    } else {
      assert (q * 5.0) * t >= 1.0 * t;
    }
  }

  function RingColourOf(remaining: nat, total: nat): RingColour {
    if remaining == 0 then Red else if BelowFifth(remaining, total) then Orange else Blue
  }

  function Urgency(c: RingColour): nat {
    match c
    case Blue => 0
    case Orange => 1
    case Red => 2
  }

  /** As the remaining time falls, the ring only turns more urgent: blue, then orange, then red. */
  lemma RingOnlyEscalates(earlier: nat, later: nat, total: nat)
    requires later <= earlier
    ensures Urgency(RingColourOf(later, total)) >= Urgency(RingColourOf(earlier, total))
  {
  }
}
