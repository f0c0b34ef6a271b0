/** The threshold slider of the settings screen: integer progress
    0..stepsCount stands for a threshold in [-2, 2] in steps of 0.04, and the
    minus, plus and reset buttons move the progress with clamping. Float
    arithmetic is modelled over the reals. */
module Settings {

  const MIN_THRESHOLD: real := -2.0
  const MAX_THRESHOLD: real := 2.0
  const STEP: real := 0.04

  /** The threshold read from the preferences when none was stored. */
  const DEFAULT_THRESHOLD: real := 0.0

  /** `Float.roundToInt()`: the nearest integer, halves rounded up. */
  function RoundToInt(x: real): (n: int)
    ensures x - 0.5 < n as real <= x + 0.5
  {
    (x + 0.5).Floor
  }

  /** `coerceAtLeast(lo)` */
  function CoerceAtLeast(v: int, lo: int): (r: int)
    ensures r >= lo && (v >= lo ==> r == v) && (v < lo ==> r == lo)
  {
    if v < lo then lo else v
  }

  /** `coerceAtMost(hi)` */
  function CoerceAtMost(v: int, hi: int): (r: int)
    ensures r <= hi && (v <= hi ==> r == v) && (v > hi ==> r == hi)
  {
    if v > hi then hi else v
  }

  /** `coerceIn(lo, hi)`, which Kotlin refuses for an empty range. */
  function CoerceIn(v: int, lo: int, hi: int): (r: int)
    requires lo <= hi
    ensures lo <= r <= hi && (lo <= v <= hi ==> r == v)
    ensures (v < lo ==> r == lo) && (v > hi ==> r == hi)
  {
    if v < lo then lo else if v > hi then hi else v
  }

  /** `stepsCount`: the number of steps between the two ends of the range. */
  function StepsCount(): (n: int)
    ensures n == 100
  {
    RoundToInt((MAX_THRESHOLD - MIN_THRESHOLD) / STEP)
  }

  /** `progressToThreshold` */
  function ProgressToThreshold(progress: int): real
  {
    MIN_THRESHOLD + progress as real * STEP
  }

  /** `thresholdToProgress`: always a valid slider position, whatever the threshold. */
  function ThresholdToProgress(value: real): (p: int)
    ensures 0 <= p <= StepsCount()
  {
    CoerceIn(RoundToInt((value - MIN_THRESHOLD) / STEP), 0, StepsCount())
  }

  /** A threshold beyond either end of the range puts the slider at that end. */
  lemma ThresholdClamped(value: real)
    ensures value > MAX_THRESHOLD ==> ThresholdToProgress(value) == StepsCount()
    ensures value < MIN_THRESHOLD ==> ThresholdToProgress(value) == 0
  {
    var q := (value - MIN_THRESHOLD) / STEP;
    if value > MAX_THRESHOLD {
      assert q > 100.0;
      assert RoundToInt(q) >= 100;
    }
    if value < MIN_THRESHOLD {
      assert q < 0.0;
      assert RoundToInt(q) <= 0;
    }
  }

  /** The two ends of the slider are the two ends of the threshold range, and
      every slider position gives a threshold inside it. */
  lemma ProgressRange(p: int)
    requires 0 <= p <= StepsCount()
    ensures ProgressToThreshold(0) == MIN_THRESHOLD
    ensures ProgressToThreshold(StepsCount()) == MAX_THRESHOLD
    ensures MIN_THRESHOLD <= ProgressToThreshold(p) <= MAX_THRESHOLD
  {
  }

  /** Over exact arithmetic, converting a slider position to a threshold and
      back gives the same position. */
  lemma RoundTrip(p: int)
    requires 0 <= p <= StepsCount()
    ensures ThresholdToProgress(ProgressToThreshold(p)) == p
  {
    var t := ProgressToThreshold(p);
    assert (t - MIN_THRESHOLD) / STEP == p as real;
    assert RoundToInt(p as real) == p;
  }

  /** Neighbouring positions are one step apart, and a larger position is a larger threshold. */
  lemma ProgressStep(p: int, q: int)
    requires p < q
    ensures ProgressToThreshold(p + 1) - ProgressToThreshold(p) == STEP
    ensures ProgressToThreshold(p) < ProgressToThreshold(q)
  {
  }

  /** Reset puts the slider at the middle, the position of the default threshold 0.0. */
  lemma ResetPosition()
    ensures ThresholdToProgress(DEFAULT_THRESHOLD) == 50
    ensures ProgressToThreshold(50) == DEFAULT_THRESHOLD
  {
    RoundTrip(50);
  }

  /** The slider state of the settings screen. */
  class SettingsActivity {
    /** `seekBar.progress` */
    var progress: int

    ghost predicate Valid()
      reads this
    {
      0 <= progress <= StepsCount()
    }

    /** The threshold currently shown and stored. */
    function Threshold(): real
      reads this
    {
      ProgressToThreshold(progress)
    }

    /** `onCreate`: the slider starts at the position of the stored threshold. */
    constructor (savedThreshold: real)
      ensures Valid() && progress == ThresholdToProgress(savedThreshold)
    {
      progress := ThresholdToProgress(savedThreshold);
    }

    /** The minus button: one step down, never below 0. */
    method Minus()
      requires Valid()
      modifies this
      ensures Valid()
      ensures progress == CoerceAtLeast(old(progress) - 1, 0)
      ensures old(progress) > 0 ==> progress == old(progress) - 1
      ensures old(progress) == 0 ==> progress == 0
    {
      progress := CoerceAtLeast(progress - 1, 0);
    }

    /** The plus button: one step up, never above `stepsCount`. */
    method Plus()
      requires Valid()
      modifies this
      ensures Valid()
      ensures progress == CoerceAtMost(old(progress) + 1, StepsCount())
      ensures old(progress) < StepsCount() ==> progress == old(progress) + 1
      ensures old(progress) == StepsCount() ==> progress == StepsCount()
    {
      progress := CoerceAtMost(progress + 1, StepsCount());
    }

    /** The reset button. */
    method Reset()
      modifies this
      ensures Valid() && progress == 50 && Threshold() == DEFAULT_THRESHOLD
    {
      ResetPosition();
      progress := ThresholdToProgress(DEFAULT_THRESHOLD);
    }
  }
}
