/** `makeJudgement` (src/conductor.js): a metric's threshold turns the
    difference between two records into a verdict. Metrics are "lower is
    better": a rise above the threshold is a regression, a fall by more than
    the threshold an improvement. */
module Judgement {
  import opened Wrappers

  /** `true`, `false` and `null`. */
  datatype Judgement = Improved | Regressed | Neutral

  /** A threshold is in force only when it is a number greater than 0;
      `undefined > 0` is false. */
  predicate Active(threshold: Option<real>) {
    threshold.Some? && threshold.value > 0.0
  }

  function MakeJudgement(threshold: Option<real>, diff: real): (j: Judgement)
    ensures j == Regressed <==> Active(threshold) && diff > threshold.value
    ensures j == Improved <==> Active(threshold) && diff < 0.0 && -diff > threshold.value
    ensures !Active(threshold) ==> j == Neutral
  {
    if Active(threshold) then
      if diff > threshold.value then Regressed
      else if diff < 0.0 && Abs(diff) > threshold.value then Improved
      else Neutral
    else Neutral
  }

  /** `Math.abs`. */
  function Abs(x: real): (r: real)
    ensures r >= 0.0 && (r == x || r == -x)
  {
    if x < 0.0 then -x else x
  }

  /** A difference no larger in size than an active threshold is neutral. */
  lemma SmallDifferenceIsNeutral(threshold: real, diff: real)
    requires threshold > 0.0 && -threshold <= diff <= threshold
    ensures MakeJudgement(Some(threshold), diff) == Neutral
  {
  }

  /** Mirroring a difference swaps regression and improvement. */
  lemma JudgementMirrors(threshold: Option<real>, diff: real)
    ensures MakeJudgement(threshold, diff) == Regressed <==> MakeJudgement(threshold, -diff) == Improved
    ensures MakeJudgement(threshold, diff) == Neutral <==> MakeJudgement(threshold, -diff) == Neutral
  {
  }

  /** A verdict other than neutral means the difference exceeds the threshold. */
  lemma VerdictExceedsThreshold(threshold: Option<real>, diff: real)
    requires MakeJudgement(threshold, diff) != Neutral
    ensures threshold.Some? && threshold.value > 0.0 && Abs(diff) > threshold.value
  {
  }
}
