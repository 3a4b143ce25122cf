/** The derived scores of a benchmark entry, with every intermediate rounding. */
module TrackScores {
  import opened RealArithmetic
  import opened Results
  import opened Rounding

  type Score = Option<real>

  // ---- Building blocks ---------------------------------------------------------------------

  function Clamp(value: real, lower: real, upper: real): real {
    MaxReal(lower, MinReal(upper, value))
  }

  function InvertScore(value: Option<real>, floor: real, ceiling: real): Score {
    if value.None? then None
    else if ceiling <= floor then Some(100.0)
    else Some(RoundTo(Clamp(Headroom(value.value, floor, ceiling), 0.0, 100.0), 10))
  }

  /** How far a value is from the ceiling, as a percentage of the whole range. */
  function Headroom(value: real, floor: real, ceiling: real): real
    requires ceiling > floor
  {
    (1.0 - Quotient(value - floor, ceiling - floor)) * 100.0
  }

  /** A score and the weight it has when present. */
  datatype Weighted = Weighted(score: Score, weight: real)

  function WeightedTotal(parts: seq<Weighted>): real {
    if |parts| == 0 then 0.0
    else (if parts[0].score.Some? then Product(parts[0].score.value, parts[0].weight) else 0.0) + WeightedTotal(parts[1..])
  }

  function AppliedWeight(parts: seq<Weighted>): real {
    if |parts| == 0 then 0.0
    else (if parts[0].score.Some? then parts[0].weight else 0.0) + AppliedWeight(parts[1..])
  }

  /** The weighted mean of the scores present, rounded to one place. */
  function WeightedScore(parts: seq<Weighted>): Score {
    if AppliedWeight(parts) == 0.0 then None
    else Some(RoundTo(Quotient(WeightedTotal(parts), AppliedWeight(parts)), 10))
  }

  /** `average_scores`: all present scores count alike. */
  function AverageScores(scores: seq<Score>): Score {
    WeightedScore(seq(|scores|, i requires 0 <= i < |scores| => Weighted(scores[i], 1.0)))
  }

  // ---- The metrics of an entry -------------------------------------------------------------

  datatype Status = Validated | Legacy | Blocked | OtherStatus

  datatype Entry = Entry(
    restMeanMs: Option<real>,
    restP95Ms: Option<real>,
    rtfMean: Option<real>,
    firstPartialMeanMs: Option<real>,
    partialGapMeanMs: Option<real>,
    latePartialRatio: Option<real>,
    partialMeanMs: Option<real>,
    partialP95Ms: Option<real>,
    finalMeanMs: Option<real>,
    finalP95Ms: Option<real>,
    targetSampleCount: int,
    sampleCount: int,
    status: Status)

  /** Present only if both values are present and not zero. */
  function JitterRatio(mean: Option<real>, p95: Option<real>): Option<real> {
    if mean.Some? && p95.Some? && mean.value != 0.0 && p95.value != 0.0
    then Some(RoundTo(Quotient(p95.value, mean.value), 1000)) else None
  }

  function SampleCoveragePct(e: Entry): Score {
    if e.targetSampleCount == 0 then None
    else Some(RoundTo(Clamp(Quotient(e.sampleCount as real, e.targetSampleCount as real) * 100.0, 0.0, 100.0), 10))
  }

  function LatencyScore(e: Entry): Score {
    AverageScores([InvertScore(e.restMeanMs, 250.0, 6000.0), InvertScore(e.restP95Ms, 350.0, 7000.0)])
  }

  function LiveCaptionScore(e: Entry): Score {
    AverageScores([
      InvertScore(e.firstPartialMeanMs, 250.0, 5000.0),
      InvertScore(e.partialGapMeanMs, 80.0, 1500.0),
      InvertScore(e.latePartialRatio, 0.0, 0.5)])
  }

  function PartialBacklogScore(e: Entry): Score {
    AverageScores([
      InvertScore(e.partialMeanMs, 100.0, 4000.0),
      InvertScore(e.partialP95Ms, 150.0, 6500.0),
      InvertScore(e.latePartialRatio, 0.0, 0.5)])
  }

  function FinalizationScore(e: Entry): Score {
    AverageScores([InvertScore(e.finalMeanMs, 200.0, 5000.0), InvertScore(e.finalP95Ms, 300.0, 7000.0)])
  }

  function StabilityScore(e: Entry): Score {
    AverageScores([
      InvertScore(JitterRatio(e.restMeanMs, e.restP95Ms), 1.0, 5.0),
      InvertScore(JitterRatio(e.partialMeanMs, e.partialP95Ms), 1.0, 6.0),
      InvertScore(JitterRatio(e.finalMeanMs, e.finalP95Ms), 1.0, 5.0)])
  }

  function EfficiencyScore(e: Entry): Score {
    InvertScore(e.rtfMean, 0.03, 1.0)
  }

  function ConfidenceScore(e: Entry): Score {
    AverageScores([SampleCoveragePct(e), Some(StatusConfidence(e.status))])
  }

  function StatusConfidence(status: Status): real {
    match status
    case Validated => 100.0
    case Legacy => 70.0
    case Blocked => 25.0
    case OtherStatus => 50.0
  }

  function Components(e: Entry): (parts: seq<Weighted>)
    ensures |parts| == 5
  {
    Weigh(LatencyScore(e), LiveCaptionScore(e), FinalizationScore(e), StabilityScore(e), EfficiencyScore(e))
  }

  function Weigh(latency: Score, liveCaption: Score, finalization: Score, stability: Score, efficiency: Score): seq<Weighted> {
    [Weighted(latency, 0.28),
     Weighted(liveCaption, 0.2),
     Weighted(finalization, 0.18),
     Weighted(stability, 0.14),
     Weighted(efficiency, 0.1)]
  }

  function StatusFactor(status: Status): real {
    if status.Legacy? then 0.94 else if status.Blocked? then 0.55 else 1.0
  }

  function ApplyStatus(score: Score, status: Status): Score {
    if score.None? || !(status.Legacy? || status.Blocked?) then score
    else Some(RoundTo(Product(score.value, StatusFactor(status)), 10))
  }

  function OverallScore(e: Entry): Score {
    ApplyStatus(WeightedScore(Components(e)), e.status)
  }

  // ---- Ranges ------------------------------------------------------------------------------

  predicate Between(lower: real, score: Score, upper: real) {
    score.Some? ==> lower <= score.value <= upper
  }

  predicate PositiveWeights(parts: seq<Weighted>) {
    forall i :: 0 <= i < |parts| ==> parts[i].weight > 0.0
  }

  lemma InvertScoreRange(value: Option<real>, floor: real, ceiling: real)
    ensures Between(0.0, InvertScore(value, floor, ceiling), 100.0)
  {
    if value.Some? && ceiling > floor {
      RoundToStaysWithin(Clamp(Headroom(value.value, floor, ceiling), 0.0, 100.0), 10, 0, 100);
    }
  }

  /** A weighted total lies between its weight times the least and times the greatest score. */
  lemma {:induction false} WeightedTotalRange(parts: seq<Weighted>, lower: real, upper: real)
    requires PositiveWeights(parts)
    requires forall i :: 0 <= i < |parts| ==> Between(lower, parts[i].score, upper)
    ensures AppliedWeight(parts) >= 0.0
    ensures Product(lower, AppliedWeight(parts)) <= WeightedTotal(parts) <= Product(upper, AppliedWeight(parts))
    ensures AppliedWeight(parts) == 0.0 <==> forall i :: 0 <= i < |parts| ==> parts[i].score.None?
  {
    if |parts| > 0 {
      var first, rest := parts[0], parts[1..];
      WeightedTotalRange(rest, lower, upper);
      if first.score.Some? {
        ProductOfSum(lower, first.weight, AppliedWeight(rest));
        ProductOfSum(upper, first.weight, AppliedWeight(rest));
        ProductMonotone(lower, first.score.value, first.weight);
        ProductMonotone(first.score.value, upper, first.weight);
      } else {
        assert forall i :: 0 <= i < |rest| ==> rest[i] == parts[i + 1];
      }
    }
  }

  /** A total between two multiples of its weight has its mean between the two factors. */
  lemma MeanBetween(total: real, weight: real, lower: real, upper: real)
    requires weight > 0.0 && Product(lower, weight) <= total <= Product(upper, weight)
    ensures lower <= Quotient(total, weight) <= upper
  {
    QuotientOfProduct(lower, weight);
    QuotientOfProduct(upper, weight);
    QuotientMonotone(Product(lower, weight), total, weight);
    QuotientMonotone(total, Product(upper, weight), weight);
  }

  /** Rounding to one place does not step over a value already printed to one place. */
  lemma RoundedBetween(x: real, lower: int, upper: int)
    requires Over(lower, 10) <= x <= Over(upper, 10)
    ensures Over(lower, 10) <= RoundTo(x, 10) <= Over(upper, 10)
  {
    RoundToMonotone(Over(lower, 10), x, 10);
    RoundToMonotone(x, Over(upper, 10), 10);
    RoundToOfGrid(lower, 10);
    RoundToOfGrid(upper, 10);
  }

  /** A mean rounded to one place stays between scores that are themselves printed to one place. */
  lemma WeightedScoreBetween(parts: seq<Weighted>, lower: int, upper: int)
    requires PositiveWeights(parts)
    requires forall i :: 0 <= i < |parts| ==> Between(Over(lower, 10), parts[i].score, Over(upper, 10))
    ensures Between(Over(lower, 10), WeightedScore(parts), Over(upper, 10))
  {
    WeightedTotalRange(parts, Over(lower, 10), Over(upper, 10));
    if AppliedWeight(parts) != 0.0 {
      MeanBetween(WeightedTotal(parts), AppliedWeight(parts), Over(lower, 10), Over(upper, 10));
      RoundedBetween(Quotient(WeightedTotal(parts), AppliedWeight(parts)), lower, upper);
    }
  }

  lemma AverageScoresRange(scores: seq<Score>)
    requires forall i :: 0 <= i < |scores| ==> Between(0.0, scores[i], 100.0)
    ensures Between(0.0, AverageScores(scores), 100.0)
  {
    assert Over(0, 10) == 0.0 && Over(1000, 10) == 100.0;
    WeightedScoreBetween(seq(|scores|, i requires 0 <= i < |scores| => Weighted(scores[i], 1.0)), 0, 1000);
  }

  lemma ComponentsRange(e: Entry)
    ensures forall i :: 0 <= i < 5 ==> Between(0.0, Components(e)[i].score, 100.0)
    ensures Between(0.0, PartialBacklogScore(e), 100.0)
  {
    InvertScoreRange(e.restMeanMs, 250.0, 6000.0);
    InvertScoreRange(e.restP95Ms, 350.0, 7000.0);
    InvertScoreRange(e.firstPartialMeanMs, 250.0, 5000.0);
    InvertScoreRange(e.partialGapMeanMs, 80.0, 1500.0);
    InvertScoreRange(e.latePartialRatio, 0.0, 0.5);
    InvertScoreRange(e.partialMeanMs, 100.0, 4000.0);
    InvertScoreRange(e.partialP95Ms, 150.0, 6500.0);
    InvertScoreRange(e.finalMeanMs, 200.0, 5000.0);
    InvertScoreRange(e.finalP95Ms, 300.0, 7000.0);
    InvertScoreRange(JitterRatio(e.restMeanMs, e.restP95Ms), 1.0, 5.0);
    InvertScoreRange(JitterRatio(e.partialMeanMs, e.partialP95Ms), 1.0, 6.0);
    InvertScoreRange(JitterRatio(e.finalMeanMs, e.finalP95Ms), 1.0, 5.0);
    InvertScoreRange(e.rtfMean, 0.03, 1.0);
    AverageScoresRange([InvertScore(e.restMeanMs, 250.0, 6000.0), InvertScore(e.restP95Ms, 350.0, 7000.0)]);
    AverageScoresRange([
      InvertScore(e.firstPartialMeanMs, 250.0, 5000.0),
      InvertScore(e.partialGapMeanMs, 80.0, 1500.0),
      InvertScore(e.latePartialRatio, 0.0, 0.5)]);
    AverageScoresRange([
      InvertScore(e.partialMeanMs, 100.0, 4000.0),
      InvertScore(e.partialP95Ms, 150.0, 6500.0),
      InvertScore(e.latePartialRatio, 0.0, 0.5)]);
    AverageScoresRange([InvertScore(e.finalMeanMs, 200.0, 5000.0), InvertScore(e.finalP95Ms, 300.0, 7000.0)]);
    AverageScoresRange([
      InvertScore(JitterRatio(e.restMeanMs, e.restP95Ms), 1.0, 5.0),
      InvertScore(JitterRatio(e.partialMeanMs, e.partialP95Ms), 1.0, 6.0),
      InvertScore(JitterRatio(e.finalMeanMs, e.finalP95Ms), 1.0, 5.0)]);
  }

  lemma OverallRange(e: Entry)
    ensures Between(0.0, OverallScore(e), 100.0)
  {
    ComponentsRange(e);
    assert Over(0, 10) == 0.0 && Over(1000, 10) == 100.0;
    WeightedScoreBetween(Components(e), 0, 1000);
    var raw := WeightedScore(Components(e));
    if raw.Some? {
      ScaledPercentage(raw.value, StatusFactor(e.status));
      RoundToStaysWithin(Product(raw.value, StatusFactor(e.status)), 10, 0, 100);
    }
  }

  lemma ConfidenceRange(e: Entry)
    ensures Between(0.0, SampleCoveragePct(e), 100.0)
    ensures Between(0.0, ConfidenceScore(e), 100.0)
  {
    if e.targetSampleCount != 0 {
      var x := Quotient(e.sampleCount as real, e.targetSampleCount as real) * 100.0;
      RoundToStaysWithin(Clamp(x, 0.0, 100.0), 10, 0, 100);
    }
    AverageScoresRange([SampleCoveragePct(e), Some(StatusConfidence(e.status))]);
  }

  /** Every published score is a percentage. */
  lemma ScoresArePercentages(e: Entry)
    ensures forall i :: 0 <= i < 5 ==> Between(0.0, Components(e)[i].score, 100.0)
    ensures Between(0.0, PartialBacklogScore(e), 100.0)
    ensures Between(0.0, OverallScore(e), 100.0)
    ensures Between(0.0, ConfidenceScore(e), 100.0)
    ensures Between(0.0, SampleCoveragePct(e), 100.0)
  {
    ComponentsRange(e);
    OverallRange(e);
    ConfidenceRange(e);
  }

  lemma ScaledPercentage(x: real, f: real)
    requires 0.0 <= x <= 100.0 && 0.0 <= f <= 1.0
    ensures 0.0 <= Product(x, f) <= 100.0
  {
    ProductMonotone(0.0, x, f);
    ProductMonotone(f, 1.0, x);
    ProductCommutes(x, f);
  }

  /** Scores are printed to one decimal place. */
  ghost predicate OnGrid(score: Score) {
    score.Some? ==> exists n: int :: score.value == Over(n, 10)
  }

  lemma WeightedScoreOnGrid(parts: seq<Weighted>)
    ensures OnGrid(WeightedScore(parts))
  {
    if AppliedWeight(parts) != 0.0 {
      var n := RoundHalfEven(Times(Quotient(WeightedTotal(parts), AppliedWeight(parts)), 10));
      assert WeightedScore(parts).value == Over(n, 10);
    }
  }

  lemma InvertScoreOnGrid(value: Option<real>, floor: real, ceiling: real)
    ensures OnGrid(InvertScore(value, floor, ceiling))
  {
    if value.Some? {
      if ceiling <= floor {
        assert 100.0 == Over(1000, 10);
      } else {
        var x := Clamp(Headroom(value.value, floor, ceiling), 0.0, 100.0);
        assert InvertScore(value, floor, ceiling).value == Over(RoundHalfEven(Times(x, 10)), 10);
      }
    }
  }

  lemma AverageOnGrid(scores: seq<Score>)
    ensures OnGrid(AverageScores(scores))
  {
    WeightedScoreOnGrid(seq(|scores|, i requires 0 <= i < |scores| => Weighted(scores[i], 1.0)));
  }

  lemma ComponentOnGrid(e: Entry, i: nat)
    requires i < 5
    ensures OnGrid(Components(e)[i].score)
  {
    match i
    case 0 =>
      AverageOnGrid([InvertScore(e.restMeanMs, 250.0, 6000.0), InvertScore(e.restP95Ms, 350.0, 7000.0)]);
    case 1 =>
      AverageOnGrid([
        InvertScore(e.firstPartialMeanMs, 250.0, 5000.0),
        InvertScore(e.partialGapMeanMs, 80.0, 1500.0),
        InvertScore(e.latePartialRatio, 0.0, 0.5)]);
    case 2 =>
      AverageOnGrid([InvertScore(e.finalMeanMs, 200.0, 5000.0), InvertScore(e.finalP95Ms, 300.0, 7000.0)]);
    case 3 =>
      AverageOnGrid([
        InvertScore(JitterRatio(e.restMeanMs, e.restP95Ms), 1.0, 5.0),
        InvertScore(JitterRatio(e.partialMeanMs, e.partialP95Ms), 1.0, 6.0),
        InvertScore(JitterRatio(e.finalMeanMs, e.finalP95Ms), 1.0, 5.0)]);
    case _ =>
      InvertScoreOnGrid(e.rtfMean, 0.03, 1.0);
  }

  /**
   * Before the status factor the overall score is a genuine mean: whichever present components
   * are least and greatest, it lies between them, rounding included.
   */
  lemma OverallBetweenComponents(e: Entry, least: nat, greatest: nat)
    requires least < 5 && greatest < 5
    requires Components(e)[least].score.Some? && Components(e)[greatest].score.Some?
    requires forall i :: 0 <= i < 5 ==>
      Between(Components(e)[least].score.value, Components(e)[i].score, Components(e)[greatest].score.value)
    ensures WeightedScore(Components(e)).Some?
    ensures Components(e)[least].score.value <= WeightedScore(Components(e)).value <= Components(e)[greatest].score.value
  {
    var parts := Components(e);
    ComponentOnGrid(e, least);
    ComponentOnGrid(e, greatest);
    var lower: int :| parts[least].score.value == Over(lower, 10);
    var upper: int :| parts[greatest].score.value == Over(upper, 10);
    WeightedScoreBetween(parts, lower, upper);
    WeightedTotalRange(parts, Over(lower, 10), Over(upper, 10));
  }

  // ---- Monotonicity ------------------------------------------------------------------------

  /** `better` and `worse` are present together, and then in this order. */
  predicate AtLeast(better: Score, worse: Score) {
    (better.Some? <==> worse.Some?) && (better.Some? ==> worse.value <= better.value)
  }

  lemma InvertScoreMonotone(better: Option<real>, worse: Option<real>, floor: real, ceiling: real)
    requires AtLeast(worse, better)
    ensures AtLeast(InvertScore(better, floor, ceiling), InvertScore(worse, floor, ceiling))
  {
    if better.Some? && ceiling > floor {
      HeadroomFalls(better.value, worse.value, floor, ceiling);
      RoundToMonotone(Clamp(Headroom(worse.value, floor, ceiling), 0.0, 100.0),
                      Clamp(Headroom(better.value, floor, ceiling), 0.0, 100.0), 10);
    }
  }

  lemma HeadroomFalls(x: real, y: real, floor: real, ceiling: real)
    requires x <= y && floor < ceiling
    ensures Headroom(y, floor, ceiling) <= Headroom(x, floor, ceiling)
  {
    QuotientMonotone(x - floor, y - floor, ceiling - floor);
  }

  predicate PartsAtLeast(better: seq<Weighted>, worse: seq<Weighted>) {
    && |better| == |worse|
    && forall i :: 0 <= i < |better| ==> better[i].weight == worse[i].weight && AtLeast(better[i].score, worse[i].score)
  }

  lemma {:induction false} WeightedTotalMonotone(better: seq<Weighted>, worse: seq<Weighted>)
    requires PositiveWeights(better) && PartsAtLeast(better, worse)
    ensures AppliedWeight(better) == AppliedWeight(worse) >= 0.0
    ensures WeightedTotal(worse) <= WeightedTotal(better)
  {
    if |better| > 0 {
      WeightedTotalMonotone(better[1..], worse[1..]);
      if better[0].score.Some? {
        ProductMonotone(worse[0].score.value, better[0].score.value, better[0].weight);
      }
    }
  }

  lemma WeightedScoreMonotone(better: seq<Weighted>, worse: seq<Weighted>)
    requires PositiveWeights(better) && PartsAtLeast(better, worse)
    ensures AtLeast(WeightedScore(better), WeightedScore(worse))
  {
    WeightedTotalMonotone(better, worse);
    var w := AppliedWeight(better);
    if w != 0.0 {
      QuotientMonotone(WeightedTotal(worse), WeightedTotal(better), w);
      RoundToMonotone(Quotient(WeightedTotal(worse), w), Quotient(WeightedTotal(better), w), 10);
    }
  }

  lemma AverageScoresMonotone(better: seq<Score>, worse: seq<Score>)
    requires |better| == |worse| && forall i :: 0 <= i < |better| ==> AtLeast(better[i], worse[i])
    ensures AtLeast(AverageScores(better), AverageScores(worse))
  {
    WeightedScoreMonotone(
      seq(|better|, i requires 0 <= i < |better| => Weighted(better[i], 1.0)),
      seq(|worse|, i requires 0 <= i < |worse| => Weighted(worse[i], 1.0)));
  }

  /** A p95 that stays, or grows from a positive value over a positive mean, or has no jitter ratio to change. */
  predicate P95Grows(mean: Option<real>, before: Option<real>, after: Option<real>) {
    && AtLeast(after, before)
    && (before == after || mean.None? || mean.value == 0.0 || (mean.value > 0.0 && before.value > 0.0))
  }

  lemma JitterGrows(mean: Option<real>, before: Option<real>, after: Option<real>)
    requires P95Grows(mean, before, after)
    ensures AtLeast(JitterRatio(mean, after), JitterRatio(mean, before))
  {
    if mean.Some? && before.Some? && mean.value > 0.0 {
      QuotientMonotone(before.value, after.value, mean.value);
      RoundToMonotone(Quotient(before.value, mean.value), Quotient(after.value, mean.value), 1000);
    }
  }

  /** No p95 that is at least as high gives a smaller jitter ratio, or one where there was none. */
  ghost predicate JitterNeverFalls(mean: real, p95: real) {
    forall higher: real :: p95 <= higher && JitterRatio(Some(mean), Some(higher)).Some? ==>
      AtLeast(JitterRatio(Some(mean), Some(higher)), JitterRatio(Some(mean), Some(p95)))
  }

  /** Over a positive mean this holds exactly of the p95s that are not zero. */
  lemma JitterNeverFallsIff(mean: real, p95: real)
    requires mean > 0.0
    ensures JitterNeverFalls(mean, p95) <==> p95 != 0.0
  {
    if p95 == 0.0 {
      assert JitterRatio(Some(mean), Some(1.0)).Some?;
    } else {
      forall higher: real | p95 <= higher && JitterRatio(Some(mean), Some(higher)).Some?
        ensures AtLeast(JitterRatio(Some(mean), Some(higher)), JitterRatio(Some(mean), Some(p95)))
      {
        QuotientMonotone(p95, higher, mean);
        RoundToMonotone(Quotient(p95, mean), Quotient(higher, mean), 1000);
      }
    }
  }

  /** The same entry with worse tails: higher p95s, late-partial ratio or real-time factor. */
  predicate Worsened(e: Entry, worse: Entry) {
    && worse == e.(restP95Ms := worse.restP95Ms, partialP95Ms := worse.partialP95Ms, finalP95Ms := worse.finalP95Ms,
                   latePartialRatio := worse.latePartialRatio, rtfMean := worse.rtfMean)
    && P95Grows(e.restMeanMs, e.restP95Ms, worse.restP95Ms)
    && P95Grows(e.partialMeanMs, e.partialP95Ms, worse.partialP95Ms)
    && P95Grows(e.finalMeanMs, e.finalP95Ms, worse.finalP95Ms)
    && AtLeast(worse.latePartialRatio, e.latePartialRatio)
    && AtLeast(worse.rtfMean, e.rtfMean)
  }

  lemma StabilityFalls(e: Entry, worse: Entry)
    requires Worsened(e, worse)
    ensures AtLeast(StabilityScore(e), StabilityScore(worse))
  {
    JitterGrows(e.restMeanMs, e.restP95Ms, worse.restP95Ms);
    JitterGrows(e.partialMeanMs, e.partialP95Ms, worse.partialP95Ms);
    JitterGrows(e.finalMeanMs, e.finalP95Ms, worse.finalP95Ms);
    InvertScoreMonotone(JitterRatio(e.restMeanMs, e.restP95Ms), JitterRatio(e.restMeanMs, worse.restP95Ms), 1.0, 5.0);
    InvertScoreMonotone(JitterRatio(e.partialMeanMs, e.partialP95Ms), JitterRatio(e.partialMeanMs, worse.partialP95Ms), 1.0, 6.0);
    InvertScoreMonotone(JitterRatio(e.finalMeanMs, e.finalP95Ms), JitterRatio(e.finalMeanMs, worse.finalP95Ms), 1.0, 5.0);
    AverageScoresMonotone(
      [InvertScore(JitterRatio(e.restMeanMs, e.restP95Ms), 1.0, 5.0),
       InvertScore(JitterRatio(e.partialMeanMs, e.partialP95Ms), 1.0, 6.0),
       InvertScore(JitterRatio(e.finalMeanMs, e.finalP95Ms), 1.0, 5.0)],
      [InvertScore(JitterRatio(e.restMeanMs, worse.restP95Ms), 1.0, 5.0),
       InvertScore(JitterRatio(e.partialMeanMs, worse.partialP95Ms), 1.0, 6.0),
       InvertScore(JitterRatio(e.finalMeanMs, worse.finalP95Ms), 1.0, 5.0)]);
  }

  lemma LatencyFalls(e: Entry, worse: Entry)
    requires Worsened(e, worse)
    ensures AtLeast(LatencyScore(e), LatencyScore(worse))
    ensures AtLeast(LiveCaptionScore(e), LiveCaptionScore(worse))
    ensures AtLeast(FinalizationScore(e), FinalizationScore(worse))
  {
    InvertScoreMonotone(e.restP95Ms, worse.restP95Ms, 350.0, 7000.0);
    InvertScoreMonotone(e.finalP95Ms, worse.finalP95Ms, 300.0, 7000.0);
    InvertScoreMonotone(e.latePartialRatio, worse.latePartialRatio, 0.0, 0.5);
    AverageScoresMonotone(
      [InvertScore(e.restMeanMs, 250.0, 6000.0), InvertScore(e.restP95Ms, 350.0, 7000.0)],
      [InvertScore(e.restMeanMs, 250.0, 6000.0), InvertScore(worse.restP95Ms, 350.0, 7000.0)]);
    AverageScoresMonotone(
      [InvertScore(e.firstPartialMeanMs, 250.0, 5000.0), InvertScore(e.partialGapMeanMs, 80.0, 1500.0),
       InvertScore(e.latePartialRatio, 0.0, 0.5)],
      [InvertScore(e.firstPartialMeanMs, 250.0, 5000.0), InvertScore(e.partialGapMeanMs, 80.0, 1500.0),
       InvertScore(worse.latePartialRatio, 0.0, 0.5)]);
    AverageScoresMonotone(
      [InvertScore(e.finalMeanMs, 200.0, 5000.0), InvertScore(e.finalP95Ms, 300.0, 7000.0)],
      [InvertScore(e.finalMeanMs, 200.0, 5000.0), InvertScore(worse.finalP95Ms, 300.0, 7000.0)]);
  }

  lemma ComponentsFall(e: Entry, worse: Entry)
    requires AtLeast(LatencyScore(e), LatencyScore(worse)) && AtLeast(LiveCaptionScore(e), LiveCaptionScore(worse))
    requires AtLeast(FinalizationScore(e), FinalizationScore(worse)) && AtLeast(StabilityScore(e), StabilityScore(worse))
    requires AtLeast(worse.rtfMean, e.rtfMean)
    ensures PositiveWeights(Components(e)) && PartsAtLeast(Components(e), Components(worse))
  {
    InvertScoreMonotone(e.rtfMean, worse.rtfMean, 0.03, 1.0);
    WeighedFall(LatencyScore(e), LiveCaptionScore(e), FinalizationScore(e), StabilityScore(e), EfficiencyScore(e),
                LatencyScore(worse), LiveCaptionScore(worse), FinalizationScore(worse), StabilityScore(worse),
                EfficiencyScore(worse));
  }

  lemma WeighedFall(a: Score, b: Score, c: Score, d: Score, e: Score, a': Score, b': Score, c': Score, d': Score, e': Score)
    requires AtLeast(a, a') && AtLeast(b, b') && AtLeast(c, c') && AtLeast(d, d') && AtLeast(e, e')
    ensures PositiveWeights(Weigh(a, b, c, d, e)) && PartsAtLeast(Weigh(a, b, c, d, e), Weigh(a', b', c', d', e'))
  {
  }

  /** Worse tails never raise the overall score, through all four layers of rounding. */
  lemma WorseTailsNeverScoreHigher(e: Entry, worse: Entry)
    requires Worsened(e, worse)
    ensures AtLeast(OverallScore(e), OverallScore(worse))
  {
    StabilityFalls(e, worse);
    LatencyFalls(e, worse);
    ComponentsFall(e, worse);
    WeightedScoreMonotone(Components(e), Components(worse));
    ApplyStatusMonotone(WeightedScore(Components(e)), WeightedScore(Components(worse)), e.status);
  }

  lemma ApplyStatusMonotone(better: Score, worse: Score, status: Status)
    requires AtLeast(better, worse)
    ensures AtLeast(ApplyStatus(better, status), ApplyStatus(worse, status))
  {
    if better.Some? {
      ProductMonotone(worse.value, better.value, StatusFactor(status));
      RoundToMonotone(Product(worse.value, StatusFactor(status)), Product(better.value, StatusFactor(status)), 10);
    }
  }

  /**
   * The start from a positive value matters. A p95 of zero counts as absent for the jitter
   * ratio, so raising it to 350 brings in a stability score of 100 and lifts the overall score.
   */
  lemma ZeroP95CanScoreLower(e: Entry)
    requires e.restMeanMs == Some(3125.0) && e.restP95Ms == Some(0.0)
    requires e.rtfMean == e.firstPartialMeanMs == e.partialGapMeanMs == e.latePartialRatio == None
    requires e.partialMeanMs == e.partialP95Ms == e.finalMeanMs == e.finalP95Ms == None
    requires e.status.Validated?
    ensures OverallScore(e) == Some(75.0)
    ensures OverallScore(e.(restP95Ms := Some(350.0))) == Some(83.3)
  {
    var higher := e.(restP95Ms := Some(350.0));
    assert Headroom(3125.0, 250.0, 6000.0) == 50.0;
    RoundToOfInt(50, 10);
    RoundToOfInt(75, 10);
    RoundToOfInt(100, 10);
    assert Headroom(0.0, 350.0, 7000.0) > 100.0;
    assert Headroom(350.0, 350.0, 7000.0) == 100.0;
    MeanOfTwo(50.0, 100.0);
    assert LatencyScore(e) == LatencyScore(higher) == Some(75.0);
    NoneAverages(e);
    assert RoundTo(Quotient(350.0, 3125.0), 1000) == Over(112, 1000) by {
      assert Times(Quotient(350.0, 3125.0), 1000) == 112.0;
    }
    assert Headroom(Over(112, 1000), 1.0, 5.0) > 100.0;
    MeanOfOne(100.0);
    assert StabilityScore(higher) == Some(100.0);
    FirstOnly(Components(e));
    FirstAndFourth(Components(higher));
  }

  // ---- What the scores are -----------------------------------------------------------------

  /** Full marks up to the floor, none from the ceiling on, and straight down in between, to a tenth. */
  lemma InvertScoreIs(value: real, floor: real, ceiling: real)
    ensures var score := InvertScore(Some(value), floor, ceiling);
      && score.Some?
      && (value <= floor || ceiling <= floor ==> score.value == 100.0)
      && (floor < ceiling <= value ==> score.value == 0.0)
      && (floor < value < ceiling ==>
            -0.05 <= score.value - 100.0 * Quotient(ceiling - value, ceiling - floor) <= 0.05)
  {
    if floor < ceiling {
      RoundToOfInt(100, 10);
      RoundToOfInt(0, 10);
      HeadroomIs(value, floor, ceiling);
      RoundedTenth(Clamp(Headroom(value, floor, ceiling), 0.0, 100.0));
    }
  }

  lemma HeadroomIs(value: real, floor: real, ceiling: real)
    requires floor < ceiling
    ensures Headroom(value, floor, ceiling) == 100.0 * Quotient(ceiling - value, ceiling - floor)
    ensures value <= floor ==> Headroom(value, floor, ceiling) >= 100.0
    ensures value >= ceiling ==> Headroom(value, floor, ceiling) <= 0.0
    ensures floor <= value <= ceiling ==> 0.0 <= Headroom(value, floor, ceiling) <= 100.0
  {
    var d := ceiling - floor;
    QuotientOfProduct(1.0, d);
    ProductCommutes(1.0, d);
    RestOfQuotient(value - floor, d);
    if value <= floor {
      QuotientMonotone(value - floor, 0.0, d);
    }
    if value >= ceiling {
      QuotientMonotone(d, value - floor, d);
    }
    if floor <= value <= ceiling {
      QuotientMonotone(0.0, value - floor, d);
      QuotientMonotone(value - floor, d, d);
    }
  }

  lemma RestOfQuotient(x: real, d: real)
    requires d > 0.0
    ensures Quotient(d - x, d) == 1.0 - Quotient(x, d)
  {
    var q := Quotient(x, d);
    ProductOfQuotient(x, d);
    ProductOfSum(d, 1.0, -q);
    ProductCommutes(d, 1.0 - q);
    ProductCommutes(d, q);
    assert Product(d, -q) == -Product(d, q);
    QuotientIs(d - x, d, 1.0 - q);
  }

  /** The overall score of an entry with all five components, before the status: their weighted mean, to a tenth. */
  lemma OverallOfAll(e: Entry)
    requires LatencyScore(e).Some? && LiveCaptionScore(e).Some? && FinalizationScore(e).Some?
    requires StabilityScore(e).Some? && EfficiencyScore(e).Some? && e.status == Validated
    ensures OverallScore(e).Some? && -0.045 <= 0.9 * OverallScore(e).value
      - (0.28 * LatencyScore(e).value + 0.2 * LiveCaptionScore(e).value + 0.18 * FinalizationScore(e).value
         + 0.14 * StabilityScore(e).value + 0.1 * EfficiencyScore(e).value) <= 0.045
  {
    var parts := Components(e);
    TotalOfFive(parts);
    RoundedTenth(Quotient(WeightedTotal(parts), 0.9));
    ProductOfQuotient(WeightedTotal(parts), 0.9);
  }

  lemma TotalOfFive(parts: seq<Weighted>)
    requires |parts| == 5
    requires parts[0].score.Some? && parts[1].score.Some? && parts[2].score.Some? && parts[3].score.Some? && parts[4].score.Some?
    ensures AppliedWeight(parts) == parts[0].weight + parts[1].weight + parts[2].weight + parts[3].weight + parts[4].weight
    ensures WeightedTotal(parts)
         == Product(parts[0].score.value, parts[0].weight) + Product(parts[1].score.value, parts[1].weight)
          + Product(parts[2].score.value, parts[2].weight) + Product(parts[3].score.value, parts[3].weight)
          + Product(parts[4].score.value, parts[4].weight)
  {
    var after1, after2, after3, after4 := parts[1..], parts[2..], parts[3..], parts[4..];
    OneMorePart(parts[4], []);
    OneMorePart(parts[3], after4);
    OneMorePart(parts[2], after3);
    OneMorePart(parts[1], after2);
    OneMorePart(parts[0], after1);
    assert after4 == [parts[4]] + [] && after3 == [parts[3]] + after4 && after2 == [parts[2]] + after3;
    assert after1 == [parts[1]] + after2 && parts == [parts[0]] + after1;
  }

  /** Coverage is the share of samples taken, at most all, to a tenth; there is none without a target. */
  lemma CoverageIs(e: Entry)
    ensures SampleCoveragePct(e).None? <==> e.targetSampleCount == 0
    ensures e.targetSampleCount > 0 && e.sampleCount >= 0 ==>
      if e.sampleCount >= e.targetSampleCount then SampleCoveragePct(e) == Some(100.0)
      else -0.05 <= SampleCoveragePct(e).value - 100.0 * Quotient(e.sampleCount as real, e.targetSampleCount as real) <= 0.05
  {
    if e.targetSampleCount > 0 && e.sampleCount >= 0 {
      var s, t := e.sampleCount as real, e.targetSampleCount as real;
      QuotientMonotone(0.0, s, t);
      ProductCommutes(1.0, t);
      QuotientOfProduct(1.0, t);
      RoundToOfInt(100, 10);
      if e.sampleCount >= e.targetSampleCount {
        QuotientMonotone(t, s, t);
      } else {
        QuotientMonotone(s, t, t);
        RoundedTenth(Quotient(s, t) * 100.0);
      }
    }
  }

  /** Confidence: 100, 70, 25 or 50 by the status, or the mean of that and the coverage. */
  lemma ConfidenceIs(e: Entry)
    ensures var status := if e.status.Validated? then 100.0 else if e.status.Legacy? then 70.0
                          else if e.status.Blocked? then 25.0 else 50.0;
      && ConfidenceScore(e).Some?
      && (SampleCoveragePct(e).None? ==> ConfidenceScore(e) == Some(status))
      && (SampleCoveragePct(e).Some? ==>
            -0.1 <= 2.0 * ConfidenceScore(e).value - (SampleCoveragePct(e).value + status) <= 0.1)
  {
    var coverage, status := SampleCoveragePct(e), StatusConfidence(e.status);
    if coverage.Some? {
      MeanOfTwo(coverage.value, status);
      RoundedTenth(Quotient(coverage.value + status, 2.0));
    } else {
      OneMorePart(Weighted(Some(status), 1.0), []);
      OneMorePart(Weighted(None, 1.0), [Weighted(Some(status), 1.0)] + []);
      ProductOne(status);
      assert seq(2, i requires 0 <= i < 2 => Weighted([coverage, Some(status)][i], 1.0))
        == [Weighted(None, 1.0)] + ([Weighted(Some(status), 1.0)] + []);
      StatusIsWhole(e.status);
    }
  }

  lemma StatusIsWhole(status: Status)
    ensures RoundTo(StatusConfidence(status), 10) == StatusConfidence(status)
  {
    RoundToOfInt(100, 10);
    RoundToOfInt(70, 10);
    RoundToOfInt(25, 10);
    RoundToOfInt(50, 10);
  }

  // ---- What the status does to the score ---------------------------------------------------

  /**
   * Against the same entry validated, a legacy one keeps 94 and a blocked one 55 of a hundred points, to a tenth; any
   * other status keeps them all. So the three are always in this order.
   */
  lemma StatusCosts(e: Entry)
    ensures OverallScore(e.(status := OtherStatus)) == OverallScore(e.(status := Validated))
    ensures var whole := OverallScore(e.(status := Validated));
      var legacy, blocked := OverallScore(e.(status := Legacy)), OverallScore(e.(status := Blocked));
      && (whole.Some? <==> legacy.Some?) && (whole.Some? <==> blocked.Some?)
      && (whole.Some? ==>
            && -0.05 <= legacy.value - 0.94 * whole.value <= 0.05
            && -0.05 <= blocked.value - 0.55 * whole.value <= 0.05
            && 0.0 <= blocked.value <= legacy.value <= whole.value)
  {
    SameComponents(e, Validated);
    SameComponents(e, Legacy);
    SameComponents(e, Blocked);
    SameComponents(e, OtherStatus);
    var whole := WeightedScore(Components(e));
    if whole.Some? {
      RoundedTenth(Product(whole.value, 0.94));
      RoundedTenth(Product(whole.value, 0.55));
      OverallRange(e.(status := Validated));
      ProductMonotone(0.55, 0.94, whole.value);
      ProductMonotone(0.94, 1.0, whole.value);
      ProductCommutes(0.55, whole.value);
      ProductCommutes(0.94, whole.value);
      ProductCommutes(1.0, whole.value);
      RoundToMonotone(Product(whole.value, 0.55), Product(whole.value, 0.94), 10);
      RoundToMonotone(0.0, Product(whole.value, 0.55), 10);
      RoundToOfInt(0, 10);
      RoundedOnce(Components(e), Product(whole.value, 0.94));
    }
  }

  lemma SameComponents(e: Entry, status: Status)
    ensures OverallScore(e.(status := status)) == ApplyStatus(WeightedScore(Components(e)), status)
  {
  }

  /** A rounded score bounds what is rounded below it. */
  lemma RoundedOnce(parts: seq<Weighted>, x: real)
    requires WeightedScore(parts).Some? && x <= WeightedScore(parts).value
    ensures RoundTo(x, 10) <= WeightedScore(parts).value
  {
    var mean := Quotient(WeightedTotal(parts), AppliedWeight(parts));
    RoundToMonotone(x, RoundTo(mean, 10), 10);
    RoundToOfGrid(RoundHalfEven(Times(mean, 10)), 10);
  }

  // ---- When a longer tail can raise the overall score --------------------------------------

  /** The three pairs of a mean and a p95 that enter the overall score. */
  datatype Tail = Rest | Partials | Finals

  function MeanOf(e: Entry, tail: Tail): Option<real> {
    match tail
    case Rest => e.restMeanMs
    case Partials => e.partialMeanMs
    case Finals => e.finalMeanMs
  }

  function P95Of(e: Entry, tail: Tail): Option<real> {
    match tail
    case Rest => e.restP95Ms
    case Partials => e.partialP95Ms
    case Finals => e.finalP95Ms
  }

  function WithP95(e: Entry, tail: Tail, p95: real): Entry {
    match tail
    case Rest => e.(restP95Ms := Some(p95))
    case Partials => e.(partialP95Ms := Some(p95))
    case Finals => e.(finalP95Ms := Some(p95))
  }

  /** The greatest p95 over that mean at which no term of the score is below its maximum. */
  function Knee(tail: Tail, mean: real): real {
    match tail
    case Rest => MinReal(350.0, mean)
    case Partials => mean
    case Finals => MinReal(300.0, mean)
  }

  lemma InvertedAtMost(x: real, floor: real, ceiling: real)
    requires x <= floor < ceiling
    ensures InvertScore(Some(x), floor, ceiling) == Some(100.0)
  {
    HeadroomFalls(x, floor, floor, ceiling);
    RoundToOfInt(100, 10);
  }

  lemma RatioAtMostOne(mean: real, p95: real)
    requires 0.0 < p95 <= mean
    ensures JitterRatio(Some(mean), Some(p95)).Some? && JitterRatio(Some(mean), Some(p95)).value <= 1.0
  {
    ProductCommutes(1.0, mean);
    QuotientOfProduct(1.0, mean);
    QuotientMonotone(p95, mean, mean);
    RoundToMonotone(Quotient(p95, mean), 1.0, 1000);
    RoundToOfInt(1, 1000);
  }

  /** The scores a p95 enters are all 100 between zero and the knee. */
  lemma FullScores(mean: real, p95: real, floor: real, ceiling: real, most: real)
    requires 0.0 < p95 <= MinReal(floor, mean) && floor < ceiling && 1.0 < most
    ensures InvertScore(Some(p95), floor, ceiling) == Some(100.0)
    ensures InvertScore(JitterRatio(Some(mean), Some(p95)), 1.0, most) == Some(100.0)
  {
    InvertedAtMost(p95, floor, ceiling);
    RatioAtMostOne(mean, p95);
    InvertedAtMost(JitterRatio(Some(mean), Some(p95)).value, 1.0, most);
  }

  lemma SameBelowKnee(e: Entry, tail: Tail, mean: real, p: real, q: real)
    requires MeanOf(e, tail) == Some(mean) && 0.0 < p <= Knee(tail, mean) && 0.0 < q <= Knee(tail, mean)
    ensures OverallScore(WithP95(e, tail, p)) == OverallScore(WithP95(e, tail, q))
  {
    match tail
    case Rest =>
      FullScores(mean, p, 350.0, 7000.0, 5.0);
      FullScores(mean, q, 350.0, 7000.0, 5.0);
      SameRestScores(e, p, q);
    case Partials =>
      FullScores(mean, p, mean, mean + 1.0, 6.0);
      FullScores(mean, q, mean, mean + 1.0, 6.0);
      SamePartialScores(e, p, q);
    case Finals =>
      FullScores(mean, p, 300.0, 7000.0, 5.0);
      FullScores(mean, q, 300.0, 7000.0, 5.0);
      SameFinalScores(e, p, q);
  }

  lemma SameRestScores(e: Entry, p: real, q: real)
    requires InvertScore(Some(p), 350.0, 7000.0) == InvertScore(Some(q), 350.0, 7000.0)
    requires InvertScore(JitterRatio(e.restMeanMs, Some(p)), 1.0, 5.0) == InvertScore(JitterRatio(e.restMeanMs, Some(q)), 1.0, 5.0)
    ensures OverallScore(WithP95(e, Rest, p)) == OverallScore(WithP95(e, Rest, q))
  {
    assert LatencyScore(WithP95(e, Rest, p)) == LatencyScore(WithP95(e, Rest, q));
    assert StabilityScore(WithP95(e, Rest, p)) == StabilityScore(WithP95(e, Rest, q));
  }

  lemma SamePartialScores(e: Entry, p: real, q: real)
    requires InvertScore(JitterRatio(e.partialMeanMs, Some(p)), 1.0, 6.0)
          == InvertScore(JitterRatio(e.partialMeanMs, Some(q)), 1.0, 6.0)
    ensures OverallScore(WithP95(e, Partials, p)) == OverallScore(WithP95(e, Partials, q))
  {
    assert StabilityScore(WithP95(e, Partials, p)) == StabilityScore(WithP95(e, Partials, q));
  }

  lemma SameFinalScores(e: Entry, p: real, q: real)
    requires InvertScore(Some(p), 300.0, 7000.0) == InvertScore(Some(q), 300.0, 7000.0)
    requires InvertScore(JitterRatio(e.finalMeanMs, Some(p)), 1.0, 5.0) == InvertScore(JitterRatio(e.finalMeanMs, Some(q)), 1.0, 5.0)
    ensures OverallScore(WithP95(e, Finals, p)) == OverallScore(WithP95(e, Finals, q))
  {
    assert FinalizationScore(WithP95(e, Finals, p)) == FinalizationScore(WithP95(e, Finals, q));
    assert StabilityScore(WithP95(e, Finals, p)) == StabilityScore(WithP95(e, Finals, q));
  }

  /** No p95 that is at least as high raises the overall score, or gives one where there was none. */
  ghost predicate LongerTailNeverHelps(e: Entry, tail: Tail) {
    P95Of(e, tail).Some? ==>
      forall p95: real :: P95Of(e, tail).value <= p95 ==> AtLeast(OverallScore(e), OverallScore(WithP95(e, tail, p95)))
  }

  /**
   * For every entry whose means and p95s are not negative: a longer tail never helps, except exactly if the p95 is
   * zero over a positive mean and the one comparison with the score at the knee comes out the wrong way.
   */
  lemma LongerTailNeverHelpsIff(e: Entry, tail: Tail)
    requires MeanOf(e, tail).Some? ==> MeanOf(e, tail).value >= 0.0
    requires P95Of(e, tail).Some? ==> P95Of(e, tail).value >= 0.0
    ensures LongerTailNeverHelps(e, tail) <==>
      (P95Of(e, tail) == Some(0.0) && MeanOf(e, tail).Some? && MeanOf(e, tail).value > 0.0 ==>
         AtLeast(OverallScore(e), OverallScore(WithP95(e, tail, Knee(tail, MeanOf(e, tail).value)))))
  {
    if P95Of(e, tail) == Some(0.0) && MeanOf(e, tail).Some? && MeanOf(e, tail).value > 0.0 {
      ZeroTailNeverHelpsIff(e, tail, MeanOf(e, tail).value);
    } else if P95Of(e, tail).Some? {
      forall p95: real | P95Of(e, tail).value <= p95
        ensures AtLeast(OverallScore(e), OverallScore(WithP95(e, tail, p95)))
      {
        WorseTailsNeverScoreHigher(e, WithP95(e, tail, p95));
      }
    }
  }

  lemma ZeroTailNeverHelpsIff(e: Entry, tail: Tail, mean: real)
    requires P95Of(e, tail) == Some(0.0) && MeanOf(e, tail) == Some(mean) && mean > 0.0
    ensures LongerTailNeverHelps(e, tail) <==> AtLeast(OverallScore(e), OverallScore(WithP95(e, tail, Knee(tail, mean))))
  {
    var knee := Knee(tail, mean);
    forall p95: real | 0.0 <= p95
      ensures p95 == 0.0 ==> WithP95(e, tail, p95) == e
      ensures p95 > 0.0 ==> AtLeast(OverallScore(WithP95(e, tail, knee)), OverallScore(WithP95(e, tail, p95)))
    {
      if 0.0 < p95 <= knee {
        SameBelowKnee(e, tail, mean, p95, knee);
      } else if knee < p95 {
        WorseTailsNeverScoreHigher(WithP95(e, tail, knee), WithP95(e, tail, p95));
      }
    }
    assert LongerTailNeverHelps(e, tail) ==> 0.0 <= knee;
  }

  /** One more part in front adds its weighted score and its weight. */
  lemma OneMorePart(part: Weighted, rest: seq<Weighted>)
    ensures WeightedTotal([part] + rest)
         == (if part.score.Some? then Product(part.score.value, part.weight) else 0.0) + WeightedTotal(rest)
    ensures AppliedWeight([part] + rest) == (if part.score.Some? then part.weight else 0.0) + AppliedWeight(rest)
  {
    assert ([part] + rest)[1..] == rest;
  }

  lemma ProductOne(x: real)
    ensures Product(x, 1.0) == x && Quotient(x, 1.0) == x
  {
  }

  lemma MeanOfTwo(x: real, y: real)
    ensures AverageScores([Some(x), Some(y)]) == Some(RoundTo(Quotient(x + y, 2.0), 10))
  {
    var first, second := Weighted(Some(x), 1.0), Weighted(Some(y), 1.0);
    OneMorePart(second, []);
    OneMorePart(first, [second] + []);
    ProductOne(x);
    ProductOne(y);
    assert seq(2, i requires 0 <= i < 2 => Weighted([Some(x), Some(y)][i], 1.0)) == [first] + ([second] + []);
  }

  lemma MeanOfOne(x: real)
    ensures AverageScores([Some(x), None, None]) == Some(RoundTo(x, 10))
  {
    var scores: seq<Score> := [Some(x), None, None];
    var first, absent := Weighted(Some(x), 1.0), Weighted(None, 1.0);
    AllAbsent([absent, absent]);
    OneMorePart(first, [absent, absent]);
    ProductOne(x);
    assert seq(3, i requires 0 <= i < 3 => Weighted(scores[i], 1.0)) == [first] + [absent, absent];
  }

  /** Nothing to average gives nothing. */
  lemma NoneAverages(e: Entry)
    requires e.firstPartialMeanMs == e.partialGapMeanMs == e.latePartialRatio == None
    requires e.finalMeanMs == e.finalP95Ms == e.partialMeanMs == None
    ensures LiveCaptionScore(e) == FinalizationScore(e) == None
    ensures e.restP95Ms == Some(0.0) ==> StabilityScore(e) == None
  {
    AllAbsent(seq(3, i requires 0 <= i < 3 => Weighted([None, None, None][i], 1.0)));
    AllAbsent(seq(2, i requires 0 <= i < 2 => Weighted([None, None][i], 1.0)));
  }

  lemma {:induction false} AllAbsent(parts: seq<Weighted>)
    requires forall i :: 0 <= i < |parts| ==> parts[i].score.None?
    ensures WeightedTotal(parts) == AppliedWeight(parts) == 0.0
    ensures WeightedScore(parts) == None
  {
    if |parts| > 0 {
      AllAbsent(parts[1..]);
    }
  }

  lemma FirstOnly(parts: seq<Weighted>)
    requires |parts| == 5 && parts[0] == Weighted(Some(75.0), 0.28)
    requires forall i :: 1 <= i < 5 ==> parts[i].score.None?
    ensures WeightedScore(parts) == Some(75.0)
  {
    AllAbsent(parts[1..]);
    OneMorePart(parts[0], parts[1..]);
    assert parts == [parts[0]] + parts[1..];
    QuotientOfProduct(75.0, 0.28);
    RoundToOfInt(75, 10);
  }

  lemma FirstAndFourth(parts: seq<Weighted>)
    requires |parts| == 5 && parts[0] == Weighted(Some(75.0), 0.28) && parts[3] == Weighted(Some(100.0), 0.14)
    requires parts[1].score.None? && parts[2].score.None? && parts[4].score.None?
    ensures WeightedScore(parts) == Some(83.3)
  {
    FourthTotals(parts);
    MeanRounds(Quotient(35.0, 0.42));
    ProductOfQuotient(35.0, 0.42);
  }

  lemma FourthTotals(parts: seq<Weighted>)
    requires |parts| == 5 && parts[0] == Weighted(Some(75.0), 0.28) && parts[3] == Weighted(Some(100.0), 0.14)
    requires parts[1].score.None? && parts[2].score.None? && parts[4].score.None?
    ensures WeightedTotal(parts) == 35.0 && AppliedWeight(parts) == 0.42
  {
    AllAbsent([parts[4]]);
    OneMorePart(parts[3], [parts[4]]);
    OneMorePart(parts[2], [parts[3]] + [parts[4]]);
    OneMorePart(parts[1], [parts[2]] + ([parts[3]] + [parts[4]]));
    OneMorePart(parts[0], [parts[1]] + ([parts[2]] + ([parts[3]] + [parts[4]])));
    assert parts == [parts[0]] + ([parts[1]] + ([parts[2]] + ([parts[3]] + [parts[4]])));
  }

  lemma MeanRounds(mean: real)
    requires Product(mean, 0.42) == 35.0
    ensures RoundTo(mean, 10) == 83.3
  {
    assert 832.6 < Times(mean, 10) < 833.4;
    RoundHalfEvenIsNearest(Times(mean, 10), 833);
    assert Over(833, 10) == 83.3;
  }
}
