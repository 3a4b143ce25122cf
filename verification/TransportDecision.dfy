/** Should raw UDS be recommended? The one verdict that five functions compute separately. */
module TransportDecision {
  import opened Results
  import opened Rounding

  // ---- Inputs ------------------------------------------------------------------------------

  datatype Metric = FirstInterim | FinalAfterFinalize | SendQueueDepth | AsrQueueDelay | ProtocolErrorCount

  datatype Payload = Payload(p95: map<Metric, real>, missingMetrics: seq<string>, protocolErrorFree: bool)

  const REQUIRED_TRANSPORTS := ["tcp_ws", "uds_ws", "raw_uds"]

  /** The gap lists each check produced, in the order they are consulted. */
  datatype Gaps = Gaps(
    runs: seq<string>, cpu: seq<string>, targets: seq<string>, frameContract: seq<string>, frameTypes: seq<string>,
    lifecycle: seq<string>, errorHandling: seq<string>, errorCodes: seq<string>, runtime: seq<string>,
    pluginConfig: seq<string>, startPayload: seq<string>, comparisonRequirement: seq<string>, inputs: seq<string>)

  /** Transports in the order their artifacts were given. */
  datatype Comparison = Comparison(transports: seq<(string, Payload)>, gaps: Gaps, minWinMs: real)

  /** A file given for comparison: not a benchmark artifact, or one whose parts may be missing or malformed. */
  datatype Artifact = Unreadable | Readable(transport: string, payload: Option<Payload>)

  datatype CompareError = MinRunsNotPositive | MinWinNotPositive | UnreadableArtifact | DuplicateTransport | MalformedArtifact

  ghost predicate DistinctTransports(artifacts: seq<Artifact>) {
    forall i, j :: 0 <= i < j < |artifacts| && artifacts[i].Readable? && artifacts[j].Readable? ==>
      artifacts[i].transport != artifacts[j].transport
  }

  predicate Positive(minRuns: Option<int>) {
    minRuns.Some? ==> minRuns.value > 0
  }

  function Collected(artifacts: seq<Artifact>): (transports: seq<(string, Payload)>)
    requires forall a :: a in artifacts ==> a.Readable? && a.payload.Some?
    ensures |transports| == |artifacts|
    ensures forall i :: 0 <= i < |artifacts| ==> transports[i] == (artifacts[i].transport, artifacts[i].payload.value)
  {
    seq(|artifacts|, i requires 0 <= i < |artifacts| => (artifacts[i].transport, artifacts[i].payload.value))
  }

  /** All files are read first; collecting them by transport then refuses a second one for the same transport. */
  method CompareArtifacts(artifacts: seq<Artifact>, gaps: Gaps, minRuns: Option<int>, minWinMs: real)
    returns (result: Result<Comparison, CompareError>)
    ensures result == Err(MinRunsNotPositive) <==> !Positive(minRuns)
    ensures result == Err(MinWinNotPositive) <==> Positive(minRuns) && minWinMs <= 0.0
    ensures result == Err(UnreadableArtifact) <==> Positive(minRuns) && minWinMs > 0.0 && Unreadable in artifacts
    ensures result.Ok? <==>
      && Positive(minRuns) && minWinMs > 0.0 && DistinctTransports(artifacts)
      && forall a :: a in artifacts ==> a.Readable? && a.payload.Some?
    ensures result.Ok? ==> result.value == Comparison(Collected(artifacts), gaps, minWinMs)
  {
    if minRuns.Some? && minRuns.value <= 0 {
      return Err(MinRunsNotPositive);
    }
    if minWinMs <= 0.0 {
      return Err(MinWinNotPositive);
    }
    if Unreadable in artifacts {
      return Err(UnreadableArtifact);
    }
    var byTransport: map<string, Payload> := map[];
    for i := 0 to |artifacts|
      invariant forall a :: a in artifacts[..i] ==> a.Readable? && a.payload.Some?
      invariant forall t :: t in byTransport <==> exists j :: 0 <= j < i && artifacts[j] == Readable(t, artifacts[j].payload)
      invariant DistinctTransports(artifacts[..i])
    {
      var artifact := artifacts[i];
      assert artifact in artifacts;
      if artifact.transport in byTransport {
        return Err(DuplicateTransport);
      }
      if artifact.payload.None? {
        return Err(MalformedArtifact);
      }
      byTransport := byTransport[artifact.transport := artifact.payload.value];
      assert artifacts[..i + 1] == artifacts[..i] + [artifact];
    }
    assert artifacts[..|artifacts|] == artifacts;
    result := Ok(Comparison(Collected(artifacts), gaps, minWinMs));
  }

  // ---- Deltas ------------------------------------------------------------------------------

  function Find(transports: seq<(string, Payload)>, name: string): Option<Payload> {
    if |transports| == 0 then None
    else if transports[0].0 == name then Some(transports[0].1) else Find(transports[1..], name)
  }

  function P95(c: Comparison, transport: string, metric: Metric): Option<real> {
    var payload := Find(c.transports, transport);
    if payload.Some? && metric in payload.value.p95 then Some(payload.value.p95[metric]) else None
  }

  function RoundedDifference(baseline: Option<real>, candidate: Option<real>, scale: int): Option<real>
    requires scale > 0
  {
    if baseline.None? || candidate.None? then None else Some(RoundTo(baseline.value - candidate.value, scale))
  }

  function MetricDeltaMs(c: Comparison, baseline: string, candidate: string, metric: Metric): Option<real> {
    RoundedDifference(P95(c, baseline, metric), P95(c, candidate, metric), 10)
  }

  function RawDelta(c: Comparison, metric: Metric): Option<real> {
    MetricDeltaMs(c, "uds_ws", "raw_uds", metric)
  }

  /** `pairwise_p95_delta_matrix` at one place. */
  function DeltaMatrix(c: Comparison, metric: Metric, baseline: string, candidate: string): Option<real> {
    if baseline == candidate then None else MetricDeltaMs(c, baseline, candidate, metric)
  }

  datatype DeltaStatus = Missing | Improved | Regressed | Matched

  function ClassifyP95Delta(delta: Option<real>): DeltaStatus {
    if delta.None? then Missing else if delta.value > 0.0 then Improved else if delta.value < 0.0 then Regressed else Matched
  }

  /** The status shown for raw UDS against a baseline, from differences rounded to three places. */
  function SummaryStatus(c: Comparison, baseline: string, metric: Metric): DeltaStatus {
    ClassifyP95Delta(RoundedDifference(P95(c, baseline, metric), P95(c, "raw_uds", metric), 1000))
  }

  // ---- The facts every verdict starts from -------------------------------------------------

  function MissingTransports(c: Comparison): seq<string> {
    FilterMissing(c.transports, REQUIRED_TRANSPORTS)
  }

  function FilterMissing(transports: seq<(string, Payload)>, required: seq<string>): seq<string> {
    if |required| == 0 then []
    else (if Find(transports, required[0]).None? then [required[0]] else []) + FilterMissing(transports, required[1..])
  }

  function UnexpectedTransports(transports: seq<(string, Payload)>): seq<string> {
    if |transports| == 0 then []
    else (if transports[0].0 !in REQUIRED_TRANSPORTS then [transports[0].0] else []) + UnexpectedTransports(transports[1..])
  }

  /** Only transports that miss something appear, so the mapping is empty exactly when nothing is missed. */
  function MissingMetricsByTransport(transports: seq<(string, Payload)>): seq<(string, seq<string>)> {
    if |transports| == 0 then []
    else
      (if transports[0].1.missingMetrics != [] then [(transports[0].0, transports[0].1.missingMetrics)] else [])
      + MissingMetricsByTransport(transports[1..])
  }

  predicate AllErrorFree(c: Comparison) {
    forall i :: 0 <= i < |c.transports| ==> c.transports[i].1.protocolErrorFree
  }

  predicate Negative(delta: Option<real>) {
    delta.Some? && delta.value < 0.0
  }

  function QueueRegressions(c: Comparison): seq<Metric> {
    (if Negative(RawDelta(c, SendQueueDepth)) then [SendQueueDepth] else [])
    + (if Negative(RawDelta(c, AsrQueueDelay)) then [AsrQueueDelay] else [])
  }

  predicate LatencyExperimental(c: Comparison) {
    var delta := RawDelta(c, FirstInterim);
    delta.None? || delta.value < c.minWinMs
  }

  // ---- The five verdicts -------------------------------------------------------------------

  /** The categories of gate blockers, in the order the gate lists them. */
  datatype Kind =
    | MissingTransport | UnexpectedTransport | MissingMetric | RunCount | CpuUtilization | Target | FrameContract
    | FrameTypeGap | Lifecycle | ErrorHandling | ErrorCodes | Runtime | PluginConfig | StartPayload
    | ComparisonRequired | BenchmarkInput | ProtocolErrors
    | MissingLatencyDelta | InsufficientWin | FinalizationRegression | QueueRegression

  datatype Blocker = Blocker(kind: Kind, detail: seq<string>)

  function BlockersFor(kind: Kind, gaps: seq<string>): (blockers: seq<Blocker>)
    ensures |blockers| == |gaps|
    ensures forall b :: b in blockers ==> b.kind == kind
  {
    seq(|gaps|, i requires 0 <= i < |gaps| => Blocker(kind, [gaps[i]]))
  }

  function MetricBlockers(missing: seq<(string, seq<string>)>): (blockers: seq<Blocker>)
    ensures forall b :: b in blockers ==> b.kind == MissingMetric
  {
    if |missing| == 0 then []
    else
      var (transport, gaps) := missing[0];
      seq(|gaps|, i requires 0 <= i < |gaps| => Blocker(MissingMetric, [transport, gaps[i]])) + MetricBlockers(missing[1..])
  }

  function When(condition: bool, kind: Kind): seq<Blocker> {
    if condition then [Blocker(kind, [])] else []
  }

  function MetricName(m: Metric): string {
    match m
    case FirstInterim => "time_to_first_interim_ms"
    case FinalAfterFinalize => "time_to_final_after_finalize_ms"
    case SendQueueDepth => "audio_send_queue_depth_p95_ms"
    case AsrQueueDelay => "asr_queue_delay_p95_ms"
    case ProtocolErrorCount => "protocol_errors"
  }

  function QueueBlockers(metrics: seq<Metric>): (blockers: seq<Blocker>)
    ensures |blockers| == |metrics|
    ensures forall b :: b in blockers ==> b.kind == QueueRegression
  {
    seq(|metrics|, i requires 0 <= i < |metrics| => Blocker(QueueRegression, [MetricName(metrics[i])]))
  }

  /** What the gate lists in its i-th step. */
  function GateList(c: Comparison, i: nat): seq<Blocker> {
    match i
    case 0 => BlockersFor(MissingTransport, MissingTransports(c))
    case 1 => BlockersFor(UnexpectedTransport, UnexpectedTransports(c.transports))
    case 2 => MetricBlockers(MissingMetricsByTransport(c.transports))
    case 3 => BlockersFor(RunCount, c.gaps.runs)
    case 4 => BlockersFor(CpuUtilization, c.gaps.cpu)
    case 5 => BlockersFor(Target, c.gaps.targets)
    case 6 => BlockersFor(FrameContract, c.gaps.frameContract)
    case 7 => BlockersFor(FrameTypeGap, c.gaps.frameTypes)
    case 8 => BlockersFor(Lifecycle, c.gaps.lifecycle)
    case 9 => BlockersFor(ErrorHandling, c.gaps.errorHandling)
    case 10 => BlockersFor(ErrorCodes, c.gaps.errorCodes)
    case 11 => BlockersFor(Runtime, c.gaps.runtime)
    case 12 => BlockersFor(PluginConfig, c.gaps.pluginConfig)
    case 13 => BlockersFor(StartPayload, c.gaps.startPayload)
    case 14 => BlockersFor(ComparisonRequired, c.gaps.comparisonRequirement)
    case 15 => BlockersFor(BenchmarkInput, c.gaps.inputs)
    case 16 => When(!AllErrorFree(c), ProtocolErrors)
    case 17 => When(RawDelta(c, FirstInterim).None?, MissingLatencyDelta)
    case 18 => When(RawDelta(c, FirstInterim).Some? && RawDelta(c, FirstInterim).value < c.minWinMs, InsufficientWin)
    case 19 => When(Negative(RawDelta(c, FinalAfterFinalize)), FinalizationRegression)
    case 20 => QueueBlockers(QueueRegressions(c))
    case _ => []
  }

  const GATE_STEPS := 21

  /** The lists of all steps, and their concatenation from one of them on. */
  function GateLists(c: Comparison): (lists: seq<seq<Blocker>>)
    ensures |lists| == GATE_STEPS
  {
    seq(GATE_STEPS, i requires 0 <= i < GATE_STEPS => GateList(c, i))
  }

  function ListsFrom(lists: seq<seq<Blocker>>, i: nat): seq<Blocker>
    decreases |lists| - i
  {
    if i >= |lists| then [] else lists[i] + ListsFrom(lists, i + 1)
  }

  function Blockers(c: Comparison): seq<Blocker> {
    ListsFrom(GateLists(c), 0)
  }

  predicate GatePassed(c: Comparison) {
    Blockers(c) == []
  }

  predicate Experimental(c: Comparison) {
    LatencyExperimental(c) || !GatePassed(c)
  }

  /** The recommendation: keep raw UDS back for a reason, or say it wins. */
  datatype Text = KeepFor(kind: Kind) | MeasurableWin

  function RecommendationText(c: Comparison): Text {
    var g := c.gaps;
    if MissingTransports(c) != [] then KeepFor(MissingTransport)
    else if UnexpectedTransports(c.transports) != [] then KeepFor(UnexpectedTransport)
    else if MissingMetricsByTransport(c.transports) != [] then KeepFor(MissingMetric)
    else if g.runs != [] then KeepFor(RunCount)
    else if g.cpu != [] then KeepFor(CpuUtilization)
    else if g.targets != [] then KeepFor(Target)
    else if g.frameContract != [] then KeepFor(FrameContract)
    else if g.frameTypes != [] then KeepFor(FrameTypeGap)
    else if g.lifecycle != [] then KeepFor(Lifecycle)
    else if g.errorHandling != [] then KeepFor(ErrorHandling)
    else if g.errorCodes != [] then KeepFor(ErrorCodes)
    else if g.runtime != [] then KeepFor(Runtime)
    else if g.pluginConfig != [] then KeepFor(PluginConfig)
    else if g.startPayload != [] then KeepFor(StartPayload)
    else if g.comparisonRequirement != [] then KeepFor(ComparisonRequired)
    else if g.inputs != [] then KeepFor(BenchmarkInput)
    else if !AllErrorFree(c) then KeepFor(ProtocolErrors)
    else if RawDelta(c, FirstInterim).None? then KeepFor(MissingLatencyDelta)
    else if Negative(RawDelta(c, FinalAfterFinalize)) then KeepFor(FinalizationRegression)
    else if QueueRegressions(c) != [] then KeepFor(QueueRegression)
    else if Experimental(c) then KeepFor(InsufficientWin)
    else MeasurableWin
  }

  datatype DecisionStatus = StayExperimental | Recommended

  function Status(c: Comparison): DecisionStatus {
    if Experimental(c) then StayExperimental else Recommended
  }

  datatype NextAction = Proceed | ActOn(kind: Kind) | ReviewBlockers

  /** There is no action of its own for an unexpected transport. */
  function DecisionNextAction(blockers: seq<Blocker>): NextAction {
    if blockers == [] then Proceed
    else if blockers[0].kind.UnexpectedTransport? then ReviewBlockers
    else ActOn(blockers[0].kind)
  }

  /** One human-readable reason for each gap. */
  function BlockingGaps(c: Comparison): seq<seq<string>> {
    var g := c.gaps;
    Singles(MissingTransports(c)) + (Singles(UnexpectedTransports(c.transports))
    + (MetricReasons(MissingMetricsByTransport(c.transports))
    + (Singles(g.runs) + (Singles(g.cpu) + (Singles(g.targets) + (Singles(g.frameContract) + (Singles(g.frameTypes)
    + (Singles(g.lifecycle) + (Singles(g.errorHandling) + (Singles(g.errorCodes) + (Singles(g.runtime)
    + (Singles(g.pluginConfig) + (Singles(g.startPayload) + (Singles(g.comparisonRequirement) + (Singles(g.inputs)
    + ErrorReasons(c.transports))))))))))))))))
  }

  function Singles(gaps: seq<string>): (reasons: seq<seq<string>>)
    ensures |reasons| == |gaps|
  {
    seq(|gaps|, i requires 0 <= i < |gaps| => [gaps[i]])
  }

  function MetricReasons(missing: seq<(string, seq<string>)>): seq<seq<string>> {
    if |missing| == 0 then []
    else
      var (transport, gaps) := missing[0];
      seq(|gaps|, i requires 0 <= i < |gaps| => [transport, gaps[i]]) + MetricReasons(missing[1..])
  }

  function ErrorReasons(transports: seq<(string, Payload)>): seq<seq<string>> {
    if |transports| == 0 then []
    else (if !transports[0].1.protocolErrorFree then [[transports[0].0]] else []) + ErrorReasons(transports[1..])
  }

  predicate HasBlockingGaps(c: Comparison, requireRecommendation: bool) {
    var g := c.gaps;
    || MissingTransports(c) != [] || UnexpectedTransports(c.transports) != []
    || MissingMetricsByTransport(c.transports) != []
    || g.runs != [] || g.cpu != [] || g.targets != [] || g.frameContract != [] || g.frameTypes != []
    || g.lifecycle != [] || g.errorHandling != [] || g.errorCodes != [] || g.runtime != []
    || g.pluginConfig != [] || g.startPayload != [] || g.comparisonRequirement != [] || g.inputs != []
    || !AllErrorFree(c)
    || (requireRecommendation && Experimental(c))
  }

  function ExitCode(c: Comparison, requireRecommendation: bool): int {
    if HasBlockingGaps(c, requireRecommendation) then 1 else 0
  }

  // ---- Agreement ---------------------------------------------------------------------------

  lemma {:induction false} MetricsEmptyIff(transports: seq<(string, Payload)>)
    ensures MetricBlockers(MissingMetricsByTransport(transports)) == [] <==> MissingMetricsByTransport(transports) == []
    ensures MetricReasons(MissingMetricsByTransport(transports)) == [] <==> MissingMetricsByTransport(transports) == []
  {
    if |transports| > 0 {
      MetricsEmptyIff(transports[1..]);
      var rest := MissingMetricsByTransport(transports[1..]);
      var here := transports[0].1.missingMetrics;
      if here != [] {
        assert ([(transports[0].0, here)] + rest)[0] == (transports[0].0, here);
        assert ([(transports[0].0, here)] + rest)[1..] == rest;
      } else {
        assert [] + rest == rest;
      }
    }
  }

  /** Category by category, whether the gate lists anything. */
  predicate CategoryBlocked(c: Comparison, i: nat) {
    var g, delta := c.gaps, RawDelta(c, FirstInterim);
    match i
    case 0 => MissingTransports(c) != []
    case 1 => UnexpectedTransports(c.transports) != []
    case 2 => MissingMetricsByTransport(c.transports) != []
    case 3 => g.runs != []
    case 4 => g.cpu != []
    case 5 => g.targets != []
    case 6 => g.frameContract != []
    case 7 => g.frameTypes != []
    case 8 => g.lifecycle != []
    case 9 => g.errorHandling != []
    case 10 => g.errorCodes != []
    case 11 => g.runtime != []
    case 12 => g.pluginConfig != []
    case 13 => g.startPayload != []
    case 14 => g.comparisonRequirement != []
    case 15 => g.inputs != []
    case 16 => !AllErrorFree(c)
    case 17 => delta.None?
    case 18 => delta.Some? && delta.value < c.minWinMs
    case 19 => Negative(RawDelta(c, FinalAfterFinalize))
    case 20 => QueueRegressions(c) != []
    case _ => false
  }

  function KindAt(i: nat): Kind
    requires i < GATE_STEPS
  {
    match i
    case 0 => MissingTransport
    case 1 => UnexpectedTransport
    case 2 => MissingMetric
    case 3 => RunCount
    case 4 => CpuUtilization
    case 5 => Target
    case 6 => FrameContract
    case 7 => FrameTypeGap
    case 8 => Lifecycle
    case 9 => ErrorHandling
    case 10 => ErrorCodes
    case 11 => Runtime
    case 12 => PluginConfig
    case 13 => StartPayload
    case 14 => ComparisonRequired
    case 15 => BenchmarkInput
    case 16 => ProtocolErrors
    case 17 => MissingLatencyDelta
    case 18 => InsufficientWin
    case 19 => FinalizationRegression
    case _ => QueueRegression
  }

  /** Each step lists blockers of its own category, and lists some exactly when the category is blocked. */
  lemma GateCategories(c: Comparison, i: nat)
    requires i < GATE_STEPS
    ensures GateList(c, i) != [] <==> CategoryBlocked(c, i)
    ensures forall b :: b in GateList(c, i) ==> b.kind == KindAt(i)
  {
    if i < 3 {
      TransportCategories(c, i);
    } else if i < 16 {
      GapCategories(c, i);
    } else {
      MeasuredCategories(c, i);
    }
  }

  lemma TransportCategories(c: Comparison, i: nat)
    requires i < 3
    ensures GateList(c, i) != [] <==> CategoryBlocked(c, i)
    ensures forall b :: b in GateList(c, i) ==> b.kind == KindAt(i)
  {
    MetricsEmptyIff(c.transports);
  }

  lemma GapCategories(c: Comparison, i: nat)
    requires 3 <= i < 16
    ensures GateList(c, i) != [] <==> CategoryBlocked(c, i)
    ensures forall b :: b in GateList(c, i) ==> b.kind == KindAt(i)
  {
  }

  lemma MeasuredCategories(c: Comparison, i: nat)
    requires 16 <= i < GATE_STEPS
    ensures GateList(c, i) != [] <==> CategoryBlocked(c, i)
    ensures forall b :: b in GateList(c, i) ==> b.kind == KindAt(i)
  {
  }

  /** The place of a category in the gate's order. */
  function Rank(kind: Kind): nat {
    match kind
    case MissingTransport => 0
    case UnexpectedTransport => 1
    case MissingMetric => 2
    case RunCount => 3
    case CpuUtilization => 4
    case Target => 5
    case FrameContract => 6
    case FrameTypeGap => 7
    case Lifecycle => 8
    case ErrorHandling => 9
    case ErrorCodes => 10
    case Runtime => 11
    case PluginConfig => 12
    case StartPayload => 13
    case ComparisonRequired => 14
    case BenchmarkInput => 15
    case ProtocolErrors => 16
    case MissingLatencyDelta => 17
    case InsufficientWin => 18
    case FinalizationRegression => 19
    case QueueRegression => 20
  }

  function RankAt(blockers: seq<Blocker>, p: nat): nat
    requires p < |blockers|
  {
    Rank(blockers[p].kind)
  }

  /**
   * The gate extends its list step by step. It passes when no category is blocked; otherwise it lists exactly the
   * blockers of the blocked categories, in the order of the categories.
   */
  method RecommendationGate(c: Comparison) returns (passed: bool, blockers: seq<Blocker>)
    ensures blockers == Blockers(c)
    ensures passed <==> blockers == []
    ensures passed <==> NoneBlocked(c)
    ensures HoldsExactly(blockers, GateLists(c)) && ByCategory(c, blockers) && InGateOrder(blockers)
  {
    ghost var lists := GateLists(c);
    blockers := [];
    for i := 0 to GATE_STEPS
      invariant blockers + ListsFrom(lists, i) == Blockers(c)
    {
      ListAt(c, i);
      GateStep(lists, i, blockers);
      blockers := blockers + GateList(c, i);
    }
    passed := blockers == [];
    NoBlockersIff(c);
    BlockersByCategory(c);
    BlockersHoldInOrder(c);
  }

  lemma GateStep(lists: seq<seq<Blocker>>, i: nat, before: seq<Blocker>)
    requires i < |lists|
    ensures before + ListsFrom(lists, i) == (before + lists[i]) + ListsFrom(lists, i + 1)
  {
  }

  lemma ListAt(c: Comparison, i: nat)
    requires i < GATE_STEPS
    ensures GateLists(c)[i] == GateList(c, i)
  {
  }

  lemma {:induction false} ListIsHeld(lists: seq<seq<Blocker>>, i: nat, j: nat, b: Blocker)
    requires i <= j < |lists| && b in lists[j]
    ensures b in ListsFrom(lists, i)
    decreases |lists| - i
  {
    if i < j {
      ListIsHeld(lists, i + 1, j, b);
    }
  }

  lemma {:induction false} HeldByList(lists: seq<seq<Blocker>>, i: nat, b: Blocker) returns (j: nat)
    requires i <= |lists| && b in ListsFrom(lists, i)
    ensures i <= j < |lists| && b in lists[j]
    decreases |lists| - i
  {
    j := i;
    if i < |lists| && b !in lists[i] {
      j := HeldByList(lists, i + 1, b);
    }
  }

  /** Each list holds blockers of its own category only. */
  ghost predicate Ranked(lists: seq<seq<Blocker>>) {
    forall i, p :: 0 <= i < |lists| && 0 <= p < |lists[i]| ==> Rank(lists[i][p].kind) == i
  }

  lemma {:induction false} ListsFromInOrder(lists: seq<seq<Blocker>>, i: nat)
    requires i <= |lists| && Ranked(lists)
    ensures forall p, q :: 0 <= p <= q < |ListsFrom(lists, i)| ==>
      i <= RankAt(ListsFrom(lists, i), p) <= RankAt(ListsFrom(lists, i), q)
    decreases |lists| - i
  {
    if i < |lists| {
      ListsFromInOrder(lists, i + 1);
      InOrderAfter(lists[i], ListsFrom(lists, i + 1), i);
    }
  }

  lemma InOrderAfter(here: seq<Blocker>, rest: seq<Blocker>, i: nat)
    requires forall p :: 0 <= p < |here| ==> RankAt(here, p) == i
    requires forall p, q :: 0 <= p <= q < |rest| ==> i + 1 <= RankAt(rest, p) <= RankAt(rest, q)
    ensures forall p, q :: 0 <= p <= q < |here + rest| ==> i <= RankAt(here + rest, p) <= RankAt(here + rest, q)
  {
    forall p, q | 0 <= p <= q < |here + rest|
      ensures i <= RankAt(here + rest, p) <= RankAt(here + rest, q)
    {
      assert (here + rest)[p] == if p < |here| then here[p] else rest[p - |here|];
      assert (here + rest)[q] == if q < |here| then here[q] else rest[q - |here|];
      assert p < |here| ==> RankAt(here + rest, p) == RankAt(here, p);
      assert q < |here| ==> RankAt(here + rest, q) == RankAt(here, q);
      assert p >= |here| ==> RankAt(here + rest, p) == RankAt(rest, p - |here|);
      assert q >= |here| ==> RankAt(here + rest, q) == RankAt(rest, q - |here|);
    }
  }

  lemma RankOfKindAt(i: nat)
    requires i < GATE_STEPS
    ensures Rank(KindAt(i)) == i
  {
  }

  lemma GateListsAreRanked(c: Comparison)
    ensures Ranked(GateLists(c))
  {
    forall i, p | 0 <= i < GATE_STEPS && 0 <= p < |GateLists(c)[i]|
      ensures Rank(GateLists(c)[i][p].kind) == i
    {
      ListAt(c, i);
      GateCategories(c, i);
      assert GateLists(c)[i][p] in GateList(c, i);
      RankOfKindAt(i);
    }
  }

  /** What the gate's list says, over lists that are known by category. */
  lemma ListedByCategory(lists: seq<seq<Blocker>>, i: nat)
    requires Ranked(lists) && i < |lists|
    ensures lists[i] != [] <==> SomeOfRank(ListsFrom(lists, 0), i)
  {
    if lists[i] != [] {
      assert lists[i][0] in lists[i];
      ListIsHeld(lists, 0, i, lists[i][0]);
    }
    if SomeOfRank(ListsFrom(lists, 0), i) {
      var b :| b in ListsFrom(lists, 0) && Rank(b.kind) == i;
      var j := HeldByList(lists, 0, b);
      var p :| 0 <= p < |lists[j]| && lists[j][p] == b;
      assert j == i;
    }
  }

  ghost predicate SomeOfRank(blockers: seq<Blocker>, i: nat) {
    exists b :: b in blockers && Rank(b.kind) == i
  }

  /** A category has blockers in the list exactly when it is blocked. */
  ghost predicate ByCategory(c: Comparison, blockers: seq<Blocker>) {
    forall i :: 0 <= i < GATE_STEPS ==> (CategoryBlocked(c, i) <==> SomeOfRank(blockers, i))
  }

  /** The list holds the blockers of the categories and no others. */
  ghost predicate HoldsExactly(blockers: seq<Blocker>, lists: seq<seq<Blocker>>) {
    forall b :: b in blockers <==> exists i :: 0 <= i < |lists| && b in lists[i]
  }

  predicate InGateOrder(blockers: seq<Blocker>) {
    forall p, q :: 0 <= p <= q < |blockers| ==> RankAt(blockers, p) <= RankAt(blockers, q)
  }

  lemma BlockersByCategory(c: Comparison)
    ensures ByCategory(c, Blockers(c))
  {
    GateListsAreRanked(c);
    var lists := GateLists(c);
    forall i | 0 <= i < GATE_STEPS
      ensures CategoryBlocked(c, i) <==> SomeOfRank(Blockers(c), i)
    {
      ListedByCategory(lists, i);
      ListAt(c, i);
      GateCategories(c, i);
    }
  }

  lemma ListsHoldExactly(lists: seq<seq<Blocker>>)
    ensures HoldsExactly(ListsFrom(lists, 0), lists)
  {
    forall b
      ensures b in ListsFrom(lists, 0) <==> exists i :: 0 <= i < |lists| && b in lists[i]
    {
      if b in ListsFrom(lists, 0) {
        var j := HeldByList(lists, 0, b);
      }
      if i :| 0 <= i < |lists| && b in lists[i] {
        ListIsHeld(lists, 0, i, b);
      }
    }
  }

  lemma ListsInGateOrder(lists: seq<seq<Blocker>>)
    requires Ranked(lists)
    ensures InGateOrder(ListsFrom(lists, 0))
  {
    ListsFromInOrder(lists, 0);
  }

  lemma BlockersHoldInOrder(c: Comparison)
    ensures HoldsExactly(Blockers(c), GateLists(c)) && InGateOrder(Blockers(c))
  {
    GateListsAreRanked(c);
    ListsHoldExactly(GateLists(c));
    ListsInGateOrder(GateLists(c));
  }

  predicate NoneBlocked(c: Comparison) {
    forall i :: 0 <= i < GATE_STEPS ==> !CategoryBlocked(c, i)
  }

  lemma NoBlockersIff(c: Comparison)
    ensures Blockers(c) == [] <==> NoneBlocked(c)
  {
    BlockersByCategory(c);
    NoBlockersByCategory(c, Blockers(c));
  }

  lemma NoBlockersByCategory(c: Comparison, blockers: seq<Blocker>)
    requires ByCategory(c, blockers)
    ensures blockers == [] <==> NoneBlocked(c)
  {
    if blockers != [] {
      RankInRange(blockers[0].kind);
      assert blockers[0] in blockers;
      assert SomeOfRank(blockers, Rank(blockers[0].kind));
    } else {
      assert forall i: nat :: !SomeOfRank(blockers, i);
    }
  }

  lemma RankInRange(kind: Kind)
    ensures Rank(kind) < GATE_STEPS
  {
  }

  lemma {:induction false} FirstOfLists(lists: seq<seq<Blocker>>, i: nat, first: nat)
    requires i <= first < |lists| && lists[first] != [] && forall j :: i <= j < first ==> lists[j] == []
    ensures ListsFrom(lists, i) != [] && ListsFrom(lists, i)[0] == lists[first][0]
    decreases |lists| - i
  {
    if i < first {
      FirstOfLists(lists, i + 1, first);
    }
  }

  /** The first blocker is of the first blocked category. */
  lemma FirstBlocker(c: Comparison, first: nat)
    requires first < GATE_STEPS && CategoryBlocked(c, first)
    requires forall j: nat :: j < first ==> !CategoryBlocked(c, j)
    ensures Blockers(c) != [] && Blockers(c)[0].kind == KindAt(first)
  {
    var lists := GateLists(c);
    forall j | 0 <= j <= first
      ensures lists[j] != [] <==> j == first
    {
      ListAt(c, j);
      GateCategories(c, j);
    }
    FirstOfLists(lists, 0, first);
    ListAt(c, first);
    GateCategories(c, first);
    assert lists[first][0] in lists[first];
  }

  /** The gate, the experimental flag, the text, the status, the next action and the exit code are one verdict. */
  lemma OneVerdict(c: Comparison)
    ensures GatePassed(c) <==> !Experimental(c)
    ensures GatePassed(c) <==> RecommendationText(c) == MeasurableWin
    ensures GatePassed(c) <==> Status(c) == Recommended
    ensures GatePassed(c) <==> DecisionNextAction(Blockers(c)) == Proceed
    ensures GatePassed(c) <==> ExitCode(c, true) == 0
  {
    if some: nat :| some < GATE_STEPS && CategoryBlocked(c, some) {
      FirstBlocker(c, FirstBlocked(c, some));
      TextOfFirst(c, FirstBlocked(c, some));
    } else {
      NoBlockersIff(c);
      NothingBlocked(c);
    }
  }

  lemma NothingBlocked(c: Comparison)
    requires forall i: nat :: i < GATE_STEPS ==> !CategoryBlocked(c, i)
    ensures !HasBlockingGaps(c, false) && !LatencyExperimental(c)
    ensures !Negative(RawDelta(c, FinalAfterFinalize)) && QueueRegressions(c) == []
  {
    NoGaps(c);
    assert !CategoryBlocked(c, 17) && !CategoryBlocked(c, 18) && !CategoryBlocked(c, 19) && !CategoryBlocked(c, 20);
  }

  /** Without the flag, the exit code is 1 exactly when there is a human-readable reason. */
  lemma ExitCodeIffReasons(c: Comparison)
    ensures ExitCode(c, false) == 1 <==> BlockingGaps(c) != []
  {
    MetricsEmptyIff(c.transports);
    ErrorReasonsEmptyIff(c.transports);
    var g := c.gaps;
    assert |BlockingGaps(c)| == |MissingTransports(c)| + |UnexpectedTransports(c.transports)|
      + |MetricReasons(MissingMetricsByTransport(c.transports))|
      + |g.runs| + |g.cpu| + |g.targets| + |g.frameContract| + |g.frameTypes| + |g.lifecycle| + |g.errorHandling|
      + |g.errorCodes| + |g.runtime| + |g.pluginConfig| + |g.startPayload| + |g.comparisonRequirement| + |g.inputs|
      + |ErrorReasons(c.transports)|;
  }

  lemma {:induction false} ErrorReasonsEmptyIff(transports: seq<(string, Payload)>)
    ensures ErrorReasons(transports) == [] <==> forall i :: 0 <= i < |transports| ==> transports[i].1.protocolErrorFree
  {
    if |transports| > 0 {
      ErrorReasonsEmptyIff(transports[1..]);
      assert forall i :: 0 < i < |transports| ==> transports[i] == transports[1..][i - 1];
    }
  }

  /**
   * The text gives the reason the gate puts first, with one exception: when the latency win is
   * there but too small and something else regressed, the text names the regression.
   */
  predicate TextLooksPastLatency(c: Comparison) {
    && !HasBlockingGaps(c, false)
    && RawDelta(c, FirstInterim).Some? && RawDelta(c, FirstInterim).value < c.minWinMs
    && (Negative(RawDelta(c, FinalAfterFinalize)) || QueueRegressions(c) != [])
  }

  lemma TextNamesFirstBlocker(c: Comparison)
    requires Blockers(c) != []
    ensures RecommendationText(c) == KeepFor(Blockers(c)[0].kind) <==> !TextLooksPastLatency(c)
    ensures TextLooksPastLatency(c) ==> Blockers(c)[0].kind == InsufficientWin
  {
    NoBlockersIff(c);
    var some: nat :| some < GATE_STEPS && CategoryBlocked(c, some);
    var i := FirstBlocked(c, some);
    FirstBlocker(c, i);
    TextOfCategory(c, i);
  }

  lemma TextOfCategory(c: Comparison, i: nat)
    requires i < GATE_STEPS && CategoryBlocked(c, i) && Blockers(c) != []
    requires forall j: nat :: j < i ==> !CategoryBlocked(c, j)
    ensures RecommendationText(c) == KeepFor(KindAt(i)) <==> !TextLooksPastLatency(c)
    ensures TextLooksPastLatency(c) ==> KindAt(i) == InsufficientWin
  {
    TextOfFirst(c, i);
    PastLatencyIff(c, i);
  }

  /** Only a win that is too small, with a regression behind it, is passed over. */
  lemma PastLatencyIff(c: Comparison, i: nat)
    requires i < GATE_STEPS && CategoryBlocked(c, i)
    requires forall j: nat :: j < i ==> !CategoryBlocked(c, j)
    requires i < 17 <==> HasBlockingGaps(c, false)
    ensures TextLooksPastLatency(c) <==> i == 18 && LatencyText(c) != KeepFor(InsufficientWin)
  {
    assert i > 17 ==> !CategoryBlocked(c, 17);
    assert i > 18 ==> !CategoryBlocked(c, 18);
  }

  ghost function FirstBlocked(c: Comparison, some: nat): (first: nat)
    requires some < GATE_STEPS && CategoryBlocked(c, some)
    ensures first <= some && CategoryBlocked(c, first)
    ensures forall j: nat :: j < first ==> !CategoryBlocked(c, j)
    decreases some
  {
    if exists earlier: nat :: earlier < some && CategoryBlocked(c, earlier) then
      var earlier: nat :| earlier < some && CategoryBlocked(c, earlier);
      FirstBlocked(c, earlier)
    else some
  }

  /** What the text says, by the first blocked category. */
  lemma TextOfFirst(c: Comparison, i: nat)
    requires i < GATE_STEPS && CategoryBlocked(c, i) && Experimental(c)
    requires forall j: nat :: j < i ==> !CategoryBlocked(c, j)
    ensures i < 17 ==> HasBlockingGaps(c, false) && RecommendationText(c) == KeepFor(KindAt(i))
    ensures i >= 17 ==> !HasBlockingGaps(c, false)
    ensures i == 18 ==> RecommendationText(c) == LatencyText(c)
    ensures i >= 17 && i != 18 ==> RecommendationText(c) == KeepFor(KindAt(i))
  {
    if i < 17 {
      GapBlocks(c, i);
      GapText(c, i);
    } else {
      NoGaps(c);
      LateText(c, i);
    }
  }

  lemma LateText(c: Comparison, i: nat)
    requires 17 <= i < GATE_STEPS && CategoryBlocked(c, i) && Experimental(c) && !HasBlockingGaps(c, false)
    requires forall j: nat :: j < i ==> !CategoryBlocked(c, j)
    ensures i == 18 ==> RecommendationText(c) == LatencyText(c)
    ensures i != 18 ==> RecommendationText(c) == KeepFor(KindAt(i))
  {
    assert i > 17 ==> !CategoryBlocked(c, 17);
    assert i > 18 ==> !CategoryBlocked(c, 18);
    assert i > 19 ==> !CategoryBlocked(c, 19);
  }

  /** The text when the latency win is what the gate lists first. */
  function LatencyText(c: Comparison): Text {
    if Negative(RawDelta(c, FinalAfterFinalize)) then KeepFor(FinalizationRegression)
    else if QueueRegressions(c) != [] then KeepFor(QueueRegression) else KeepFor(InsufficientWin)
  }

  lemma NoGaps(c: Comparison)
    requires forall j: nat :: j < 17 ==> !CategoryBlocked(c, j)
    ensures !HasBlockingGaps(c, false)
  {
    assert !CategoryBlocked(c, 0) && !CategoryBlocked(c, 1) && !CategoryBlocked(c, 2) && !CategoryBlocked(c, 3);
    assert !CategoryBlocked(c, 4) && !CategoryBlocked(c, 5) && !CategoryBlocked(c, 6) && !CategoryBlocked(c, 7);
    assert !CategoryBlocked(c, 8) && !CategoryBlocked(c, 9) && !CategoryBlocked(c, 10) && !CategoryBlocked(c, 11);
    assert !CategoryBlocked(c, 12) && !CategoryBlocked(c, 13) && !CategoryBlocked(c, 14) && !CategoryBlocked(c, 15);
    assert !CategoryBlocked(c, 16);
  }

  lemma GapBlocks(c: Comparison, i: nat)
    requires i < 17 && CategoryBlocked(c, i)
    ensures HasBlockingGaps(c, false)
  {
  }

  lemma GapText(c: Comparison, i: nat)
    requires i < 17 && CategoryBlocked(c, i)
    requires forall j: nat :: j < i ==> !CategoryBlocked(c, j)
    ensures RecommendationText(c) == KeepFor(KindAt(i))
  {
    if i < 8 {
      EarlyGapText(c, i);
    } else {
      NoneBefore(c, i, 0);
      NoneBefore(c, i, 4);
      NoneBefore(c, i, 8);
      NoneBefore(c, i, 12);
    }
  }

  lemma EarlyGapText(c: Comparison, i: nat)
    requires i < 8 && CategoryBlocked(c, i)
    requires forall j: nat :: j < i ==> !CategoryBlocked(c, j)
    ensures RecommendationText(c) == KeepFor(KindAt(i))
  {
    NoneBefore(c, i, 0);
    NoneBefore(c, i, 4);
  }

  lemma NoneBefore(c: Comparison, i: nat, from: nat)
    requires forall j: nat :: j < i ==> !CategoryBlocked(c, j)
    ensures from < i ==> !CategoryBlocked(c, from)
    ensures from + 1 < i ==> !CategoryBlocked(c, from + 1)
    ensures from + 2 < i ==> !CategoryBlocked(c, from + 2)
    ensures from + 3 < i ==> !CategoryBlocked(c, from + 3)
  {
  }

  // ---- Deltas ------------------------------------------------------------------------------

  lemma RoundToOdd(x: real, scale: int)
    requires scale > 0
    ensures RoundTo(-x, scale) == -RoundTo(x, scale)
  {
    var y := Times(x, scale);
    NegatedTimes(x, scale);
    RoundHalfEvenOdd(y);
    var n := RoundHalfEven(y);
    NegatedOver(n, scale);
  }

  lemma NegatedTimes(x: real, scale: int)
    ensures Times(-x, scale) == -Times(x, scale)
  {
  }

  lemma NegatedOver(n: int, scale: int)
    requires scale > 0
    ensures Over(-n, scale) == -Over(n, scale)
  {
  }

  lemma RoundHalfEvenOdd(y: real)
    ensures RoundHalfEven(-y) == -RoundHalfEven(y)
  {
    var below := y.Floor;
    if y == below as real {
      assert (-y).Floor == -below;
    } else {
      assert (-y).Floor == -below - 1;
    }
  }

  /** Swapping baseline and candidate negates every entry of the delta matrix. */
  lemma DeltaMatrixAntisymmetric(c: Comparison, metric: Metric, baseline: string, candidate: string)
    ensures var forward, back := DeltaMatrix(c, metric, baseline, candidate), DeltaMatrix(c, metric, candidate, baseline);
      (forward.None? <==> back.None?) && (forward.Some? ==> back.value == -forward.value)
  {
    var b, d := P95(c, baseline, metric), P95(c, candidate, metric);
    if b.Some? && d.Some? {
      RoundToOdd(b.value - d.value, 10);
    }
  }

  lemma RoundedNegativeIff(x: real, scale: int)
    requires scale > 0
    ensures RoundTo(x, scale) < 0.0 <==> 2.0 * Times(x, scale) < -1.0
  {
    var n := RoundHalfEven(Times(x, scale));
    assert n < 0 <==> 2.0 * Times(x, scale) < -1.0;
    assert n < 0 <==> Over(n, scale) < 0.0;
  }

  lemma RoundedPositiveIff(x: real, scale: int)
    requires scale > 0
    ensures RoundTo(x, scale) > 0.0 <==> 2.0 * Times(x, scale) > 1.0
  {
    RoundToOdd(x, scale);
    RoundedNegativeIff(-x, scale);
    NegatedTimes(x, scale);
  }

  /** The status shown against a baseline, by the exact difference. */
  lemma SummaryStatusIs(c: Comparison, baseline: string, metric: Metric)
    ensures var b, raw := P95(c, baseline, metric), P95(c, "raw_uds", metric);
      && (SummaryStatus(c, baseline, metric) == Missing <==> b.None? || raw.None?)
      && (b.Some? && raw.Some? ==>
            && (SummaryStatus(c, baseline, metric) == Regressed <==> raw.value - b.value > 0.0005)
            && (SummaryStatus(c, baseline, metric) == Improved <==> b.value - raw.value > 0.0005))
  {
    var b, raw := P95(c, baseline, metric), P95(c, "raw_uds", metric);
    if b.Some? && raw.Some? {
      RoundedNegativeIff(b.value - raw.value, 1000);
      RoundedPositiveIff(b.value - raw.value, 1000);
    }
  }

  /**
   * A regression that blocks the gate is always shown as a regression against the websocket; one
   * that is shown blocks exactly when it is worse than a twentieth of a millisecond.
   */
  lemma BlockingRegressionIsShown(c: Comparison, metric: Metric)
    requires P95(c, "uds_ws", metric).Some? && P95(c, "raw_uds", metric).Some?
    ensures var worse := P95(c, "raw_uds", metric).value - P95(c, "uds_ws", metric).value;
      && (Negative(RawDelta(c, metric)) <==> worse > 0.05)
      && (SummaryStatus(c, "uds_ws", metric) == Regressed <==> worse > 0.0005)
  {
    var x := P95(c, "uds_ws", metric).value - P95(c, "raw_uds", metric).value;
    RoundedNegativeIff(x, 10);
    RoundedNegativeIff(x, 1000);
  }
}
