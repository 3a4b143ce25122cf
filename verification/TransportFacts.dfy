/** What the verdict on raw UDS says about the artifacts themselves: who occurs, what they miss, and how they compare. */
module TransportFacts {
  import opened Results
  import opened Rounding
  import opened Sequences
  import opened TransportDecision

  // ---- Facts about the artifacts -----------------------------------------------------------

  /** As `CompareArtifacts` collects them. */
  ghost predicate Distinct(c: Comparison) {
    forall i, j :: 0 <= i < j < |c.transports| ==> c.transports[i].0 != c.transports[j].0
  }

  ghost predicate Occurs(c: Comparison, name: string) {
    exists t :: t in c.transports && t.0 == name
  }

  /** The artifact of the transport has this p95. */
  ghost predicate Has(c: Comparison, name: string, metric: Metric, p95: real) {
    exists t :: t in c.transports && t.0 == name && metric in t.1.p95 && t.1.p95[metric] == p95
  }

  predicate IsRequired(name: string) {
    name in {"tcp_ws", "uds_ws", "raw_uds"}
  }

  /** Raw UDS is more than a twentieth of a millisecond above the websocket. */
  ghost predicate Worse(c: Comparison, metric: Metric) {
    exists uds, raw :: Has(c, "uds_ws", metric, uds) && Has(c, "raw_uds", metric, raw) && raw - uds > 0.05
  }

  /** Raw UDS wins by at least the minimum, as printed to a tenth of a millisecond. */
  ghost predicate Wins(c: Comparison) {
    exists uds, raw ::
      Has(c, "uds_ws", FirstInterim, uds) && Has(c, "raw_uds", FirstInterim, raw) && RoundTo(uds - raw, 10) >= c.minWinMs
  }

  ghost predicate Compared(c: Comparison) {
    exists uds, raw :: Has(c, "uds_ws", FirstInterim, uds) && Has(c, "raw_uds", FirstInterim, raw)
  }

  // ---- Looking up --------------------------------------------------------------------------

  lemma {:induction false} FindIs(transports: seq<(string, Payload)>, name: string)
    ensures Find(transports, name).Some? ==> (name, Find(transports, name).value) in transports
    ensures Find(transports, name).None? <==> forall t :: t in transports ==> t.0 != name
  {
    if transports != [] {
      FindIs(transports[1..], name);
      assert transports == [transports[0]] + transports[1..];
    }
  }

  lemma OneOfEach(c: Comparison, one: (string, Payload), other: (string, Payload))
    requires Distinct(c) && one in c.transports && other in c.transports && one.0 == other.0
    ensures one == other
  {
    var i :| 0 <= i < |c.transports| && c.transports[i] == one;
    var j :| 0 <= j < |c.transports| && c.transports[j] == other;
    assert i == j;
  }

  lemma P95Is(c: Comparison, name: string, metric: Metric)
    requires Distinct(c)
    ensures forall v :: Has(c, name, metric, v) <==> P95(c, name, metric) == Some(v)
  {
    FindIs(c.transports, name);
    var found := Find(c.transports, name);
    forall v
      ensures Has(c, name, metric, v) <==> P95(c, name, metric) == Some(v)
    {
      if Has(c, name, metric, v) {
        var t :| t in c.transports && t.0 == name && metric in t.1.p95 && t.1.p95[metric] == v;
        OneOfEach(c, t, (name, found.value));
      }
    }
  }

  lemma WorseIff(c: Comparison, metric: Metric)
    requires Distinct(c)
    ensures Negative(RawDelta(c, metric)) <==> Worse(c, metric)
  {
    P95Is(c, "uds_ws", metric);
    P95Is(c, "raw_uds", metric);
    if P95(c, "uds_ws", metric).Some? && P95(c, "raw_uds", metric).Some? {
      BlockingRegressionIsShown(c, metric);
      assert Has(c, "uds_ws", metric, P95(c, "uds_ws", metric).value);
      assert Has(c, "raw_uds", metric, P95(c, "raw_uds", metric).value);
    }
  }

  lemma WinsIff(c: Comparison)
    requires Distinct(c)
    ensures RawDelta(c, FirstInterim).Some? <==> Compared(c)
    ensures RawDelta(c, FirstInterim).Some? && RawDelta(c, FirstInterim).value >= c.minWinMs <==> Wins(c)
  {
    P95Is(c, "uds_ws", FirstInterim);
    P95Is(c, "raw_uds", FirstInterim);
    if P95(c, "uds_ws", FirstInterim).Some? && P95(c, "raw_uds", FirstInterim).Some? {
      assert Has(c, "uds_ws", FirstInterim, P95(c, "uds_ws", FirstInterim).value);
      assert Has(c, "raw_uds", FirstInterim, P95(c, "raw_uds", FirstInterim).value);
    }
  }

  /** An entry of the delta matrix is there for two different transports that have the metric, and near the difference. */
  lemma DeltaIs(c: Comparison, metric: Metric, baseline: string, candidate: string)
    requires Distinct(c)
    ensures var delta := DeltaMatrix(c, metric, baseline, candidate);
      && (delta.Some? <==> baseline != candidate
                           && (exists b :: Has(c, baseline, metric, b)) && (exists d :: Has(c, candidate, metric, d)))
      && forall b, d :: delta.Some? && Has(c, baseline, metric, b) && Has(c, candidate, metric, d) ==>
           -0.05 <= delta.value - (b - d) <= 0.05
  {
    P95Is(c, baseline, metric);
    P95Is(c, candidate, metric);
    var b, d := P95(c, baseline, metric), P95(c, candidate, metric);
    if b.Some? && d.Some? {
      assert Has(c, baseline, metric, b.value) && Has(c, candidate, metric, d.value);
      RoundedTenth(b.value - d.value);
    }
  }

  // ---- The lists of the gate ---------------------------------------------------------------

  lemma {:induction false} FilterMissingIs(transports: seq<(string, Payload)>, required: seq<string>, name: string)
    ensures name in FilterMissing(transports, required) <==> name in required && forall t :: t in transports ==> t.0 != name
  {
    if required != [] {
      FindIs(transports, required[0]);
      FilterMissingIs(transports, required[1..], name);
      assert required == [required[0]] + required[1..];
    }
  }

  lemma {:induction false} UnexpectedIs(transports: seq<(string, Payload)>, name: string)
    ensures name in UnexpectedTransports(transports) <==> !IsRequired(name) && exists t :: t in transports && t.0 == name
  {
    if transports != [] {
      UnexpectedIs(transports[1..], name);
      assert transports == [transports[0]] + transports[1..];
    }
  }

  /** Nothing is missing for an entry that is not there, and what is missing is listed under its transport. */
  lemma {:induction false} MissingMetricIs(transports: seq<(string, Payload)>, b: Blocker)
    ensures b in MetricBlockers(MissingMetricsByTransport(transports)) <==>
      exists t, m :: t in transports && m in t.1.missingMetrics && b == Blocker(MissingMetric, [t.0, m])
  {
    if transports != [] {
      var first, rest := transports[0], transports[1..];
      MissingMetricIs(rest, b);
      assert transports == [first] + rest;
      MetricBlockersCons(first.0, first.1.missingMetrics, MissingMetricsByTransport(rest), b);
    }
  }

  lemma MetricBlockersCons(transport: string, gaps: seq<string>, rest: seq<(string, seq<string>)>, b: Blocker)
    ensures b in MetricBlockers([(transport, gaps)] + rest) <==>
      b in MetricBlockers(rest) || exists m :: m in gaps && b == Blocker(MissingMetric, [transport, m])
    ensures [] + rest == rest
  {
    assert ([(transport, gaps)] + rest)[1..] == rest;
    var blockers := seq(|gaps|, i requires 0 <= i < |gaps| => Blocker(MissingMetric, [transport, gaps[i]]));
    if m :| m in gaps && b == Blocker(MissingMetric, [transport, m]) {
      var i :| 0 <= i < |gaps| && gaps[i] == m;
      assert blockers[i] == b;
    }
  }

  lemma BlockersForIs(kind: Kind, gaps: seq<string>, b: Blocker)
    ensures b in BlockersFor(kind, gaps) <==> exists g :: g in gaps && b == Blocker(kind, [g])
  {
    if g :| g in gaps && b == Blocker(kind, [g]) {
      var i :| 0 <= i < |gaps| && gaps[i] == g;
      assert BlockersFor(kind, gaps)[i] == b;
    }
  }

  /** The gap list of a category that is not about transports or latencies. */
  function GapsOf(g: Gaps, kind: Kind): seq<string> {
    match kind
    case RunCount => g.runs
    case CpuUtilization => g.cpu
    case Target => g.targets
    case FrameContract => g.frameContract
    case FrameTypeGap => g.frameTypes
    case Lifecycle => g.lifecycle
    case ErrorHandling => g.errorHandling
    case ErrorCodes => g.errorCodes
    case Runtime => g.runtime
    case PluginConfig => g.pluginConfig
    case StartPayload => g.startPayload
    case ComparisonRequired => g.comparisonRequirement
    case BenchmarkInput => g.inputs
    case _ => []
  }

  /** What a blocker says of the artifacts. */
  ghost predicate Holds(c: Comparison, b: Blocker) {
    match b.kind
    case MissingTransport => |b.detail| == 1 && IsRequired(b.detail[0]) && !Occurs(c, b.detail[0])
    case UnexpectedTransport => |b.detail| == 1 && !IsRequired(b.detail[0]) && Occurs(c, b.detail[0])
    case MissingMetric => exists t, m :: t in c.transports && m in t.1.missingMetrics && b.detail == [t.0, m]
    case ProtocolErrors => b.detail == [] && exists t :: t in c.transports && !t.1.protocolErrorFree
    case MissingLatencyDelta => b.detail == [] && !Compared(c)
    case InsufficientWin => b.detail == [] && Compared(c) && !Wins(c)
    case FinalizationRegression => b.detail == [] && Worse(c, FinalAfterFinalize)
    case QueueRegression =>
      || (b.detail == ["audio_send_queue_depth_p95_ms"] && Worse(c, SendQueueDepth))
      || (b.detail == ["asr_queue_delay_p95_ms"] && Worse(c, AsrQueueDelay))
    case _ => |b.detail| == 1 && b.detail[0] in GapsOf(c.gaps, b.kind)
  }

  lemma TransportBlockers(c: Comparison, b: Blocker, i: nat)
    requires Rank(b.kind) == i < 3
    ensures b in GateList(c, i) <==> Holds(c, b)
  {
    if i == 0 {
      MissingTransportIs(c, b);
    } else if i == 1 {
      UnexpectedTransportIs(c, b);
    } else {
      MissingMetricIs(c.transports, b);
      assert b == Blocker(MissingMetric, b.detail);
    }
  }

  lemma MissingTransportIs(c: Comparison, b: Blocker)
    requires b.kind == MissingTransport
    ensures b in GateList(c, 0) <==> Holds(c, b)
  {
    BlockersForIs(MissingTransport, MissingTransports(c), b);
    if |b.detail| == 1 {
      FilterMissingIs(c.transports, REQUIRED_TRANSPORTS, b.detail[0]);
      assert b == Blocker(MissingTransport, [b.detail[0]]);
    }
  }

  lemma UnexpectedTransportIs(c: Comparison, b: Blocker)
    requires b.kind == UnexpectedTransport
    ensures b in GateList(c, 1) <==> Holds(c, b)
  {
    BlockersForIs(UnexpectedTransport, UnexpectedTransports(c.transports), b);
    if |b.detail| == 1 {
      UnexpectedIs(c.transports, b.detail[0]);
      assert b == Blocker(UnexpectedTransport, [b.detail[0]]);
    }
  }

  lemma GapBlockers(c: Comparison, b: Blocker, i: nat)
    requires 3 <= Rank(b.kind) == i < 16
    ensures b in GateList(c, i) <==> Holds(c, b)
  {
    BlockersForIs(b.kind, GapsOf(c.gaps, b.kind), b);
    assert GateList(c, i) == BlockersFor(b.kind, GapsOf(c.gaps, b.kind));
    assert b == Blocker(b.kind, b.detail);
  }

  lemma MeasuredBlockers(c: Comparison, b: Blocker, i: nat)
    requires Distinct(c) && 16 <= Rank(b.kind) == i < 20
    ensures b in GateList(c, i) <==> Holds(c, b)
  {
    WinsIff(c);
    WorseIff(c, FinalAfterFinalize);
    ErrorFreeIff(c);
    assert b == Blocker(b.kind, b.detail);
  }

  lemma ErrorFreeIff(c: Comparison)
    ensures AllErrorFree(c) <==> forall t :: t in c.transports ==> t.1.protocolErrorFree
  {
    assert forall i :: 0 <= i < |c.transports| ==> c.transports[i] in c.transports;
  }

  lemma QueueRegressionsAre(c: Comparison, metric: Metric)
    requires Distinct(c)
    ensures metric in QueueRegressions(c) <==> metric in {SendQueueDepth, AsrQueueDelay} && Worse(c, metric)
  {
    WorseIff(c, SendQueueDepth);
    WorseIff(c, AsrQueueDelay);
  }

  lemma NamedRegressions(metrics: seq<Metric>, b: Blocker)
    ensures b in QueueBlockers(metrics) <==> exists m :: m in metrics && b == Blocker(QueueRegression, [MetricName(m)])
  {
    var blockers := QueueBlockers(metrics);
    if m :| m in metrics && b == Blocker(QueueRegression, [MetricName(m)]) {
      var i :| 0 <= i < |metrics| && metrics[i] == m;
      assert blockers[i] == b;
    }
  }

  lemma QueueBlockersAre(c: Comparison, b: Blocker)
    requires Distinct(c) && b.kind == QueueRegression
    ensures b in GateList(c, 20) <==> Holds(c, b)
  {
    NamedRegressions(QueueRegressions(c), b);
    QueueRegressionsAre(c, SendQueueDepth);
    QueueRegressionsAre(c, AsrQueueDelay);
    assert b == Blocker(QueueRegression, b.detail);
    if m :| m in QueueRegressions(c) && b == Blocker(QueueRegression, [MetricName(m)]) {
      QueueRegressionsAre(c, m);
    }
  }

  /** The gate lists a blocker exactly when what it says holds of the artifacts. */
  lemma BlockerListedIff(c: Comparison, b: Blocker)
    requires Distinct(c)
    ensures b in Blockers(c) <==> Holds(c, b)
  {
    var i := Rank(b.kind);
    RankInRange(b.kind);
    if i < 3 {
      TransportBlockers(c, b, i);
    } else if i < 16 {
      GapBlockers(c, b, i);
    } else if i < 20 {
      MeasuredBlockers(c, b, i);
    } else {
      QueueBlockersAre(c, b);
    }
    BlockersHoldInOrder(c);
    ListAt(c, i);
    if j: nat :| j < GATE_STEPS && b in GateLists(c)[j] {
      ListAt(c, j);
      GateCategories(c, j);
      RankOfKindAt(j);
    }
  }

  ghost predicate NoGapsListed(g: Gaps) {
    forall kind :: GapsOf(g, kind) == []
  }

  /**
   * The gate passes, and with it every verdict, exactly for the three required transports and no other, none of which
   * misses a metric or saw a protocol error, without gaps, with a win that is large enough, and nothing worse.
   */
  lemma GatePassedIff(c: Comparison)
    requires Distinct(c)
    ensures GatePassed(c) <==>
      && (forall name :: Occurs(c, name) <==> IsRequired(name))
      && (forall t :: t in c.transports ==> t.1.missingMetrics == [] && t.1.protocolErrorFree)
      && NoGapsListed(c.gaps)
      && Wins(c) && !Worse(c, FinalAfterFinalize) && !Worse(c, SendQueueDepth) && !Worse(c, AsrQueueDelay)
  {
    forall b
      ensures b in Blockers(c) <==> Holds(c, b)
    {
      BlockerListedIff(c, b);
    }
    if GatePassed(c) {
      NothingHeldTransports(c);
      NothingHeldParts(c);
      NothingHeldGaps(c);
      NothingHeldLatencies(c);
      NothingHeldQueues(c);
    } else {
      var b := Blockers(c)[0];
      assert Holds(c, b);
      assert b.kind == MissingMetric ==> exists t :: t in c.transports && t.1.missingMetrics != [];
      assert 3 <= Rank(b.kind) < 16 ==> GapsOf(c.gaps, b.kind) != [];
    }
  }

  lemma NothingHeldTransports(c: Comparison)
    requires forall b :: !Holds(c, b)
    ensures forall name :: Occurs(c, name) <==> IsRequired(name)
  {
    forall name ensures Occurs(c, name) <==> IsRequired(name) {
      assert !Holds(c, Blocker(MissingTransport, [name])) && !Holds(c, Blocker(UnexpectedTransport, [name]));
    }
  }

  lemma NothingHeldParts(c: Comparison)
    requires forall b :: !Holds(c, b)
    ensures forall t :: t in c.transports ==> t.1.missingMetrics == [] && t.1.protocolErrorFree
  {
    assert !Holds(c, Blocker(ProtocolErrors, []));
    forall t | t in c.transports ensures t.1.missingMetrics == [] {
      MissedMetricHolds(c, t);
    }
  }

  lemma MissedMetricHolds(c: Comparison, t: (string, Payload))
    requires t in c.transports
    ensures t.1.missingMetrics != [] ==> exists b :: Holds(c, b)
  {
    if t.1.missingMetrics != [] {
      assert t.1.missingMetrics[0] in t.1.missingMetrics;
      assert Holds(c, Blocker(MissingMetric, [t.0, t.1.missingMetrics[0]]));
    }
  }

  lemma NothingHeldGaps(c: Comparison)
    requires forall b :: !Holds(c, b)
    ensures NoGapsListed(c.gaps)
  {
    forall kind ensures GapsOf(c.gaps, kind) == [] {
      ListedGapHolds(c, kind);
    }
  }

  lemma ListedGapHolds(c: Comparison, kind: Kind)
    ensures GapsOf(c.gaps, kind) != [] ==> exists b :: Holds(c, b)
  {
    if GapsOf(c.gaps, kind) != [] {
      assert Holds(c, Blocker(kind, [GapsOf(c.gaps, kind)[0]]));
    }
  }

  lemma NothingHeldLatencies(c: Comparison)
    requires forall b :: !Holds(c, b)
    ensures Wins(c) && !Worse(c, FinalAfterFinalize)
  {
    HeldLatencies(c);
    assert !Holds(c, Blocker(MissingLatencyDelta, [])) && !Holds(c, Blocker(InsufficientWin, []));
    assert !Holds(c, Blocker(FinalizationRegression, []));
  }

  lemma HeldLatencies(c: Comparison)
    ensures Holds(c, Blocker(MissingLatencyDelta, [])) <==> !Compared(c)
    ensures Holds(c, Blocker(InsufficientWin, [])) <==> Compared(c) && !Wins(c)
    ensures Holds(c, Blocker(FinalizationRegression, [])) <==> Worse(c, FinalAfterFinalize)
  {
  }

  lemma NothingHeldQueues(c: Comparison)
    requires forall b :: !Holds(c, b)
    ensures !Worse(c, SendQueueDepth) && !Worse(c, AsrQueueDelay)
  {
    HeldQueue(c, SendQueueDepth);
    HeldQueue(c, AsrQueueDelay);
  }

  lemma HeldQueue(c: Comparison, metric: Metric)
    requires metric == SendQueueDepth || metric == AsrQueueDelay
    ensures Worse(c, metric) ==> Holds(c, Blocker(QueueRegression, [MetricName(metric)]))
  {
  }

  /** What the text says when it looks past a win that is too small. */
  lemma TextPastLatency(c: Comparison)
    requires Distinct(c) && Blockers(c) != [] && TextLooksPastLatency(c)
    ensures RecommendationText(c)
         == if Worse(c, FinalAfterFinalize) then KeepFor(FinalizationRegression) else KeepFor(QueueRegression)
  {
    WorseIff(c, FinalAfterFinalize);
    NoGapText(c);
  }

  lemma NoGapText(c: Comparison)
    requires TextLooksPastLatency(c)
    ensures RecommendationText(c)
         == if Negative(RawDelta(c, FinalAfterFinalize)) then KeepFor(FinalizationRegression) else KeepFor(QueueRegression)
  {
  }

  /** The next action is about the first blocked category; only an unexpected transport has no action of its own. */
  lemma NextActionIs(c: Comparison, first: nat)
    requires first < GATE_STEPS && CategoryBlocked(c, first) && forall j: nat :: j < first ==> !CategoryBlocked(c, j)
    ensures DecisionNextAction(Blockers(c)) == if first == 1 then ReviewBlockers else ActOn(KindAt(first))
  {
    FirstBlocker(c, first);
    RankOfKindAt(first);
  }

  // ---- The reasons -------------------------------------------------------------------------

  /** The details of the blockers that stand ahead of the protocol errors. */
  function GapDetails(blockers: seq<Blocker>): seq<seq<string>> {
    if blockers == [] then []
    else if Rank(blockers[0].kind) < 16 then [blockers[0].detail] + GapDetails(blockers[1..])
    else GapDetails(blockers[1..])
  }

  lemma {:induction false} GapDetailsConcat(a: seq<Blocker>, b: seq<Blocker>)
    ensures GapDetails(a + b) == GapDetails(a) + GapDetails(b)
  {
    if a == [] {
      ConcatEmpty(b);
      ConcatEmpty(GapDetails(b));
    } else {
      assert (a + b)[1..] == a[1..] + b;
      GapDetailsConcat(a[1..], b);
      if Rank(a[0].kind) < 16 {
        ConcatAssociative([a[0].detail], GapDetails(a[1..]), GapDetails(b));
      }
    }
  }

  lemma {:induction false} DetailsOf(blockers: seq<Blocker>)
    ensures (forall b :: b in blockers ==> Rank(b.kind) < 16) ==>
      |GapDetails(blockers)| == |blockers| && forall i :: 0 <= i < |blockers| ==> GapDetails(blockers)[i] == blockers[i].detail
    ensures (forall b :: b in blockers ==> Rank(b.kind) >= 16) ==> GapDetails(blockers) == []
  {
    if blockers != [] {
      DetailsOf(blockers[1..]);
      assert blockers == [blockers[0]] + blockers[1..];
    }
  }

  lemma DetailsOfGaps(kind: Kind, gaps: seq<string>)
    requires Rank(kind) < 16
    ensures GapDetails(BlockersFor(kind, gaps)) == Singles(gaps)
  {
    DetailsOf(BlockersFor(kind, gaps));
  }

  lemma {:induction false} DetailsOfMetrics(missing: seq<(string, seq<string>)>)
    ensures GapDetails(MetricBlockers(missing)) == MetricReasons(missing)
  {
    if missing != [] {
      var (transport, gaps) := missing[0];
      var here := seq(|gaps|, i requires 0 <= i < |gaps| => Blocker(MissingMetric, [transport, gaps[i]]));
      DetailsOfMetrics(missing[1..]);
      GapDetailsConcat(here, MetricBlockers(missing[1..]));
      DetailsOf(here);
      assert GapDetails(here) == seq(|gaps|, i requires 0 <= i < |gaps| => [transport, gaps[i]]);
    }
  }

  /** Lists one behind the other, from one of them on. */
  function Flat(parts: seq<seq<seq<string>>>, i: nat, rest: seq<seq<string>>): seq<seq<string>>
    requires i <= |parts|
    decreases |parts| - i
  {
    if i == |parts| then rest else parts[i] + Flat(parts, i + 1, rest)
  }

  lemma {:induction false} FlatThen(parts: seq<seq<seq<string>>>, i: nat, rest: seq<seq<string>>)
    requires i <= |parts|
    ensures Flat(parts, i, rest) == Flat(parts, i, []) + rest
    decreases |parts| - i
  {
    if i == |parts| {
      ConcatEmpty(rest);
    } else {
      FlatThen(parts, i + 1, rest);
      ConcatAssociative(parts[i], Flat(parts, i + 1, []), rest);
    }
  }

  lemma FlatOfEight(parts: seq<seq<seq<string>>>, i: nat, rest: seq<seq<string>>)
    requires i + 8 <= |parts|
    ensures Flat(parts, i, rest)
         == parts[i] + (parts[i + 1] + (parts[i + 2] + (parts[i + 3] + (parts[i + 4] + (parts[i + 5] + (parts[i + 6]
            + (parts[i + 7] + Flat(parts, i + 8, rest))))))))
  {
    var r7, r6, r5 := Flat(parts, i + 7, rest), Flat(parts, i + 6, rest), Flat(parts, i + 5, rest);
    assert r7 == parts[i + 7] + Flat(parts, i + 8, rest);
    assert r6 == parts[i + 6] + r7;
    assert r5 == parts[i + 5] + r6;
    var r4, r3, r2, r1 := Flat(parts, i + 4, rest), Flat(parts, i + 3, rest), Flat(parts, i + 2, rest), Flat(parts, i + 1, rest);
    assert r4 == parts[i + 4] + r5;
    assert r3 == parts[i + 3] + r4;
    assert r2 == parts[i + 2] + r3;
    assert r1 == parts[i + 1] + r2;
  }

  /** The reasons of one category. */
  function ReasonsOf(c: Comparison, i: nat): seq<seq<string>>
    requires i < 16
  {
    if i == 0 then Singles(MissingTransports(c))
    else if i == 1 then Singles(UnexpectedTransports(c.transports))
    else if i == 2 then MetricReasons(MissingMetricsByTransport(c.transports))
    else Singles(GapsOf(c.gaps, KindAt(i)))
  }

  function Reasons(c: Comparison): (parts: seq<seq<seq<string>>>)
    ensures |parts| == 16 && forall i :: 0 <= i < 16 ==> parts[i] == ReasonsOf(c, i)
  {
    seq(16, i requires 0 <= i < 16 => ReasonsOf(c, i))
  }

  lemma GapListAt(c: Comparison, i: nat)
    requires 3 <= i < 16
    ensures GateList(c, i) == BlockersFor(KindAt(i), GapsOf(c.gaps, KindAt(i)))
  {
    if i < 8 {
      assert i in {3, 4, 5, 6, 7};
    } else {
      assert i in {8, 9, 10, 11, 12, 13, 14, 15};
    }
  }

  lemma ReasonsAt(c: Comparison, i: nat)
    requires i < 16
    ensures GapDetails(GateList(c, i)) == Reasons(c)[i]
  {
    if i == 0 {
      DetailsOfGaps(MissingTransport, MissingTransports(c));
    } else if i == 1 {
      DetailsOfGaps(UnexpectedTransport, UnexpectedTransports(c.transports));
    } else if i == 2 {
      DetailsOfMetrics(MissingMetricsByTransport(c.transports));
    } else {
      RankOfKindAt(i);
      GapListAt(c, i);
      DetailsOfGaps(KindAt(i), GapsOf(c.gaps, KindAt(i)));
    }
  }

  lemma {:induction false} DetailsFrom(c: Comparison, i: nat)
    requires i <= 16
    ensures GapDetails(ListsFrom(GateLists(c), i)) == Flat(Reasons(c), i, [])
    decreases 16 - i
  {
    if i < 16 {
      DetailsFrom(c, i + 1);
      ListAt(c, i);
      ReasonsAt(c, i);
      GapDetailsConcat(GateList(c, i), ListsFrom(GateLists(c), i + 1));
    } else {
      LateDetails(c, 16);
    }
  }

  lemma {:induction false} LateDetails(c: Comparison, i: nat)
    requires 16 <= i <= GATE_STEPS
    ensures GapDetails(ListsFrom(GateLists(c), i)) == []
    decreases GATE_STEPS - i
  {
    if i < GATE_STEPS {
      LateDetails(c, i + 1);
      ListAt(c, i);
      GapDetailsConcat(GateList(c, i), ListsFrom(GateLists(c), i + 1));
      GateCategories(c, i);
      RankOfKindAt(i);
      DetailsOf(GateList(c, i));
    }
  }

  /** The human-readable reasons are the details of the gate's gaps, in the same order, and the transports with errors. */
  lemma ReasonsAreGapDetails(c: Comparison)
    ensures BlockingGaps(c) == GapDetails(Blockers(c)) + ErrorReasons(c.transports)
    ensures forall r :: r in ErrorReasons(c.transports) <==>
              exists t :: t in c.transports && !t.1.protocolErrorFree && r == [t.0]
  {
    DetailsFrom(c, 0);
    GapsAreFlat(c);
    FlatThen(Reasons(c), 0, ErrorReasons(c.transports));
    forall r
      ensures r in ErrorReasons(c.transports) <==> exists t :: t in c.transports && !t.1.protocolErrorFree && r == [t.0]
    {
      ErrorReasonIs(c.transports, r);
    }
  }

  lemma EarlyParts(c: Comparison)
    ensures var parts := Reasons(c);
      && parts[3] == Singles(c.gaps.runs) && parts[4] == Singles(c.gaps.cpu) && parts[5] == Singles(c.gaps.targets)
      && parts[6] == Singles(c.gaps.frameContract) && parts[7] == Singles(c.gaps.frameTypes)
  {
    assert KindAt(3) == RunCount && KindAt(4) == CpuUtilization && KindAt(5) == Target;
    assert KindAt(6) == FrameContract && KindAt(7) == FrameTypeGap;
  }

  lemma MiddleParts(c: Comparison)
    ensures var parts := Reasons(c);
      && parts[8] == Singles(c.gaps.lifecycle) && parts[9] == Singles(c.gaps.errorHandling)
      && parts[10] == Singles(c.gaps.errorCodes) && parts[11] == Singles(c.gaps.runtime)
  {
    assert KindAt(8) == Lifecycle && KindAt(9) == ErrorHandling && KindAt(10) == ErrorCodes && KindAt(11) == Runtime;
  }

  lemma LateParts(c: Comparison)
    ensures var parts := Reasons(c);
      && parts[12] == Singles(c.gaps.pluginConfig) && parts[13] == Singles(c.gaps.startPayload)
      && parts[14] == Singles(c.gaps.comparisonRequirement) && parts[15] == Singles(c.gaps.inputs)
  {
    assert KindAt(12) == PluginConfig && KindAt(13) == StartPayload;
    assert KindAt(14) == ComparisonRequired && KindAt(15) == BenchmarkInput;
  }

  /** The reasons from the lifecycle on. */
  lemma LaterGaps(c: Comparison, rest: seq<seq<string>>)
    ensures Flat(Reasons(c), 8, rest)
         == Singles(c.gaps.lifecycle) + (Singles(c.gaps.errorHandling) + (Singles(c.gaps.errorCodes) + (Singles(c.gaps.runtime)
          + (Singles(c.gaps.pluginConfig) + (Singles(c.gaps.startPayload) + (Singles(c.gaps.comparisonRequirement)
          + (Singles(c.gaps.inputs) + rest)))))))
  {
    FlatOfEight(Reasons(c), 8, rest);
    MiddleParts(c);
    LateParts(c);
  }

  lemma GapsAreFlat(c: Comparison)
    ensures BlockingGaps(c) == Flat(Reasons(c), 0, ErrorReasons(c.transports))
  {
    FlatOfEight(Reasons(c), 0, ErrorReasons(c.transports));
    EarlyParts(c);
    LaterGaps(c, ErrorReasons(c.transports));
  }

  lemma {:induction false} ErrorReasonIs(transports: seq<(string, Payload)>, r: seq<string>)
    ensures r in ErrorReasons(transports) <==> exists t :: t in transports && !t.1.protocolErrorFree && r == [t.0]
  {
    if transports != [] {
      ErrorReasonIs(transports[1..], r);
      assert transports == [transports[0]] + transports[1..];
    }
  }
}
