/**
 * What a whole schedule of a session leaves in its report: what was received and when, the codes of what went
 * wrong, and the latencies as the time that passed between two steps.
 */
module BenchmarkTimeline {
  import opened AudioPipeline
  import opened BenchmarkSession
  import opened Results

  // ---- Reading a schedule ------------------------------------------------------------------

  /** The time that passes in a schedule. */
  function Clock(schedule: seq<Action>): real {
    if schedule == [] then 0.0
    else
      var a := schedule[|schedule| - 1];
      Clock(schedule[..|schedule| - 1]) + if a.Tick? then a.elapsed else 0.0
  }

  /** An event, and the time that had passed when it was received. */
  datatype Arrival = Arrival(event: Event, at: real)

  function Arrivals(schedule: seq<Action>): seq<Arrival> {
    if schedule == [] then []
    else
      var front, a := schedule[..|schedule| - 1], schedule[|schedule| - 1];
      if a.Receiver? && a.receive.Receive? then Arrivals(front) + [Arrival(a.receive.event, Clock(front))] else Arrivals(front)
  }

  function PartialsIn(arrivals: seq<Arrival>): seq<Arrival> {
    if arrivals == [] then []
    else
      var front, last := arrivals[..|arrivals| - 1], arrivals[|arrivals| - 1];
      if last.event.kind.PartialEvent? then PartialsIn(front) + [last] else PartialsIn(front)
  }

  function FinalsIn(arrivals: seq<Arrival>): seq<Arrival> {
    if arrivals == [] then []
    else
      var front, last := arrivals[..|arrivals| - 1], arrivals[|arrivals| - 1];
      if IsFinal(last.event) then FinalsIn(front) + [last] else FinalsIn(front)
  }

  function WarningsIn(arrivals: seq<Arrival>): nat {
    if arrivals == [] then 0
    else WarningsIn(arrivals[..|arrivals| - 1]) + if arrivals[|arrivals| - 1].event.kind.WarningEvent? then 1 else 0
  }

  /** Places where a partial's text differs from the one before it. */
  function ChangesIn(partials: seq<Arrival>): nat {
    if |partials| < 2 then 0
    else
      var n := |partials| - 1;
      ChangesIn(partials[..n]) + if partials[n].event.text != partials[n - 1].event.text then 1 else 0
  }

  /** The code that a step reports, if something goes wrong in it. */
  function CodeOf(a: Action): seq<string> {
    match a
    case Tick(_) => []
    case Sender(SendRaises) => ["send_exception"]
    case Sender(FinalizeRaises) => ["finalize_exception"]
    case Sender(FinalTimesOut) => ["final_timeout"]
    case Sender(CloseRaises) => ["close_exception"]
    case Sender(_) => []
    case Receiver(ReceiveRaises) => ["receive_exception"]
    case Receiver(Receive(Event(ErrorEvent, _, _, Some(code), _))) => [code]
    case Receiver(Receive(Event(ErrorEvent, _, _, None, _))) => ["error_event"]
    case Receiver(_) => []
  }

  function CodesIn(schedule: seq<Action>): seq<string> {
    if schedule == [] then []
    else CodesIn(schedule[..|schedule| - 1]) + CodeOf(schedule[|schedule| - 1])
  }

  /** The reconnect counts reported by events that are neither an error nor a warning. */
  function ReconnectsIn(arrivals: seq<Arrival>): set<int> {
    set a | a in arrivals && !a.event.kind.ErrorEvent? && !a.event.kind.WarningEvent? && a.event.reconnects.Some?
      :: a.event.reconnects.value
  }

  // ---- What was received -------------------------------------------------------------------

  /** The partials of the state are those that arrived, each at its time. */
  ghost predicate PartialsAre(s: State, startedAt: real, partials: seq<Arrival>) {
    && s.partials.events == |partials| == |s.partials.receivedAt|
    && (forall i :: 0 <= i < |partials| ==> s.partials.receivedAt[i] == startedAt + partials[i].at)
    && s.partials.changes == ChangesIn(partials)
    && s.partials.previousText == (if partials == [] then None else Some(partials[|partials| - 1].event.text))
  }

  ghost predicate FinalsAre(s: State, finals: seq<Arrival>) {
    && s.finals.events == |finals|
    && s.finals.transcript == (if finals == [] then None else Some(finals[|finals| - 1].event.text))
  }

  ghost predicate IsGreatest(n: int, values: set<int>) {
    n in values && forall v :: v in values ==> v <= n
  }

  ghost predicate Reflects(s: State, startedAt: real, schedule: seq<Action>) {
    var arrivals := Arrivals(schedule);
    && s.now == startedAt + Clock(schedule)
    && PartialsAre(s, startedAt, PartialsIn(arrivals))
    && FinalsAre(s, FinalsIn(arrivals))
    && s.warningsReceived == WarningsIn(arrivals)
    && IsGreatest(s.reconnects, ReconnectsIn(arrivals) + {0})
    && s.errors == Errors(|CodesIn(schedule)|, CodesIn(schedule))
  }

  lemma PartialsSnoc(arrivals: seq<Arrival>, last: Arrival)
    ensures PartialsIn(arrivals + [last]) == if last.event.kind.PartialEvent? then PartialsIn(arrivals) + [last] else PartialsIn(arrivals)
    ensures FinalsIn(arrivals + [last]) == if IsFinal(last.event) then FinalsIn(arrivals) + [last] else FinalsIn(arrivals)
    ensures WarningsIn(arrivals + [last]) == WarningsIn(arrivals) + if last.event.kind.WarningEvent? then 1 else 0
  {
    assert (arrivals + [last])[..|arrivals|] == arrivals;
  }

  lemma ChangesSnoc(partials: seq<Arrival>, last: Arrival)
    ensures ChangesIn(partials + [last]) == ChangesIn(partials) +
      if partials != [] && partials[|partials| - 1].event.text != last.event.text then 1 else 0
  {
    assert (partials + [last])[..|partials|] == partials;
  }

  lemma ReconnectsSnoc(arrivals: seq<Arrival>, last: Arrival)
    ensures ReconnectsIn(arrivals + [last]) == ReconnectsIn(arrivals) + ReconnectsIn([last])
  {
  }

  lemma PartialIsReflected(s: State, startedAt: real, partials: seq<Arrival>, text: string, last: Arrival)
    requires PartialsAre(s, startedAt, partials) && last.event.text == text && last.at == s.now - startedAt
    ensures PartialsAre(s.(partials := OnPartial(s.partials, s.times, s.now, text)), startedAt, partials + [last])
  {
    ChangesSnoc(partials, last);
  }

  lemma EventIsReflected(s: State, startedAt: real, arrivals: seq<Arrival>, last: Arrival)
    requires PartialsAre(s, startedAt, PartialsIn(arrivals)) && FinalsAre(s, FinalsIn(arrivals))
    requires s.warningsReceived == WarningsIn(arrivals) && last.at == s.now - startedAt
    ensures var after, seen := OnEvent(s, last.event), arrivals + [last];
      && PartialsAre(after, startedAt, PartialsIn(seen)) && FinalsAre(after, FinalsIn(seen))
      && after.warningsReceived == WarningsIn(seen)
  {
    PartialsSnoc(arrivals, last);
    if last.event.kind.PartialEvent? {
      PartialIsReflected(s, startedAt, PartialsIn(arrivals), last.event.text, last);
    }
  }

  lemma ReconnectsAreReflected(s: State, arrivals: seq<Arrival>, last: Arrival)
    requires IsGreatest(s.reconnects, ReconnectsIn(arrivals) + {0})
    ensures IsGreatest(OnEvent(s, last.event).reconnects, ReconnectsIn(arrivals + [last]) + {0})
  {
    ReconnectsSnoc(arrivals, last);
    var e := last.event;
    if e.kind.ErrorEvent? || e.kind.WarningEvent? || e.reconnects.None? {
      assert ReconnectsIn([last]) == {};
    } else {
      assert last in [last];
      assert ReconnectsIn([last]) == {e.reconnects.value};
    }
  }

  lemma QuietStepIsReflected(setup: Setup, s: State, a: Action)
    requires ValidSetup(setup) && Enabled(setup, s, a) && !(a.Receiver? && a.receive.Receive?)
    ensures var after := Apply(setup, s, a);
      && after.now == s.now + (if a.Tick? then a.elapsed else 0.0)
      && after.partials == s.partials && after.finals == s.finals
      && after.warningsReceived == s.warningsReceived && after.reconnects == s.reconnects
      && after.errors.codes == s.errors.codes + CodeOf(a) && after.errors.count == s.errors.count + |CodeOf(a)|
  {
    if a.Sender? {
      SenderIsReflected(Chunks(setup), setup.realtimePace, s, a.send);
    }
  }

  lemma SenderIsReflected(chunks: seq<Chunk>, pace: bool, s: State, a: SenderAction)
    requires SenderEnabled(|chunks|, s, a)
    ensures var after := SenderStep(chunks, pace, s, a);
      && after.now == s.now && after.partials == s.partials && after.finals == s.finals
      && after.warningsReceived == s.warningsReceived && after.reconnects == s.reconnects
      && after.errors.codes == s.errors.codes + CodeOf(Sender(a)) && after.errors.count == s.errors.count + |CodeOf(Sender(a))|
  {
  }

  /** Every count, text, stamp and code in the state is read off the schedule that led to it. */
  lemma {:induction false} StateReflectsSchedule(setup: Setup, startedAt: real, schedule: seq<Action>, s: State)
    requires ValidSetup(setup) && Execute(setup, startedAt, schedule) == Some(s)
    ensures Reflects(s, startedAt, schedule)
    decreases |schedule|
  {
    if schedule == [] {
      assert ReconnectsIn([]) == {};
    } else {
      var front, a := schedule[..|schedule| - 1], schedule[|schedule| - 1];
      assert schedule == front + [a];
      var before := Execute(setup, startedAt, front).value;
      StateReflectsSchedule(setup, startedAt, front, before);
      assert s == Apply(setup, before, a);
      if a.Receiver? && a.receive.Receive? {
        ReceiptIsReflected(setup, startedAt, front, a.receive.event, before);
      } else {
        QuietIsReflected(setup, startedAt, front, a, before);
      }
    }
  }

  lemma QuietIsReflected(setup: Setup, startedAt: real, front: seq<Action>, a: Action, s: State)
    requires ValidSetup(setup) && Reflects(s, startedAt, front) && Enabled(setup, s, a)
    requires !(a.Receiver? && a.receive.Receive?)
    ensures Reflects(Apply(setup, s, a), startedAt, front + [a])
  {
    assert (front + [a])[..|front|] == front;
    QuietStepIsReflected(setup, s, a);
  }

  lemma ReceiptIsReflected(setup: Setup, startedAt: real, front: seq<Action>, event: Event, s: State)
    requires ValidSetup(setup) && Reflects(s, startedAt, front) && Enabled(setup, s, Receiver(Receive(event)))
    ensures Reflects(OnEvent(s, event), startedAt, front + [Receiver(Receive(event))])
  {
    var schedule := front + [Receiver(Receive(event))];
    assert schedule[..|front|] == front;
    var last := Arrival(event, Clock(front));
    EventIsReflected(s, startedAt, Arrivals(front), last);
    ReconnectsAreReflected(s, Arrivals(front), last);
    ReceivedCode(s, event);
  }

  lemma ReceivedCode(s: State, event: Event)
    ensures OnEvent(s, event).errors
         == Errors(s.errors.count + |CodeOf(Receiver(Receive(event)))|, s.errors.codes + CodeOf(Receiver(Receive(event))))
    ensures OnEvent(s, event).now == s.now
  {
  }

  // ---- Latencies ---------------------------------------------------------------------------

  predicate PastLoop(pc: SenderPc) {
    !InLoop(pc) && !pc.AfterLoop?
  }

  /** What later steps leave alone. */
  ghost predicate Keeps(s: State, later: State, elapsed: real) {
    && later.now == s.now + elapsed
    && (s.times.finalRequestedAt.Some? ==> later.times.finalRequestedAt == s.times.finalRequestedAt)
    && (s.times.sendStartedAt.Some? ==> later.times.sendStartedAt == s.times.sendStartedAt)
    && (PastLoop(s.sender) ==> PastLoop(later.sender) && later.times.sendCompletedAt == s.times.sendCompletedAt)
    && (s.receiver.Stopped? ==> later.receiver.Stopped? && later.finals == s.finals)
    && (s.partials.firstInterimMs.Some? ==> later.partials.firstInterimMs == s.partials.firstInterimMs)
  }

  lemma StepKeeps(setup: Setup, s: State, a: Action)
    requires ValidSetup(setup) && Inv(setup, s) && Enabled(setup, s, a)
    ensures Keeps(s, Apply(setup, s, a), if a.Tick? then a.elapsed else 0.0)
  {
    match a
    case Tick(_) =>
    case Sender(send) =>
      SenderIsReflected(Chunks(setup), setup.realtimePace, s, send);
      SenderKeepsTimes(Chunks(setup), setup.realtimePace, s, send);
    case Receiver(receive) => ReceiverKeepsAudio(s, receive);
  }

  lemma SenderKeepsTimes(chunks: seq<Chunk>, pace: bool, s: State, a: SenderAction)
    requires SenderEnabled(|chunks|, s, a) && FinalAfterAudio(|chunks|, s)
    ensures var after := SenderStep(chunks, pace, s, a);
      && after.receiver == s.receiver
      && (s.times.finalRequestedAt.Some? ==> after.times.finalRequestedAt == s.times.finalRequestedAt)
      && (s.times.sendStartedAt.Some? ==> after.times.sendStartedAt == s.times.sendStartedAt)
      && (PastLoop(s.sender) ==> PastLoop(after.sender) && after.times.sendCompletedAt == s.times.sendCompletedAt)
  {
  }

  lemma {:induction false} RestKeeps(setup: Setup, startedAt: real, first: seq<Action>, rest: seq<Action>, s: State, end: State)
    requires ValidSetup(setup)
    requires Execute(setup, startedAt, first) == Some(s) && Execute(setup, startedAt, first + rest) == Some(end)
    ensures Keeps(s, end, Clock(rest))
    decreases |rest|
  {
    if rest == [] {
      assert first + rest == first;
    } else {
      var shorter, a := rest[..|rest| - 1], rest[|rest| - 1];
      assert (first + rest)[..|first + rest| - 1] == first + shorter;
      var before := Execute(setup, startedAt, first + shorter).value;
      RestKeeps(setup, startedAt, first, shorter, s, before);
      ExecuteKeepsInv(setup, startedAt, first + shorter);
      StepKeeps(setup, before, a);
    }
  }

  /** The states on the way through a schedule that takes a step between two parts. */
  lemma Through(setup: Setup, startedAt: real, before: seq<Action>, a: Action, rest: seq<Action>) returns (s: State)
    requires ValidSetup(setup) && Execute(setup, startedAt, before + [a] + rest).Some?
    ensures Execute(setup, startedAt, before) == Some(s) && Inv(setup, s) && Enabled(setup, s, a)
    ensures Execute(setup, startedAt, before + [a]) == Some(Apply(setup, s, a))
  {
    var upTo := before + [a];
    PrefixExecutes(setup, startedAt, upTo, rest);
    assert upTo[..|upTo| - 1] == before;
    s := Execute(setup, startedAt, before).value;
    ExecuteKeepsInv(setup, startedAt, before);
  }

  /** A step is taken, time passes, an event arrives, and the rest follows. */
  lemma UntilArrival(setup: Setup, startedAt: real, first: seq<Action>, mid: seq<Action>, event: Event, rest: seq<Action>,
                     s: State, end: State)
    returns (received: State)
    requires ValidSetup(setup) && Execute(setup, startedAt, first) == Some(s)
    requires Execute(setup, startedAt, first + mid + [Receiver(Receive(event))] + rest) == Some(end)
    ensures Execute(setup, startedAt, first + mid) == Some(received)
    ensures Keeps(s, received, Clock(mid)) && Keeps(OnEvent(received, event), end, Clock(rest))
  {
    received := Through(setup, startedAt, first + mid, Receiver(Receive(event)), rest);
    RestKeeps(setup, startedAt, first, mid, s, received);
    RestKeeps(setup, startedAt, first + mid + [Receiver(Receive(event))], rest, OnEvent(received, event), end);
  }

  lemma AskedNow(setup: Setup, startedAt: real, before: seq<Action>, called: State)
    requires ValidSetup(setup)
    requires Execute(setup, startedAt, before + [Sender(AskForFinal)]) == Some(called) && Finalize in called.calls
    ensures called.times.finalRequestedAt == Some(called.now)
  {
    var asked := before + [Sender(AskForFinal)];
    assert asked + [] == asked;
    var s := Through(setup, startedAt, before, Sender(AskForFinal), []);
    if s.receiveDone {
      NotFinalizedYet(setup, s);
    }
  }

  /** What one event records, some time after finalize was called. */
  lemma FinalNow(s: State, event: Event, from: real, elapsed: real)
    requires IsFinal(event) && s.times.finalRequestedAt == Some(from) && s.now == from + elapsed
    ensures OnEvent(s, event).finals.afterFinalizeMs == Some(1000.0 * elapsed) && OnEvent(s, event).receiver.Stopped?
  {
  }

  /** And some time after the first audio was sent. */
  lemma PartialNow(s: State, event: Event, from: real, elapsed: real)
    requires event.kind.PartialEvent? && s.partials.firstInterimMs.None?
    requires s.times.sendStartedAt == Some(from) && s.now == from + elapsed
    ensures OnEvent(s, event).partials.firstInterimMs == Some(1000.0 * elapsed)
  {
  }

  /** The finalization latency is the time from the step that calls finalize to the arrival of the final. */
  lemma FinalizationLatencyIs(setup: Setup, startedAt: real, before: seq<Action>, mid: seq<Action>, event: Event,
                              rest: seq<Action>, called: State, end: State)
    requires ValidSetup(setup) && IsFinal(event)
    requires Execute(setup, startedAt, before + [Sender(AskForFinal)]) == Some(called) && Finalize in called.calls
    requires Execute(setup, startedAt, before + [Sender(AskForFinal)] + mid + [Receiver(Receive(event))] + rest) == Some(end)
    ensures end.finals.afterFinalizeMs == Some(1000.0 * Clock(mid))
  {
    AskedNow(setup, startedAt, before, called);
    var received := UntilArrival(setup, startedAt, before + [Sender(AskForFinal)], mid, event, rest, called, end);
    FinalNow(received, event, called.now, Clock(mid));
  }

  /** After the loop and ahead of the request, finalize has not been called. */
  lemma NotFinalizedYet(setup: Setup, s: State)
    requires ValidSetup(setup) && Inv(setup, s) && s.sender.AfterLoop?
    ensures Finalize !in s.calls
  {
    assert s.calls == CallLog(Attempts(s), false, false);
  }

  /** A first interim is timed exactly when audio was sent and a partial came. */
  ghost predicate InterimTimed(n: nat, s: State) {
    && (s.times.sendStartedAt.Some? <==> Attempts(s) > 0)
    && (s.partials.firstInterimMs.Some? <==> s.partials.events > 0 && n > 0)
  }

  lemma StepKeepsInterimTimed(setup: Setup, s: State, a: Action)
    requires ValidSetup(setup) && Inv(setup, s) && Enabled(setup, s, a) && InterimTimed(|Chunks(setup)|, s)
    ensures InterimTimed(|Chunks(setup)|, Apply(setup, s, a))
  {
    if a.Receiver? {
      ReceiverKeepsAudio(s, a.receive);
    } else if a.Sender? {
      SenderKeepsInterimTimed(Chunks(setup), setup.realtimePace, s, a.send);
    }
  }

  lemma SenderKeepsInterimTimed(chunks: seq<Chunk>, pace: bool, s: State, a: SenderAction)
    requires SenderEnabled(|chunks|, s, a) && CallsCounted(|chunks|, s) && FinalAfterAudio(|chunks|, s)
    requires InterimTimed(|chunks|, s)
    ensures InterimTimed(|chunks|, SenderStep(chunks, pace, s, a))
  {
  }

  lemma {:induction false} ExecuteKeepsInterimTimed(setup: Setup, startedAt: real, schedule: seq<Action>)
    requires ValidSetup(setup) && Execute(setup, startedAt, schedule).Some?
    ensures InterimTimed(|Chunks(setup)|, Execute(setup, startedAt, schedule).value)
    decreases |schedule|
  {
    if schedule != [] {
      var front, a := schedule[..|schedule| - 1], schedule[|schedule| - 1];
      ExecuteKeepsInterimTimed(setup, startedAt, front);
      ExecuteKeepsInv(setup, startedAt, front);
      StepKeepsInterimTimed(setup, Execute(setup, startedAt, front).value, a);
    }
  }

  /** A first-interim latency is there exactly when there was audio and a partial arrived. */
  lemma FirstInterimIff(setup: Setup, s: State)
    requires ValidSetup(setup) && Reachable(setup, s)
    ensures s.partials.firstInterimMs.Some? <==> s.partials.events > 0 && Chunks(setup) != []
  {
    var startedAt, schedule :| Execute(setup, startedAt, schedule) == Some(s);
    ExecuteKeepsInterimTimed(setup, startedAt, schedule);
  }

  lemma SentFirst(setup: Setup, startedAt: real, sent: seq<Action>, mid: seq<Action>, a: Action, rest: seq<Action>)
    requires ValidSetup(setup) && Execute(setup, startedAt, sent + mid + [a] + rest).Some?
    ensures Execute(setup, startedAt, sent).Some?
  {
    var s := Through(setup, startedAt, sent + mid, a, rest);
    PrefixExecutes(setup, startedAt, sent, mid);
  }

  /** And it is the time from the first call of `send_audio` to the arrival of the first partial. */
  lemma FirstInterimIs(setup: Setup, startedAt: real, before: seq<Action>, mid: seq<Action>, event: Event,
                       rest: seq<Action>, end: State)
    requires ValidSetup(setup) && event.kind.PartialEvent?
    requires Sender(StartSend) !in before && PartialsIn(Arrivals(mid)) == []
    requires Execute(setup, startedAt, before + [Sender(StartSend)] + mid + [Receiver(Receive(event))] + rest) == Some(end)
    ensures end.partials.firstInterimMs == Some(1000.0 * Clock(mid))
  {
    var sent := before + [Sender(StartSend)];
    SentFirst(setup, startedAt, sent, mid, Receiver(Receive(event)), rest);
    var sending := SendStarts(setup, startedAt, before);
    InterimAfter(setup, startedAt, sent, mid, event, rest, sending, end);
  }

  lemma InterimAfter(setup: Setup, startedAt: real, sent: seq<Action>, mid: seq<Action>, event: Event, rest: seq<Action>,
                     sending: State, end: State)
    requires ValidSetup(setup) && event.kind.PartialEvent? && PartialsIn(Arrivals(mid)) == []
    requires Execute(setup, startedAt, sent) == Some(sending)
    requires sending.times.sendStartedAt == Some(sending.now) && sending.partials.firstInterimMs.None?
    requires Execute(setup, startedAt, sent + mid + [Receiver(Receive(event))] + rest) == Some(end)
    ensures end.partials.firstInterimMs == Some(1000.0 * Clock(mid))
  {
    var received := UntilArrival(setup, startedAt, sent, mid, event, rest, sending, end);
    NoPartialYet(setup, startedAt, sent, mid, sending, received);
    PartialNow(received, event, sending.now, Clock(mid));
  }

  lemma SendStarts(setup: Setup, startedAt: real, before: seq<Action>) returns (sending: State)
    requires ValidSetup(setup) && Sender(StartSend) !in before
    requires Execute(setup, startedAt, before + [Sender(StartSend)]).Some?
    ensures Execute(setup, startedAt, before + [Sender(StartSend)]) == Some(sending)
    ensures sending.times.sendStartedAt == Some(sending.now) && sending.partials.firstInterimMs.None?
  {
    var sent := before + [Sender(StartSend)];
    assert sent + [] == sent;
    var s := Through(setup, startedAt, before, Sender(StartSend), []);
    NothingAheadOfSend(setup, startedAt, before, s);
    sending := Apply(setup, s, Sender(StartSend));
  }

  /** Sending takes the time from the first call of `send_audio` until the loop is left behind. */
  lemma SendTimeIs(setup: Setup, startedAt: real, before: seq<Action>, mid: seq<Action>, rest: seq<Action>, end: State)
    requires ValidSetup(setup) && Sender(StartSend) !in before
    requires Execute(setup, startedAt, before + [Sender(StartSend)] + mid + [Sender(AskForFinal)] + rest) == Some(end)
    ensures end.times.sendStartedAt.Some? && end.times.sendCompletedAt.Some?
    ensures end.times.sendCompletedAt.value - end.times.sendStartedAt.value == Clock(mid)
  {
    var sent := before + [Sender(StartSend)];
    var asked := Through(setup, startedAt, sent + mid, Sender(AskForFinal), rest);
    PrefixExecutes(setup, startedAt, sent, mid);
    var sending := SendStarts(setup, startedAt, before);
    RestKeeps(setup, startedAt, sent, mid, sending, asked);
    RestKeeps(setup, startedAt, sent + mid + [Sender(AskForFinal)], rest, Apply(setup, asked, Sender(AskForFinal)), end);
  }

  lemma {:induction false} NothingAheadOfSend(setup: Setup, startedAt: real, before: seq<Action>, s: State)
    requires ValidSetup(setup) && Execute(setup, startedAt, before) == Some(s) && Sender(StartSend) !in before
    ensures s.times.sendStartedAt.None? && s.partials.firstInterimMs.None?
    decreases |before|
  {
    if before != [] {
      var front, a := before[..|before| - 1], before[|before| - 1];
      NothingAheadOfSend(setup, startedAt, front, Execute(setup, startedAt, front).value);
      assert a in before && a != Sender(StartSend);
    }
  }

  lemma {:induction false} NoPartialYet(setup: Setup, startedAt: real, first: seq<Action>, mid: seq<Action>, s: State, end: State)
    requires ValidSetup(setup) && PartialsIn(Arrivals(mid)) == []
    requires Execute(setup, startedAt, first) == Some(s) && Execute(setup, startedAt, first + mid) == Some(end)
    ensures end.partials == s.partials
    decreases |mid|
  {
    if mid == [] {
      assert first + mid == first;
    } else {
      var shorter, a := mid[..|mid| - 1], mid[|mid| - 1];
      assert (first + mid)[..|first + mid| - 1] == first + shorter;
      var before := Execute(setup, startedAt, first + shorter).value;
      if a.Receiver? && a.receive.Receive? {
        PartialsSnoc(Arrivals(shorter), Arrival(a.receive.event, Clock(shorter)));
        assert PartialsIn(Arrivals(mid)) == PartialsIn(Arrivals(shorter) + [Arrival(a.receive.event, Clock(shorter))]);
      } else {
        QuietStepIsReflected(setup, before, a);
      }
      NoPartialYet(setup, startedAt, first, shorter, s, before);
    }
  }
}
