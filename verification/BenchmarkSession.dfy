/**
 * One benchmark session as two tasks over shared state. An action is what one task does between
 * two awaits, or part of it up to a branch; the other task moves only while this one stands at an
 * await. The client's answers (success, exception, event, timeout) are chosen freely.
 */
module BenchmarkSession {
  import opened Arithmetic
  import opened ByteStrings
  import opened AudioPipeline
  import opened Results

  // ---- State -------------------------------------------------------------------------------

  /** What a session is given. `frames` are sent in chunks of `framesPerChunk`. */
  datatype Setup = Setup(frames: seq<Bytes>, frameMs: int, framesPerChunk: nat, realtimePace: bool, transport: Transport)

  ghost predicate ValidSetup(setup: Setup) {
    setup.framesPerChunk > 0
  }

  ghost function Chunks(setup: Setup): seq<Chunk>
    requires ValidSetup(setup)
  {
    Aggregate(setup.frames, setup.frameMs, setup.framesPerChunk)
  }

  datatype EventKind = ErrorEvent | WarningEvent | PartialEvent | FinalEvent | OtherEvent

  datatype Event = Event(kind: EventKind, isFinal: bool, text: string, code: Option<string>, reconnects: Option<int>)

  datatype SenderPc =
    | AtLoop(next: nat)
    | Sending(next: nat)
    | Sleeping(next: nat)
    | AfterLoop
    | Finalizing
    | AwaitingFinal
    | JoiningReceiver
    | Closing
    | Finished

  /** `Created` is the task before its first turn. */
  datatype ReceiverPc = Created | Receiving | Stopped

  datatype Call = SendAudio(chunk: nat) | Finalize | Close

  /** Where the audio has got to. */
  datatype Progress = Progress(chunksSent: nat, sourceFramesSent: nat, payloadBytesSent: nat, framesDropped: nat)

  datatype Times = Times(sendStartedAt: Option<real>, sendCompletedAt: Option<real>, finalRequestedAt: Option<real>)

  datatype Partials = Partials(
    receivedAt: seq<real>, events: nat, changes: nat, previousText: Option<string>, firstInterimMs: Option<real>)

  datatype Finals = Finals(events: nat, transcript: Option<string>, afterFinalizeMs: Option<real>)

  datatype Errors = Errors(count: nat, codes: seq<string>)

  datatype State = State(
    sender: SenderPc,
    receiver: ReceiverPc,
    receiveDone: bool,
    now: real,
    times: Times,
    progress: Progress,
    partials: Partials,
    finals: Finals,
    warningsReceived: nat,
    reconnects: int,
    errors: Errors,
    calls: seq<Call>)

  function Initial(startedAt: real): State {
    State(AtLoop(0), Created, false, startedAt, Times(None, None, None), Progress(0, 0, 0, 0),
          Partials([], 0, 0, None, None), Finals(0, None, None), 0, 0, Errors(0, []), [])
  }

  datatype SenderAction =
    | StopSending
    | StartSend
    | SendReturns
    | SendRaises
    | WakeUp
    | LeaveLoop
    | AskForFinal
    | FinalizeReturns
    | FinalizeRaises
    | SeeReceiveDone
    | FinalTimesOut
    | JoinReceiver
    | CloseReturns
    | CloseRaises

  datatype ReceiverAction = Begin | ReceiveNothing | ReceiveRaises | Receive(event: Event)

  datatype Action = Tick(elapsed: real) | Sender(send: SenderAction) | Receiver(receive: ReceiverAction)

  // ---- Steps -------------------------------------------------------------------------------

  ghost predicate SenderEnabled(n: nat, s: State, a: SenderAction) {
    match a
    case StopSending => s.sender.AtLoop? && s.sender.next < n && s.receiveDone
    case StartSend => s.sender.AtLoop? && s.sender.next < n && !s.receiveDone
    case SendReturns => s.sender.Sending? && s.sender.next < n
    case SendRaises => s.sender.Sending? && s.sender.next < n
    case WakeUp => s.sender.Sleeping?
    case LeaveLoop => s.sender.AtLoop? && s.sender.next >= n
    case AskForFinal => s.sender.AfterLoop?
    case FinalizeReturns => s.sender.Finalizing?
    case FinalizeRaises => s.sender.Finalizing?
    case SeeReceiveDone => s.sender.AwaitingFinal? && s.receiveDone
    // the timeout can win even when the event was set in the same turn of the loop
    case FinalTimesOut => s.sender.AwaitingFinal?
    case JoinReceiver => s.sender.JoiningReceiver? && s.receiver.Stopped?
    case CloseReturns => s.sender.Closing?
    case CloseRaises => s.sender.Closing?
  }

  /** The sender runs from one await to the next; its loop head and what follows the loop are on the way. */
  predicate AtAwait(pc: SenderPc) {
    !pc.AtLoop? && !pc.AfterLoop?
  }

  ghost predicate Enabled(setup: Setup, s: State, a: Action)
    requires ValidSetup(setup)
  {
    match a
    case Tick(elapsed) => elapsed >= 0.0
    case Sender(send) => SenderEnabled(|Chunks(setup)|, s, send)
    case Receiver(receive) => AtAwait(s.sender) && ReceiverEnabled(s, receive)
  }

  predicate ReceiverEnabled(s: State, a: ReceiverAction) {
    if a.Begin? then s.receiver.Created? else s.receiver.Receiving?
  }

  function OrElse<T>(x: Option<T>, y: T): Option<T> {
    if x.Some? then x else Some(y)
  }

  function WithError(errors: Errors, code: string): Errors {
    Errors(errors.count + 1, errors.codes + [code])
  }

  function AfterSend(progress: Progress, chunk: Chunk): Progress {
    progress.(chunksSent := progress.chunksSent + 1,
              sourceFramesSent := progress.sourceFramesSent + chunk.sourceFrameCount,
              payloadBytesSent := progress.payloadBytesSent + |chunk.payload|)
  }

  function AfterDrop(progress: Progress, remaining: seq<Chunk>): Progress {
    progress.(framesDropped := progress.framesDropped + SumFrames(remaining))
  }

  ghost function SenderStep(chunks: seq<Chunk>, realtimePace: bool, s: State, a: SenderAction): State
    requires SenderEnabled(|chunks|, s, a)
  {
    match a
    case StopSending => s.(progress := AfterDrop(s.progress, chunks[s.sender.next..]), sender := AfterLoop)
    case StartSend =>
      s.(times := s.times.(sendStartedAt := OrElse(s.times.sendStartedAt, s.now)),
         calls := s.calls + [SendAudio(s.sender.next)],
         sender := Sending(s.sender.next))
    case SendReturns =>
      s.(progress := AfterSend(s.progress, chunks[s.sender.next]),
         sender := if realtimePace then Sleeping(s.sender.next) else AtLoop(s.sender.next + 1))
    case SendRaises =>
      s.(errors := WithError(s.errors, "send_exception"),
         progress := AfterDrop(s.progress, chunks[s.sender.next..]),
         receiveDone := true,
         sender := AfterLoop)
    case WakeUp => s.(sender := AtLoop(s.sender.next + 1))
    case LeaveLoop => s.(sender := AfterLoop)
    case AskForFinal =>
      var times := s.times.(sendCompletedAt := if s.times.sendStartedAt.Some? then Some(s.now) else None);
      if s.receiveDone then s.(times := times, sender := JoiningReceiver)
      else s.(times := times.(finalRequestedAt := Some(s.now)), calls := s.calls + [Finalize], sender := Finalizing)
    case FinalizeReturns => s.(sender := AwaitingFinal)
    case FinalizeRaises =>
      s.(errors := WithError(s.errors, "finalize_exception"), receiveDone := true, sender := JoiningReceiver)
    case SeeReceiveDone => s.(sender := JoiningReceiver)
    case FinalTimesOut =>
      s.(errors := WithError(s.errors, "final_timeout"), receiveDone := true, sender := JoiningReceiver)
    case JoinReceiver => s.(calls := s.calls + [Close], sender := Closing)
    case CloseReturns => s.(sender := Finished)
    case CloseRaises => s.(errors := WithError(s.errors, "close_exception"), sender := Finished)
  }

  /** The test at the head of the receive loop; from there it is straight on to the next await. */
  function NextTurn(receiveDone: bool): ReceiverPc {
    if receiveDone then Stopped else Receiving
  }

  function ReceiverStep(s: State, a: ReceiverAction): State {
    match a
    case Begin => s.(receiver := NextTurn(s.receiveDone))
    case ReceiveNothing => s.(receiver := NextTurn(s.receiveDone))
    case ReceiveRaises =>
      s.(errors := WithError(s.errors, "receive_exception"), receiveDone := true, receiver := Stopped)
    case Receive(event) => OnEvent(s, event)
  }

  /** The body of the receive loop for one event. */
  function OnEvent(s: State, event: Event): State {
    match event.kind
    case ErrorEvent =>
      var code := if event.code.Some? then event.code.value else "error_event";
      s.(errors := WithError(s.errors, code), receiveDone := true, receiver := Stopped)
    case WarningEvent => s.(warningsReceived := s.warningsReceived + 1, receiver := NextTurn(s.receiveDone))
    case _ =>
      var final := event.isFinal || event.kind.FinalEvent?;
      s.(reconnects := if event.reconnects.Some? then Max(s.reconnects, event.reconnects.value) else s.reconnects,
         partials := if event.kind.PartialEvent? then OnPartial(s.partials, s.times, s.now, event.text) else s.partials,
         finals := if final then OnFinal(s.finals, s.times, s.now, event.text) else s.finals,
         receiveDone := s.receiveDone || final,
         receiver := if final then Stopped else NextTurn(s.receiveDone))
  }

  function Elapsed(from: Option<real>, now: real): Option<real> {
    if from.Some? then Some((now - from.value) * 1000.0) else None
  }

  function OnPartial(p: Partials, times: Times, now: real, text: string): Partials {
    var changed := p.previousText.Some? && p.previousText.value != text;
    // `first_audio_sent_at` and `audio_send_started_at` are set together
    Partials(p.receivedAt + [now], p.events + 1, p.changes + (if changed then 1 else 0), Some(text),
             if p.firstInterimMs.None? then Elapsed(times.sendStartedAt, now) else p.firstInterimMs)
  }

  function OnFinal(f: Finals, times: Times, now: real, text: string): Finals {
    Finals(f.events + 1, Some(text),
           if times.finalRequestedAt.Some? then Elapsed(times.finalRequestedAt, now) else f.afterFinalizeMs)
  }

  ghost function Apply(setup: Setup, s: State, a: Action): State
    requires ValidSetup(setup) && Enabled(setup, s, a)
  {
    match a
    case Tick(elapsed) => s.(now := s.now + elapsed)
    case Sender(send) => SenderStep(Chunks(setup), setup.realtimePace, s, send)
    case Receiver(receive) => ReceiverStep(s, receive)
  }

  /** The state after a whole schedule, if every action in it was possible when taken. */
  ghost function Execute(setup: Setup, startedAt: real, schedule: seq<Action>): Option<State>
    requires ValidSetup(setup)
    decreases |schedule|
  {
    if |schedule| == 0 then Some(Initial(startedAt))
    else
      var before := Execute(setup, startedAt, schedule[..|schedule| - 1]);
      var a := schedule[|schedule| - 1];
      if before.Some? && Enabled(setup, before.value, a) then Some(Apply(setup, before.value, a)) else None
  }

  ghost predicate Reachable(setup: Setup, s: State)
    requires ValidSetup(setup)
  {
    exists startedAt, schedule :: Execute(setup, startedAt, schedule) == Some(s)
  }

  // ---- The report --------------------------------------------------------------------------

  datatype Report = Report(
    audioFramesSent: nat,
    audioChunksSent: nat,
    audioFramesDropped: int,
    partialEventCount: nat,
    interimTranscriptChanges: nat,
    finalEventsReceived: nat,
    successfulRuns: nat,
    finalizationLatencyMs: Option<real>,
    audioPayloadBytesSent: nat,
    transportAudioBytesSent: int,
    protocolErrors: nat,
    protocolErrorCodes: seq<string>)

  function ReportOf(setup: Setup, s: State): Report {
    var p := s.progress;
    Report(
      p.sourceFramesSent,
      p.chunksSent,
      p.framesDropped + Max(0, |setup.frames| - p.sourceFramesSent - p.framesDropped),
      s.partials.events,
      s.partials.changes,
      s.finals.events,
      if s.finals.events > 0 && s.errors.count == 0 then 1 else 0,
      s.finals.afterFinalizeMs,
      p.payloadBytesSent,
      p.payloadBytesSent + TransportAudioOverheadBytes(setup.transport, p.chunksSent),
      s.errors.count,
      s.errors.codes)
  }

  // ---- What every step keeps ---------------------------------------------------------------

  predicate InLoop(pc: SenderPc) {
    pc.AtLoop? || pc.Sending? || pc.Sleeping?
  }

  predicate ClosedBy(pc: SenderPc) {
    pc.Closing? || pc.Finished?
  }

  /** The sender's place in the loop agrees with the number of chunks sent. */
  ghost predicate LoopPosition(n: nat, pc: SenderPc, chunksSent: nat) {
    && chunksSent <= n
    && (pc.AtLoop? ==> pc.next == chunksSent)
    && (pc.Sending? ==> pc.next == chunksSent < n)
    && (pc.Sleeping? ==> pc.next + 1 == chunksSent)
  }

  /** Every frame is sent, dropped, or still ahead in the loop. */
  ghost predicate FramesConserved(chunks: seq<Chunk>, pc: SenderPc, p: Progress) {
    && LoopPosition(|chunks|, pc, p.chunksSent)
    && p.sourceFramesSent == SumFrames(chunks[..p.chunksSent])
    && p.framesDropped == (if InLoop(pc) then 0 else SumFrames(chunks[p.chunksSent..]))
    && p.payloadBytesSent == |Join(Payloads(chunks[..p.chunksSent]))|
  }

  function SendCalls(n: nat): seq<Call> {
    seq(n, i requires 0 <= i < n => SendAudio(i))
  }

  function CallLog(attempts: nat, finalized: bool, closed: bool): seq<Call> {
    SendCalls(attempts) + (if finalized then [Finalize] else []) + (if closed then [Close] else [])
  }

  /** How many `send_audio` calls have been made. */
  function Attempts(s: State): int {
    |s.calls| - (if s.times.finalRequestedAt.Some? then 1 else 0) - (if ClosedBy(s.sender) then 1 else 0)
  }

  /** The calls made so far keep pace with the chunks sent. */
  ghost predicate CallsCounted(n: nat, s: State) {
    var sent := s.progress.chunksSent;
    && sent <= Attempts(s) <= sent + 1
    && Attempts(s) <= n
    && (s.sender.AtLoop? || s.sender.Sleeping? ==> Attempts(s) == sent)
    && (s.sender.Sending? ==> Attempts(s) == sent + 1)
  }

  /** The client sees the chunks in order, then at most one finalize, then one close. */
  ghost predicate CallsLogged(s: State) {
    Attempts(s) >= 0 && s.calls == CallLog(Attempts(s), s.times.finalRequestedAt.Some?, ClosedBy(s.sender))
  }

  ghost predicate CallsInOrder(n: nat, s: State) {
    CallsCounted(n, s) && CallsLogged(s)
  }

  /** Outside the loop and without an error, every chunk handed to the client has been counted as sent. */
  ghost predicate CleanExit(s: State) {
    s.errors.count == 0 && !InLoop(s.sender) ==> Attempts(s) == s.progress.chunksSent
  }

  /** The receiver cannot have moved before the first chunk was handed to the client. */
  ghost predicate FirstChunkGoes(n: nat, s: State) {
    n > 0 && Attempts(s) == 0 ==> s.sender == AtLoop(0) && !s.receiveDone
  }

  /** A final is requested only once everything has been sent. */
  ghost predicate FinalAfterAudio(n: nat, s: State) {
    var asked := s.times.finalRequestedAt.Some?;
    var allSent := s.progress.chunksSent == n && Attempts(s) == n;
    && (asked ==> allSent && !InLoop(s.sender) && !s.sender.AfterLoop?)
    && (s.sender.AfterLoop? && !s.receiveDone ==> allSent)
    && (s.sender.Finalizing? || s.sender.AwaitingFinal? ==> asked)
    && (s.finals.afterFinalizeMs.Some? <==> asked && s.finals.events == 1)
  }

  ghost predicate Handshake(s: State) {
    && (s.receiver.Stopped? ==> s.receiveDone)
    && (s.sender.JoiningReceiver? || ClosedBy(s.sender) ==> s.receiveDone)
    && (ClosedBy(s.sender) ==> s.receiver.Stopped?)
    && s.finals.events <= 1
    && (s.finals.events == 1 <==> s.finals.transcript.Some?)
    && (s.finals.events == 1 ==> s.receiver.Stopped?)
  }

  /** Errors each task may have recorded by now. */
  function ErrorBudget(s: State): nat {
    (match s.sender
     case AfterLoop => if s.receiveDone then 1 else 0
     case JoiningReceiver => 1
     case Closing => 1
     case Finished => 2
     case _ => 0)
    + (if s.receiver.Stopped? && s.finals.events == 0 then 1 else 0)
  }

  ghost predicate ErrorsCounted(s: State) {
    |s.errors.codes| == s.errors.count <= ErrorBudget(s)
  }

  ghost predicate PartialsCounted(p: Partials) {
    && |p.receivedAt| == p.events
    && (p.previousText.Some? <==> p.events > 0)
    && p.changes + (if p.events > 0 then 1 else 0) <= p.events
    && (p.firstInterimMs.Some? ==> p.firstInterimMs.value >= 0.0)
  }

  ghost predicate InOrderUpTo(stamps: seq<real>, now: real) {
    && (forall i :: 0 <= i < |stamps| ==> stamps[i] <= now)
    && (forall i, j :: 0 <= i < j < |stamps| ==> stamps[i] <= stamps[j])
  }

  ghost predicate ClockRespected(times: Times, now: real) {
    && (times.sendStartedAt.Some? ==> times.sendStartedAt.value <= now)
    && (times.sendCompletedAt.Some? ==>
          times.sendStartedAt.Some? && times.sendStartedAt.value <= times.sendCompletedAt.value <= now)
    && (times.finalRequestedAt.Some? ==> times.finalRequestedAt.value <= now)
  }

  ghost predicate Timing(s: State) {
    && ClockRespected(s.times, s.now)
    && InOrderUpTo(s.partials.receivedAt, s.now)
    && (s.finals.afterFinalizeMs.Some? ==> s.finals.afterFinalizeMs.value >= 0.0)
  }

  ghost predicate Inv(setup: Setup, s: State)
    requires ValidSetup(setup)
  {
    var chunks := Chunks(setup);
    && FramesConserved(chunks, s.sender, s.progress)
    && CallsInOrder(|chunks|, s)
    && CleanExit(s)
    && FirstChunkGoes(|chunks|, s)
    && FinalAfterAudio(|chunks|, s)
    && Handshake(s)
    && ErrorsCounted(s)
    && PartialsCounted(s.partials)
    && Timing(s)
  }

  lemma InitialInv(setup: Setup, startedAt: real)
    requires ValidSetup(setup)
    ensures Inv(setup, Initial(startedAt))
  {
    assert Payloads(Chunks(setup)[..0]) == [];
  }

  lemma SplitSum(chunks: seq<Chunk>, i: nat)
    requires i <= |chunks|
    ensures SumFrames(chunks[..i]) + SumFrames(chunks[i..]) == SumFrames(chunks)
  {
    SumFramesConcat(chunks[..i], chunks[i..]);
    assert chunks[..i] + chunks[i..] == chunks;
  }

  /** One more chunk sent adds its frames and its bytes. */
  lemma OneMoreChunk(chunks: seq<Chunk>, i: nat)
    requires i < |chunks|
    ensures SumFrames(chunks[..i + 1]) == SumFrames(chunks[..i]) + chunks[i].sourceFrameCount
    ensures |Join(Payloads(chunks[..i + 1]))| == |Join(Payloads(chunks[..i]))| + |chunks[i].payload|
  {
    assert chunks[..i + 1] == chunks[..i] + [chunks[i]];
    SumFramesConcat(chunks[..i], [chunks[i]]);
    assert [chunks[i]][1..] == [];
    assert SumFrames([chunks[i]]) == chunks[i].sourceFrameCount;
    assert Payloads(chunks[..i + 1]) == Payloads(chunks[..i]) + [chunks[i].payload];
    JoinSnoc(Payloads(chunks[..i]), chunks[i].payload);
  }

  lemma SenderKeepsFrames(chunks: seq<Chunk>, pace: bool, s: State, a: SenderAction)
    requires SenderEnabled(|chunks|, s, a)
    requires FramesConserved(chunks, s.sender, s.progress)
    ensures FramesConserved(chunks, SenderStep(chunks, pace, s, a).sender, SenderStep(chunks, pace, s, a).progress)
  {
    if a.SendReturns? {
      OneMoreChunk(chunks, s.progress.chunksSent);
    }
    if a.LeaveLoop? {
      assert chunks[s.progress.chunksSent..] == [];
    }
  }

  /** One more call extends the log in one of three ways. */
  lemma LogGrows(attempts: nat, finalized: bool)
    ensures CallLog(attempts, false, false) + [SendAudio(attempts)] == CallLog(attempts + 1, false, false)
    ensures CallLog(attempts, false, false) + [Finalize] == CallLog(attempts, true, false)
    ensures CallLog(attempts, finalized, false) + [Close] == CallLog(attempts, finalized, true)
  {
  }

  lemma SenderKeepsCallCount(chunks: seq<Chunk>, pace: bool, s: State, a: SenderAction)
    requires SenderEnabled(|chunks|, s, a)
    requires LoopPosition(|chunks|, s.sender, s.progress.chunksSent)
    requires CallsCounted(|chunks|, s) && FinalAfterAudio(|chunks|, s)
    ensures CallsCounted(|chunks|, SenderStep(chunks, pace, s, a))
  {
  }

  /** The steps that call the client. */
  predicate CallsClient(s: State, a: SenderAction) {
    a.StartSend? || a.JoinReceiver? || (a.AskForFinal? && !s.receiveDone)
  }

  /** What the log depends on stays the same in every other step. */
  lemma QuietStep(chunks: seq<Chunk>, pace: bool, s: State, a: SenderAction)
    requires SenderEnabled(|chunks|, s, a) && !CallsClient(s, a)
    ensures var after := SenderStep(chunks, pace, s, a);
      && after.calls == s.calls && after.times.finalRequestedAt == s.times.finalRequestedAt
      && (ClosedBy(after.sender) <==> ClosedBy(s.sender))
  {
  }

  lemma SameLog(s: State, after: State)
    requires after.calls == s.calls && after.times.finalRequestedAt == s.times.finalRequestedAt
    requires ClosedBy(after.sender) <==> ClosedBy(s.sender)
    ensures CallsLogged(s) ==> CallsLogged(after)
  {
  }

  lemma CallIsLogged(chunks: seq<Chunk>, pace: bool, s: State, a: SenderAction)
    requires SenderEnabled(|chunks|, s, a) && CallsClient(s, a)
    requires LoopPosition(|chunks|, s.sender, s.progress.chunksSent)
    requires CallsCounted(|chunks|, s) && CallsLogged(s) && FinalAfterAudio(|chunks|, s)
    ensures CallsLogged(SenderStep(chunks, pace, s, a))
  {
    LogGrows(Attempts(s), s.times.finalRequestedAt.Some?);
  }

  lemma SenderKeepsLog(chunks: seq<Chunk>, pace: bool, s: State, a: SenderAction)
    requires SenderEnabled(|chunks|, s, a)
    requires LoopPosition(|chunks|, s.sender, s.progress.chunksSent)
    requires CallsCounted(|chunks|, s) && CallsLogged(s) && FinalAfterAudio(|chunks|, s)
    ensures CallsLogged(SenderStep(chunks, pace, s, a))
  {
    if CallsClient(s, a) {
      CallIsLogged(chunks, pace, s, a);
    } else {
      QuietStep(chunks, pace, s, a);
      SameLog(s, SenderStep(chunks, pace, s, a));
    }
  }

  lemma SenderKeepsFinalAfterAudio(chunks: seq<Chunk>, pace: bool, s: State, a: SenderAction)
    requires SenderEnabled(|chunks|, s, a)
    requires LoopPosition(|chunks|, s.sender, s.progress.chunksSent)
    requires CallsInOrder(|chunks|, s) && FinalAfterAudio(|chunks|, s) && Handshake(s)
    ensures FinalAfterAudio(|chunks|, SenderStep(chunks, pace, s, a))
  {
  }

  lemma SenderKeepsCleanExit(chunks: seq<Chunk>, pace: bool, s: State, a: SenderAction)
    requires SenderEnabled(|chunks|, s, a) && CallsInOrder(|chunks|, s) && FinalAfterAudio(|chunks|, s) && CleanExit(s)
    ensures CleanExit(SenderStep(chunks, pace, s, a))
  {
  }

  lemma SenderKeepsFirstChunk(chunks: seq<Chunk>, pace: bool, s: State, a: SenderAction)
    requires SenderEnabled(|chunks|, s, a) && CallsInOrder(|chunks|, s) && FirstChunkGoes(|chunks|, s)
    ensures FirstChunkGoes(|chunks|, SenderStep(chunks, pace, s, a))
  {
  }

  lemma SenderKeepsCounts(chunks: seq<Chunk>, pace: bool, s: State, a: SenderAction)
    requires SenderEnabled(|chunks|, s, a) && Handshake(s) && ErrorsCounted(s)
    ensures Handshake(SenderStep(chunks, pace, s, a))
    ensures ErrorsCounted(SenderStep(chunks, pace, s, a))
  {
  }

  lemma SenderKeepsTiming(chunks: seq<Chunk>, pace: bool, s: State, a: SenderAction)
    requires SenderEnabled(|chunks|, s, a) && Timing(s)
    ensures Timing(SenderStep(chunks, pace, s, a))
  {
  }

  lemma ReceiverKeepsInv(setup: Setup, s: State, a: ReceiverAction)
    requires ValidSetup(setup) && Inv(setup, s) && Enabled(setup, s, Receiver(a))
    ensures Inv(setup, ReceiverStep(s, a))
  {
    ReceiverKeepsAudio(s, a);
    ReceiverKeepsHandshake(|Chunks(setup)|, s, a);
    ReceiverKeepsCounts(s, a);
    ReceiverKeepsTiming(s, a);
  }

  lemma ReceiverKeepsHandshake(n: nat, s: State, a: ReceiverAction)
    requires ReceiverEnabled(s, a) && FinalAfterAudio(n, s) && Handshake(s)
    ensures FinalAfterAudio(n, ReceiverStep(s, a)) && Handshake(ReceiverStep(s, a))
  {
  }

  lemma ReceiverKeepsCounts(s: State, a: ReceiverAction)
    requires ReceiverEnabled(s, a) && ClockRespected(s.times, s.now)
    requires Handshake(s) && ErrorsCounted(s) && PartialsCounted(s.partials)
    ensures ErrorsCounted(ReceiverStep(s, a)) && PartialsCounted(ReceiverStep(s, a).partials)
  {
  }

  lemma ReceiverKeepsTiming(s: State, a: ReceiverAction)
    requires ReceiverEnabled(s, a) && Timing(s)
    ensures Timing(ReceiverStep(s, a))
  {
  }

  /** At most one call more; only a close comes with the end of the session. */
  predicate IsStepOfCalls(s: State, after: State, made: seq<Call>) {
    && after.calls == s.calls + made
    && (made == [] ==> (ClosedBy(after.sender) <==> ClosedBy(s.sender)))
    && (made != [] ==> |made| == 1 && !ClosedBy(s.sender) && (ClosedBy(after.sender) <==> made[0].Close?))
  }

  /** The call a step makes to the client, if any. */
  lemma CallsMade(setup: Setup, s: State, a: Action) returns (made: seq<Call>)
    requires ValidSetup(setup) && Enabled(setup, s, a)
    ensures IsStepOfCalls(s, Apply(setup, s, a), made)
  {
    match a
    case Tick(_) => made := [];
    case Sender(send) => made := SenderCallsMade(Chunks(setup), setup.realtimePace, s, send);
    case Receiver(receive) =>
      made := [];
      ReceiverKeepsAudio(s, receive);
  }

  lemma SenderCallsMade(chunks: seq<Chunk>, pace: bool, s: State, a: SenderAction) returns (made: seq<Call>)
    requires SenderEnabled(|chunks|, s, a)
    ensures IsStepOfCalls(s, SenderStep(chunks, pace, s, a), made)
  {
    made :=
      match a
      case StartSend => [SendAudio(s.sender.next)]
      case AskForFinal => if s.receiveDone then [] else [Finalize]
      case JoinReceiver => [Close]
      case _ => [];
  }

  /** The receiver never touches what the sender counts. */
  lemma ReceiverKeepsAudio(s: State, a: ReceiverAction)
    ensures ReceiverStep(s, a).sender == s.sender && ReceiverStep(s, a).progress == s.progress
    ensures ReceiverStep(s, a).calls == s.calls && ReceiverStep(s, a).times == s.times
    ensures ReceiverStep(s, a).now == s.now && ReceiverStep(s, a).errors.count >= s.errors.count
  {
  }

  lemma {:induction false} ExecuteKeepsInv(setup: Setup, startedAt: real, schedule: seq<Action>)
    requires ValidSetup(setup) && Execute(setup, startedAt, schedule).Some?
    ensures Inv(setup, Execute(setup, startedAt, schedule).value)
    decreases |schedule|
  {
    if |schedule| == 0 {
      InitialInv(setup, startedAt);
    } else {
      var front, a := schedule[..|schedule| - 1], schedule[|schedule| - 1];
      ExecuteKeepsInv(setup, startedAt, front);
      StepKeepsInv(setup, Execute(setup, startedAt, front).value, a);
    }
  }

  lemma StepKeepsInv(setup: Setup, s: State, a: Action)
    requires ValidSetup(setup) && Inv(setup, s) && Enabled(setup, s, a)
    ensures Inv(setup, Apply(setup, s, a))
  {
    match a
    case Tick(elapsed) =>
    case Sender(send) => SenderKeepsInv(setup, s, send);
    case Receiver(receive) => ReceiverKeepsInv(setup, s, receive);
  }

  lemma SenderKeepsInv(setup: Setup, s: State, a: SenderAction)
    requires ValidSetup(setup) && Inv(setup, s) && SenderEnabled(|Chunks(setup)|, s, a)
    ensures Inv(setup, SenderStep(Chunks(setup), setup.realtimePace, s, a))
  {
    SenderKeepsFrames(Chunks(setup), setup.realtimePace, s, a);
    SenderKeepsCallCount(Chunks(setup), setup.realtimePace, s, a);
    SenderKeepsLog(Chunks(setup), setup.realtimePace, s, a);
    SenderKeepsFinalAfterAudio(Chunks(setup), setup.realtimePace, s, a);
    SenderKeepsCleanExit(Chunks(setup), setup.realtimePace, s, a);
    SenderKeepsFirstChunk(Chunks(setup), setup.realtimePace, s, a);
    SenderKeepsCounts(Chunks(setup), setup.realtimePace, s, a);
    SenderKeepsTiming(Chunks(setup), setup.realtimePace, s, a);
    SenderKeepsPartials(Chunks(setup), setup.realtimePace, s, a);
  }

  lemma SenderKeepsPartials(chunks: seq<Chunk>, pace: bool, s: State, a: SenderAction)
    requires SenderEnabled(|chunks|, s, a)
    ensures SenderStep(chunks, pace, s, a).partials == s.partials
  {
  }

  lemma ReachableInv(setup: Setup, s: State)
    requires ValidSetup(setup) && Reachable(setup, s)
    ensures Inv(setup, s)
  {
    var startedAt, schedule :| Execute(setup, startedAt, schedule) == Some(s);
    ExecuteKeepsInv(setup, startedAt, schedule);
  }

  // ---- Main results ------------------------------------------------------------------------

  /** Counters and codes agree in every reachable state, whatever the client does. */
  lemma ErrorsAndEvents(setup: Setup, s: State)
    requires ValidSetup(setup) && Reachable(setup, s)
    ensures |s.errors.codes| == s.errors.count <= 3
    ensures s.finals.events <= 1
    ensures s.partials.events > 0 ==> s.partials.changes < s.partials.events
    ensures s.partials.events == 0 ==> s.partials.changes == 0
    ensures ReportOf(setup, s).successfulRuns == 1 <==> s.finals.events == 1 && s.errors.codes == []
  {
    ReachableInv(setup, s);
  }

  /** A finished run accounts for every frame, and the report's correction term adds nothing. */
  lemma FramesAccountedFor(setup: Setup, s: State)
    requires ValidSetup(setup) && Reachable(setup, s) && s.sender.Finished?
    ensures s.progress.sourceFramesSent + s.progress.framesDropped == |setup.frames|
    ensures ReportOf(setup, s).audioFramesDropped == s.progress.framesDropped
  {
    ReachableInv(setup, s);
    SplitSum(Chunks(setup), s.progress.chunksSent);
    AggregateIsLossless(setup.frames, setup.frameMs, setup.framesPerChunk);
  }

  /** A recorded finalization latency is a real one: all audio first, then one finalize, then at most one close. */
  lemma LatencyMeansComplete(setup: Setup, s: State)
    requires ValidSetup(setup) && Reachable(setup, s) && s.finals.afterFinalizeMs.Some?
    ensures s.finals.afterFinalizeMs.value >= 0.0
    ensures s.progress.sourceFramesSent == |setup.frames| && s.progress.framesDropped == 0
    ensures s.calls == CallLog(|Chunks(setup)|, true, false) || s.calls == CallLog(|Chunks(setup)|, true, true)
  {
    ReachableInv(setup, s);
    var chunks := Chunks(setup);
    AggregateIsLossless(setup.frames, setup.frameMs, setup.framesPerChunk);
    assert chunks[..|chunks|] == chunks && chunks[|chunks|..] == [];
  }

  /** The client is always driven the same way: chunks in order, one optional finalize after all of them, one close. */
  lemma ClientCallOrder(setup: Setup, s: State)
    requires ValidSetup(setup) && Reachable(setup, s) && s.sender.Finished?
    ensures exists attempts: nat, finalized: bool ::
      && s.calls == CallLog(attempts, finalized, true)
      && attempts <= |Chunks(setup)|
      && (finalized ==> attempts == |Chunks(setup)|)
  {
    ReachableInv(setup, s);
    assert s.calls == CallLog(Attempts(s), s.times.finalRequestedAt.Some?, true);
  }

  /** The bytes sent are a prefix of the audio, cut at a chunk boundary; raw UDS adds one header per chunk. */
  lemma BytesSentArePrefix(setup: Setup, s: State)
    requires ValidSetup(setup) && Reachable(setup, s)
    ensures s.progress.chunksSent <= |Chunks(setup)|
    ensures Join(Payloads(Chunks(setup)[..s.progress.chunksSent])) <= Join(setup.frames)
    ensures ReportOf(setup, s).audioPayloadBytesSent == |Join(Payloads(Chunks(setup)[..s.progress.chunksSent]))|
    ensures ReportOf(setup, s).transportAudioBytesSent
         == |Join(Payloads(Chunks(setup)[..s.progress.chunksSent]))|
          + (if setup.transport.RawUds? then 5 * s.progress.chunksSent else 0)
  {
    ReachableInv(setup, s);
    var chunks, sent := Chunks(setup), s.progress.chunksSent;
    AggregateIsLossless(setup.frames, setup.frameMs, setup.framesPerChunk);
    assert Payloads(chunks[..sent]) == Payloads(chunks)[..sent];
    JoinPrefix(Payloads(chunks), sent, |chunks|);
    assert Payloads(chunks)[..|chunks|] == Payloads(chunks);
  }

  /** The latency field of a successful run tells whether finalize was ever called. */
  lemma SuccessfulLatencyIff(setup: Setup, s: State)
    requires ValidSetup(setup) && Reachable(setup, s) && s.sender.Finished?
    requires ReportOf(setup, s).successfulRuns == 1
    ensures s.finals.afterFinalizeMs.Some? <==> Finalize in s.calls
    ensures s.finals.afterFinalizeMs.Some? ==> s.progress.framesDropped == 0
  {
    ReachableInv(setup, s);
    if s.finals.afterFinalizeMs.Some? {
      LatencyMeansComplete(setup, s);
      assert s.calls[|Chunks(setup)|] == Finalize;
    }
  }

  /** No chunk is empty of frames, so frames are dropped exactly when a chunk is. */
  lemma NothingDroppedIff(chunks: seq<Chunk>, sent: nat)
    requires sent <= |chunks| && forall c :: c in chunks ==> c.sourceFrameCount > 0
    ensures SumFrames(chunks[sent..]) == 0 <==> sent == |chunks|
  {
    if sent < |chunks| {
      assert chunks[sent] in chunks && chunks[sent..][0] == chunks[sent];
    } else {
      assert chunks[sent..] == [];
    }
  }

  /** A successful run dropped nothing exactly when every chunk had been handed to the client. */
  lemma SuccessDropsNothingIff(setup: Setup, s: State)
    requires ValidSetup(setup) && Reachable(setup, s) && s.sender.Finished?
    requires ReportOf(setup, s).successfulRuns == 1
    ensures s.progress.framesDropped == 0 <==> Attempts(s) == |Chunks(setup)|
  {
    ReachableInv(setup, s);
    AggregateDurations(setup.frames, setup.frameMs, setup.framesPerChunk);
    NothingDroppedIff(Chunks(setup), s.progress.chunksSent);
  }

  /** Once `receive_done` is set, no chunk is handed to the client any more. */
  lemma NoAttemptWhenDone(setup: Setup, s: State, a: Action)
    requires ValidSetup(setup) && s.receiveDone && Enabled(setup, s, a)
    ensures Apply(setup, s, a).receiveDone && Attempts(Apply(setup, s, a)) == Attempts(s)
  {
    match a
    case Tick(_) =>
    case Sender(send) => SenderMakesNoAttempt(Chunks(setup), setup.realtimePace, s, send);
    case Receiver(receive) => ReceiverKeepsAudio(s, receive);
  }

  lemma SenderMakesNoAttempt(chunks: seq<Chunk>, pace: bool, s: State, a: SenderAction)
    requires SenderEnabled(|chunks|, s, a) && s.receiveDone
    ensures SenderStep(chunks, pace, s, a).receiveDone
    ensures Attempts(SenderStep(chunks, pace, s, a)) == Attempts(s)
  {
  }

  lemma {:induction false} AttemptsStay(setup: Setup, startedAt: real, first: seq<Action>, rest: seq<Action>)
    requires ValidSetup(setup)
    requires Execute(setup, startedAt, first).Some? && Execute(setup, startedAt, first).value.receiveDone
    requires Execute(setup, startedAt, first + rest).Some?
    ensures Execute(setup, startedAt, first + rest).value.receiveDone
    ensures Attempts(Execute(setup, startedAt, first + rest).value) == Attempts(Execute(setup, startedAt, first).value)
    decreases |rest|
  {
    if rest == [] {
      assert first + rest == first;
    } else {
      var shorter, a := rest[..|rest| - 1], rest[|rest| - 1];
      assert (first + rest)[..|first + rest| - 1] == first + shorter;
      AttemptsStay(setup, startedAt, first, shorter);
      NoAttemptWhenDone(setup, Execute(setup, startedAt, first + shorter).value, a);
    }
  }

  predicate IsFinal(event: Event) {
    !event.kind.ErrorEvent? && !event.kind.WarningEvent? && (event.isFinal || event.kind.FinalEvent?)
  }

  /**
   * Told when the final arrives: a run that goes on to succeed drops nothing exactly if every chunk has been
   * handed to the client by then. The last of them need not have returned, and finalize need not have been called.
   */
  lemma FinalAfterLastChunkIff(setup: Setup, startedAt: real, before: seq<Action>, event: Event, rest: seq<Action>,
                               whenReceived: State, end: State)
    requires ValidSetup(setup) && IsFinal(event)
    requires Execute(setup, startedAt, before) == Some(whenReceived)
    requires Execute(setup, startedAt, before + [Receiver(Receive(event))] + rest) == Some(end)
    requires end.sender.Finished? && ReportOf(setup, end).successfulRuns == 1
    ensures end.progress.framesDropped == 0 <==> Attempts(whenReceived) == |Chunks(setup)|
  {
    var upTo := before + [Receiver(Receive(event))];
    assert upTo[..|upTo| - 1] == before;
    PrefixExecutes(setup, startedAt, upTo, rest);
    AttemptsStay(setup, startedAt, upTo, rest);
    SuccessDropsNothingIff(setup, end);
  }

  lemma {:induction false} PrefixExecutes(setup: Setup, startedAt: real, first: seq<Action>, rest: seq<Action>)
    requires ValidSetup(setup) && Execute(setup, startedAt, first + rest).Some?
    ensures Execute(setup, startedAt, first).Some?
    decreases |rest|
  {
    if rest == [] {
      assert first + rest == first;
    } else {
      assert (first + rest)[..|first + rest| - 1] == first + rest[..|rest| - 1];
      PrefixExecutes(setup, startedAt, first, rest[..|rest| - 1]);
    }
  }

  /** Nothing is awaited ahead of the first `send_audio`, so a successful run has sent its first chunk. */
  lemma SuccessSendsFirstChunk(setup: Setup, s: State)
    requires ValidSetup(setup) && Reachable(setup, s) && s.sender.Finished?
    requires ReportOf(setup, s).successfulRuns == 1
    ensures |Chunks(setup)| > 0 ==> s.progress.chunksSent > 0
  {
    ReachableInv(setup, s);
  }

  /** A run that counts as successful, after sending that many chunks. */
  ghost predicate SucceedsAfter(setup: Setup, s: State, sent: nat)
    requires ValidSetup(setup)
  {
    && Reachable(setup, s) && s.sender.Finished?
    && ReportOf(setup, s).successfulRuns == 1
    && s.progress.chunksSent == sent
  }

  /**
   * "Successful" does not mean that the audio was sent. Of any audio, a successful run can have sent every
   * number of chunks but none; what follows was dropped.
   */
  lemma ChunksOfSuccessIff(setup: Setup, sent: nat)
    requires ValidSetup(setup)
    ensures (exists s :: SucceedsAfter(setup, s, sent)) <==> sent <= |Chunks(setup)| && (sent == 0 ==> Chunks(setup) == [])
  {
    forall s | SucceedsAfter(setup, s, sent)
      ensures sent <= |Chunks(setup)| && (sent == 0 ==> Chunks(setup) == [])
    {
      ReachableInv(setup, s);
      SuccessSendsFirstChunk(setup, s);
    }
    if 0 < sent <= |Chunks(setup)| {
      var s := FinalDuringSend(setup, sent);
    } else if sent == |Chunks(setup)| == 0 {
      var s := FinalOfNoAudio(setup);
    }
  }

  /** The frames of all chunks but the first can be dropped by a successful run. */
  lemma SuccessCanDropTheRest(setup: Setup) returns (s: State)
    requires ValidSetup(setup) && |Chunks(setup)| > 1
    ensures SucceedsAfter(setup, s, 1)
    ensures s.progress.framesDropped == |setup.frames| - Chunks(setup)[0].sourceFrameCount > 0
  {
    s := FinalDuringSend(setup, 1);
    ReachableInv(setup, s);
    FramesAccountedFor(setup, s);
    AggregateDurations(setup.frames, setup.frameMs, setup.framesPerChunk);
    NothingDroppedIff(Chunks(setup), 1);
    assert SumFrames(Chunks(setup)[..0]) == 0;
    OneMoreChunk(Chunks(setup), 0);
  }

  /** The sender at the loop head after so many chunks, without having let the receiver move. */
  lemma SendAlone(setup: Setup, sent: nat) returns (schedule: seq<Action>, s: State)
    requires ValidSetup(setup) && sent <= |Chunks(setup)|
    ensures Execute(setup, 0.0, schedule) == Some(s)
    ensures s.sender == AtLoop(sent) && s.receiver.Created? && !s.receiveDone && s.progress.chunksSent == sent
    ensures s.finals == Finals(0, None, None) && s.errors == Errors(0, [])
  {
    schedule, s := [], Initial(0.0);
    assert Execute(setup, 0.0, schedule) == Some(s);
    if sent > 0 {
      schedule, s := SendAlone(setup, sent - 1);
      schedule, s := Extend(setup, schedule, s, Sender(StartSend));
      schedule, s := Extend(setup, schedule, s, Sender(SendReturns));
      if setup.realtimePace {
        schedule, s := Extend(setup, schedule, s, Sender(WakeUp));
      }
    }
  }

  const THE_FINAL := Receive(Event(FinalEvent, true, "", None, None))

  /** The receiver takes its first turn and gets the final, while the sender stands at an await. */
  lemma FinalArrives(setup: Setup, before: seq<Action>, s: State) returns (schedule: seq<Action>, next: State)
    requires ValidSetup(setup) && Execute(setup, 0.0, before) == Some(s)
    requires AtAwait(s.sender) && s.receiver.Created? && !s.receiveDone && s.finals == Finals(0, None, None)
    ensures Execute(setup, 0.0, schedule) == Some(next)
    ensures next == s.(receiver := Stopped, receiveDone := true, finals := next.finals) && next.finals.events == 1
  {
    schedule, next := Extend(setup, before, s, Receiver(Begin));
    schedule, next := Extend(setup, schedule, next, Receiver(THE_FINAL));
  }

  predicate Succeeding(s: State) {
    s.receiver.Stopped? && s.receiveDone && s.finals.events == 1 && s.errors.count == 0
  }

  /** From there the session ends without an error. */
  lemma JoinAndClose(setup: Setup, before: seq<Action>, s: State) returns (end: State)
    requires ValidSetup(setup) && Execute(setup, 0.0, before) == Some(s)
    requires s.sender.JoiningReceiver? && Succeeding(s)
    ensures SucceedsAfter(setup, end, s.progress.chunksSent)
  {
    var schedule;
    schedule, end := Extend(setup, before, s, Sender(JoinReceiver));
    schedule, end := Extend(setup, schedule, end, Sender(CloseReturns));
  }

  /** The sender comes back from a send and leaves the loop, since the final is there or nothing is left to send. */
  lemma LeaveAfterSend(setup: Setup, before: seq<Action>, s: State, sent: nat) returns (schedule: seq<Action>, next: State)
    requires ValidSetup(setup) && Execute(setup, 0.0, before) == Some(s)
    requires s.sender == Sending(sent) && sent < |Chunks(setup)| && s.progress.chunksSent == sent && Succeeding(s)
    ensures Execute(setup, 0.0, schedule) == Some(next)
    ensures next.sender.AfterLoop? && next.progress.chunksSent == sent + 1 && Succeeding(next)
  {
    schedule, next := Extend(setup, before, s, Sender(SendReturns));
    if setup.realtimePace {
      schedule, next := Extend(setup, schedule, next, Sender(WakeUp));
    }
    schedule, next := Extend(setup, schedule, next, Sender(if sent + 1 < |Chunks(setup)| then StopSending else LeaveLoop));
  }

  lemma FinalDuringSend(setup: Setup, sent: nat) returns (s: State)
    requires ValidSetup(setup) && 0 < sent <= |Chunks(setup)|
    ensures SucceedsAfter(setup, s, sent)
  {
    var schedule;
    schedule, s := SendAlone(setup, sent - 1);
    schedule, s := Extend(setup, schedule, s, Sender(StartSend));
    schedule, s := FinalArrives(setup, schedule, s);
    schedule, s := LeaveAfterSend(setup, schedule, s, sent - 1);
    schedule, s := Extend(setup, schedule, s, Sender(AskForFinal));
    s := JoinAndClose(setup, schedule, s);
  }

  lemma FinalOfNoAudio(setup: Setup) returns (s: State)
    requires ValidSetup(setup) && Chunks(setup) == []
    ensures SucceedsAfter(setup, s, 0)
  {
    var schedule;
    schedule, s := SendAlone(setup, 0);
    schedule, s := Extend(setup, schedule, s, Sender(LeaveLoop));
    schedule, s := Extend(setup, schedule, s, Sender(AskForFinal));
    schedule, s := FinalArrives(setup, schedule, s);
    schedule, s := Extend(setup, schedule, s, Sender(FinalizeReturns));
    schedule, s := Extend(setup, schedule, s, Sender(SeeReceiveDone));
    s := JoinAndClose(setup, schedule, s);
  }

  lemma Extend(setup: Setup, schedule: seq<Action>, s: State, a: Action) returns (longer: seq<Action>, next: State)
    requires ValidSetup(setup)
    requires Execute(setup, 0.0, schedule) == Some(s) && Enabled(setup, s, a)
    ensures next == Apply(setup, s, a)
    ensures Execute(setup, 0.0, longer) == Some(next)
    ensures Reachable(setup, next)
  {
    next := Apply(setup, s, a);
    longer := schedule + [a];
    assert longer[..|longer| - 1] == schedule;
  }

  // ---- Progress ----------------------------------------------------------------------------

  /** No reachable state is stuck: until the session is finished, some task can move. */
  lemma NoDeadlock(setup: Setup, s: State)
    requires ValidSetup(setup) && Reachable(setup, s) && !s.sender.Finished?
    ensures exists a: Action :: !a.Tick? && Enabled(setup, s, a)
  {
    ReachableInv(setup, s);
    var a :=
      match s.sender
      case AtLoop(i) =>
        Sender(if i >= |Chunks(setup)| then LeaveLoop else if s.receiveDone then StopSending else StartSend)
      case Sending(_) => Sender(SendReturns)
      case Sleeping(_) => Sender(WakeUp)
      case AfterLoop => Sender(AskForFinal)
      case Finalizing => Sender(FinalizeReturns)
      case AwaitingFinal => Sender(FinalTimesOut)
      case JoiningReceiver =>
        if s.receiver.Created? then Receiver(Begin)
        else if s.receiver.Receiving? then Receiver(ReceiveNothing) else Sender(JoinReceiver)
      case _ => Sender(CloseReturns);
    assert Enabled(setup, s, a);
  }

  /** Steps left at most, once `receive_done` is set; independent of how much audio remains. */
  function StepsLeft(s: State): nat {
    (match s.sender
     case Sending(_) => 6
     case Sleeping(_) => 5
     case AtLoop(_) => 4
     case AfterLoop => 3
     case Finalizing => 4
     case AwaitingFinal => 3
     case JoiningReceiver => 2
     case Closing => 1
     case Finished => 0)
    + (match s.receiver
       case Receiving => 1
       case Created => 1
       case Stopped => 0)
  }

  /** Shutdown is bounded: after `receive_done` every step of either task is one of at most seven left. */
  lemma BoundedShutdown(setup: Setup, s: State, a: Action)
    requires ValidSetup(setup) && s.receiveDone
    requires Enabled(setup, s, a) && !a.Tick?
    ensures Apply(setup, s, a).receiveDone
    ensures StepsLeft(Apply(setup, s, a)) < StepsLeft(s) <= 7
  {
    match a
    case Sender(send) => SenderWindsDown(Chunks(setup), setup.realtimePace, s, send);
    case Receiver(receive) => ReceiverWindsDown(s, receive);
  }

  lemma SenderWindsDown(chunks: seq<Chunk>, pace: bool, s: State, a: SenderAction)
    requires SenderEnabled(|chunks|, s, a) && s.receiveDone
    ensures SenderStep(chunks, pace, s, a).receiveDone
    ensures StepsLeft(SenderStep(chunks, pace, s, a)) < StepsLeft(s)
  {
  }

  lemma ReceiverWindsDown(s: State, a: ReceiverAction)
    requires ReceiverEnabled(s, a) && s.receiveDone
    ensures ReceiverStep(s, a).receiveDone
    ensures StepsLeft(ReceiverStep(s, a)) < StepsLeft(s)
  {
  }
}
