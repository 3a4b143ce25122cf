/**
 * One Local STT v1 stream on the server: the connection loop and the decoding worker share the
 * session and the runtime flags. A step is what either does between two awaits; transcripts are
 * whatever the backend returns, and carry the audio they were made from.
 */
module AsrWorker {
  import opened Arithmetic
  import opened ByteStrings
  import opened Results
  import opened Rounding
  import opened Sequences

  // ---- Session -----------------------------------------------------------------------------

  datatype Config = Config(
    sampleRate: int,
    maxBufferBytes: nat,
    partialWindowBytes: Option<nat>,
    partialIntervalChunks: int,
    partialIntervalAudioMs: Option<int>,
    interimResults: bool,
    finalizeOnStablePartial: bool,
    stablePartialCycles: int,
    stateful: bool)

  /** What the start message is checked for before a session is created. */
  predicate ValidConfig(c: Config) {
    && c.partialIntervalChunks > 0
    && (c.partialIntervalAudioMs.Some? ==> c.partialIntervalAudioMs.value > 0)
    && c.stablePartialCycles > 0
  }

  /** A backend result; `normalized` is the text as compared for stability, absent for blank text. */
  datatype Transcript = Transcript(text: string, normalized: Option<string>, basis: Bytes)

  datatype Session = Session(
    audioBuffer: Bytes,
    chunksReceived: nat,
    lastPartialChunksReceived: nat,
    lastPartialAudioReceivedMs: int,
    lastPartialResult: Option<Transcript>,
    stablePartialText: Option<string>,
    stablePartialCount: nat,
    transcriptRevision: nat)

  const EMPTY_SESSION := Session([], 0, 0, 0, None, None, 0, 0)

  function DurationMs(byteCount: nat, sampleRate: int): int {
    if sampleRate < 1 then 0
    else Max(0, RoundHalfEven(byteCount as real / 2.0 * 1000.0 / sampleRate as real))
  }

  function AudioReceivedMs(c: Config, s: Session): int {
    DurationMs(|s.audioBuffer|, c.sampleRate)
  }

  function ShouldEmitPartial(c: Config, s: Session): bool {
    if c.partialIntervalAudioMs.None? then s.chunksReceived - s.lastPartialChunksReceived >= c.partialIntervalChunks
    else AudioReceivedMs(c, s) - s.lastPartialAudioReceivedMs >= c.partialIntervalAudioMs.value
  }

  function CoversFullBuffer(c: Config, buffer: Bytes): bool {
    c.partialWindowBytes.None? || |buffer| <= c.partialWindowBytes.value
  }

  function PartialAudioBytes(c: Config, buffer: Bytes): Bytes {
    if CoversFullBuffer(c, buffer) || c.partialWindowBytes.value == 0 then buffer
    else buffer[|buffer| - c.partialWindowBytes.value..]
  }

  function CanReuseLastPartial(c: Config, s: Session): bool {
    s.lastPartialResult.Some? && s.lastPartialChunksReceived == s.chunksReceived && CoversFullBuffer(c, s.audioBuffer)
  }

  function AppendAudio(s: Session, chunk: Bytes): Session {
    s.(audioBuffer := s.audioBuffer + chunk, chunksReceived := s.chunksReceived + 1)
  }

  function RecordPartial(s: Session, t: Transcript, snap: Snapshot): Session {
    s.(lastPartialResult := Some(t), lastPartialChunksReceived := snap.chunks, lastPartialAudioReceivedMs := snap.ms)
  }

  function RecordStability(s: Session, t: Transcript): Session {
    if t.normalized.None? then s.(stablePartialText := None, stablePartialCount := 0)
    else if t.normalized == s.stablePartialText then s.(stablePartialCount := s.stablePartialCount + 1)
    else s.(stablePartialText := t.normalized, stablePartialCount := 1)
  }

  function ShouldFinalizeStablePartial(c: Config, s: Session): bool {
    c.finalizeOnStablePartial && s.stablePartialCount >= c.stablePartialCycles
  }

  // ---- Runtime -----------------------------------------------------------------------------

  /** What the worker noted when it began a partial; `whole` is the buffer it saw then. */
  datatype Snapshot = Snapshot(chunks: nat, ms: int, whole: Bytes, audio: Bytes)

  datatype WorkerPc = Waiting | DecodingPartial(snap: Snapshot) | DecodingFinal | Exited | Failed

  datatype MainPc = Receiving | AwaitingWorker | Canceling | Stopping | Ended

  datatype Event =
    | TranscriptEvent(
        text: string, isFinal: bool, fromFinalize: bool, revision: nat, basis: Bytes,
        audioReceivedMs: int, audioTranscribedMs: int)
    | CancelWarning

  datatype Flags = Flags(
    audioUpdated: bool, finalizeRequested: bool, cancelRequested: bool, dirty: bool, closed: bool, finalEmitted: bool)

  /** `decodedOffset` and `pushed` follow a stateful decoder: how far it has come back, and what it has been given. */
  datatype State = State(
    session: Session,
    flags: Flags,
    worker: WorkerPc,
    main: MainPc,
    events: seq<Event>,
    decodedOffset: nat,
    pushed: Bytes)

  const INITIAL := State(EMPTY_SESSION, Flags(false, false, false, false, false, false), Waiting, Receiving, [], 0, [])

  datatype Action =
    // the connection loop
    | Audio(chunk: Bytes)
    | Finalize
    | Cancel
    | CancelDelivered
    | Close
    | SeeWorkerDone
    // the worker
    | Wake
    | PartialReturns(result: Option<(string, Option<string>)>)
    | FinalReturns(text: string, normalized: Option<string>)
    | DecodeRaises

  predicate WorkerDone(w: WorkerPc) {
    w.Exited? || w.Failed?
  }

  /** A rolling-window backend always returns a transcript; only a stateful one may return nothing. */
  predicate Enabled(c: Config, s: State, a: Action) {
    match a
    case Audio(_) => s.main.Receiving?
    case Finalize => s.main.Receiving?
    case Cancel => s.main.Receiving?
    case CancelDelivered => s.main.Canceling?
    case Close => s.main.Receiving?
    case SeeWorkerDone => (s.main.Receiving? || s.main.AwaitingWorker? || s.main.Stopping?) && WorkerDone(s.worker)
    case Wake => s.worker.Waiting? && s.flags.audioUpdated
    case PartialReturns(result) => s.worker.DecodingPartial? && (result.None? ==> c.stateful)
    case FinalReturns(_, _) => s.worker.DecodingFinal?
    case DecodeRaises => s.worker.DecodingPartial? || s.worker.DecodingFinal?
  }

  // ---- Steps -------------------------------------------------------------------------------

  /** A protocol error, a close or a disconnect: `stop_runtime`. */
  function Stop(s: State): State {
    s.(flags := s.flags.(closed := true, audioUpdated := true), main := Stopping)
  }

  function MakeEvent(c: Config, s: Session, t: Transcript, isFinal: bool, fromFinalize: bool, transcribedBytes: nat): Event {
    TranscriptEvent(t.text, isFinal, fromFinalize, s.transcriptRevision + 1, t.basis,
                    AudioReceivedMs(c, s), DurationMs(transcribedBytes, c.sampleRate))
  }

  function Emit(c: Config, s: State, t: Transcript, isFinal: bool, fromFinalize: bool, transcribedBytes: nat): State {
    s.(events := s.events + [MakeEvent(c, s.session, t, isFinal, fromFinalize, transcribedBytes)],
       session := s.session.(transcriptRevision := s.session.transcriptRevision + 1))
  }

  function ExitWithFinal(s: State): State {
    s.(flags := s.flags.(finalEmitted := true, closed := true), worker := Exited)
  }

  function EmitFinal(c: Config, s: State, t: Transcript): State {
    if s.flags.cancelRequested || s.flags.closed then s.(worker := Exited)
    else ExitWithFinal(Emit(c, s, t, true, true, |s.session.audioBuffer|))
  }

  /** The audio a stateful decoder has not come back with. */
  function Remaining(s: State): Bytes {
    s.session.audioBuffer[Min(s.decodedOffset, |s.session.audioBuffer|)..]
  }

  /** `push_audio` is called with these bytes, and the decode is under way. */
  function StartDecode(c: Config, s: State, audio: Bytes, worker: WorkerPc): State {
    s.(worker := worker, pushed := if c.stateful then s.pushed + audio else s.pushed)
  }

  function WakeUp(c: Config, s0: State): State {
    var s := s0.(flags := s0.flags.(audioUpdated := false));
    if s.flags.cancelRequested || s.flags.finalEmitted || s.flags.closed then s.(worker := Exited)
    else if s.flags.finalizeRequested then
      if !c.stateful && CanReuseLastPartial(c, s.session) then EmitFinal(c, s, s.session.lastPartialResult.value)
      else StartDecode(c, s, Remaining(s), DecodingFinal)
    else if !c.interimResults || !ShouldEmitPartial(c, s.session) then s.(flags := s.flags.(dirty := false))
    else
      var whole := s.session.audioBuffer;
      var audio := if c.stateful then Remaining(s) else PartialAudioBytes(c, whole);
      StartDecode(c, s.(flags := s.flags.(dirty := false)), audio,
                  DecodingPartial(Snapshot(s.session.chunksReceived, AudioReceivedMs(c, s.session), whole, audio)))
  }

  /** A stateful decoder has come back with so many bytes more. */
  function Advance(c: Config, s: State, n: nat): State {
    if c.stateful then s.(decodedOffset := s.decodedOffset + n) else s
  }

  function PartialDone(c: Config, s0: State, result: Option<(string, Option<string>)>): State
    requires s0.worker.DecodingPartial?
  {
    var snap := s0.worker.snap;
    var s := Advance(c, s0, |snap.audio|).(worker := Waiting);
    var again := s.flags.(audioUpdated := s.flags.audioUpdated || s.flags.dirty);
    if s.flags.cancelRequested || s.flags.finalEmitted || s.flags.closed then s.(worker := Exited)
    else if result.None? then
      s.(session := s.session.(lastPartialChunksReceived := snap.chunks, lastPartialAudioReceivedMs := snap.ms), flags := again)
    else
      var t := Transcript(result.value.0, result.value.1, if c.stateful then s.pushed else snap.audio);
      if s.flags.finalizeRequested then
        var upToDate := snap.chunks == s.session.chunksReceived && CoversFullBuffer(c, s.session.audioBuffer);
        s.(session := if upToDate then RecordPartial(s.session, t, snap) else s.session,
           flags := s.flags.(audioUpdated := true))
      else
        var r := s.(session := RecordStability(RecordPartial(s.session, t, snap), t));
        if t.normalized.None? then r.(flags := again)
        else
          var isFinal := ShouldFinalizeStablePartial(c, r.session);
          var e := Emit(c, r, t, isFinal, false, |snap.audio|);
          if isFinal then ExitWithFinal(e) else e.(flags := again)
  }

  function FinalDone(c: Config, s0: State, text: string, normalized: Option<string>): State {
    var s := Advance(c, s0, |Remaining(s0)|);
    EmitFinal(c, s, Transcript(text, normalized, if c.stateful then s.pushed else s.session.audioBuffer))
  }

  function Apply(c: Config, s: State, a: Action): State
    requires Enabled(c, s, a)
  {
    match a
    case Audio(chunk) =>
      // an empty chunk or half a sample is a protocol error, and so is too much audio
      if chunk == [] || |chunk| % 2 != 0 || |s.session.audioBuffer| + |chunk| > c.maxBufferBytes then Stop(s)
      else s.(session := AppendAudio(s.session, chunk), flags := s.flags.(dirty := true, audioUpdated := true))
    case Finalize =>
      if s.session.audioBuffer == [] then Stop(s)
      else s.(flags := s.flags.(finalizeRequested := true, audioUpdated := true), main := AwaitingWorker)
    case Cancel =>
      s.(session := s.session.(audioBuffer := [], lastPartialResult := None, stablePartialText := None, stablePartialCount := 0),
         flags := s.flags.(cancelRequested := true, audioUpdated := true),
         events := s.events + [CancelWarning],
         main := Canceling)
    case CancelDelivered => Stop(s)
    case Close => Stop(s)
    case SeeWorkerDone => s.(main := Ended)
    case Wake => WakeUp(c, s)
    case PartialReturns(result) => PartialDone(c, s, result)
    case FinalReturns(text, normalized) => FinalDone(c, s, text, normalized)
    case DecodeRaises => s.(worker := Failed)
  }

  ghost function Execute(c: Config, schedule: seq<Action>): Option<State>
    decreases |schedule|
  {
    if |schedule| == 0 then Some(INITIAL)
    else
      var before := Execute(c, schedule[..|schedule| - 1]);
      var a := schedule[|schedule| - 1];
      if before.Some? && Enabled(c, before.value, a) then Some(Apply(c, before.value, a)) else None
  }

  ghost predicate Reachable(c: Config, s: State) {
    exists schedule :: Execute(c, schedule) == Some(s)
  }

  // ---- What every step keeps ---------------------------------------------------------------

  /** Equal chunk counts mean equal buffers, so what was decoded then can stand for what is there now. */
  predicate CacheSound(c: Config, s: State) {
    && |s.session.audioBuffer| <= c.maxBufferBytes
    && s.session.lastPartialChunksReceived <= s.session.chunksReceived
    && (s.worker.DecodingPartial? && !s.flags.cancelRequested ==> SnapshotSound(c, s, s.worker.snap))
    && (!c.stateful && CanReuseLastPartial(c, s.session) ==> s.session.lastPartialResult.value.basis == s.session.audioBuffer)
  }

  predicate SnapshotSound(c: Config, s: State, snap: Snapshot) {
    && snap.chunks <= s.session.chunksReceived
    && snap.whole <= s.session.audioBuffer
    && (snap.chunks == s.session.chunksReceived ==> snap.whole == s.session.audioBuffer)
    && (!s.flags.dirty ==> snap.chunks == s.session.chunksReceived)
    && (s.flags.dirty ==> |snap.whole| < |s.session.audioBuffer|)
    && snap.ms == DurationMs(|snap.whole|, c.sampleRate)
    && |snap.audio| <= |snap.whole|
    && (!c.stateful ==> snap.audio == PartialAudioBytes(c, snap.whole))
    && (c.stateful ==> s.decodedOffset <= |snap.whole| && snap.audio == snap.whole[s.decodedOffset..])
  }

  /** A stateful decoder has been given the start of the buffer, each byte once; it lags behind only while it decodes. */
  predicate DecoderInStep(c: Config, s: State) {
    c.stateful && !s.flags.cancelRequested ==>
      && s.decodedOffset <= |s.pushed| && s.pushed <= s.session.audioBuffer
      && (s.worker.Waiting? || s.worker.Exited? ==> |s.pushed| == s.decodedOffset)
      && (s.worker.DecodingPartial? ==> s.pushed == s.worker.snap.whole)
      && (s.worker.DecodingFinal? ==> s.pushed == s.session.audioBuffer)
  }

  ghost function Transcripts(events: seq<Event>): seq<Event> {
    if |events| == 0 then []
    else
      var e := events[|events| - 1];
      Transcripts(events[..|events| - 1]) + (if e.TranscriptEvent? then [e] else [])
  }

  /** The transcripts so far: numbered from one, properly timed, none final but perhaps the last. */
  predicate EventsOk(transcripts: seq<Event>, revision: nat, finalEmitted: bool) {
    && |transcripts| == revision
    && (forall i :: 0 <= i < |transcripts| ==>
          && transcripts[i].TranscriptEvent?
          && transcripts[i].revision == i + 1
          && 0 <= transcripts[i].audioTranscribedMs <= transcripts[i].audioReceivedMs
          && (transcripts[i].isFinal <==> finalEmitted && i == |transcripts| - 1))
    && (finalEmitted ==> |transcripts| > 0)
  }

  predicate FlagsOk(s: State) {
    var f := s.flags;
    && (f.finalEmitted ==> f.closed && s.worker.Exited?)
    && (s.worker.Exited? ==> f.closed || f.cancelRequested)
    && (s.main.Receiving? ==> !f.cancelRequested && !f.finalizeRequested && (f.closed ==> f.finalEmitted))
    && (s.main.AwaitingWorker? ==> f.finalizeRequested && !f.cancelRequested && (f.closed ==> f.finalEmitted))
    && (s.main.Canceling? ==> f.cancelRequested)
    && (s.main.Stopping? ==> f.closed)
    && (s.main.Ended? ==> WorkerDone(s.worker))
    && (s.worker.DecodingFinal? ==> s.main.AwaitingWorker?)
    && (f.finalizeRequested ==>
          (s.main.AwaitingWorker? || s.main.Ended?) && !f.cancelRequested && (f.closed ==> f.finalEmitted))
  }

  /** No lost wake-up: a request leaves a wake pending, and a worker asleep without one has nothing to do. */
  predicate Awake(c: Config, s: State) {
    var f := s.flags;
    && ((s.worker.Waiting? || s.worker.DecodingPartial?) && !f.audioUpdated ==>
          !f.finalizeRequested && !f.cancelRequested && !f.closed)
    && (s.worker.Waiting? && !f.audioUpdated ==> !(c.interimResults && ShouldEmitPartial(c, s.session)))
  }

  ghost predicate Inv(c: Config, s: State) {
    && CacheSound(c, s)
    && DecoderInStep(c, s)
    && EventsOk(Transcripts(s.events), s.session.transcriptRevision, s.flags.finalEmitted)
    && FlagsOk(s)
    && Awake(c, s)
    && FinalsCover(s)
  }

  /** A final that answers a finalize was made from everything received. */
  ghost predicate FinalsCover(s: State) {
    forall e :: e in s.events && e.TranscriptEvent? && e.fromFinalize ==>
      e.isFinal && s.flags.finalEmitted && !s.main.Receiving? && (s.main.AwaitingWorker? || s.main.Ended?)
      && e.basis == s.session.audioBuffer
  }

  lemma DurationMonotone(m: nat, n: nat, rate: int)
    requires m <= n
    ensures 0 <= DurationMs(m, rate) <= DurationMs(n, rate)
  {
    if rate >= 1 {
      var x, y := m as real / 2.0 * 1000.0, n as real / 2.0 * 1000.0;
      RatioMonotone(x, y, rate as real);
      RoundHalfEvenMonotone(x / rate as real, y / rate as real);
    }
  }

  lemma RatioMonotone(x: real, y: real, d: real)
    requires x <= y && d > 0.0
    ensures x / d <= y / d
  {
  }

  lemma TranscriptsSnoc(events: seq<Event>, e: Event)
    ensures Transcripts(events + [e]) == Transcripts(events) + (if e.TranscriptEvent? then [e] else [])
  {
    assert (events + [e])[..|events|] == events;
  }

  /** Emitting a transcript keeps the numbering and the timing. */
  lemma EmitKeepsEvents(c: Config, s: State, t: Transcript, isFinal: bool, fromFinalize: bool, transcribedBytes: nat)
    requires EventsOk(Transcripts(s.events), s.session.transcriptRevision, false)
    requires transcribedBytes <= |s.session.audioBuffer|
    ensures var e := Emit(c, s, t, isFinal, fromFinalize, transcribedBytes);
      EventsOk(Transcripts(e.events), e.session.transcriptRevision, isFinal)
  {
    TranscriptsSnoc(s.events, MakeEvent(c, s.session, t, isFinal, fromFinalize, transcribedBytes));
    DurationMonotone(transcribedBytes, |s.session.audioBuffer|, c.sampleRate);
  }

  lemma AppendKeepsInv(c: Config, s: State, chunk: Bytes)
    requires ValidConfig(c) && Inv(c, s) && Enabled(c, s, Audio(chunk))
    ensures Inv(c, Apply(c, s, Audio(chunk)))
  {
  }

  lemma LoopKeepsInv(c: Config, s: State, a: Action)
    requires ValidConfig(c) && Inv(c, s) && Enabled(c, s, a)
    requires a.Finalize? || a.Cancel? || a.CancelDelivered? || a.Close? || a.SeeWorkerDone? || a.DecodeRaises?
    ensures Inv(c, Apply(c, s, a))
  {
    if a.Cancel? {
      TranscriptsSnoc(s.events, CancelWarning);
    }
  }

  predicate Stopped(f: Flags) {
    f.cancelRequested || f.finalEmitted || f.closed
  }

  lemma StoppedWakeKeepsInv(c: Config, s: State)
    requires ValidConfig(c) && Inv(c, s) && Enabled(c, s, Wake) && Stopped(s.flags)
    ensures Inv(c, WakeUp(c, s))
  {
  }

  /** What is left of the buffer follows on what the decoder has been given. */
  lemma RemainingFollows(c: Config, s: State)
    requires c.stateful && !s.flags.cancelRequested && DecoderInStep(c, s) && s.worker.Waiting?
    ensures s.pushed + Remaining(s) == s.session.audioBuffer
  {
    SplitConcat(s.session.audioBuffer, s.decodedOffset);
  }

  lemma FinalizingWakeKeepsInv(c: Config, s: State)
    requires ValidConfig(c) && Inv(c, s) && Enabled(c, s, Wake) && !Stopped(s.flags) && s.flags.finalizeRequested
    ensures Inv(c, WakeUp(c, s))
  {
    if !c.stateful && CanReuseLastPartial(c, s.session) {
      EmitKeepsEvents(c, s, s.session.lastPartialResult.value, true, true, |s.session.audioBuffer|);
    } else if c.stateful {
      RemainingFollows(c, s);
    }
  }

  lemma PartialWakeKeepsInv(c: Config, s: State)
    requires ValidConfig(c) && Inv(c, s) && Enabled(c, s, Wake) && !Stopped(s.flags) && !s.flags.finalizeRequested
    ensures Inv(c, WakeUp(c, s))
  {
    if c.stateful {
      RemainingFollows(c, s);
    }
  }

  lemma WakeKeepsInv(c: Config, s: State)
    requires ValidConfig(c) && Inv(c, s) && Enabled(c, s, Wake)
    ensures Inv(c, WakeUp(c, s))
  {
    if Stopped(s.flags) {
      StoppedWakeKeepsInv(c, s);
    } else if s.flags.finalizeRequested {
      FinalizingWakeKeepsInv(c, s);
    } else {
      PartialWakeKeepsInv(c, s);
    }
  }

  lemma FinalKeepsInv(c: Config, s: State, text: string, normalized: Option<string>)
    requires ValidConfig(c) && Inv(c, s) && Enabled(c, s, FinalReturns(text, normalized))
    ensures Inv(c, FinalDone(c, s, text, normalized))
  {
    if !s.flags.cancelRequested && !s.flags.closed {
      var buffer := s.session.audioBuffer;
      var t := Transcript(text, normalized, if c.stateful then s.pushed else buffer);
      EmitKeepsEvents(c, Advance(c, s, |Remaining(s)|), t, true, true, |buffer|);
    }
  }

  /** When the decoder comes back with the snapshot's audio, it has come back with all it was given. */
  lemma AdvanceKeepsDecoderInStep(c: Config, s: State, snap: Snapshot)
    requires DecoderInStep(c, s) && s.worker == DecodingPartial(snap)
    requires !s.flags.cancelRequested ==> SnapshotSound(c, s, snap)
    ensures DecoderInStep(c, Advance(c, s, |snap.audio|).(worker := Waiting))
  {
  }

  /** Recording a partial keeps the cache sound: it can be reused only if the buffer is still the one decoded. */
  lemma RecordKeepsCache(c: Config, s: State, t: Transcript, snap: Snapshot)
    requires !s.flags.cancelRequested && SnapshotSound(c, s, snap)
    requires !c.stateful ==> t.basis == snap.audio
    ensures var r := RecordPartial(s.session, t, snap);
      !c.stateful && CanReuseLastPartial(c, r) ==> r.lastPartialResult.value.basis == r.audioBuffer
  {
  }

  /** Right after a partial nothing is due, unless audio arrived meanwhile. */
  lemma NothingDue(c: Config, s: State, session: Session, snap: Snapshot)
    requires ValidConfig(c) && !s.flags.cancelRequested && SnapshotSound(c, s, snap) && !s.flags.dirty
    requires session.audioBuffer == s.session.audioBuffer && session.chunksReceived == s.session.chunksReceived
    requires session.lastPartialChunksReceived == snap.chunks && session.lastPartialAudioReceivedMs == snap.ms
    ensures !ShouldEmitPartial(c, session)
  {
  }

  lemma PartialKeepsInv(c: Config, s: State, result: Option<(string, Option<string>)>)
    requires ValidConfig(c) && Inv(c, s) && Enabled(c, s, PartialReturns(result))
    ensures Inv(c, PartialDone(c, s, result))
  {
    var snap := s.worker.snap;
    var p := Advance(c, s, |snap.audio|).(worker := Waiting);
    AdvanceKeepsDecoderInStep(c, s, snap);
    if !s.flags.cancelRequested && !s.flags.closed {
      if result.Some? {
        var t := Transcript(result.value.0, result.value.1, if c.stateful then p.pushed else snap.audio);
        RecordKeepsCache(c, s, t, snap);
        PartialTextKeepsInv(c, s, p, t, snap);
      } else if !s.flags.dirty {
        NothingDue(c, s, PartialDone(c, s, result).session, snap);
      }
    }
  }

  /** The case of a partial with a transcript, while the stream is still open. */
  lemma PartialTextKeepsInv(c: Config, s: State, p: State, t: Transcript, snap: Snapshot)
    requires ValidConfig(c) && Inv(c, s) && s.worker == DecodingPartial(snap)
    requires !s.flags.cancelRequested && !s.flags.closed
    requires p == Advance(c, s, |snap.audio|).(worker := Waiting) && DecoderInStep(c, p)
    requires t.basis == if c.stateful then p.pushed else snap.audio
    ensures Inv(c, PartialDone(c, s, Some((t.text, t.normalized))))
  {
    RecordKeepsCache(c, s, t, snap);
    if !s.flags.finalizeRequested {
      if t.normalized.None? {
        BlankPartialKeepsInv(c, s, p, t, snap);
      } else {
        EmittedPartialKeepsInv(c, s, p, t, snap);
      }
    }
  }

  predicate OpenPartial(c: Config, s: State, p: State, t: Transcript, snap: Snapshot) {
    && s.worker == DecodingPartial(snap)
    && !s.flags.cancelRequested && !s.flags.closed && !s.flags.finalizeRequested
    && p == Advance(c, s, |snap.audio|).(worker := Waiting) && DecoderInStep(c, p)
    && t.basis == if c.stateful then p.pushed else snap.audio
  }

  lemma BlankPartialKeepsInv(c: Config, s: State, p: State, t: Transcript, snap: Snapshot)
    requires ValidConfig(c) && Inv(c, s) && OpenPartial(c, s, p, t, snap) && t.normalized.None?
    ensures Inv(c, PartialDone(c, s, Some((t.text, t.normalized))))
  {
    RecordKeepsCache(c, s, t, snap);
    if !s.flags.dirty {
      NothingDue(c, s, RecordStability(RecordPartial(p.session, t, snap), t), snap);
    }
  }

  /** What an emitted partial does to the state, part by part. */
  lemma EmittedPartial(c: Config, s: State, p: State, t: Transcript, snap: Snapshot)
    requires OpenPartial(c, s, p, t, snap) && t.normalized.Some? && !s.flags.finalEmitted
    ensures var r := RecordStability(RecordPartial(p.session, t, snap), t);
      var isFinal := ShouldFinalizeStablePartial(c, r);
      var done := PartialDone(c, s, Some((t.text, t.normalized)));
      && done.session == r.(transcriptRevision := r.transcriptRevision + 1)
      && done.events == s.events + [MakeEvent(c, r, t, isFinal, false, |snap.audio|)]
      && done.decodedOffset == p.decodedOffset && done.pushed == p.pushed && done.main == s.main
      && done.worker == (if isFinal then Exited else Waiting)
      && done.flags == (if isFinal then s.flags.(finalEmitted := true, closed := true)
                        else s.flags.(audioUpdated := s.flags.audioUpdated || s.flags.dirty))
  {
  }

  lemma EmittedEventsOk(c: Config, s: State, p: State, t: Transcript, snap: Snapshot)
    requires Inv(c, s) && OpenPartial(c, s, p, t, snap) && t.normalized.Some?
    ensures var done := PartialDone(c, s, Some((t.text, t.normalized)));
      EventsOk(Transcripts(done.events), done.session.transcriptRevision, done.flags.finalEmitted) && FinalsCover(done)
  {
    var r := p.(session := RecordStability(RecordPartial(p.session, t, snap), t));
    EmittedPartial(c, s, p, t, snap);
    EmitKeepsEvents(c, r, t, ShouldFinalizeStablePartial(c, r.session), false, |snap.audio|);
  }

  lemma EmittedCacheSound(c: Config, s: State, p: State, t: Transcript, snap: Snapshot)
    requires Inv(c, s) && OpenPartial(c, s, p, t, snap) && t.normalized.Some?
    ensures var done := PartialDone(c, s, Some((t.text, t.normalized))); CacheSound(c, done) && DecoderInStep(c, done)
  {
    EmittedPartial(c, s, p, t, snap);
    RecordKeepsCache(c, s, t, snap);
  }

  lemma EmittedFlagsOk(c: Config, s: State, p: State, t: Transcript, snap: Snapshot)
    requires ValidConfig(c) && Inv(c, s) && OpenPartial(c, s, p, t, snap) && t.normalized.Some?
    ensures var done := PartialDone(c, s, Some((t.text, t.normalized))); FlagsOk(done) && Awake(c, done)
  {
    EmittedPartial(c, s, p, t, snap);
    if !s.flags.dirty {
      NothingDue(c, s, PartialDone(c, s, Some((t.text, t.normalized))).session, snap);
    }
  }

  lemma EmittedPartialKeepsInv(c: Config, s: State, p: State, t: Transcript, snap: Snapshot)
    requires ValidConfig(c) && Inv(c, s) && OpenPartial(c, s, p, t, snap) && t.normalized.Some?
    ensures Inv(c, PartialDone(c, s, Some((t.text, t.normalized))))
  {
    EmittedEventsOk(c, s, p, t, snap);
    EmittedCacheSound(c, s, p, t, snap);
    EmittedFlagsOk(c, s, p, t, snap);
  }

  lemma {:induction false} ExecuteKeepsInv(c: Config, schedule: seq<Action>)
    requires ValidConfig(c) && Execute(c, schedule).Some?
    ensures Inv(c, Execute(c, schedule).value)
    decreases |schedule|
  {
    if |schedule| > 0 {
      var front, a := schedule[..|schedule| - 1], schedule[|schedule| - 1];
      ExecuteKeepsInv(c, front);
      var s := Execute(c, front).value;
      match a
      case Audio(chunk) => AppendKeepsInv(c, s, chunk);
      case Wake => WakeKeepsInv(c, s);
      case PartialReturns(result) => PartialKeepsInv(c, s, result);
      case FinalReturns(text, normalized) => FinalKeepsInv(c, s, text, normalized);
      case _ => LoopKeepsInv(c, s, a);
    }
  }

  lemma ReachableInv(c: Config, s: State)
    requires ValidConfig(c) && Reachable(c, s)
    ensures Inv(c, s)
  {
    var schedule :| Execute(c, schedule) == Some(s);
    ExecuteKeepsInv(c, schedule);
  }

  // ---- Main results ------------------------------------------------------------------------

  /** Transcripts are numbered 1, 2, ... and only the very last may be final, once. */
  lemma OneFinalAndLast(c: Config, s: State, i: nat)
    requires ValidConfig(c) && Reachable(c, s) && i < |Transcripts(s.events)|
    ensures Transcripts(s.events)[i].TranscriptEvent?
    ensures Transcripts(s.events)[i].revision == i + 1
    ensures Transcripts(s.events)[i].isFinal <==> s.flags.finalEmitted && i == |Transcripts(s.events)| - 1
  {
    ReachableInv(c, s);
  }

  /** No transcript is ever rejected by the timing check on the message: it never claims more audio than received. */
  lemma TimingAlwaysValid(c: Config, s: State, i: nat)
    requires ValidConfig(c) && Reachable(c, s) && i < |Transcripts(s.events)|
    ensures Transcripts(s.events)[i].TranscriptEvent?
    ensures 0 <= Transcripts(s.events)[i].audioTranscribedMs <= Transcripts(s.events)[i].audioReceivedMs
    ensures Transcripts(s.events)[i].revision >= 1
  {
    ReachableInv(c, s);
  }

  /** A finalize is answered: when the worker has returned, a final has been emitted. */
  lemma FinalizeIsAnswered(c: Config, s: State)
    requires ValidConfig(c) && Reachable(c, s) && s.flags.finalizeRequested && s.worker.Exited?
    ensures s.flags.finalEmitted && |Transcripts(s.events)| > 0
    ensures var last := Transcripts(s.events)[|Transcripts(s.events)| - 1]; last.TranscriptEvent? && last.isFinal
  {
    ReachableInv(c, s);
  }

  /** That answer, reused or decoded, windowed or stateful, was made from all the audio received. */
  lemma FinalizeCoversAllAudio(c: Config, s: State, e: Event)
    requires ValidConfig(c) && Reachable(c, s)
    requires e in s.events && e.TranscriptEvent? && e.fromFinalize
    ensures e.isFinal && e.basis == s.session.audioBuffer
  {
    ReachableInv(c, s);
  }

  /** Reusing the last partial gives the state that decoding the whole buffer again would give. */
  lemma ReuseAgreesWithDecoding(c: Config, s: State, decode: Bytes -> (string, Option<string>))
    requires ValidConfig(c) && Reachable(c, s) && Enabled(c, s, Wake)
    requires s.flags.finalizeRequested && !s.flags.closed && !c.stateful && CanReuseLastPartial(c, s.session)
    requires var t := s.session.lastPartialResult.value; decode(t.basis) == (t.text, t.normalized)
    ensures var (text, normalized) := decode(s.session.audioBuffer);
      var slow := s.(flags := s.flags.(audioUpdated := false), worker := DecodingFinal);
      WakeUp(c, s) == FinalDone(c, slow, text, normalized)
  {
    ReachableInv(c, s);
  }

  /**
   * A stateful decoder is given the stream's audio in order, each byte once: as far as its offset says while no decode
   * is under way, up to the snapshot during a partial, and everything for the final. It is so too after a decode raised.
   */
  lemma DecoderSeesEachByteOnce(c: Config, s: State)
    requires ValidConfig(c) && Reachable(c, s) && c.stateful && !s.flags.cancelRequested
    ensures s.decodedOffset <= |s.pushed| && s.pushed <= s.session.audioBuffer
    ensures s.worker.Waiting? || s.worker.Exited? ==> s.pushed == s.session.audioBuffer[..s.decodedOffset]
    ensures s.worker.DecodingPartial? ==> s.pushed == s.worker.snap.whole
    ensures s.worker.DecodingFinal? ==> s.pushed == s.session.audioBuffer
  {
    ReachableInv(c, s);
  }

  /** The window, if there is one, keeps the whole buffer; a window of no bytes is read as none. */
  predicate WindowKeepsAll(c: Config, buffer: Bytes) {
    c.stateful || CoversFullBuffer(c, buffer) || c.partialWindowBytes.value == 0
  }

  /** The worker's step that declares a stable partial final. */
  predicate DeclaresFinal(c: Config, s: State, result: Option<(string, Option<string>)>) {
    && Enabled(c, s, PartialReturns(result))
    && !s.flags.finalEmitted && Apply(c, s, PartialReturns(result)).flags.finalEmitted
  }

  /** What a decoded partial was made from is the whole buffer exactly if nothing arrived and the window keeps all. */
  lemma BasisIsBufferIff(c: Config, s: State, snap: Snapshot)
    requires SnapshotSound(c, s, snap) && DecoderInStep(c, s) && s.worker == DecodingPartial(snap) && !s.flags.cancelRequested
    ensures (if c.stateful then s.pushed else snap.audio) == s.session.audioBuffer
       <==> !s.flags.dirty && WindowKeepsAll(c, s.session.audioBuffer)
  {
  }

  /**
   * A final declared by a stable partial was made from all the audio received exactly when none arrived while it
   * was being decoded, and the window, if there is one, kept the whole buffer.
   */
  lemma StableFinalCoversIff(c: Config, s: State, result: Option<(string, Option<string>)>)
    requires ValidConfig(c) && Reachable(c, s) && DeclaresFinal(c, s, result)
    ensures var after := Apply(c, s, PartialReturns(result));
      && |after.events| == |s.events| + 1
      && after.session.audioBuffer == s.session.audioBuffer
      && var e := after.events[|s.events|];
         && e.TranscriptEvent? && e.isFinal && !e.fromFinalize
         && (e.basis == after.session.audioBuffer <==> !s.flags.dirty && WindowKeepsAll(c, s.session.audioBuffer))
  {
    ReachableInv(c, s);
    var snap := s.worker.snap;
    BasisIsBufferIff(c, s, snap);
    DeclaredFinalIsOpen(c, s, result);
    var p := Advance(c, s, |snap.audio|).(worker := Waiting);
    AdvanceKeepsDecoderInStep(c, s, snap);
    EmittedPartial(c, s, p, Transcript(result.value.0, result.value.1, if c.stateful then p.pushed else snap.audio), snap);
  }

  /** Only a partial with text, on a stream that is still open, is declared final. */
  lemma DeclaredFinalIsOpen(c: Config, s: State, result: Option<(string, Option<string>)>)
    requires DeclaresFinal(c, s, result)
    ensures result.Some? && result.value.1.Some?
    ensures !s.flags.cancelRequested && !s.flags.closed && !s.flags.finalizeRequested
  {
  }

  /** A final declared by a stable partial carries no such promise: audio can arrive while it is being decoded. */
  lemma StableFinalCanMissAudio(c: Config, text: string, heard: Bytes, late: Bytes) returns (s: State, e: Event)
    requires ValidConfig(c) && !c.stateful && c.interimResults && c.finalizeOnStablePartial && c.stablePartialCycles == 1
    requires c.partialIntervalAudioMs.None? && c.partialIntervalChunks == 1 && c.partialWindowBytes.None?
    requires heard != [] && late != [] && |heard| % 2 == |late| % 2 == 0 && |heard + late| <= c.maxBufferBytes
    ensures Reachable(c, s) && e in s.events && e.TranscriptEvent? && e.isFinal
    ensures e.basis == heard && s.session.audioBuffer == heard + late
  {
    var schedule: seq<Action> := [];
    s := INITIAL;
    assert Execute(c, schedule) == Some(s);
    schedule, s := Extend(c, schedule, s, Audio(heard));
    ConcatEmpty(heard);
    schedule, s := Extend(c, schedule, s, Wake);
    schedule, s := Extend(c, schedule, s, Audio(late));
    schedule, s := Extend(c, schedule, s, PartialReturns(Some((text, Some(text)))));
    e := s.events[|s.events| - 1];
  }

  lemma Extend(c: Config, schedule: seq<Action>, s: State, a: Action) returns (longer: seq<Action>, next: State)
    requires Execute(c, schedule) == Some(s) && Enabled(c, s, a)
    ensures next == Apply(c, s, a)
    ensures Execute(c, longer) == Some(next)
    ensures Reachable(c, next)
  {
    next := Apply(c, s, a);
    longer := schedule + [a];
    assert longer[..|longer| - 1] == schedule;
  }

  // ---- Progress ----------------------------------------------------------------------------

  /** A worker that sleeps with no wake pending owes nobody anything, not even a partial. */
  lemma SleepMeansNothingDue(c: Config, s: State)
    requires ValidConfig(c) && Reachable(c, s) && s.worker.Waiting? && !s.flags.audioUpdated
    ensures !s.flags.finalizeRequested && !s.flags.cancelRequested && !s.flags.closed
    ensures !(c.interimResults && ShouldEmitPartial(c, s.session))
  {
    ReachableInv(c, s);
  }

  predicate WorkerAction(a: Action) {
    a.Wake? || a.PartialReturns? || a.FinalReturns? || a.DecodeRaises?
  }

  /** While the loop waits for the worker, the worker can move: no wake-up is lost. */
  lemma WorkerNeverStuck(c: Config, s: State)
    requires ValidConfig(c) && Reachable(c, s)
    requires s.main.AwaitingWorker? || s.main.Canceling? || s.main.Stopping?
    ensures WorkerDone(s.worker) || exists a :: WorkerAction(a) && Enabled(c, s, a)
  {
    ReachableInv(c, s);
    var a :=
      match s.worker
      case Waiting => Wake
      case DecodingPartial(_) => PartialReturns(Some(("", None)))
      case _ => FinalReturns("", None);
    assert !WorkerDone(s.worker) ==> WorkerAction(a) && Enabled(c, s, a);
  }

  function StepsToExit(w: WorkerPc): nat {
    match w
    case DecodingPartial(_) => 3
    case Waiting => 2
    case DecodingFinal => 1
    case _ => 0
  }

  /** And it is soon done: at most three of its own steps, whatever the backend returns. */
  lemma WorkerExitsSoon(c: Config, s: State, a: Action)
    requires ValidConfig(c) && Reachable(c, s) && WorkerAction(a) && Enabled(c, s, a)
    requires s.main.AwaitingWorker? || s.main.Canceling? || s.main.Stopping?
    ensures StepsToExit(Apply(c, s, a).worker) < StepsToExit(s.worker) <= 3
    ensures Apply(c, s, a).main == s.main
  {
    ReachableInv(c, s);
  }
}
