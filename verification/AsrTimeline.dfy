/**
 * What a stream hears, decodes and sends, read off a whole schedule: the chunks that arrived, those that had arrived
 * when the last partial was begun, and the texts that came back.
 */
module AsrTimeline {
  import opened Arithmetic
  import opened AsrStability
  import opened AsrWorker
  import opened ByteStrings
  import opened Results
  import opened Rounding
  import opened Sequences

  // ---- Reading a schedule ------------------------------------------------------------------

  function Heard(schedule: seq<Action>): seq<Bytes> {
    if schedule == [] then []
    else
      var front, a := schedule[..|schedule| - 1], schedule[|schedule| - 1];
      if a.Audio? then Heard(front) + [a.chunk] else Heard(front)
  }

  /** How many chunks had arrived when the worker last woke. */
  function HeardAtWake(schedule: seq<Action>): nat {
    if schedule == [] then 0
    else
      var front, a := schedule[..|schedule| - 1], schedule[|schedule| - 1];
      if a.Wake? then |Heard(front)| else HeardAtWake(front)
  }

  /** How many chunks had arrived when the last partial that came back was begun. */
  function HeardAtPartial(schedule: seq<Action>): nat {
    if schedule == [] then 0
    else
      var front, a := schedule[..|schedule| - 1], schedule[|schedule| - 1];
      if a.PartialReturns? then HeardAtWake(front) else HeardAtPartial(front)
  }

  /** The last transcript that a partial decode returned. */
  function LastReturned(schedule: seq<Action>): Option<(string, Option<string>)> {
    if schedule == [] then None
    else
      var front, a := schedule[..|schedule| - 1], schedule[|schedule| - 1];
      if a.PartialReturns? && a.result.Some? then a.result else LastReturned(front)
  }

  function FirstChunks(schedule: seq<Action>, n: nat): Bytes {
    Join(Heard(schedule)[..Min(n, |Heard(schedule)|)])
  }

  /** No cancel and no close so far; a finalize may have been asked for. */
  predicate Running(f: Flags) {
    !f.cancelRequested && !f.closed
  }

  // ---- Durations ---------------------------------------------------------------------------

  /** Two bytes a sample: the duration is the nearest number of milliseconds, and nothing without a rate. */
  lemma DurationIs(byteCount: nat, sampleRate: int)
    ensures sampleRate < 1 ==> DurationMs(byteCount, sampleRate) == 0
    ensures sampleRate >= 1 ==>
      -sampleRate <= 2 * (DurationMs(byteCount, sampleRate) * sampleRate - 500 * byteCount) <= sampleRate
  {
    if sampleRate >= 1 {
      assert byteCount as real / 2.0 * 1000.0 == (500 * byteCount) as real;
      RoundedNear(500 * byteCount, sampleRate);
    }
  }

  // ---- What the session knows --------------------------------------------------------------

  /** The buffer holds what was heard, and a partial under way is of what had been heard at the last wake. */
  ghost predicate HearsAll(s: State, schedule: seq<Action>) {
    && s.session.audioBuffer == Join(Heard(schedule)) && s.session.chunksReceived == |Heard(schedule)|
    && HeardAtWake(schedule) <= |Heard(schedule)|
    && (s.worker.DecodingPartial? ==>
          && s.worker.snap.chunks == HeardAtWake(schedule)
          && s.worker.snap.whole == Join(Heard(schedule)[..HeardAtWake(schedule)])
          && s.session.lastPartialChunksReceived <= s.worker.snap.chunks)
  }

  /** While the stream is open, the session's notes on the last partial are those of the last one returned. */
  ghost predicate NotesLastPartial(c: Config, s: State, schedule: seq<Action>) {
    && HeardAtPartial(schedule) <= |Heard(schedule)|
    && s.session.lastPartialChunksReceived == HeardAtPartial(schedule)
    && s.session.lastPartialAudioReceivedMs == DurationMs(|Join(Heard(schedule)[..HeardAtPartial(schedule)])|, c.sampleRate)
    && (s.session.lastPartialResult.Some? <==> LastReturned(schedule).Some?)
    && (s.session.lastPartialResult.Some? ==>
          LastReturned(schedule).value == (s.session.lastPartialResult.value.text, s.session.lastPartialResult.value.normalized))
  }

  /** After a finalize only this much stays true of them: whether the last partial can stand for the final, and its text. */
  ghost predicate NotesReuse(c: Config, s: State, schedule: seq<Action>) {
    && (CanReuseLastPartial(c, s.session) <==>
          && LastReturned(schedule).Some? && HeardAtPartial(schedule) == |Heard(schedule)|
          && CoversFullBuffer(c, s.session.audioBuffer))
    && (CanReuseLastPartial(c, s.session) ==>
          LastReturned(schedule).value == (s.session.lastPartialResult.value.text, s.session.lastPartialResult.value.normalized))
  }

  ghost predicate Notes(c: Config, s: State, schedule: seq<Action>) {
    && HearsAll(s, schedule)
    && (!s.flags.finalizeRequested || s.worker.DecodingPartial? ==> NotesLastPartial(c, s, schedule))
    && NotesReuse(c, s, schedule)
  }

  lemma NotesImplyReuse(c: Config, s: State, schedule: seq<Action>)
    requires HearsAll(s, schedule) && NotesLastPartial(c, s, schedule)
    ensures NotesReuse(c, s, schedule)
  {
  }

  lemma RunningBefore(c: Config, s: State, a: Action)
    requires Enabled(c, s, a) && Running(Apply(c, s, a).flags)
    ensures Running(s.flags)
  {
  }

  /** The parts of a schedule that one more action changes. */
  lemma OneMoreAction(schedule: seq<Action>, a: Action)
    ensures var longer := schedule + [a];
      && Heard(longer) == (if a.Audio? then Heard(schedule) + [a.chunk] else Heard(schedule))
      && HeardAtWake(longer) == (if a.Wake? then |Heard(schedule)| else HeardAtWake(schedule))
      && HeardAtPartial(longer) == (if a.PartialReturns? then HeardAtWake(schedule) else HeardAtPartial(schedule))
      && LastReturned(longer) == (if a.PartialReturns? && a.result.Some? then a.result else LastReturned(schedule))
  {
    assert (schedule + [a])[..|schedule|] == schedule;
  }

  lemma AudioIsNoted(c: Config, s: State, schedule: seq<Action>, chunk: Bytes)
    requires Notes(c, s, schedule) && Enabled(c, s, Audio(chunk)) && Inv(c, s) && Running(Apply(c, s, Audio(chunk)).flags)
    ensures Notes(c, Apply(c, s, Audio(chunk)), schedule + [Audio(chunk)])
  {
    OneMoreAction(schedule, Audio(chunk));
    JoinSnoc(Heard(schedule), chunk);
    var heard := Heard(schedule);
    assert (heard + [chunk])[..HeardAtWake(schedule)] == heard[..HeardAtWake(schedule)];
    assert (heard + [chunk])[..HeardAtPartial(schedule)] == heard[..HeardAtPartial(schedule)];
    NotesImplyReuse(c, Apply(c, s, Audio(chunk)), schedule + [Audio(chunk)]);
  }

  lemma WakeIsNoted(c: Config, s: State, schedule: seq<Action>)
    requires Notes(c, s, schedule) && Enabled(c, s, Wake) && Inv(c, s) && Running(WakeUp(c, s).flags)
    ensures Notes(c, WakeUp(c, s), schedule + [Wake])
  {
    OneMoreAction(schedule, Wake);
    assert Heard(schedule)[..|Heard(schedule)|] == Heard(schedule);
  }

  lemma PartialIsNoted(c: Config, s: State, schedule: seq<Action>, result: Option<(string, Option<string>)>)
    requires Notes(c, s, schedule) && Enabled(c, s, PartialReturns(result)) && Inv(c, s)
    requires Running(PartialDone(c, s, result).flags)
    ensures Notes(c, PartialDone(c, s, result), schedule + [PartialReturns(result)])
  {
    OneMoreAction(schedule, PartialReturns(result));
    RunningBefore(c, s, PartialReturns(result));
    if s.flags.finalizeRequested {
      LatePartial(c, s, schedule, result);
    } else {
      EarlyPartial(c, s, schedule, result);
      NotesImplyReuse(c, PartialDone(c, s, result), schedule + [PartialReturns(result)]);
    }
  }

  lemma EarlyPartial(c: Config, s: State, schedule: seq<Action>, result: Option<(string, Option<string>)>)
    requires Notes(c, s, schedule) && Enabled(c, s, PartialReturns(result)) && Inv(c, s)
    requires Open(s.flags) && Running(PartialDone(c, s, result).flags)
    ensures HearsAll(PartialDone(c, s, result), schedule + [PartialReturns(result)])
    ensures NotesLastPartial(c, PartialDone(c, s, result), schedule + [PartialReturns(result)])
  {
    OneMoreAction(schedule, PartialReturns(result));
    if result.Some? {
      EarlyTranscript(c, s, result.value.0, result.value.1);
    } else {
      EarlyNothing(c, s);
    }
  }

  /** What a returned partial leaves in the session of an open stream. */
  ghost predicate PartialNoted(s: State, after: State) {
    && after.worker.Waiting? && after.session.audioBuffer == s.session.audioBuffer
    && after.session.chunksReceived == s.session.chunksReceived && s.worker.DecodingPartial?
    && after.session.lastPartialChunksReceived == s.worker.snap.chunks
    && after.session.lastPartialAudioReceivedMs == s.worker.snap.ms
    && after.flags.finalizeRequested == s.flags.finalizeRequested
  }

  lemma EarlyNothing(c: Config, s: State)
    requires Enabled(c, s, PartialReturns(None)) && Inv(c, s) && Open(s.flags)
    ensures var after := PartialDone(c, s, None);
      PartialNoted(s, after) && after.session.lastPartialResult == s.session.lastPartialResult
  {
  }

  lemma EarlyTranscript(c: Config, s: State, text: string, normalized: Option<string>)
    requires Enabled(c, s, PartialReturns(Some((text, normalized)))) && Inv(c, s) && Open(s.flags)
    requires Running(PartialDone(c, s, Some((text, normalized))).flags)
    ensures var after := PartialDone(c, s, Some((text, normalized)));
      && PartialNoted(s, after) && after.session.lastPartialResult.Some?
      && after.session.lastPartialResult.value.text == text && after.session.lastPartialResult.value.normalized == normalized
  {
  }

  lemma LatePartial(c: Config, s: State, schedule: seq<Action>, result: Option<(string, Option<string>)>)
    requires Notes(c, s, schedule) && Enabled(c, s, PartialReturns(result)) && Inv(c, s)
    requires s.flags.finalizeRequested && Running(s.flags)
    ensures HearsAll(PartialDone(c, s, result), schedule + [PartialReturns(result)])
    ensures NotesReuse(c, PartialDone(c, s, result), schedule + [PartialReturns(result)])
  {
    OneMoreAction(schedule, PartialReturns(result));
  }

  lemma OtherIsNoted(c: Config, s: State, schedule: seq<Action>, a: Action)
    requires Notes(c, s, schedule) && Enabled(c, s, a) && Inv(c, s) && Running(Apply(c, s, a).flags)
    requires !a.Audio? && !a.Wake? && !a.PartialReturns?
    ensures Notes(c, Apply(c, s, a), schedule + [a])
  {
    OneMoreAction(schedule, a);
  }

  lemma StepIsNoted(c: Config, s: State, schedule: seq<Action>, a: Action)
    requires Notes(c, s, schedule) && Enabled(c, s, a) && Inv(c, s) && Running(Apply(c, s, a).flags)
    ensures Notes(c, Apply(c, s, a), schedule + [a])
  {
    match a
    case Audio(chunk) => AudioIsNoted(c, s, schedule, chunk);
    case Wake => WakeIsNoted(c, s, schedule);
    case PartialReturns(result) => PartialIsNoted(c, s, schedule, result);
    case _ => OtherIsNoted(c, s, schedule, a);
  }

  lemma NotedAtFirst(c: Config)
    ensures Notes(c, INITIAL, [])
  {
    NothingLasts(c.sampleRate);
  }

  /** The state ahead of the last action of a schedule. */
  lemma LastStep(c: Config, front: seq<Action>, a: Action, s: State) returns (before: State)
    requires ValidConfig(c) && Execute(c, front + [a]) == Some(s)
    ensures Execute(c, front) == Some(before) && Enabled(c, before, a) && Apply(c, before, a) == s && Inv(c, before)
  {
    assert (front + [a])[..|front|] == front;
    before := Execute(c, front).value;
    ExecuteKeepsInv(c, front);
  }

  lemma {:induction false} NotedThroughout(c: Config, schedule: seq<Action>, s: State)
    requires ValidConfig(c) && Execute(c, schedule) == Some(s) && Running(s.flags)
    ensures Notes(c, s, schedule)
    decreases |schedule|
  {
    if schedule == [] {
      NotedAtFirst(c);
    } else {
      var front, a := schedule[..|schedule| - 1], schedule[|schedule| - 1];
      assert schedule == front + [a];
      var before := LastStep(c, front, a, s);
      RunningBefore(c, before, a);
      NotedThroughout(c, front, before);
      StepIsNoted(c, before, front, a);
    }
  }

  lemma RunningIsNoted(c: Config, schedule: seq<Action>, s: State)
    requires ValidConfig(c) && Execute(c, schedule) == Some(s) && Running(s.flags)
    ensures Notes(c, s, schedule) && Inv(c, s)
  {
    NotedThroughout(c, schedule, s);
    ExecuteKeepsInv(c, schedule);
  }

  lemma NothingLasts(sampleRate: int)
    ensures DurationMs(0, sampleRate) == 0
  {
  }

  // ---- Main results ------------------------------------------------------------------------

  /** Enough is new for a partial: chunks, or milliseconds of audio, since the last one that came back was begun. */
  predicate PartialIsDue(c: Config, schedule: seq<Action>) {
    var before := FirstChunks(schedule, HeardAtPartial(schedule));
    if c.partialIntervalAudioMs.None? then |Heard(schedule)| - HeardAtPartial(schedule) >= c.partialIntervalChunks
    else
      DurationMs(|Join(Heard(schedule))|, c.sampleRate) - DurationMs(|before|, c.sampleRate) >= c.partialIntervalAudioMs.value
  }

  /** A worker that wakes on an open stream begins a partial exactly when interim results are wanted and one is due. */
  lemma WakeBeginsPartialIff(c: Config, schedule: seq<Action>, s: State)
    requires ValidConfig(c) && Execute(c, schedule) == Some(s) && Enabled(c, s, Wake) && Open(s.flags)
    ensures Apply(c, s, Wake).worker.DecodingPartial? <==> c.interimResults && PartialIsDue(c, schedule)
    ensures Apply(c, s, Wake).events == s.events && !Apply(c, s, Wake).worker.DecodingFinal?
  {
    RunningIsNoted(c, schedule, s);
  }

  /** The audio a partial is decoded from: all that is new for a stateful decoder, else the end of the buffer. */
  predicate IsPartialAudio(c: Config, heard: Bytes, decoded: nat, audio: Bytes) {
    && |audio| <= |heard| && audio == heard[|heard| - |audio|..]
    && |audio| == if c.stateful then |heard| - Min(decoded, |heard|)
                  else if c.partialWindowBytes == None || c.partialWindowBytes == Some(0) then |heard|
                  else Min(c.partialWindowBytes.value, |heard|)
  }

  lemma PartialAudioIs(c: Config, schedule: seq<Action>, s: State)
    requires ValidConfig(c) && Execute(c, schedule) == Some(s) && Running(s.flags) && s.worker.DecodingPartial?
    ensures IsPartialAudio(c, FirstChunks(schedule, HeardAtWake(schedule)), s.decodedOffset, s.worker.snap.audio)
  {
    RunningIsNoted(c, schedule, s);
  }

  /** A partial with text on an open stream is sent, with its times; nothing else is sent when a decode returns. */
  lemma PartialIsSent(c: Config, schedule: seq<Action>, s: State, text: string, normalized: Option<string>)
    requires ValidConfig(c) && Execute(c, schedule) == Some(s) && Enabled(c, s, PartialReturns(Some((text, normalized))))
    ensures var after := Apply(c, s, PartialReturns(Some((text, normalized))));
      if Open(s.flags) && normalized.Some? then
        && |after.events| == |s.events| + 1 && after.events[..|s.events|] == s.events
        && var e := after.events[|s.events|];
           && e.TranscriptEvent? && e.text == text && !e.fromFinalize
           && e.audioReceivedMs == DurationMs(|Join(Heard(schedule))|, c.sampleRate)
           && e.audioTranscribedMs == DurationMs(|s.worker.snap.audio|, c.sampleRate)
           && e.basis == if c.stateful then FirstChunks(schedule, HeardAtWake(schedule)) else s.worker.snap.audio
      else after.events == s.events
  {
    ExecuteKeepsInv(c, schedule);
    if Open(s.flags) {
      RunningIsNoted(c, schedule, s);
      if normalized.Some? {
        var snap := s.worker.snap;
        var p := Advance(c, s, |snap.audio|).(worker := Waiting);
        AdvanceKeepsDecoderInStep(c, s, snap);
        EmittedPartial(c, s, p, Transcript(text, normalized, if c.stateful then p.pushed else snap.audio), snap);
      }
    }
  }

  /** The answer to a finalize carries the text that was decoded, and says that all audio was transcribed. */
  lemma FinalIsSent(c: Config, schedule: seq<Action>, s: State, text: string, normalized: Option<string>)
    requires ValidConfig(c) && Execute(c, schedule) == Some(s) && Enabled(c, s, FinalReturns(text, normalized))
    requires Running(s.flags)
    ensures var after := Apply(c, s, FinalReturns(text, normalized));
      && |after.events| == |s.events| + 1 && after.events[..|s.events|] == s.events
      && IsAnswer(c, schedule, after.events[|s.events|], text)
  {
    RunningIsNoted(c, schedule, s);
  }

  predicate IsAnswer(c: Config, schedule: seq<Action>, e: Event, text: string) {
    && e.TranscriptEvent? && e.text == text && e.isFinal && e.fromFinalize
    && e.audioReceivedMs == e.audioTranscribedMs == DurationMs(|Join(Heard(schedule))|, c.sampleRate)
  }

  /**
   * A finalize is answered without another decode exactly when the last partial was of everything heard and the
   * window, if there is one, kept it all; the answer is then that partial's text.
   */
  lemma FinalizeReusesIff(c: Config, schedule: seq<Action>, s: State)
    requires ValidConfig(c) && Execute(c, schedule) == Some(s) && Enabled(c, s, Wake)
    requires Running(s.flags) && s.flags.finalizeRequested
    ensures var after := Apply(c, s, Wake);
      if !c.stateful && LastReturned(schedule).Some? && HeardAtPartial(schedule) == |Heard(schedule)|
         && (c.partialWindowBytes.Some? ==> |Join(Heard(schedule))| <= c.partialWindowBytes.value)
      then
        && after.worker.Exited? && |after.events| == |s.events| + 1 && after.events[..|s.events|] == s.events
        && IsAnswer(c, schedule, after.events[|s.events|], LastReturned(schedule).value.0)
      else after.worker.DecodingFinal? && after.events == s.events
  {
    RunningIsNoted(c, schedule, s);
  }

  /** Once the stream is cancelled or closed, no step of the worker sends anything. */
  lemma NothingAfterStop(c: Config, s: State, a: Action)
    requires WorkerAction(a) && Enabled(c, s, a) && (s.flags.cancelRequested || s.flags.closed)
    ensures Apply(c, s, a).events == s.events && WorkerDone(Apply(c, s, a).worker)
  {
  }

  /** A chunk is taken exactly if it is whole samples and fits; any other ends the stream and changes no audio. */
  lemma AudioTakenIff(c: Config, schedule: seq<Action>, s: State, chunk: Bytes)
    requires ValidConfig(c) && Execute(c, schedule) == Some(s) && Enabled(c, s, Audio(chunk)) && Open(s.flags)
    ensures var after := Apply(c, s, Audio(chunk));
      if chunk != [] && |chunk| % 2 == 0 && |Join(Heard(schedule))| + |chunk| <= c.maxBufferBytes then
        && after.main.Receiving? && Open(after.flags) && after.flags.audioUpdated
        && after.session.audioBuffer == Join(Heard(schedule)) + chunk
      else after.main.Stopping? && after.flags.closed && after.session == s.session && after.events == s.events
  {
    RunningIsNoted(c, schedule, s);
  }

  /** A finalize is taken exactly if anything was heard. */
  lemma FinalizeTakenIff(c: Config, schedule: seq<Action>, s: State)
    requires ValidConfig(c) && Execute(c, schedule) == Some(s) && Enabled(c, s, Finalize) && Open(s.flags)
    ensures var after := Apply(c, s, Finalize);
      if Join(Heard(schedule)) != [] then
        after.main.AwaitingWorker? && after.flags.finalizeRequested && Running(after.flags) && after.session == s.session
      else after.main.Stopping? && after.flags.closed && !after.flags.finalizeRequested
  {
    RunningIsNoted(c, schedule, s);
  }

  /** A cancel forgets the audio and what was made of it, and says so, once; the stream is then closed. */
  lemma CancelForgets(c: Config, s: State)
    requires Enabled(c, s, Cancel)
    ensures var after := Apply(c, s, Cancel);
      && after.session.audioBuffer == [] && after.session.lastPartialResult.None?
      && after.session.stablePartialText.None? && after.session.stablePartialCount == 0
      && after.events == s.events + [CancelWarning]
      && Enabled(c, after, CancelDelivered) && Apply(c, after, CancelDelivered).flags.closed
      && Apply(c, after, CancelDelivered).main.Stopping?
  {
  }

  /** Without a stateful decoder nothing is ever pushed. */
  lemma {:induction false} NothingPushed(c: Config, schedule: seq<Action>)
    requires !c.stateful && Execute(c, schedule).Some?
    ensures Execute(c, schedule).value.pushed == [] && Execute(c, schedule).value.decodedOffset == 0
    decreases |schedule|
  {
    if schedule != [] {
      NothingPushed(c, schedule[..|schedule| - 1]);
    }
  }

  /** A decode can raise whenever one is under way, and the worker is then done without having answered. */
  lemma DecodeCanRaise(c: Config, s: State)
    ensures s.worker.DecodingPartial? || s.worker.DecodingFinal? <==> Enabled(c, s, DecodeRaises)
    ensures Enabled(c, s, DecodeRaises) ==> Apply(c, s, DecodeRaises) == s.(worker := Failed)
  {
  }
}
