# Verified model of a streaming speech-to-text server and its benchmark tools

A Dafny model of the parts of the repository whose correctness is not visible from reading one function:

* the **streaming protocol**: the incremental raw-UDS frame decoder, and the server's per-stream ASR worker running beside the
  loop that receives audio;
* the **streaming benchmark**: one session as two concurrent coroutines, many sessions behind a start barrier, the audio pipeline that
  feeds them, and the edit distance behind the word error rate;
* the **benchmark reports**: the artifact manifest and its scores, the transport decision gate, the stale-artifact report, image
  size accounting, and the prerendered site;
* the **audio normaliser**: PCM decoding and linear resampling.

Concurrent code is a transition relation. A state records where each coroutine stands (its `await`) and every variable they
share; an action is the code of one of them between two awaits, or a part of it, with the client's or the backend's outcome as a
parameter. In a benchmark session the receiver moves only while the sender stands at an await, and the sender only while the
receiver does. Elsewhere the event loop may allow fewer switches than the model does. A state is reachable if some schedule of
enabled actions leads to it, so a statement about reachable states covers every interleaving and every outcome. Loops that update
variables are methods, proved against functions whose properties are then proved as lemmas. Objects that update their fields are
classes.

Numbers are exact: Python integers are `int`, floats are `real`, and `round` rounds halves to even (`Rounding.dfy`).

Where a promised property does not hold of the code, the condition under which it does is proved, with a concrete case:

* a benchmark run can count as successful although all but its first chunk was dropped (`SuccessCanDropTheRest`,
  `ChunksOfSuccessIff`); it dropped nothing exactly when the last chunk had been handed to the client before the final came
  (`SuccessDropsNothingIff`, `FinalAfterLastChunkIff`);
* the frame-size check accepts frames of an odd number of bytes, whose decode buffers cannot be decoded as 16-bit samples
  (`OddFramesAreAccepted`, `DecodableIff`);
* frames that are complete in the segment that also holds an error are not delivered, so what is delivered depends on how the
  stream was cut (`FailingSegmentLosesItsFrames`); it does exactly for streams with a whole frame ahead of an error
  (`CutIsIrrelevantIff`);
* a final declared by a stable partial need not cover the audio received by then (`StableFinalCanMissAudio`, `StableFinalCoversIff`);
* raising a p95 latency from zero can raise the overall score (`ZeroP95CanScoreLower`); one comparison tells whether it does
  (`LongerTailNeverHelpsIff`);
* raw audio shorter than eight bytes is decoded only on the fast path (`ShortAudioNeedsFastPath`, `FastPathAgreesIff`);
* when the latency win is too small, the recommendation text can name a later reason than the gate's first blocker
  (`TextNamesFirstBlocker`);
* a page whose summary block encloses its timestamp block is written once and then refused (`HomepageFixpointIff`);
* a page with a carriage return in its contents is found stale as soon as it is written (`CarriageReturnIsStale`,
  `CheckAfterWriteIff`);
* artifacts called `.json` and `.json.json` share a detail page (`PagesEqualIff`, `CleanupNamesCurrentPageIff`).

| file | models |
|---|---|
| `RawUdsFrames.dfy` | `src/protocols/local_stt_v1.py`: frames, their encoding, and the incremental decoder |
| `AsrWorker.dfy`, `AsrStability.dfy`, `AsrTimeline.dfy` | `src/main.py`: a stream's receive loop, its ASR worker, and the stateful decoder |
| `BenchmarkSession.dfy`, `BenchmarkTimeline.dfy`, `BenchmarkBatch.dfy`, `BenchmarkWitness.dfy`, `AudioPipeline.dfy`, `EditDistance.dfy` | `scripts/bench_local_stt_stream.py` |
| `BenchmarkManifest.dfy`, `TrackScores.dfy`, `RuntimeLabels.dfy` | `scripts/build_benchmark_manifest.py` |
| `TransportDecision.dfy`, `TransportFacts.dfy` | `scripts/compare_local_stt_transports.py` |
| `StaleReport.dfy`, `ArtifactPaths.dfy`, `PrintedSizes.dfy`, `TextKeys.dfy` | `scripts/report_stale_benchmark_artifacts.py` |
| `ImageSizes.dfy` | `scripts/report_compose_image_sizes.py` |
| `SitePrerender.dfy` | `scripts/prerender_benchmark_homepage.py` |
| `AudioProcessor.dfy` | `src/audio_processor.py` |
| `Results.dfy`, `Sequences.dfy`, `Arithmetic.dfy`, `RealArithmetic.dfy`, `Rounding.dfy`, `Bytes.dfy`, `TextSearch.dfy` | shared: optional values, sequences, integer and real facts, rounding, byte strings, substring search |

`dafny verify dfyconfig.toml` checks everything.

## Model

| member | source | states |
|---|---|---|
| EditDistance.LevenshteinDistance | scripts/bench_local_stt_stream.py:1256-1270 | the two-row loop computes the edit distance, the function that `DistanceIsMinimal` characterises |
| EditDistance.DistanceIsMinimal | scripts/bench_local_stt_stream.py:1256-1270 | the distance is the length of some chain of single-word insertions, deletions and replacements from one text to the other, and no chain is shorter |
| EditDistance.NoShorterChain | scripts/bench_local_stt_stream.py:1256-1270 | every chain of single-word edits between two texts takes at least as many edits as the distance |
| EditDistance.ShortestChain | scripts/bench_local_stt_stream.py:1256-1270 | a chain with exactly that many edits can be built for any two texts |
| EditDistance.DistanceSymmetric | scripts/bench_local_stt_stream.py:1256-1270 | the distance does not depend on which text is the reference |
| EditDistance.DistanceZeroIffEqual | scripts/bench_local_stt_stream.py:1256-1270 | it is zero exactly on equal texts |
| EditDistance.DistanceTriangle | scripts/bench_local_stt_stream.py:1256-1270 | it obeys the triangle inequality |
| EditDistance.DistanceBounds | scripts/bench_local_stt_stream.py:1256-1270 | it lies between the difference of the lengths and the longer length |
| EditDistance.ComputeWordErrorRate | scripts/bench_local_stt_stream.py:1242-1253 | no rate is given exactly for an absent or empty reference, or for one without words against a hypothesis with some; the rate is zero when both are without words, and otherwise within half a thousandth of the least number of edits over the number of reference words |
| EditDistance.RateZeroIff | scripts/bench_local_stt_stream.py:1245-1253 | over exact ratios the rounded rate is zero exactly when the errors are at most one in two thousand words, so a zero rate does not mean equal texts; at exactly one in two thousand the float quotient lies above the tie and the code prints 0.001 |
| EditDistance.NearRateZero | scripts/bench_local_stt_stream.py:1245-1253 | a rate within half a thousandth of the ratio is zero below one error in two thousand words and not zero above, however the tie is rounded |
| AudioPipeline.SplitIsLossless | scripts/bench_local_stt_stream.py:537-541 | splitting succeeds exactly for frame sizes that are a positive whole number of bytes; the frames then join to the input, and all but the last are full |
| AudioPipeline.AggregateAudioFrames | scripts/bench_local_stt_stream.py:1304-1319 | aggregation refuses exactly the send sizes that are below, or no multiple of, the frame length, each with its own error, and otherwise groups the frames in order |
| AudioPipeline.AggregateIsLossless | scripts/bench_local_stt_stream.py:1304-1319 | chunk payloads join to the audio, source frame counts sum to the frames, and there are ceil(N/k) chunks |
| AudioPipeline.AggregateDurations | scripts/bench_local_stt_stream.py:1304-1319 | every chunk lasts as long as its frames, all but the last are full, and none is empty |
| AudioPipeline.FullChunksLastExactly | scripts/bench_local_stt_stream.py:307-311 | every chunk but the last lasts exactly the requested send time |
| AudioPipeline.FramesPerPartialIsLeast | scripts/bench_local_stt_stream.py:1279-1292 | the frames per partial are the least positive number that lasts the interval, also for intervals of zero or less |
| AudioPipeline.FramesPerPartialIsCeiling | scripts/bench_local_stt_stream.py:1279-1292 | for positive intervals that is the rounded-up quotient |
| AudioPipeline.IterServerDecodeBuffers | scripts/bench_local_stt_stream.py:1279-1292 | the accumulating loop yields the buffers the closed form describes |
| AudioPipeline.DecodeBuffersClosedForm | scripts/bench_local_stt_stream.py:1279-1292 | for non-empty frames, the i-th buffer is the audio of the first (i+1)k frames, or of all of them, and there are ceil(N/k) |
| AudioPipeline.DecodeBuffersGrow | scripts/bench_local_stt_stream.py:1279-1292 | each buffer is a strict prefix of every later one |
| AudioPipeline.DecodeBuffersEndWithAll | scripts/bench_local_stt_stream.py:1279-1292 | the last buffer is the whole audio |
| AudioPipeline.DecodableIff | scripts/bench_local_stt_stream.py:537-541 | for audio of even length, all decode buffers have even length exactly when one partial has an even number of bytes or covers all the audio |
| AudioPipeline.OddFramesAreAccepted | scripts/bench_local_stt_stream.py:539 | the frame-size check lets a sample rate and frame length through whose frames are one byte long, and a decode buffer is then odd |
| BenchmarkSession.ErrorsAndEvents | scripts/bench_local_stt_stream.py:997-1116 | in every interleaving the error count equals the recorded codes and never exceeds three, there is at most one final, transcript changes stay below partials, and a run is successful exactly with one final and no error code |
| BenchmarkSession.FramesAccountedFor | scripts/bench_local_stt_stream.py:1058-1111 | when a session has finished, frames sent and frames dropped add up to the input, so the `max(0, ...)` correction of the report is zero |
| BenchmarkSession.LatencyMeansComplete | scripts/bench_local_stt_stream.py:1091-1108 | a recorded finalization latency is non-negative and means that every frame was sent, none dropped, and finalize was called once, after the last audio |
| BenchmarkTimeline.FinalizationLatencyIs | scripts/bench_local_stt_stream.py:1052-1053 | over any schedule: the finalization latency is the time that passes between the step that calls finalize and the arrival of the final, in milliseconds |
| BenchmarkTimeline.FirstInterimIs | scripts/bench_local_stt_stream.py:1044-1048 | over any schedule: the first-interim latency is the time between the first call of `send_audio` and the arrival of the first partial after it |
| BenchmarkTimeline.FirstInterimIff | scripts/bench_local_stt_stream.py:1044-1048 | a first-interim latency is recorded exactly when there was audio and a partial arrived |
| BenchmarkTimeline.SendTimeIs | scripts/bench_local_stt_stream.py:1072-1093 | over any schedule: sending lasts from the first call of `send_audio` until the loop is left |
| BenchmarkTimeline.StateReflectsSchedule | scripts/bench_local_stt_stream.py:997-1116 | counts, texts, stamps, warnings, reconnects and error codes of a session are those of the events received and of the steps that failed, read off its schedule |
| BenchmarkSession.ClientCallOrder | scripts/bench_local_stt_stream.py:1058-1116 | a finished session called the client with chunks in order, at most one finalize and only after all chunks, and exactly one close, last |
| BenchmarkSession.BytesSentArePrefix | scripts/bench_local_stt_stream.py:1069-1089 | the bytes sent are a prefix of the audio ending at a chunk boundary, and raw UDS counts five more bytes for each chunk sent |
| BenchmarkSession.SuccessfulLatencyIff | scripts/bench_local_stt_stream.py:1173-1193 | a successful run has a latency exactly when finalize was called, and then nothing was dropped; `SuccessDropsNothingIff` covers the successful runs without a latency |
| BenchmarkSession.SuccessDropsNothingIff | scripts/bench_local_stt_stream.py:1058-1116 | a successful run dropped nothing exactly when every chunk had been handed to the client |
| BenchmarkSession.FinalAfterLastChunkIff | scripts/bench_local_stt_stream.py:1049-1116 | read off when the final is received: in every successful run, whatever happened before and after, nothing was dropped exactly when the last chunk had been handed to the client by then |
| BenchmarkSession.SuccessSendsFirstChunk | scripts/bench_local_stt_stream.py:1063-1089 | nothing is awaited ahead of the first `send_audio`, so a successful run has sent its first chunk, if there is one |
| BenchmarkSession.ChunksOfSuccessIff | scripts/bench_local_stt_stream.py:1063-1116 | the numbers of chunks a successful run can have sent are exactly those from one to all of them, or none if there are none |
| BenchmarkSession.SuccessCanDropTheRest | scripts/bench_local_stt_stream.py:1063-1116 | for audio of two chunks or more there is a run that ends successfully with one chunk sent and the frames of all others dropped |
| BenchmarkSession.NoDeadlock | scripts/bench_local_stt_stream.py:997-1116 | until the session is finished some coroutine can always move |
| BenchmarkSession.BoundedShutdown | scripts/bench_local_stt_stream.py:1055-1116 | once `receive_done` is set it stays set, and at most seven more steps of the two coroutines remain |
| BenchmarkSession.ExecuteKeepsInv | scripts/bench_local_stt_stream.py:912-1116 | the invariant behind these results holds after every schedule of sender, receiver and clock |
| BenchmarkBatch.AudioOnlyAfterAllStarts | scripts/bench_local_stt_stream.py:752-788 | no session sends audio before every session of its run has come back from `start` |
| BenchmarkBatch.FailedStartSilencesRun | scripts/bench_local_stt_stream.py:968-994 | once a start has failed no session of that run has sent or will have sent audio, no next run can begin, and no earlier run had a failed start |
| BenchmarkBatch.FailedRunIsLast | scripts/bench_local_stt_stream.py:752-788 | after a failed start every later state of the benchmark is still in that run |
| BenchmarkBatch.ClosedOnce | scripts/bench_local_stt_stream.py:1109-1116 | a session that has ended called close exactly as often as start: once, or not at all; the end of a session past the barrier is one action here, which `SessionIsSummarised` derives from the session model |
| BenchmarkBatch.SessionStepIsSeen | scripts/bench_local_stt_stream.py:996-1116 | every step of the session model is seen from the batch as sending audio, as the end with its one close, or as nothing |
| BenchmarkBatch.SessionIsSummarised | scripts/bench_local_stt_stream.py:996-1116 | after any schedule of a session the batch sees it with exactly the audio it sent, and ended with one close exactly when it has called close |
| BenchmarkBatch.CollectedRunsFinished | scripts/bench_local_stt_stream.py:752-788 | runs whose results were collected are runs in which every session finished and was closed |
| BenchmarkBatch.NeverTooManyRuns | scripts/bench_local_stt_stream.py:717-788 | there are never more runs than asked for |
| BenchmarkBatch.SetupFails | scripts/bench_local_stt_stream.py:912-966 | a session whose set-up fails ends without any call to the client, and leaves the others alone |
| BenchmarkWitness.EveryRunCanComplete | scripts/bench_local_stt_stream.py:717-788 | for any number of sessions, runs and chunks there is a schedule after which every run is collected and every session has sent all its chunks |
| BenchmarkWitness.AStartCanFail | scripts/bench_local_stt_stream.py:752-994 | for any number of sessions there is a schedule in which one start fails, all sessions are closed once, and the benchmark ends with the error |
| BenchmarkBatch.NoDeadlock | scripts/bench_local_stt_stream.py:752-994 | the barrier traps no one: unless the benchmark is over, some coroutine can move |
| BenchmarkBatch.ExecuteKeepsInv | scripts/bench_local_stt_stream.py:717-788 | the barrier and session invariant holds after every schedule, over all runs |
| RawUdsFrames.RawUdsFrameDecoder.Feed | src/protocols/local_stt_v1.py:167-197 | feeding a segment gives exactly the frames of buffered plus new bytes and keeps the unparsed rest; on an error it gives the error and empties the buffer |
| RawUdsFrames.RawUdsFrameDecoder.Reset | src/protocols/local_stt_v1.py:199-202 | the buffer is emptied and its former length returned |
| RawUdsFrames.RawUdsFrameDecoder.Finish | src/protocols/local_stt_v1.py:204-211 | a non-empty buffer is an incomplete frame; the buffer is empty afterwards either way |
| RawUdsFrames.WireIsFirst | src/protocols/local_stt_v1.py:705-713 | an encoded frame at the head of any stream is read back whole, with its exact length |
| RawUdsFrames.ParseOfStream | src/protocols/local_stt_v1.py:167-197 | parsing an encoded list of frames gives the frames back, followed by whatever the remaining bytes parse to |
| RawUdsFrames.StreamOfParse | src/protocols/local_stt_v1.py:167-197 | re-encoding the parsed frames and appending the rest gives the input back, for all inputs |
| RawUdsFrames.OneShotAgrees | src/protocols/local_stt_v1.py:716-736 | the one-shot decoder accepts exactly the bytes that parse to that one frame and nothing else, which are exactly its encoding |
| RawUdsFrames.ParseResumes | src/protocols/local_stt_v1.py:167-197 | bytes that arrive later change nothing already parsed; parsing goes on from the rest |
| RawUdsFrames.SegmentationIrrelevant | src/protocols/local_stt_v1.py:162-197 | a well-formed stream gives the same frames and the same rest however it is cut into segments |
| RawUdsFrames.TransmissionIsFaithful | src/protocols/local_stt_v1.py:162-211 | frames sent over a socket arrive unchanged under every segmentation, with nothing left over |
| RawUdsFrames.ErrorPersists | src/protocols/local_stt_v1.py:167-197 | no later bytes turn an erroneous stream into a good one or change the frames ahead of the error |
| RawUdsFrames.FailingSegmentLosesItsFrames | src/protocols/local_stt_v1.py:167-197 | an erroneous stream raises its error under every segmentation, and delivers exactly the frames complete before the failing segment |
| RawUdsFrames.DeliveredIff | src/protocols/local_stt_v1.py:162-197 | an erroneous stream can deliver, under some segmentation, every beginning of the frames ahead of its error, and nothing else |
| RawUdsFrames.CutIsIrrelevantIff | src/protocols/local_stt_v1.py:162-197 | for every stream: what is delivered is the same under all segmentations exactly when there is no error or no frame ahead of it |
| RawUdsFrames.CutMattersBeforeAnError | src/protocols/local_stt_v1.py:167-197 | the shortest case: two ways to cut one stream that deliver different frames ahead of the same error |
| AsrWorker.OneFinalAndLast | src/main.py:1338-1441 | in every interleaving transcript revisions count up from one, and at most the last transcript is final |
| AsrWorker.TimingAlwaysValid | src/protocols/local_stt_v1.py:395-406 | no transcript the worker sends can fail the message's own timing check |
| AsrWorker.FinalizeIsAnswered | src/main.py:1338-1441 | if finalize was requested and the worker has returned normally, its last transcript is final |
| AsrWorker.FinalizeCoversAllAudio | src/main.py:1975-1997 | a final sent in answer to finalize was made from all audio received, whether reused, decoded or streamed |
| AsrWorker.ReuseAgreesWithDecoding | src/main.py:1988-1997 | reusing the last partial gives the same state as decoding the whole buffer with the same decoder |
| AsrWorker.DecoderSeesEachByteOnce | src/main.py:1465-1492 | until a cancel, what a stateful decoder has been given is in every reachable state a beginning of the audio, in order, without gap or overlap: the first `decoded offset` bytes between decodes, the audio of the snapshot during a partial, all audio for the final; it is a beginning after a decode raised, too |
| AsrWorker.StableFinalCanMissAudio | src/main.py:495-509 | a schedule, for any even-sized audio, in which a final declared by a stable partial misses what was received while it was being decoded |
| AsrWorker.StableFinalCoversIff | src/main.py:1338-1441 | in every reachable state in which a stable partial declares the final, that final was made from all audio received exactly when no audio arrived during its decoding and the partial window kept the whole buffer |
| AsrStability.StableFinalIff | src/main.py:495-509 | after any schedule, a partial is declared final exactly when the stream is open, the option is on, and the last so many transcripts returned, this one included, have the same text, which is not blank |
| AsrStability.NoTranscriptNoFinal | src/main.py:1403-1409 | a decode that returns no transcript declares nothing and sends nothing |
| AsrTimeline.WakeBeginsPartialIff | src/main.py:1379-1385 | after any schedule, a worker that wakes on an open stream begins a partial exactly when interim results are wanted and the chunks, or the milliseconds, heard since the last partial was begun reach the interval |
| AsrTimeline.PartialAudioIs | src/main.py:490-493 | a partial is decoded from the end of what was heard when it was begun: the window, all of it, or what is new to a stateful decoder |
| AsrTimeline.PartialIsSent | src/main.py:1420-1439 | a partial with text is sent exactly while the stream is open, with the text that came back and the durations heard and decoded |
| AsrTimeline.FinalIsSent | src/main.py:1350-1377 | the answer to a finalize carries the decoded text and gives all audio as transcribed |
| AsrTimeline.FinalizeReusesIff | src/main.py:1975-1997 | a finalize is answered with the last partial, without another decode, exactly when that was of everything heard and the window kept it all |
| AsrTimeline.AudioTakenIff | src/main.py:456-463 | a chunk is taken exactly if it is not empty, is whole samples and fits the buffer; any other closes the stream |
| AsrTimeline.FinalizeTakenIff | src/main.py:980-990 | a finalize is taken exactly if anything was heard |
| AsrTimeline.NothingAfterStop | src/main.py:1344-1347 | once a stream is cancelled or closed the worker sends nothing and ends |
| AsrTimeline.CancelForgets | src/main.py:546-552 | a cancel empties the buffer, forgets the last partial and its stability, sends one warning, and the stream is then closed |
| AsrTimeline.DecodeCanRaise | src/main.py:1386-1402 | a decode under way can raise at any time, and ends the worker without an answer |
| AsrTimeline.DurationIs | src/main.py:1846-1849 | durations are the nearest millisecond for two bytes a sample, and zero without a rate |
| AsrWorker.SleepMeansNothingDue | src/main.py:1338-1441 | a worker waiting with no wake pending has no request to answer and no partial to send |
| AsrWorker.WorkerNeverStuck | src/main.py:538-556 | while the receive loop waits for the worker, the worker can move: no wake-up is lost |
| AsrWorker.WorkerExitsSoon | src/main.py:1338-1441 | it then returns after at most three of its own steps |
| AsrWorker.ExecuteKeepsInv | src/main.py:1338-1441 | the invariant behind these results holds after every schedule of loop, worker and decoder |
| BenchmarkManifest.BuildManifest | scripts/build_benchmark_manifest.py:1397-1451 | every track gets the artifact it names, or else the latest artifact of its key, the history lists every artifact, and the summary is computed from both |
| BenchmarkManifest.LatestStep | scripts/build_benchmark_manifest.py:1403-1425 | after each file, every key seen maps to an artifact with the greatest stamp, the first such in file order |
| BenchmarkManifest.BuildManifestIsBuilt | scripts/build_benchmark_manifest.py:1397-1451 | what the builder returns satisfies the assumptions of the conservation laws |
| BenchmarkManifest.BestTrackIsBest | scripts/build_benchmark_manifest.py:997-1034 | the track chosen for an artifact is one of its matches, and no other scores higher |
| BenchmarkManifest.CurrentIff | scripts/build_benchmark_manifest.py:997-1034 | the track chosen for an artifact points at it exactly when some track of its key does |
| BenchmarkManifest.HistoryStatusIs | scripts/build_benchmark_manifest.py:997-1034 | in the history of every manifest an artifact has its own data and the status of the first track of its key that points at it, and is legacy if there is none |
| BenchmarkManifest.TrackIs | scripts/build_benchmark_manifest.py:1419-1425 | every track keeps its status and names, and takes path, size, transport and hint from the artifact it names or from the latest of its key, if there is one |
| BenchmarkManifest.TrackKeyIff | scripts/build_benchmark_manifest.py:189-195 | a track is looked up under the key of its artifacts exactly unless its device or compute type is configured as an empty text |
| BenchmarkManifest.ChosenAgreesMost | scripts/build_benchmark_manifest.py:997-1034 | the chosen track points at the artifact if any match does, and agrees with it on hint and transport as far as any other |
| BenchmarkManifest.UntrackedIsLegacy | scripts/build_benchmark_manifest.py:997-1034 | an artifact no track points at is marked legacy, whatever its matches |
| BenchmarkManifest.CurrentOrStale | scripts/build_benchmark_manifest.py:1445-1451 | current and stale artifacts partition the history, in number and in bytes |
| BenchmarkManifest.FileCountConserved | scripts/build_benchmark_manifest.py:1485-1490 | the file count is the stale count plus the number of distinct paths tracks point at |
| BenchmarkManifest.BytesConserved | scripts/build_benchmark_manifest.py:1485-1490 | total bytes are at most stale plus published bytes, and equal exactly when no two tracks share a non-empty artifact |
| TrackScores.InvertScoreRange | scripts/build_benchmark_manifest.py:24-30 | an inverted score is a percentage for every value, floor and ceiling |
| TrackScores.InvertScoreIs | scripts/build_benchmark_manifest.py:24-30 | an inverted score is 100 up to the floor, 0 from the ceiling on, and linear in between to a tenth |
| TrackScores.WeightedScoreBetween | scripts/build_benchmark_manifest.py:33-37 | a rounded weighted mean stays between its rounded parts, for any number of parts and any positive weights |
| TrackScores.ScoresArePercentages | scripts/build_benchmark_manifest.py:1037-1118 | every published score lies in [0, 100] |
| TrackScores.OverallBetweenComponents | scripts/build_benchmark_manifest.py:1071-1104 | before the status factor, the overall score lies between the least and the greatest component present, rounding included |
| TrackScores.OverallOfAll | scripts/build_benchmark_manifest.py:1086-1104 | with all five components present the overall score is their mean weighted 28, 20, 18, 14 and 10, to a tenth |
| TrackScores.CoverageIs | scripts/build_benchmark_manifest.py:1055-1057 | coverage is the share of the target, at most all of it, to a tenth; without a target there is none |
| TrackScores.ConfidenceIs | scripts/build_benchmark_manifest.py:1079-1084 | confidence is what the status is worth, averaged with the coverage if there is one |
| TrackScores.StatusCosts | scripts/build_benchmark_manifest.py:1100-1104 | against the same entry validated a legacy one keeps 94 and a blocked one 55 of a hundred points, to a tenth, and the three scores are always in that order |
| TrackScores.JitterGrows | scripts/build_benchmark_manifest.py:1037-1060 | with the mean fixed and positive, a larger positive p95 never gives a smaller jitter ratio |
| TrackScores.JitterNeverFallsIff | scripts/build_benchmark_manifest.py:1037-1060 | over a positive mean, no larger p95 gives a smaller ratio, or one where there was none, exactly when the p95 is not zero |
| TrackScores.WorseTailsNeverScoreHigher | scripts/build_benchmark_manifest.py:1037-1104 | raising positive p95 latencies, the late-partial ratio or the real-time factor never raises the overall score, through all roundings and the status factor |
| TrackScores.LongerTailNeverHelpsIff | scripts/build_benchmark_manifest.py:1037-1104 | for each of the three p95 latencies, over means and p95s that are not negative: no larger p95 raises the overall score exactly when the p95 is not zero over a positive mean, or the score is no higher at the knee, the p95 up to which every term stays full |
| TrackScores.ZeroP95CanScoreLower | scripts/build_benchmark_manifest.py:1037-1104 | an entry whose score rises from 75 to 83.3 when its p95 rises from 0 to 350 |
| RuntimeLabels.KeyRoundTrip | scripts/build_benchmark_manifest.py:156-186 | splitting the printed runtime label recovers the benchmark key exactly when the first separator in the label is the printed one, or there is none to find |
| RuntimeLabels.PartitionOfLabel | scripts/build_benchmark_manifest.py:899-906 | a readable label splits into device and compute type; any other breaks the device off at one of its blanks |
| RuntimeLabels.NoRuntimeKey | scripts/build_benchmark_manifest.py:899-906 | an entry without a runtime has the key of an unknown device and the default compute type |
| RuntimeLabels.KeysDiffer | scripts/build_benchmark_manifest.py:899-906 | a device broken off at a blank never gives the same key, whatever follows it |
| AudioProcessor.PcmRoundTrip | src/audio_processor.py:110-121 | for 16-bit and 24-bit PCM, packing and decoding are inverse to each other |
| AudioProcessor.DecodedWithinFullScale | src/audio_processor.py:110-121 | decoded samples lie in [-1, 1) |
| AudioProcessor.Pcm16Samples | src/audio_processor.py:110-113 | bytes of odd length are refused; otherwise each two bytes are one sample, low byte first, with its sign in the top bit and 32768 as full scale |
| AudioProcessor.Pcm24Samples | src/audio_processor.py:115-121 | the same for three bytes and 8388608 |
| AudioProcessor.ResampledSample | src/audio_processor.py:132-144 | every output in closed form: output j of m is the mean of the two samples around place j*n/m, weighted by nearness, and the last sample from there on |
| AudioProcessor.ResampleKeepsLines | src/audio_processor.py:132-144 | for any two rates, samples on a straight line give outputs on that line, each at its own place; behind the last sample its value is held |
| AudioProcessor.ResampleIsLocal | src/audio_processor.py:132-144 | an output depends on the two samples around its place and on nothing else but the number of samples |
| AudioProcessor.ResampleWithinBounds | src/audio_processor.py:132-144 | resampled values stay within any bounds of the input |
| AudioProcessor.ResampleKeepsDuration | src/audio_processor.py:132-144 | the number of outputs is n * target / source, rounded with ties to even and at least one: within half a sample exactly when the ideal is at least half a sample |
| AudioProcessor.UpsampleKeepsSamples | src/audio_processor.py:132-144 | upsampling by an integer factor keeps every sample, at its multiple |
| AudioProcessor.ResampleRoundTrip | src/audio_processor.py:132-144 | upsampling by an integer factor and downsampling by it returns the samples |
| AudioProcessor.InterpAtKnot | src/audio_processor.py:132-144 | interpolation at a source position returns the sample there |
| AudioProcessor.FastPathAgreesIff | src/audio_processor.py:37-65 | where soundfile cannot read the data, switching the fast path on changes nothing exactly when the data is empty or starts as a container, no positive rate is given, or there are at least eight bytes and either the rate is the target rate or the length is odd and the rate is not enforced |
| AudioProcessor.ShortAudioNeedsFastPath | src/audio_processor.py:37-65 | one sample at the target rate: the fast path decodes it, and on the general path the WAV reader ends with an error that is not caught |
| AudioProcessor.FastPathIgnoresReaders | src/audio_processor.py:123-130 | with the fast path on, audio that comes with a rate and without a container header gives the same result whatever the readers make of it |
| AudioProcessor.GeneralPathHitsTargetRate | src/audio_processor.py:37-65 | audio comes out at the target rate unless the fast path took it with the rate not enforced |
| AudioProcessor.LoadFails | src/audio_processor.py:37-65 | for each error of loading, exactly when it is raised |
| AudioProcessor.LoadGives | src/audio_processor.py:37-65 | off the fast path the WAV reader decides first, then soundfile, then raw PCM, and what they give is brought to the target rate |
| AudioProcessor.FastPathGives | src/audio_processor.py:123-130 | the fast path decodes raw PCM and keeps the rate given |
| TransportDecision.CompareArtifacts | scripts/compare_local_stt_transports.py:1696-1720 | the comparison is refused exactly for a number of runs or a win threshold that is not positive, a file that is no artifact, a malformed artifact, or two artifacts of one transport; otherwise it holds the artifacts in their order |
| TransportDecision.RecommendationGate | scripts/compare_local_stt_transports.py:1549-1607 | the gate passes exactly when none of its categories is blocked; its list holds the blockers of the blocked categories and no others, each blocked category has one, and they stand in gate order |
| TransportFacts.GatePassedIff | scripts/compare_local_stt_transports.py:1549-1607 | by the artifacts alone: the gate passes exactly when the three required transports and no other occur, none misses a metric or saw a protocol error, there are no gaps, raw UDS wins by the minimum, and neither its finalization nor a queue p95 is more than 0.05 ms worse |
| TransportFacts.BlockerListedIff | scripts/compare_local_stt_transports.py:1549-1607 | a blocker, with its detail, is listed exactly when what it says holds of the artifacts |
| TransportDecision.OneVerdict | scripts/compare_local_stt_transports.py:1669-1693 | gate, experimental flag, final text, decision status, next action and the exit code with the require flag always give the same verdict |
| TransportDecision.ExitCodeIffReasons | scripts/compare_local_stt_transports.py:1949-1971 | without the flag, exit code 1 means a non-empty list of human-readable reasons, and the other way round |
| TransportFacts.ReasonsAreGapDetails | scripts/compare_local_stt_transports.py:1490-1546 | the human-readable reasons are the details of the gaps the gate lists, in the same order, followed by the transports with protocol errors |
| TransportDecision.FirstBlocker | scripts/compare_local_stt_transports.py:1549-1607 | the first blocker is of the first blocked category |
| TransportDecision.TextNamesFirstBlocker | scripts/compare_local_stt_transports.py:1420-1487 | the text names the category of the gate's first blocker, except exactly when the win is too small and a later regression is named instead |
| TransportFacts.TextPastLatency | scripts/compare_local_stt_transports.py:1420-1487 | in that exception the text names the finalization regression if there is one, and else the queue regression |
| TransportFacts.NextActionIs | scripts/compare_local_stt_transports.py:1618-1663 | the next action is that of the first blocked category; only an unexpected transport has none of its own |
| TransportDecision.DeltaMatrixAntisymmetric | scripts/compare_local_stt_transports.py:1340-1372 | exchanging baseline and candidate negates every delta, rounding included |
| TransportFacts.DeltaIs | scripts/compare_local_stt_transports.py:1340-1372 | an entry of the matrix is there exactly for two different transports that have the metric, and lies within 0.05 of their difference |
| TransportDecision.SummaryStatusIs | scripts/compare_local_stt_transports.py:1610-1616 | a metric is shown as missing, regressed or improved exactly by the sign of the difference beyond 0.0005 |
| TransportDecision.BlockingRegressionIsShown | scripts/compare_local_stt_transports.py:1610-1616 | a difference blocks the gate exactly above 0.05 and is shown as a regression exactly above 0.0005, so no blocking regression is hidden |
| ImageSizes.DeduplicatedPresentSizeBytes | scripts/report_compose_image_sizes.py:1163-1175 | the loop with its set of seen ids adds up the first counted record of each image and all counted records without an id |
| ImageSizes.OneMoreRecord | scripts/report_compose_image_sizes.py:1163-1175 | one more record adds its size if it is present with one, unless an earlier such record has its image id |
| ImageSizes.TotalFromFront | scripts/report_compose_image_sizes.py:1163-1175 | adding from the front with a set of seen ids gives the same total as that reference definition |
| ImageSizes.OrderIrrelevantIff | scripts/report_compose_image_sizes.py:462-510 | the de-duplicated total is the same in every order of the records, and so under every sort mode, exactly when no image is given two sizes |
| ImageSizes.DeduplicatedAtMostPlain | scripts/report_compose_image_sizes.py:682-719 | with no negative size the de-duplicated total lies between zero and the plain total, so the saving needs no clamp |
| ImageSizes.RecordsWithDuplicateImageIds | scripts/report_compose_image_sizes.py:1149-1160 | the groups are those of the ids in order of first appearance, each id once |
| ImageSizes.GroupsAreTheDuplicates | scripts/report_compose_image_sizes.py:1149-1160 | a group is listed exactly for the images with more than one present record, with the tags of those records in order |
| ImageSizes.SavingsAreInTheGroups | scripts/report_compose_image_sizes.py:717-719 | the saving is the sum, over the duplicate groups and nothing else, of what each repeats |
| ImageSizes.GroupSaving | scripts/report_compose_image_sizes.py:717-719 | with one size an image, a group saves its size for every known-size reference but one, and nothing without known sizes |
| PrintedSizes.FormatBytes | scripts/report_stale_benchmark_artifacts.py:1575-1588 | the dividing loop prints the size in its largest unit not above it, to the nearest tenth; nothing and zero print as 0 B |
| PrintedSizes.ParsedIsNear | scripts/report_stale_benchmark_artifacts.py:1599-1614 | parsing a printed size is exact below 1024 and otherwise off by less than a twentieth of the unit and one byte |
| PrintedSizes.ReprintIff | scripts/report_stale_benchmark_artifacts.py:1599-1614 | printing the parsed size gives the same text exactly when rounding did not carry to 1024.0 of a unit that has a next one |
| PrintedSizes.ReparseIsStable | scripts/report_stale_benchmark_artifacts.py:1575-1614 | after one print and parse, further rounds leave the number of bytes alone, carry or not |
| PrintedSizes.PrintingKeepsOrder | scripts/report_stale_benchmark_artifacts.py:1575-1614 | printing and parsing never reverses the order of two sizes, across units too |
| TextKeys.TextKeyReversesIff | scripts/report_stale_benchmark_artifacts.py:3579-3580 | tuple order on the keys is the reverse of text order exactly when neither text extends the other by a NUL |
| TextKeys.NameKeyReversesIff | scripts/report_stale_benchmark_artifacts.py:5849-5850 | the variant ending in the negated length reverses the order exactly when neither text extends the other by a character whose code is at most the shorter length |
| TextKeys.KeyOrder | scripts/report_stale_benchmark_artifacts.py:5913-5914 | how keys of negated characters compare, for any terminating element |
| ArtifactPaths.PagesEqualIff | scripts/report_stale_benchmark_artifacts.py:3471-3477 | two artifacts the builder could list have the same detail page exactly when they are the same, or are called `.json` and `.json.json` |
| ArtifactPaths.NameOfIs | scripts/report_stale_benchmark_artifacts.py:3471-3477 | the name of any path is its last component that is neither empty nor a single dot |
| ArtifactPaths.StemOfIs | scripts/report_stale_benchmark_artifacts.py:3471-3477 | the stem ends ahead of the last dot, unless that is the first or the last character |
| ArtifactPaths.DetailPageIs | scripts/report_stale_benchmark_artifacts.py:3471-3477 | exactly a path whose name ends in `.json` has a detail page, and it is named after the stem |
| ArtifactPaths.NameOfArtifactPath | scripts/build_benchmark_manifest.py:819 | the name of a path the builder wrote is the file name it was written from |
| ArtifactPaths.PageIsNoArtifact | scripts/report_stale_benchmark_artifacts.py:3471-3477 | no detail page has the path of an artifact |
| StaleReport.StaleArtifacts | scripts/report_stale_benchmark_artifacts.py:3829-3946 | the report lists, in order, the artifacts with a path that no track points at and that the chosen filters keep |
| StaleReport.StaleOfContains | scripts/report_stale_benchmark_artifacts.py:4083-4143 | an entry is listed exactly for a stale artifact it was made from, with that artifact's page and current path |
| StaleReport.CurrentPathIs | scripts/report_stale_benchmark_artifacts.py:3829-3831 | the current path of a slug is that of the last track with a path and this slug |
| StaleReport.NoCurrentPath | scripts/report_stale_benchmark_artifacts.py:3829-3831 | without such a track, or without a slug, there is no current path |
| StaleReport.UnfilteredIsTheRest | scripts/report_stale_benchmark_artifacts.py:3829-3946 | without filters the list is as long as there are artifacts with a path no track points at |
| StaleReport.GroupBy | scripts/report_stale_benchmark_artifacts.py:4676-4719 | a grouping has one bucket for each key that occurs, in order of first appearance, holding the number and the bytes of the entries with that key |
| StaleReport.GroupingConserves | scripts/report_stale_benchmark_artifacts.py:4676-5201 | the buckets of every grouping add up to the number of stale artifacts and to their bytes |
| StaleReport.OneMoreSize | scripts/report_stale_benchmark_artifacts.py:4676-4719 | sizes add up, and an entry without one adds nothing |
| StaleReport.FilteredIsWithin | scripts/report_stale_benchmark_artifacts.py:5792-5828 | the bound filters keep exactly the buckets within all bounds, as often as they occur |
| StaleReport.ShownAndOmitted | scripts/report_stale_benchmark_artifacts.py:5379-5401 | shown and omitted buckets add up to the filtered ones in number and bytes, an omission is reported exactly when the limit cuts, and both renderings show the same buckets and fail alike |
| StaleReport.RenderRefusedIff | scripts/report_stale_benchmark_artifacts.py:5792-5828 | a summary is refused exactly for a limit or bound below zero, or a least bound above the greatest one |
| StaleReport.EveryByteIsAccountedFor | scripts/report_stale_benchmark_artifacts.py:5379-5401 | with no bounds, shown and omitted bytes of any group add up to the bytes of all stale artifacts |
| StaleReport.SortedIsInOrder | scripts/report_stale_benchmark_artifacts.py:5792-5828 | sorted buckets are in the order asked for |
| StaleReport.OmittedComeLast | scripts/report_stale_benchmark_artifacts.py:5792-5828 | a bucket left out by the limit does not come before any bucket shown |
| StaleReport.RenderPaths | scripts/report_stale_benchmark_artifacts.py:5297-5331 | the list holds each wanted path where it first occurs, without duplicates, after prefixes are applied |
| StaleReport.PathsOfContains | scripts/report_stale_benchmark_artifacts.py:5297-5331 | a path is listed exactly as the artifact or the detail page of some entry that the options ask for |
| StaleReport.CleanupSparesCurrent | scripts/report_stale_benchmark_artifacts.py:5297-5331 | under a prefix or root that keeps the paths of the manifest and their pages apart, the cleanup list never names an artifact a track points at: without detail pages for all paths, with them for paths the builder writes |
| StaleReport.CleanupNamesCurrentIff | scripts/report_stale_benchmark_artifacts.py:5297-5331 | under any prefix or root: the list names a tracked artifact exactly when its path is that of a listed page, or a listed path has the same text once it is placed |
| StaleReport.CleanupNamesCurrentPageIff | scripts/report_stale_benchmark_artifacts.py:5297-5331 | under such a prefix or root and all options, it names the page of a tracked artifact exactly when pages are listed, the page is wanted, and a stale artifact shares it |
| SitePrerender.ReplaceIdempotentIff | scripts/prerender_benchmark_homepage.py:341-349 | replacing a marked block again changes nothing exactly when the content does not contain the block's end marker |
| SitePrerender.GeneratedBlockIdempotentIff | scripts/prerender_benchmark_homepage.py:341-349 | the same for a block named by its id, for ids without `<` and line breaks |
| SitePrerender.ReplaceBlockIff | scripts/prerender_benchmark_homepage.py:341-349 | a replacement succeeds exactly on a document with one block, cut at its first begin marker and the first end marker behind it, and changes just what stands between them |
| SitePrerender.HomepageIs | scripts/prerender_benchmark_homepage.py:1509-1510 | the homepage gets the timestamp between its markers, then the summary between its own |
| SitePrerender.RenderFixpointIff | scripts/prerender_benchmark_homepage.py:1509-1510 | rendering two blocks again changes nothing exactly when the second did not enclose the first; otherwise it is refused |
| SitePrerender.HomepageFixpointIff | scripts/prerender_benchmark_homepage.py:1509-1510 | the same for the homepage's timestamp and summary blocks, read off the page before rendering |
| SitePrerender.ReadBackIff | scripts/prerender_benchmark_homepage.py:1513-1557 | a text read back after writing is the text written exactly when it holds no carriage return |
| SitePrerender.LineEndsAreRead | scripts/prerender_benchmark_homepage.py:1516 | each of the three line ends of a file is read as one line feed |
| SitePrerender.ReadBackFixpointIff | scripts/prerender_benchmark_homepage.py:1509-1549 | rendering the homepage again from the file changes nothing exactly when the summary did not enclose the timestamp and neither content holds a carriage return |
| SitePrerender.CheckAfterWriteIff | scripts/prerender_benchmark_homepage.py:1513-1557 | on the files a write run leaves, the check succeeds exactly when the summary did not enclose the timestamp and no rendered text holds a carriage return |
| SitePrerender.CheckPassesIff | scripts/prerender_benchmark_homepage.py:1523-1548 | on any files, the check passes exactly when nothing is missing, stale or orphaned |
| SitePrerender.CheckPassesIffNothingToWrite | scripts/prerender_benchmark_homepage.py:1513-1557 | on any files, the check passes exactly when a write run would change nothing that is read, and no rendered text holds a carriage return |
| SitePrerender.CarriageReturnIsStale | scripts/prerender_benchmark_homepage.py:1513-1557 | a page with two empty blocks and a summary of two lines parted by a carriage return is written and then found stale |
| SitePrerender.FirstAgain | scripts/prerender_benchmark_homepage.py:341-349 | replacing a block does not disturb another that lies in front of it or behind it |
| SitePrerender.WrittenFacts | scripts/prerender_benchmark_homepage.py:1513-1557 | after a write run every output holds its rendering, the detail directory holds no orphan, and other files are untouched |
| SitePrerender.Site.WriteRun | scripts/prerender_benchmark_homepage.py:1513-1557 | a write run succeeds exactly when the homepage renders as read, changes nothing when it does not, and otherwise leaves the written files |
| SitePrerender.Site.WriteThenCheck | scripts/prerender_benchmark_homepage.py:1513-1557 | after a write run the detail directory holds exactly the expected pages, and a check on the same manifest succeeds exactly when the page did not have its summary block around its timestamp block and no rendered text holds a carriage return |
| ByteStrings.LittleEndianRoundTrip | src/protocols/local_stt_v1.py:705-713 | a number that fits its width is read back from its bytes |
| ByteStrings.FromLittleEndianIsInverse | src/audio_processor.py:110-121 | bytes are recovered from the number they were read as |

## Left out

- Floating-point error: arithmetic is over exact reals, with `round` as round-half-even. Sizes of 2**53 bytes and more, and values that a float cannot hold exactly, are outside what this says.
- Network, Unix sockets, WebSockets, threads, and asyncio internals: a call to the client, the backend or the decoder is an action whose outcome is a parameter; the start barrier is its all-arrive-or-broken behaviour.
- More switches than the event loop makes: a stream's worker may be interrupted ahead of a wake that is already pending. This bears on no statement that something can happen.
- Several reads of the clock within one step of a coroutine count as one instant; time passes only between steps.
- Cancellation from outside, and exceptions inside the benchmark receiver's own metadata handling.
- `backend_name` and `model_name` from stream events: the `nonlocal` list of `receive_loop` omits them, so the assignments never reach the report.
- Failures ahead of `start` in a benchmark session are one action that ends the session without calls to the client.
- The lists of per-event latencies, decoder modes and resource samples the benchmark collects, and the percentiles over them.
- The queue of outgoing events of a stream and the coroutine that drains it: an event counts as sent when it is queued. A message that arrives at the same instant as the worker ends is not modelled.
- Creating a stream and parsing its start message, HTTP endpoints, base64 audio and idle time-outs of `src/main.py`.
- JSON payloads inside raw-UDS frames: a payload is its bytes.
- Transcript tokenisation and Unicode normalisation: the word splitter is a parameter of the word error rate.
- WAV and soundfile containers: their readers' results are parameters. Down-mixing to mono is theirs.
- The shift-or of bytes in PCM decoding and the NumPy buffer views are sums and sequences.
- Time stamps are integers that compare as the file stamps do; parsing and printing of dates is left out.
- The order of tracks and history in the manifest, metric ranges, highlights, and fields that are copied through.
- The alias tables, command-line parsing and environment parsing of all scripts, and their HTML, Markdown and CSV output.
- Texts of blockers and reasons are tags with their details; sorting of names in them is left out.
- How the gap lists of the transport comparison are computed: they are inputs of the decision, shared by all five verdicts.
- `raw_uds_distinct_p95_leaders`, which converts a missing baseline value to a float.
- The filters of the stale report, fifty or so independent tests, are one predicate on the artifact and its current path. Sorting of the list itself is left out.
- The 27 groupings of the stale summary are one grouping with the key as a parameter.
- Printed sizes are tenths and a unit, not digits and letters; grouping marks and blanks in parsed sizes are left out.
- Paths are POSIX paths below one root; existence checks and path prefixes are parameters.
- Sort modes of the image report: only that each gives the same records in some order is used.
- Contents of rendered pages are parameters; the write run is atomic, so a crash between two files is not modelled.
- What makes a transport artifact malformed, field by field: an artifact given for comparison has its payload or has none.
- EditDistance.RateZeroIff: does not state that a zero rate means equal texts, because rounding to three places makes that false. At exactly one error in two thousand words it follows the exact ratio, where the code's float prints 0.001; `NearRateZero` holds of both.
- AudioProcessor.FastPathAgreesIff: leaves out data that soundfile can read as some other format, on which the result is soundfile's.
- BenchmarkBatch.ClosedOnce: a streaming session that ends does so in one action of the batch; its steps are those of `BenchmarkSession`.
- Text files are characters: writing keeps line feeds as on POSIX, reading turns carriage returns into line feeds, and encodings, with texts that UTF-8 cannot encode, are left out.
- AsrWorker.FinalizeIsAnswered: does not cover a worker that ended with an exception, which sends an error instead.
