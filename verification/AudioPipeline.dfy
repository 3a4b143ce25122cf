/** From raw PCM to timed frames, to send chunks, and to the buffers a server would decode. */
module AudioPipeline {
  import opened Arithmetic
  import opened ByteStrings
  import opened Results

  datatype AudioError = NotAWholeFrame | AggregateBelowFrame | AggregateNotMultiple

  datatype Chunk = Chunk(payload: Bytes, sourceFrameCount: nat, durationMs: int)

  // ---- Splitting ---------------------------------------------------------------------------

  function BytesPerFrame(sampleRate: int, frameMs: int): int {
    sampleRate * frameMs * 2 / 1000
  }

  /** The slices starting at `index`, `index + size`, ... */
  function Slices(pcm: Bytes, size: nat, index: nat): seq<Bytes>
    requires size > 0
    decreases |pcm| - index
  {
    if index >= |pcm| then []
    else [pcm[index..Min(index + size, |pcm|)]] + Slices(pcm, size, index + size)
  }

  function SplitPcmFrames(pcm: Bytes, sampleRate: int, frameMs: int): Result<seq<Bytes>, AudioError> {
    var size := BytesPerFrame(sampleRate, frameMs);
    if size <= 0 || sampleRate * frameMs * 2 % 1000 != 0 then Err(NotAWholeFrame)
    else Ok(Slices(pcm, size, 0))
  }

  lemma {:induction false} SlicesJoin(pcm: Bytes, size: nat, index: nat)
    requires size > 0 && index <= |pcm|
    ensures Join(Slices(pcm, size, index)) == pcm[index..]
    decreases |pcm| - index
  {
    if index < |pcm| {
      var next := Min(index + size, |pcm|);
      if index + size < |pcm| {
        SlicesJoin(pcm, size, next);
      }
      assert pcm[index..] == pcm[index..next] + pcm[next..];
    }
  }

  /** Every slice is nonempty, and all but the last are full. */
  lemma {:induction false} SlicesSizes(pcm: Bytes, size: nat, index: nat)
    requires size > 0
    ensures forall k :: 0 <= k < |Slices(pcm, size, index)| ==> 0 < |Slices(pcm, size, index)[k]| <= size
    ensures forall k :: 0 <= k < |Slices(pcm, size, index)| - 1 ==> |Slices(pcm, size, index)[k]| == size
    decreases |pcm| - index
  {
    if index < |pcm| {
      SlicesSizes(pcm, size, index + size);
    }
  }

  /** The first `k` slices hold the first `k * size` bytes, or all of them. */
  lemma {:induction false} SlicesPrefix(pcm: Bytes, size: nat, index: nat, k: nat)
    requires size > 0 && index <= |pcm| && k <= |Slices(pcm, size, index)|
    ensures Join(Slices(pcm, size, index)[..k]) == pcm[index..Min(index + k * size, |pcm|)]
    decreases k
  {
    if k > 0 {
      var next, stop := Min(index + size, |pcm|), Min(index + k * size, |pcm|);
      var rest := Slices(pcm, size, index + size);
      ProductStep(k - 1, size);
      ProductMonotone(0, k - 1, size);
      FirstSlice(pcm, size, index, k);
      if index + size <= |pcm| {
        SlicesPrefix(pcm, size, index + size, k - 1);
      } else {
        assert rest == [] && k == 1;
      }
      assert Join(rest[..k - 1]) == pcm[next..stop];
      assert pcm[index..stop] == pcm[index..next] + pcm[next..stop];
    }
  }

  /** The first slice, and the slices after it. */
  lemma FirstSlice(pcm: Bytes, size: nat, index: nat, k: nat)
    requires size > 0 && 0 < k <= |Slices(pcm, size, index)|
    ensures index < |pcm| && k - 1 <= |Slices(pcm, size, index + size)|
    ensures Join(Slices(pcm, size, index)[..k])
         == pcm[index..Min(index + size, |pcm|)] + Join(Slices(pcm, size, index + size)[..k - 1])
  {
    assert Slices(pcm, size, index)[..k][1..] == Slices(pcm, size, index + size)[..k - 1];
  }

  lemma {:induction false} SlicesCount(pcm: Bytes, size: nat, index: nat)
    requires size > 0 && index <= |pcm|
    ensures |Slices(pcm, size, index)| == CeilDiv(|pcm| - index, size)
    decreases |pcm| - index
  {
    var left := |pcm| - index;
    if left > size {
      SlicesCount(pcm, size, index + size);
      CeilDivStep(left, size);
    } else if left > 0 {
      assert Slices(pcm, size, index + size) == [];
      CeilDivIs(left, size, 1);
    } else {
      CeilDivIs(0, size, 0);
    }
  }

  /** Splitting loses nothing, yields the expected number of frames, and cuts all but the last to full length. */
  lemma SplitIsLossless(pcm: Bytes, sampleRate: int, frameMs: int)
    ensures SplitPcmFrames(pcm, sampleRate, frameMs).Ok?
       <==> sampleRate * frameMs > 0 && sampleRate * frameMs % 500 == 0
    ensures SplitPcmFrames(pcm, sampleRate, frameMs).Ok? ==>
      var frames := SplitPcmFrames(pcm, sampleRate, frameMs).value;
      var size := sampleRate * frameMs / 500;
      && Join(frames) == pcm
      && |frames| == CeilDiv(|pcm|, size)
      && (forall k :: 0 <= k < |frames| ==> 0 < |frames[k]| <= size)
      && (forall k :: 0 <= k < |frames| - 1 ==> |frames[k]| == size)
  {
    var p := sampleRate * frameMs;
    FrameSize(p);
    if p > 0 && p % 500 == 0 {
      var size := p / 500;
      SlicesJoin(pcm, size, 0);
      SlicesSizes(pcm, size, 0);
      SlicesCount(pcm, size, 0);
      assert pcm[0..] == pcm;
    }
  }

  lemma FrameSize(p: int)
    ensures p * 2 / 1000 > 0 && p * 2 % 1000 == 0 <==> p > 0 && p % 500 == 0
    ensures p * 2 / 1000 == p / 500
  {
  }

  // ---- Aggregating -------------------------------------------------------------------------

  function ValidateSendAggregateMs(frameMs: int, sendAggregateMs: int): Result<(), AudioError>
    requires frameMs > 0
  {
    if sendAggregateMs < frameMs then Err(AggregateBelowFrame)
    else if sendAggregateMs % frameMs != 0 then Err(AggregateNotMultiple)
    else Ok(())
  }

  function ChunkOf(group: seq<Bytes>, frameMs: int): Chunk {
    Chunk(Join(group), |group|, |group| * frameMs)
  }

  ghost function Aggregate(frames: seq<Bytes>, frameMs: int, k: nat): seq<Chunk>
    requires k > 0
    decreases |frames|
  {
    if |frames| == 0 then []
    else
      var size := Min(k, |frames|);
      [ChunkOf(frames[..size], frameMs)] + Aggregate(frames[size..], frameMs, k)
  }

  method AggregateAudioFrames(frames: seq<Bytes>, frameMs: int, sendAggregateMs: int)
    returns (result: Result<seq<Chunk>, AudioError>)
    requires frameMs > 0
    ensures result.Ok? <==> frameMs <= sendAggregateMs && sendAggregateMs % frameMs == 0
    ensures result.Ok? ==> sendAggregateMs / frameMs > 0
    ensures result.Ok? ==> result.value == Aggregate(frames, frameMs, sendAggregateMs / frameMs)
    ensures result.Err? && sendAggregateMs < frameMs ==> result.error == AggregateBelowFrame
    ensures result.Err? && sendAggregateMs >= frameMs ==> result.error == AggregateNotMultiple
  {
    var valid := ValidateSendAggregateMs(frameMs, sendAggregateMs);
    if valid.Err? {
      return Err(valid.error);
    }
    var framesPerChunk := sendAggregateMs / frameMs;
    QuotientPositive(sendAggregateMs, frameMs);
    var chunks: seq<Chunk> := [];
    var index := 0;
    assert frames[0..] == frames;
    while index < |frames|
      invariant 0 <= index
      invariant chunks + Aggregate(frames[Min(index, |frames|)..], frameMs, framesPerChunk)
             == Aggregate(frames, frameMs, framesPerChunk)
    {
      var group := frames[index..Min(index + framesPerChunk, |frames|)];
      AggregateStep(frames, frameMs, framesPerChunk, index);
      chunks := chunks + [ChunkOf(group, frameMs)];
      index := index + framesPerChunk;
    }
    assert frames[|frames|..] == [];
    result := Ok(chunks);
  }

  lemma AggregateStep(frames: seq<Bytes>, frameMs: int, k: nat, index: nat)
    requires k > 0 && index < |frames|
    ensures Aggregate(frames[index..], frameMs, k)
         == [ChunkOf(frames[index..Min(index + k, |frames|)], frameMs)]
          + Aggregate(frames[Min(index + k, |frames|)..], frameMs, k)
  {
    var rest, size := frames[index..], Min(k, |frames| - index);
    assert rest[..size] == frames[index..Min(index + k, |frames|)];
    assert rest[size..] == frames[Min(index + k, |frames|)..];
  }

  ghost function Payloads(chunks: seq<Chunk>): seq<Bytes> {
    seq(|chunks|, i requires 0 <= i < |chunks| => chunks[i].payload)
  }

  function SumFrames(chunks: seq<Chunk>): nat {
    if |chunks| == 0 then 0 else chunks[0].sourceFrameCount + SumFrames(chunks[1..])
  }

  lemma {:induction false} SumFramesConcat(a: seq<Chunk>, b: seq<Chunk>)
    ensures SumFrames(a + b) == SumFrames(a) + SumFrames(b)
  {
    if |a| == 0 {
      assert a + b == b;
    } else {
      assert (a + b)[1..] == a[1..] + b;
      SumFramesConcat(a[1..], b);
    }
  }

  /** Aggregation keeps every byte, every frame and every millisecond, in order. */
  lemma {:induction false} AggregateIsLossless(frames: seq<Bytes>, frameMs: int, k: nat)
    requires k > 0
    ensures Join(Payloads(Aggregate(frames, frameMs, k))) == Join(frames)
    ensures SumFrames(Aggregate(frames, frameMs, k)) == |frames|
    ensures |Aggregate(frames, frameMs, k)| == CeilDiv(|frames|, k)
    decreases |frames|
  {
    if |frames| > 0 {
      var size := Min(k, |frames|);
      var rest := Aggregate(frames[size..], frameMs, k);
      AggregateIsLossless(frames[size..], frameMs, k);
      assert Payloads(Aggregate(frames, frameMs, k))[1..] == Payloads(rest);
      assert frames == frames[..size] + frames[size..];
      JoinConcat(frames[..size], frames[size..]);
      assert Aggregate(frames, frameMs, k)[1..] == rest;
      if k <= |frames| {
        CeilDivStep(|frames|, k);
      } else {
        CeilDivIs(|frames|, k, 1);
        CeilDivIs(0, k, 0);
      }
    }
  }

  /** Every chunk but the last is full; the last is not empty; each lasts as long as the frames in it. */
  lemma {:induction false} AggregateDurations(frames: seq<Bytes>, frameMs: int, k: nat)
    requires k > 0
    ensures forall c | c in Aggregate(frames, frameMs, k) ::
      0 < c.sourceFrameCount <= k && c.durationMs == c.sourceFrameCount * frameMs
    ensures forall i | 0 <= i < |Aggregate(frames, frameMs, k)| - 1 ::
      Aggregate(frames, frameMs, k)[i].sourceFrameCount == k
    decreases |frames|
  {
    if |frames| > 0 {
      AggregateDurations(frames[Min(k, |frames|)..], frameMs, k);
    }
  }

  /** What the pacing promises: all chunks but the last take exactly the requested time. */
  lemma FullChunksLastExactly(frames: seq<Bytes>, frameMs: int, sendAggregateMs: int, i: nat)
    requires frameMs > 0 && ValidateSendAggregateMs(frameMs, sendAggregateMs).Ok?
    requires sendAggregateMs / frameMs > 0
    requires i + 1 < |Aggregate(frames, frameMs, sendAggregateMs / frameMs)|
    ensures Aggregate(frames, frameMs, sendAggregateMs / frameMs)[i].durationMs == sendAggregateMs
  {
    ChunkIsFull(frames, frameMs, sendAggregateMs / frameMs, i);
    ExactQuotient(sendAggregateMs, frameMs);
  }

  lemma ExactQuotient(n: int, k: int)
    requires k > 0 && n % k == 0
    ensures n / k * k == n
  {
  }

  lemma ChunkIsFull(frames: seq<Bytes>, frameMs: int, k: nat, i: nat)
    requires k > 0 && i + 1 < |Aggregate(frames, frameMs, k)|
    ensures Aggregate(frames, frameMs, k)[i].durationMs == k * frameMs
  {
    AggregateDurations(frames, frameMs, k);
    var chunks := Aggregate(frames, frameMs, k);
    assert chunks[i] in chunks;
  }

  // ---- Decode buffers ----------------------------------------------------------------------

  /** Frames between two partial decodes: how many it takes for their time to reach the interval. */
  function FramesPerPartial(frameMs: int, partialIntervalMs: int): (k: nat)
    requires frameMs > 0
    ensures k > 0
    decreases partialIntervalMs
  {
    if partialIntervalMs <= frameMs then 1 else 1 + FramesPerPartial(frameMs, partialIntervalMs - frameMs)
  }

  lemma {:induction false} FramesPerPartialIsLeast(frameMs: int, partialIntervalMs: int, m: nat)
    requires frameMs > 0 && m > 0
    ensures Multiple(m, frameMs) >= partialIntervalMs <==> m >= FramesPerPartial(frameMs, partialIntervalMs)
    decreases m
  {
    if m == 1 {
      assert Multiple(1, frameMs) == Multiple(0, frameMs) + frameMs;
    } else if partialIntervalMs > frameMs {
      FramesPerPartialIsLeast(frameMs, partialIntervalMs - frameMs, m - 1);
    } else {
      assert Multiple(m, frameMs) == Multiple(m - 1, frameMs) + frameMs;
    }
  }

  /** For intervals longer than nothing this is the ceiling of the quotient. */
  lemma FramesPerPartialIsCeiling(frameMs: int, partialIntervalMs: int)
    requires frameMs > 0 && partialIntervalMs > 0
    ensures FramesPerPartial(frameMs, partialIntervalMs) == CeilDiv(partialIntervalMs, frameMs)
  {
    var k := FramesPerPartial(frameMs, partialIntervalMs);
    FramesPerPartialIsLeast(frameMs, partialIntervalMs, k);
    if k > 1 {
      FramesPerPartialIsLeast(frameMs, partialIntervalMs, k - 1);
    }
    MultipleIsProduct(k, frameMs);
    CeilDivIs(partialIntervalMs, frameMs, k);
  }

  /** All the audio of the first `m` partial intervals. */
  ghost function PrefixBuffer(frames: seq<Bytes>, k: nat, m: nat): Bytes {
    Join(frames[..Min(Multiple(m, k), |frames|)])
  }

  /** One buffer for each full interval, and the whole audio if the last of them left bytes out. */
  ghost function DecodeBuffers(frames: seq<Bytes>, k: nat): seq<Bytes>
    requires k > 0
  {
    var whole := |frames| / k;
    seq(whole, i requires 0 <= i < whole => PrefixBuffer(frames, k, i + 1))
    + (if |Join(frames)| != |PrefixBuffer(frames, k, whole)| then [Join(frames)] else [])
  }

  method IterServerDecodeBuffers(frames: seq<Bytes>, frameMs: int, partialIntervalMs: int)
    returns (buffers: seq<Bytes>)
    requires frameMs > 0
    ensures buffers == DecodeBuffers(frames, FramesPerPartial(frameMs, partialIntervalMs))
  {
    ghost var k := FramesPerPartial(frameMs, partialIntervalMs);
    var accumulated: Bytes := [];
    var partialElapsedMs := 0;
    var lastEmittedLength := 0;
    ghost var mark, pending := 0, 0;
    buffers := [];
    for i := 0 to |frames|
      invariant accumulated == Join(frames[..i])
      invariant i == mark + pending && mark == Multiple(|buffers|, k) && 0 <= pending < k
      invariant partialElapsedMs == Multiple(pending, frameMs)
      invariant lastEmittedLength == |PrefixBuffer(frames, k, |buffers|)|
      invariant forall j :: 0 <= j < |buffers| ==> buffers[j] == PrefixBuffer(frames, k, j + 1)
    {
      AccumulateFrame(frames, i);
      accumulated := accumulated + frames[i];
      partialElapsedMs := partialElapsedMs + frameMs;
      pending := pending + 1;
      FramesPerPartialIsLeast(frameMs, partialIntervalMs, pending);
      if partialElapsedMs >= partialIntervalMs {
        assert accumulated == PrefixBuffer(frames, k, |buffers| + 1);
        buffers := buffers + [accumulated];
        lastEmittedLength := |accumulated|;
        partialElapsedMs := 0;
        mark, pending := i + 1, 0;
      }
    }
    assert frames[..|frames|] == frames;
    JoinPrefix(frames, Min(Multiple(|buffers|, k), |frames|), |frames|);
    DecodeBuffersAre(frames, k, buffers, pending);
    if accumulated != [] && lastEmittedLength != |accumulated| {
      buffers := buffers + [accumulated];
    }
  }

  lemma AccumulateFrame(frames: seq<Bytes>, i: nat)
    requires i < |frames|
    ensures Join(frames[..i + 1]) == Join(frames[..i]) + frames[i]
  {
    assert frames[..i + 1] == frames[..i] + [frames[i]];
    JoinSnoc(frames[..i], frames[i]);
  }

  lemma DecodeBuffersAre(frames: seq<Bytes>, k: nat, emitted: seq<Bytes>, pending: nat)
    requires pending < k && |frames| == Multiple(|emitted|, k) + pending
    requires forall j :: 0 <= j < |emitted| ==> emitted[j] == PrefixBuffer(frames, k, j + 1)
    ensures DecodeBuffers(frames, k) == emitted
      + (if |Join(frames)| != |PrefixBuffer(frames, k, |emitted|)| then [Join(frames)] else [])
  {
    var whole := |frames| / k;
    MultipleIsProduct(|emitted|, k);
    QuotientIs(|frames|, k, |emitted|, pending);
    assert seq(whole, i requires 0 <= i < whole => PrefixBuffer(frames, k, i + 1)) == emitted;
  }

  ghost predicate AllNonempty(frames: seq<Bytes>) {
    forall i :: 0 <= i < |frames| ==> frames[i] != []
  }

  /** The buffers are the prefixes of k, 2k, ... and finally all frames: ceil(N / k) of them. */
  lemma DecodeBuffersClosedForm(frames: seq<Bytes>, k: nat, i: nat)
    requires k > 0 && AllNonempty(frames)
    ensures |DecodeBuffers(frames, k)| == CeilDiv(|frames|, k)
    ensures i < CeilDiv(|frames|, k) ==> DecodeBuffers(frames, k)[i] == PrefixBuffer(frames, k, i + 1)
  {
    var n := |frames|;
    var whole := n / k;
    QuotientBounds(n, k);
    ProductStep(whole, k);
    MultipleIsProduct(whole, k);
    JoinPrefix(frames, whole * k, n);
    assert frames[..n] == frames;
    CeilDivIs(n, k, if whole * k == n then whole else whole + 1);
  }

  /** Each buffer is a strict prefix of every later one. */
  lemma DecodeBuffersGrow(frames: seq<Bytes>, k: nat, i: nat, j: nat)
    requires k > 0 && AllNonempty(frames)
    requires i < j < |DecodeBuffers(frames, k)|
    ensures DecodeBuffers(frames, k)[i] < DecodeBuffers(frames, k)[j]
  {
    DecodeBuffersClosedForm(frames, k, i);
    DecodeBuffersClosedForm(frames, k, j);
    PrefixBuffersGrow(frames, k, i + 1, j + 1);
  }

  lemma PrefixBuffersGrow(frames: seq<Bytes>, k: nat, l: nat, m: nat)
    requires k > 0 && AllNonempty(frames)
    requires l < m <= CeilDiv(|frames|, k)
    ensures PrefixBuffer(frames, k, l) < PrefixBuffer(frames, k, m)
  {
    var n, c := |frames|, CeilDiv(|frames|, k);
    CeilDivBounds(n, k);
    ProductMonotone(l, c - 1, k);
    ProductStep(c - 1, k);
    ProductMonotone(l + 1, m, k);
    ProductStep(l, k);
    MultipleIsProduct(l, k);
    MultipleIsProduct(m, k);
    JoinPrefix(frames, Min(l * k, n), Min(m * k, n));
  }

  /** The last buffer is the whole audio. */
  lemma DecodeBuffersEndWithAll(frames: seq<Bytes>, k: nat)
    requires k > 0 && AllNonempty(frames) && |frames| > 0
    ensures |DecodeBuffers(frames, k)| > 0
    ensures DecodeBuffers(frames, k)[|DecodeBuffers(frames, k)| - 1] == Join(frames)
  {
    var c := CeilDiv(|frames|, k);
    CeilDivBounds(|frames|, k);
    DecodeBuffersClosedForm(frames, k, c - 1);
    MultipleIsProduct(c, k);
    assert frames[..|frames|] == frames;
  }

  // ---- When the benchmark can decode every buffer ------------------------------------------

  /** `normalize_pcm16_buffer` accepts exactly the buffers of even length. */
  ghost predicate AllDecodable(buffers: seq<Bytes>) {
    forall i :: 0 <= i < |buffers| ==> |buffers[i]| % 2 == 0
  }

  /**
   * Splitting PCM of even length does not by itself give decodable buffers. It does exactly
   * when one partial covers an even number of bytes, or the audio fits in one partial.
   */
  lemma DecodableIff(pcm: Bytes, size: nat, k: nat)
    requires size > 0 && k > 0 && |pcm| % 2 == 0
    ensures AllDecodable(DecodeBuffers(Slices(pcm, size, 0), k)) <==> k * size % 2 == 0 || |pcm| <= k * size
  {
    var p := k * size;
    var buffers := DecodeBuffers(Slices(pcm, size, 0), k);
    forall i | 0 <= i < |buffers|
      ensures |buffers[i]| == Min((i + 1) * p, |pcm|)
    {
      BufferLength(pcm, size, k, i);
    }
    if p % 2 == 0 || |pcm| <= p {
      forall i | 0 <= i < |buffers|
        ensures |buffers[i]| % 2 == 0
      {
        if p % 2 == 0 {
          EvenMultiple(i + 1, p);
        } else {
          ProductMonotone(1, i + 1, p);
        }
      }
    } else {
      SomeBuffer(pcm, size, k);
      assert |buffers[0]| == 1 * p;
    }
  }

  lemma SomeBuffer(pcm: Bytes, size: nat, k: nat)
    requires size > 0 && k > 0 && |pcm| > 0
    ensures |DecodeBuffers(Slices(pcm, size, 0), k)| > 0
  {
    SlicesSizes(pcm, size, 0);
    DecodeBuffersClosedForm(Slices(pcm, size, 0), k, 0);
    CeilDivBounds(|Slices(pcm, size, 0)|, k);
  }

  lemma BufferLength(pcm: Bytes, size: nat, k: nat, i: nat)
    requires size > 0 && k > 0
    requires i < |DecodeBuffers(Slices(pcm, size, 0), k)|
    ensures |DecodeBuffers(Slices(pcm, size, 0), k)[i]| == Min((i + 1) * (k * size), |pcm|)
  {
    var frames := Slices(pcm, size, 0);
    var count := (i + 1) * k;
    SlicesSizes(pcm, size, 0);
    DecodeBuffersClosedForm(frames, k, i);
    MultipleIsProduct(i + 1, k);
    ProductOfThree(i + 1, k, size);
    FramesReach(pcm, size, count);
    SlicesPrefix(pcm, size, 0, Min(count, |frames|));
  }

  lemma ProductOfThree(a: int, b: int, c: int)
    ensures a * b * c == a * (b * c)
  {
  }

  /** Stopping at the last frame and stopping at the last byte are the same. */
  lemma FramesReach(pcm: Bytes, size: nat, count: nat)
    requires size > 0
    ensures Min(Min(count, |Slices(pcm, size, 0)|) * size, |pcm|) == Min(count * size, |pcm|)
  {
    var n := |Slices(pcm, size, 0)|;
    SlicesCount(pcm, size, 0);
    CeilDivBounds(|pcm|, size);
    if count > n {
      ProductMonotone(n, count, size);
    }
  }

  /** A case that the check for positive frame sizes in `SplitPcmFrames` lets through: frames of one byte. */
  lemma OddFramesAreAccepted(pcm: Bytes)
    requires |pcm| == 2
    ensures SplitPcmFrames(pcm, 100, 5) == Ok([pcm[..1], pcm[1..]])
    ensures !AllDecodable(DecodeBuffers([pcm[..1], pcm[1..]], FramesPerPartial(5, 5)))
  {
    assert BytesPerFrame(100, 5) == 1;
    assert Slices(pcm, 1, 2) == [];
    assert Slices(pcm, 1, 1) == [pcm[1..2]];
    assert pcm[0..1] == pcm[..1] && pcm[1..2] == pcm[1..];
    assert Slices(pcm, 1, 0) == [pcm[0..1]] + Slices(pcm, 1, 1) == [pcm[..1], pcm[1..]];
    DecodableIff(pcm, 1, 1);
  }

  // ---- Bytes on the wire -------------------------------------------------------------------

  datatype Transport = TcpWs | UdsWs | RawUds

  const RAW_UDS_HEADER_BYTES := 5

  function TransportAudioOverheadBytes(transport: Transport, framesSent: int): int {
    if transport.RawUds? then RAW_UDS_HEADER_BYTES * Max(0, framesSent) else 0
  }
}
