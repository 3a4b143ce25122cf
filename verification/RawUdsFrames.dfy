/** Length-prefixed raw UDS frames: the encoder, the one-shot decoder and the incremental one. */
module RawUdsFrames {
  import opened ByteStrings
  import opened Results
  import opened Sequences

  const HEADER_BYTES := 5
  const MAX_PAYLOAD_BYTES := 8 * 1024 * 1024

  datatype FrameType = JsonControl | AudioPcm16 | JsonEvent | Error | Ping | Pong

  datatype Frame = Frame(frameType: FrameType, payload: Bytes)

  datatype ProtocolError = UnsupportedFrameType | PayloadTooLarge | IncompleteFrame | FrameLengthMismatch

  // ---- Headers -----------------------------------------------------------------------------

  function TypeCode(t: FrameType): Byte {
    match t
    case JsonControl => 1
    case AudioPcm16 => 2
    case JsonEvent => 3
    case Error => 4
    case Ping => 5
    case Pong => 6
  }

  function ParseFrameType(code: Byte): Result<FrameType, ProtocolError> {
    if code == 1 then Ok(JsonControl)
    else if code == 2 then Ok(AudioPcm16)
    else if code == 3 then Ok(JsonEvent)
    else if code == 4 then Ok(Error)
    else if code == 5 then Ok(Ping)
    else if code == 6 then Ok(Pong)
    else Err(UnsupportedFrameType)
  }

  /** The payload length declared by a header, read with `struct.unpack("<BI")`. */
  function DeclaredLength(b: Bytes): nat
    requires |b| >= HEADER_BYTES
  {
    FromLittleEndian(b[1..HEADER_BYTES])
  }

  // ---- Encoding and one-shot decoding ------------------------------------------------------

  function EncodeRawUdsFrame(frame: Frame): Result<Bytes, ProtocolError> {
    if |frame.payload| > MAX_PAYLOAD_BYTES then Err(PayloadTooLarge)
    else Ok(Wire(frame))
  }

  /** The bytes of a frame whose payload fits the limit. */
  function Wire(frame: Frame): (b: Bytes)
    requires |frame.payload| <= MAX_PAYLOAD_BYTES
    ensures |b| == HEADER_BYTES + |frame.payload|
  {
    [TypeCode(frame.frameType)] + LittleEndian(|frame.payload|, 4) + frame.payload
  }

  function DecodeRawUdsFrame(data: Bytes): Result<Frame, ProtocolError> {
    if |data| < HEADER_BYTES then Err(IncompleteFrame)
    else
      var frameType := ParseFrameType(data[0]);
      var length := DeclaredLength(data);
      if frameType.Err? then Err(frameType.error)
      else if length > MAX_PAYLOAD_BYTES then Err(PayloadTooLarge)
      else if |data| != HEADER_BYTES + length then Err(FrameLengthMismatch)
      else Ok(Frame(frameType.value, data[HEADER_BYTES..]))
  }

  // ---- What a byte stream means ------------------------------------------------------------

  /** The longest run of complete frames, what is left, and the error that stopped it, if any. */
  datatype Parsed = Parsed(frames: seq<Frame>, rest: Bytes, error: Option<ProtocolError>)

  predicate Waiting(b: Bytes) {
    || |b| < HEADER_BYTES
    || (HeaderError(b).None? && |b| < HEADER_BYTES + DeclaredLength(b))
  }

  function HeaderError(b: Bytes): Option<ProtocolError>
    requires |b| >= HEADER_BYTES
  {
    if ParseFrameType(b[0]).Err? then Some(UnsupportedFrameType)
    else if DeclaredLength(b) > MAX_PAYLOAD_BYTES then Some(PayloadTooLarge)
    else None
  }

  function FirstLength(b: Bytes): (n: nat)
    requires |b| >= HEADER_BYTES && HeaderError(b).None? && !Waiting(b)
    ensures HEADER_BYTES <= n <= |b|
  {
    HEADER_BYTES + DeclaredLength(b)
  }

  function FirstFrame(b: Bytes): Frame
    requires |b| >= HEADER_BYTES && HeaderError(b).None? && !Waiting(b)
  {
    Frame(ParseFrameType(b[0]).value, b[HEADER_BYTES..FirstLength(b)])
  }

  function Parse(b: Bytes): Parsed
    decreases |b|
  {
    if Waiting(b) then Parsed([], b, None)
    else if HeaderError(b).Some? then Parsed([], b, HeaderError(b))
    else Prepend(FirstFrame(b), Parse(b[FirstLength(b)..]))
  }

  function Prepend(frame: Frame, p: Parsed): Parsed {
    p.(frames := [frame] + p.frames)
  }

  function PrependAll(frames: seq<Frame>, p: Parsed): Parsed {
    p.(frames := frames + p.frames)
  }

  lemma PrependAllCons(frame: Frame, frames: seq<Frame>, p: Parsed)
    ensures PrependAll([frame] + frames, p) == Prepend(frame, PrependAll(frames, p))
    ensures PrependAll(frames + [frame], p) == PrependAll(frames, Prepend(frame, p))
  {
    assert ([frame] + frames) + p.frames == [frame] + (frames + p.frames);
    assert (frames + [frame]) + p.frames == frames + ([frame] + p.frames);
  }

  // ---- The incremental decoder -------------------------------------------------------------

  class RawUdsFrameDecoder {
    var buffer: Bytes

    /** Between calls the buffer never holds a complete frame or a bad header. */
    predicate Valid()
      reads this
    {
      Waiting(buffer)
    }

    constructor ()
      ensures Valid() && buffer == []
    {
      buffer := [];
    }

    method Feed(data: Bytes) returns (result: Result<seq<Frame>, ProtocolError>)
      requires Valid()
      modifies this
      ensures Valid()
      ensures var p := Parse(old(buffer) + data);
        if p.error.Some? then result == Err(p.error.value) && buffer == []
        else result == Ok(p.frames) && buffer == p.rest
    {
      if data == [] {
        assert buffer + data == buffer;
        return Ok([]);
      }
      buffer := buffer + data;
      var frames: seq<Frame> := [];
      while |buffer| >= HEADER_BYTES
        invariant Parse(old(buffer) + data)
               == PrependAll(frames, Parse(buffer))
        decreases |buffer|
      {
        var frameType := ParseFrameType(buffer[0]);
        var payloadLength := DeclaredLength(buffer);
        if frameType.Err? {
          buffer := [];
          return Err(frameType.error);
        }
        if payloadLength > MAX_PAYLOAD_BYTES {
          buffer := [];
          return Err(PayloadTooLarge);
        }
        var frameLength := HEADER_BYTES + payloadLength;
        if |buffer| < frameLength {
          break;
        }
        var payload := buffer[HEADER_BYTES..frameLength];
        PrependAllCons(FirstFrame(buffer), frames, Parse(buffer[frameLength..]));
        frames := frames + [Frame(frameType.value, payload)];
        buffer := buffer[frameLength..];
      }
      assert frames + Parse(buffer).frames == frames;
      result := Ok(frames);
    }

    method Reset() returns (buffered: nat)
      modifies this
      ensures Valid() && buffer == [] && buffered == |old(buffer)|
    {
      buffered := |buffer|;
      buffer := [];
    }

    method Finish() returns (result: Result<(), ProtocolError>)
      requires Valid()
      modifies this
      ensures Valid() && buffer == []
      ensures result == if old(buffer) == [] then Ok(()) else Err(IncompleteFrame)
    {
      if buffer == [] {
        return Ok(());
      }
      buffer := [];
      result := Err(IncompleteFrame);
    }
  }

  // ---- Round trips -------------------------------------------------------------------------

  predicate Fits(frames: seq<Frame>) {
    forall i :: 0 <= i < |frames| ==> |frames[i].payload| <= MAX_PAYLOAD_BYTES
  }

  function Stream(frames: seq<Frame>): Bytes
    requires Fits(frames)
  {
    if |frames| == 0 then [] else Wire(frames[0]) + Stream(frames[1..])
  }

  /** A frame at the head of any stream is read back whole. */
  lemma WireIsFirst(frame: Frame, tail: Bytes)
    requires |frame.payload| <= MAX_PAYLOAD_BYTES
    ensures !Waiting(Wire(frame) + tail) && HeaderError(Wire(frame) + tail).None?
    ensures FirstFrame(Wire(frame) + tail) == frame
    ensures FirstLength(Wire(frame) + tail) == |Wire(frame)|
  {
    var b := Wire(frame) + tail;
    assert Power256(4) == 256 * Power256(3) == 0x1_0000_0000;
    LittleEndianRoundTrip(|frame.payload|, 4);
    assert b[1..HEADER_BYTES] == LittleEndian(|frame.payload|, 4);
    assert b[HEADER_BYTES..HEADER_BYTES + |frame.payload|] == frame.payload;
  }

  lemma StreamCons(frame: Frame, frames: seq<Frame>)
    requires |frame.payload| <= MAX_PAYLOAD_BYTES && Fits(frames)
    ensures Fits([frame] + frames)
    ensures Stream([frame] + frames) == Wire(frame) + Stream(frames)
  {
    assert ([frame] + frames)[1..] == frames;
  }

  /** Parsing a stream that starts with a whole frame takes it off and goes on. */
  lemma ParseWire(frame: Frame, tail: Bytes)
    requires |frame.payload| <= MAX_PAYLOAD_BYTES
    ensures Parse(Wire(frame) + tail) == Prepend(frame, Parse(tail))
  {
    WireIsFirst(frame, tail);
    assert (Wire(frame) + tail)[|Wire(frame)|..] == tail;
  }

  /** Encoding frames and parsing the stream gives the frames back, and whatever follows. */
  lemma {:induction false} ParseOfStream(frames: seq<Frame>, tail: Bytes)
    requires Fits(frames)
    ensures Parse(Stream(frames) + tail) == PrependAll(frames, Parse(tail))
    decreases |frames|
  {
    if |frames| == 0 {
      ConcatEmpty(tail);
      ConcatEmpty(Parse(tail).frames);
    } else {
      var frame, later := frames[0], frames[1..];
      assert frames == [frame] + later;
      ParseOfStream(later, tail);
      StreamCons(frame, later);
      ParseWire(frame, Stream(later) + tail);
      ConcatAssociative(Wire(frame), Stream(later), tail);
      PrependAllCons(frame, later, Parse(tail));
    }
  }

  /** Parsing loses no byte: re-encoding the frames and appending the rest gives the input back. */
  lemma {:induction false} StreamOfParse(b: Bytes)
    ensures Fits(Parse(b).frames)
    ensures Stream(Parse(b).frames) + Parse(b).rest == b
    ensures Parse(b).error.None? ==> Waiting(Parse(b).rest)
    decreases |b|
  {
    if Waiting(b) || HeaderError(b).Some? {
      ConcatEmpty(b);
    } else {
      var frame, tail := FirstFrame(b), b[FirstLength(b)..];
      StreamOfParse(tail);
      WireOfFirst(b);
      StreamCons(frame, Parse(tail).frames);
      SplitConcat(b, FirstLength(b));
      ConcatAssociative(Wire(frame), Stream(Parse(tail).frames), Parse(tail).rest);
    }
  }

  lemma WireOfFirst(b: Bytes)
    requires |b| >= HEADER_BYTES && HeaderError(b).None? && !Waiting(b)
    ensures Wire(FirstFrame(b)) == b[..FirstLength(b)]
  {
    FromLittleEndianIsInverse(b[1..HEADER_BYTES]);
    var n := FirstLength(b);
    assert b[..n] == [b[0]] + b[1..HEADER_BYTES] + b[HEADER_BYTES..n];
  }

  /** The one-shot decoder accepts exactly the streams of one frame and nothing more. */
  lemma OneShotAgrees(data: Bytes, frame: Frame)
    ensures DecodeRawUdsFrame(data) == Ok(frame) <==> Parse(data) == Parsed([frame], [], None)
    ensures DecodeRawUdsFrame(data) == Ok(frame) <==> EncodeRawUdsFrame(frame) == Ok(data)
  {
    if DecodeRawUdsFrame(data) == Ok(frame) {
      assert data[FirstLength(data)..] == [];
      assert Parse(data) == Prepend(FirstFrame(data), Parse([]));
      WireOfFirst(data);
      assert data[..FirstLength(data)] == data;
    }
    if Parse(data) == Parsed([frame], [], None) {
      StreamOfParse(data);
      assert Stream([frame]) == Wire(frame) + Stream([]);
      assert data == Wire(frame);
    }
    if EncodeRawUdsFrame(frame) == Ok(data) {
      assert data + [] == data;
      WireIsFirst(frame, []);
      assert data[FirstLength(data)..] == [];
    }
  }

  // ---- Segmentation ------------------------------------------------------------------------

  /** Bytes arriving later do not change what has been parsed; parsing resumes from the rest. */
  lemma {:induction false} ParseResumes(b: Bytes, more: Bytes)
    requires Parse(b).error.None?
    ensures Parse(b + more)
         == PrependAll(Parse(b).frames, Parse(Parse(b).rest + more))
    decreases |b|
  {
    if !Waiting(b) {
      var n := FirstLength(b);
      assert (b + more)[1..HEADER_BYTES] == b[1..HEADER_BYTES];
      assert (b + more)[HEADER_BYTES..n] == b[HEADER_BYTES..n];
      assert (b + more)[n..] == b[n..] + more;
      ParseResumes(b[n..], more);
      PrependAllCons(FirstFrame(b), Parse(b[n..]).frames, Parse(Parse(b).rest + more));
    }
  }

  /** Feeding the segments one by one, until one of them raises. */
  function FeedAll(buffer: Bytes, segments: seq<Bytes>): Parsed
    decreases |segments|
  {
    if |segments| == 0 then Parsed([], buffer, None)
    else
      var p := Parse(buffer + segments[0]);
      if p.error.Some? then Parsed([], [], p.error)
      else
        var later := FeedAll(p.rest, segments[1..]);
        PrependAll(p.frames, later)
  }

  /** However a well-formed stream is cut into segments, the same frames come out. */
  lemma {:induction false} SegmentationIrrelevant(buffer: Bytes, segments: seq<Bytes>)
    requires Waiting(buffer)
    requires Parse(buffer + Join(segments)).error.None?
    ensures FeedAll(buffer, segments) == Parse(buffer + Join(segments))
    decreases |segments|
  {
    if |segments| == 0 {
      assert buffer + Join(segments) == buffer;
    } else {
      var first, later := segments[0], Join(segments[1..]);
      assert buffer + Join(segments) == (buffer + first) + later;
      ErrorPersists(buffer + first, later);
      ParseResumes(buffer + first, later);
      StreamOfParse(buffer + first);
      SegmentationIrrelevant(Parse(buffer + first).rest, segments[1..]);
    }
  }

  /** An error cannot be undone by what follows it. */
  lemma {:induction false} ErrorPersists(b: Bytes, more: Bytes)
    ensures Parse(b).error.Some? ==> Parse(b + more).error == Parse(b).error && Parse(b + more).frames == Parse(b).frames
    decreases |b|
  {
    if |b| >= HEADER_BYTES {
      assert (b + more)[1..HEADER_BYTES] == b[1..HEADER_BYTES];
      if !Waiting(b) && HeaderError(b).None? {
        var n := FirstLength(b);
        assert (b + more)[HEADER_BYTES..n] == b[HEADER_BYTES..n];
        assert (b + more)[n..] == b[n..] + more;
        ErrorPersists(b[n..], more);
      }
    }
  }

  /**
   * A stream with an error raises it under every segmentation, and what is delivered before is
   * what the segments ahead of the failing one complete: frames completed in the failing
   * segment itself are lost.
   */
  lemma {:induction false} FailingSegmentLosesItsFrames(buffer: Bytes, before: seq<Bytes>, failing: Bytes, after: seq<Bytes>)
    requires Waiting(buffer)
    requires Parse(buffer + Join(before)).error.None?
    requires Parse(buffer + (Join(before) + failing)).error.Some?
    ensures FeedAll(buffer, before + [failing] + after).error == Parse(buffer + (Join(before) + failing)).error
    ensures FeedAll(buffer, before + [failing] + after).frames == Parse(buffer + Join(before)).frames
    decreases |before|
  {
    var segments := before + [failing] + after;
    if |before| == 0 {
      assert segments[0] == failing;
      assert buffer + (Join(before) + failing) == buffer + failing;
      assert buffer + Join(before) == buffer;
    } else {
      var first, later := before[0], Join(before[1..]);
      assert segments[0] == first && segments[1..] == before[1..] + [failing] + after;
      assert buffer + Join(before) == (buffer + first) + later;
      assert buffer + (Join(before) + failing) == (buffer + first) + (later + failing);
      ErrorPersists(buffer + first, later);
      ParseResumes(buffer + first, later);
      ParseResumes(buffer + first, later + failing);
      StreamOfParse(buffer + first);
      FailingSegmentLosesItsFrames(Parse(buffer + first).rest, before[1..], failing, after);
    }
  }

  /** A segment that holds an error, behind one that holds whole frames only. */
  lemma FeedTwo(frames: seq<Frame>, first: Bytes, second: Bytes)
    requires Parse(first) == Parsed(frames, [], None) && Parse(second).error.Some?
    ensures FeedAll([], [second]) == Parsed([], [], Parse(second).error)
    ensures FeedAll([], [first, second]) == Parsed(frames, [], Parse(second).error)
    ensures Join([second]) == second && Join([first, second]) == first + second
  {
    ConcatEmpty(first);
    ConcatEmpty(second);
    ConcatEmpty(frames);
    assert [first, second][1..] == [second] && [second][1..] == [];
  }

  lemma {:induction false} StreamConcat(a: seq<Frame>, b: seq<Frame>)
    requires Fits(a) && Fits(b)
    ensures Fits(a + b) && Stream(a + b) == Stream(a) + Stream(b)
  {
    if |a| == 0 {
      ConcatEmpty(b);
      ConcatEmpty(Stream(b));
    } else {
      assert (a + b)[1..] == a[1..] + b;
      StreamConcat(a[1..], b);
      ConcatAssociative(Wire(a[0]), Stream(a[1..]), Stream(b));
    }
  }

  /** An erroneous stream can be cut behind any of the frames ahead of the error, and delivers those up to the cut. */
  lemma CutBehind(b: Bytes, k: nat) returns (segments: seq<Bytes>)
    requires Parse(b).error.Some? && k <= |Parse(b).frames|
    ensures Join(segments) == b && FeedAll([], segments) == Parsed(Parse(b).frames[..k], [], Parse(b).error)
  {
    var frames, rest := Parse(b).frames, Parse(b).rest;
    StreamOfParse(b);
    ParseOfStream(frames, rest);
    SplitConcat(frames, k);
    var front, back := frames[..k], frames[k..];
    StreamConcat(front, back);
    ConcatAssociative(Stream(front), Stream(back), rest);
    ParseOfStream(front, []);
    ConcatEmpty(front);
    ConcatEmpty(Stream(front));
    ParseOfStream(back, rest);
    FeedTwo(front, Stream(front), Stream(back) + rest);
    segments := [Stream(front), Stream(back) + rest];
  }

  /** Whatever the cut, what is delivered is a beginning of the frames ahead of the end or the error. */
  lemma {:induction false} DeliveredIsPrefix(buffer: Bytes, segments: seq<Bytes>)
    requires Waiting(buffer)
    ensures FeedAll(buffer, segments).frames <= Parse(buffer + Join(segments)).frames
    decreases |segments|
  {
    if |segments| > 0 {
      var first, later := segments[0], Join(segments[1..]);
      ConcatAssociative(buffer, first, later);
      if Parse(buffer + first).error.None? {
        ParseResumes(buffer + first, later);
        StreamOfParse(buffer + first);
        DeliveredIsPrefix(Parse(buffer + first).rest, segments[1..]);
      }
    }
  }

  /** What an erroneous stream can deliver: every beginning of the frames ahead of the error, and nothing else. */
  lemma DeliveredIff(b: Bytes, delivered: seq<Frame>)
    requires Parse(b).error.Some?
    ensures (exists segments :: Join(segments) == b && FeedAll([], segments).frames == delivered)
       <==> delivered <= Parse(b).frames
  {
    forall segments | Join(segments) == b && FeedAll([], segments).frames == delivered
      ensures delivered <= Parse(b).frames
    {
      ConcatEmpty(b);
      DeliveredIsPrefix([], segments);
    }
    if delivered <= Parse(b).frames {
      var segments := CutBehind(b, |delivered|);
    }
  }

  ghost predicate CutIsIrrelevant(b: Bytes) {
    forall s, t :: Join(s) == b && Join(t) == b ==> FeedAll([], s).frames == FeedAll([], t).frames
  }

  /** What is delivered depends on the cut exactly for the streams that hold a whole frame ahead of an error. */
  lemma CutIsIrrelevantIff(b: Bytes)
    ensures CutIsIrrelevant(b) <==> Parse(b).error.None? || Parse(b).frames == []
  {
    ConcatEmpty(b);
    if Parse(b).error.None? {
      forall s | Join(s) == b ensures FeedAll([], s) == Parse(b) {
        SegmentationIrrelevant([], s);
      }
    } else if Parse(b).frames == [] {
      forall s | Join(s) == b ensures FeedAll([], s).frames == [] {
        DeliveredIsPrefix([], s);
      }
    } else {
      var none := CutBehind(b, 0);
      var all := CutBehind(b, |Parse(b).frames|);
      assert Join(none) == b && Join(all) == b && FeedAll([], none).frames != FeedAll([], all).frames;
    }
  }

  /** The shortest case: a ping before a bad header, together or apart. */
  lemma CutMattersBeforeAnError(bad: Bytes)
    requires |bad| == HEADER_BYTES && bad[0] == 0
    ensures FeedAll([], [Wire(Frame(Ping, [])), bad]).frames == [Frame(Ping, [])]
    ensures FeedAll([], [Wire(Frame(Ping, [])) + bad]).frames == []
    ensures FeedAll([], [Wire(Frame(Ping, [])), bad]).error == FeedAll([], [Wire(Frame(Ping, [])) + bad]).error
         == Some(UnsupportedFrameType)
  {
    var ping := Frame(Ping, []);
    ParseWire(ping, []);
    ParseWire(ping, bad);
    ConcatEmpty(Wire(ping));
    FeedTwo([ping], Wire(ping), bad);
    FeedTwo([], [], Wire(ping) + bad);
  }

  /** A sender's frames survive any cut of the socket, and `finish` then finds nothing left over. */
  lemma TransmissionIsFaithful(frames: seq<Frame>, segments: seq<Bytes>)
    requires Fits(frames) && Join(segments) == Stream(frames)
    ensures FeedAll([], segments) == Parsed(frames, [], None)
  {
    ParseOfStream(frames, []);
    assert Stream(frames) + [] == Stream(frames);
    assert [] + Join(segments) == Join(segments);
    assert frames + [] == frames;
    SegmentationIrrelevant([], segments);
  }
}
