/** Decoding PCM and resampling, over exact reals. */
module AudioProcessor {
  import Arithmetic
  import opened ByteStrings
  import opened RealArithmetic
  import opened Results
  import opened Rounding
  import opened Sequences

  // ---- PCM samples -------------------------------------------------------------------------

  /** A little-endian two's complement sample of `width` bytes. */
  function Signed(n: nat, width: nat): int {
    if 2 * n >= Power256(width) then n - Power256(width) else n
  }

  predicate InRange(v: int, width: nat) {
    0 <= 2 * v + Power256(width) < 2 * Power256(width)
  }

  function Unsigned(v: int, width: nat): (n: nat)
    requires InRange(v, width)
    ensures n < Power256(width) && Signed(n, width) == v
  {
    if v < 0 then v + Power256(width) else v
  }

  function Samples(data: Bytes, width: nat): seq<int>
    requires width > 0
  {
    if |data| < width then [] else [Signed(FromLittleEndian(data[..width]), width)] + Samples(data[width..], width)
  }

  function Pack(samples: seq<int>, width: nat): Bytes
    requires forall i :: 0 <= i < |samples| ==> InRange(samples[i], width)
  {
    if |samples| == 0 then [] else LittleEndian(Unsigned(samples[0], width), width) + Pack(samples[1..], width)
  }

  /** Samples as fractions of full scale. */
  function Scaled(samples: seq<int>, fullScale: int): seq<real>
    requires fullScale > 0
  {
    seq(|samples|, i requires 0 <= i < |samples| => samples[i] as real / fullScale as real)
  }

  datatype AudioError =
    | NoAudioData | BadSampleRate | RateMismatch | UnsupportedFormat | OddLength | IncompleteSample | EndOfFile

  function DecodePcm16(data: Bytes): Result<seq<real>, AudioError> {
    if |data| % 2 != 0 then Err(OddLength) else Ok(Scaled(Samples(data, 2), 32768))
  }

  function DecodePcm24(data: Bytes): Result<seq<real>, AudioError> {
    if |data| % 3 != 0 then Err(IncompleteSample) else Ok(Scaled(Samples(data, 3), 8388608))
  }

  lemma {:induction false} SamplesOfPack(samples: seq<int>, width: nat)
    requires width > 0 && forall i :: 0 <= i < |samples| ==> InRange(samples[i], width)
    ensures Samples(Pack(samples, width), width) == samples
  {
    if |samples| > 0 {
      var first := LittleEndian(Unsigned(samples[0], width), width);
      var data := Pack(samples, width);
      LittleEndianRoundTrip(Unsigned(samples[0], width), width);
      assert data[..width] == first && data[width..] == Pack(samples[1..], width);
      SamplesOfPack(samples[1..], width);
    }
  }

  lemma {:induction false} PackOfSamples(data: Bytes, width: nat)
    requires (width == 2 || width == 3) && |data| % width == 0
    ensures forall i :: 0 <= i < |Samples(data, width)| ==> InRange(Samples(data, width)[i], width)
    ensures Pack(Samples(data, width), width) == data
    decreases |data|
  {
    if |data| >= width {
      var first, rest := data[..width], data[width..];
      assert |rest| % width == 0;
      PackOfSamples(rest, width);
      FromLittleEndianBound(first);
      FromLittleEndianIsInverse(first);
      var samples := Samples(data, width);
      assert samples[1..] == Samples(rest, width);
      assert Unsigned(samples[0], width) == FromLittleEndian(first);
      SplitConcat(data, width);
    }
  }

  /** PCM of either width decodes to what was encoded: a bijection between bytes and in-range samples. */
  lemma PcmRoundTrip(samples: seq<int>, data: Bytes, width: nat)
    requires width == 2 || width == 3
    requires |data| % width == 0 && forall i :: 0 <= i < |samples| ==> InRange(samples[i], width)
    ensures Pack(samples, width) == data <==> Samples(data, width) == samples
  {
    SamplesOfPack(samples, width);
    PackOfSamples(data, width);
  }

  /** Decoded samples never leave [-1, 1). */
  lemma DecodedWithinFullScale(data: Bytes, i: nat)
    ensures var r := DecodePcm16(data); r.Ok? && i < |r.value| ==> -1.0 <= r.value[i] < 1.0
    ensures var r := DecodePcm24(data); r.Ok? && i < |r.value| ==> -1.0 <= r.value[i] < 1.0
  {
    assert Power256(2) == 256 * Power256(1) == 65536;
    assert Power256(3) == 256 * Power256(2) == 16777216;
    if |data| % 2 == 0 {
      PackOfSamples(data, 2);
    }
    if |data| % 3 == 0 {
      PackOfSamples(data, 3);
    }
  }

  lemma {:induction false} SampleOfTwo(data: Bytes, i: nat)
    requires 2 * i + 2 <= |data|
    ensures i < |Samples(data, 2)| && Samples(data, 2)[i] == Signed(FromLittleEndian(data[2 * i..2 * i + 2]), 2)
  {
    if i > 0 {
      SampleOfTwo(data[2..], i - 1);
      assert data[2..][2 * (i - 1)..2 * (i - 1) + 2] == data[2 * i..2 * i + 2];
    }
  }

  lemma {:induction false} SampleOfThree(data: Bytes, i: nat)
    requires 3 * i + 3 <= |data|
    ensures i < |Samples(data, 3)| && Samples(data, 3)[i] == Signed(FromLittleEndian(data[3 * i..3 * i + 3]), 3)
  {
    if i > 0 {
      SampleOfThree(data[3..], i - 1);
      assert data[3..][3 * (i - 1)..3 * (i - 1) + 3] == data[3 * i..3 * i + 3];
    }
  }

  lemma {:induction false} SampleCount(data: Bytes, width: nat)
    requires width == 2 || width == 3
    ensures |Samples(data, width)| == |data| / width
    decreases |data|
  {
    if |data| >= width {
      SampleCount(data[width..], width);
    }
  }

  /** Two bytes give a sample, low byte first; the top bit is its sign, and 32768 is full scale. */
  lemma Pcm16Samples(data: Bytes, i: nat)
    ensures DecodePcm16(data).Err? <==> |data| % 2 != 0
    ensures var r := DecodePcm16(data); r.Ok? ==> |r.value| == |data| / 2
    ensures var r := DecodePcm16(data); r.Ok? && i < |r.value| ==>
      var n := data[2 * i] as int + 256 * data[2 * i + 1] as int;
      r.value[i] * 32768.0 == (if n < 32768 then n else n - 65536) as real
  {
    SampleCount(data, 2);
    if 2 * i + 1 < |data| {
      SampleOfTwo(data, i);
      TwoBytes(data[2 * i..2 * i + 2]);
    }
  }

  lemma TwoBytes(b: Bytes)
    requires |b| == 2
    ensures FromLittleEndian(b) == b[0] as int + 256 * b[1] as int && Power256(2) == 65536
  {
    assert Power256(2) == 256 * Power256(1) == 65536;
    assert b[1..][1..] == [];
    assert FromLittleEndian(b[1..]) == b[1] as int;
  }

  lemma ThreeBytes(b: Bytes)
    requires |b| == 3
    ensures FromLittleEndian(b) == b[0] as int + 256 * b[1] as int + 65536 * b[2] as int && Power256(3) == 16777216
  {
    TwoBytes(b[1..]);
    assert Power256(3) == 256 * Power256(2);
  }

  /** And so for three bytes and 8388608. */
  lemma Pcm24Samples(data: Bytes, i: nat)
    ensures DecodePcm24(data).Err? <==> |data| % 3 != 0
    ensures var r := DecodePcm24(data); r.Ok? ==> |r.value| == |data| / 3
    ensures var r := DecodePcm24(data); r.Ok? && i < |r.value| ==>
      var n := data[3 * i] as int + 256 * data[3 * i + 1] as int + 65536 * data[3 * i + 2] as int;
      r.value[i] * 8388608.0 == (if n < 8388608 then n else n - 16777216) as real
  {
    SampleCount(data, 3);
    if 3 * i + 2 < |data| {
      SampleOfThree(data, i);
      ThreeBytes(data[3 * i..3 * i + 3]);
    }
  }

  // ---- Resampling --------------------------------------------------------------------------

  /** `np.linspace(0, duration, num=n, endpoint=False)[i]` */
  function Position(i: int, n: int, duration: real): real
    requires n > 0
  {
    Quotient(Product(i as real, duration), n as real)
  }

  function Positions(n: nat, duration: real): seq<real> {
    seq(n, i requires 0 <= i < n => Position(i, n, duration))
  }

  ghost predicate Increasing(xs: seq<real>) {
    forall i, j :: 0 <= i < j < |xs| ==> xs[i] < xs[j]
  }

  /** The last knot not beyond `x`, searching down from `j`. */
  function Locate(x: real, xs: seq<real>, j: nat): (k: nat)
    requires j < |xs| && xs[0] <= x
    ensures k <= j && xs[k] <= x
    ensures forall i :: k < i <= j ==> x < xs[i]
  {
    if xs[j] <= x then j else Locate(x, xs, j - 1)
  }

  function Lerp(a: real, b: real, t: real): real {
    a + Product(b - a, t)
  }

  function Fraction(x: real, left: real, right: real): real
    requires left < right
  {
    Quotient(x - left, right - left)
  }

  /** `np.interp` at one point, for strictly increasing knots. */
  function Interp(x: real, xs: seq<real>, ys: seq<real>): real
    requires |xs| == |ys| > 0 && Increasing(xs)
  {
    if x <= xs[0] then ys[0]
    else if x >= xs[|xs| - 1] then ys[|ys| - 1]
    else
      var k := Locate(x, xs, |xs| - 1);
      Lerp(ys[k], ys[k + 1], Fraction(x, xs[k], xs[k + 1]))
  }

  function DurationSeconds(n: nat, rate: int): real
    requires rate > 0
  {
    Quotient(n as real, rate as real)
  }

  function IdealLength(n: nat, sourceRate: int, targetRate: int): real
    requires sourceRate > 0
  {
    Product(DurationSeconds(n, sourceRate), targetRate as real)
  }

  function TargetLength(n: nat, sourceRate: int, targetRate: int): (m: nat)
    requires sourceRate > 0
    ensures m >= 1
  {
    var rounded := RoundHalfEven(IdealLength(n, sourceRate, targetRate));
    if rounded >= 1 then rounded else 1
  }

  lemma PositionsIncrease(n: nat, duration: real)
    requires duration > 0.0
    ensures Increasing(Positions(n, duration))
  {
    forall i, j | 0 <= i < j < n
      ensures Position(i, n, duration) < Position(j, n, duration)
    {
      PositionMonotone(i, j, n, duration);
    }
  }

  lemma PositionMonotone(i: int, j: int, n: int, duration: real)
    requires i < j && n > 0 && duration > 0.0
    ensures Position(i, n, duration) < Position(j, n, duration)
  {
    ProductStrict(i as real, j as real, duration);
    QuotientStrict(Product(i as real, duration), Product(j as real, duration), n as real);
  }

  lemma DurationPositive(n: nat, rate: int)
    requires n > 0 && rate > 0
    ensures DurationSeconds(n, rate) > 0.0
  {
    QuotientStrict(0.0, n as real, rate as real);
  }

  function Resample(samples: seq<real>, sourceRate: int, targetRate: int): (r: Result<seq<real>, AudioError>) {
    if sourceRate <= 0 || targetRate <= 0 then Err(BadSampleRate)
    else if |samples| == 0 then Ok(samples)
    else
      var duration := DurationSeconds(|samples|, sourceRate);
      var m := TargetLength(|samples|, sourceRate, targetRate);
      DurationPositive(|samples|, sourceRate);
      PositionsIncrease(|samples|, duration);
      var xs := Positions(|samples|, duration);
      Ok(seq(m, j requires 0 <= j < m => Interp(Position(j, m, duration), xs, samples)))
  }

  // ---- Bounds and length -------------------------------------------------------------------

  /** A share of a difference lies between nothing and all of it. */
  lemma ShareBetween(d: real, t: real)
    requires 0.0 <= t <= 1.0
    ensures d >= 0.0 ==> 0.0 <= Product(d, t) <= d
    ensures d <= 0.0 ==> d <= Product(d, t) <= 0.0
  {
    ProductCommutes(d, t);
    if d >= 0.0 {
      ProductMonotone(0.0, t, d);
      ProductMonotone(t, 1.0, d);
    } else {
      ProductMonotone(0.0, t, -d);
      ProductMonotone(t, 1.0, -d);
      ProductOfNegated(t, d);
    }
  }

  lemma ProductOfNegated(x: real, d: real)
    ensures Product(x, -d) == -Product(x, d)
  {
  }

  lemma LerpBetween(a: real, b: real, t: real, lower: real, upper: real)
    requires 0.0 <= t <= 1.0 && lower <= a <= upper && lower <= b <= upper
    ensures lower <= Lerp(a, b, t) <= upper
  {
    ShareBetween(b - a, t);
  }

  lemma FractionRange(x: real, left: real, right: real)
    requires left < right && left <= x <= right
    ensures 0.0 <= Fraction(x, left, right) <= 1.0
  {
    QuotientMonotone(0.0, x - left, right - left);
    QuotientMonotone(x - left, right - left, right - left);
  }

  lemma InterpBetween(x: real, xs: seq<real>, ys: seq<real>, lower: real, upper: real)
    requires |xs| == |ys| > 0 && Increasing(xs)
    requires forall i :: 0 <= i < |ys| ==> lower <= ys[i] <= upper
    ensures lower <= Interp(x, xs, ys) <= upper
  {
    if xs[0] < x < xs[|xs| - 1] {
      var k := Locate(x, xs, |xs| - 1);
      FractionRange(x, xs[k], xs[k + 1]);
      LerpBetween(ys[k], ys[k + 1], Fraction(x, xs[k], xs[k + 1]), lower, upper);
    }
  }

  /** Resampling never overshoots: every output lies within any bounds of the input. */
  lemma ResampleWithinBounds(samples: seq<real>, sourceRate: int, targetRate: int, lower: real, upper: real, j: nat)
    requires sourceRate > 0 && targetRate > 0
    requires forall i :: 0 <= i < |samples| ==> lower <= samples[i] <= upper
    requires j < |Resample(samples, sourceRate, targetRate).value|
    ensures lower <= Resample(samples, sourceRate, targetRate).value[j] <= upper
  {
    if |samples| > 0 {
      var duration := DurationSeconds(|samples|, sourceRate);
      DurationPositive(|samples|, sourceRate);
      PositionsIncrease(|samples|, duration);
      InterpBetween(Position(j, TargetLength(|samples|, sourceRate, targetRate), duration),
                    Positions(|samples|, duration), samples, lower, upper);
    }
  }

  /**
   * The number of outputs is n * target / source rounded, ties to even, and at least one: within half a sample of
   * the ideal, exactly when the ideal is at least half a sample.
   */
  lemma ResampleKeepsDuration(samples: seq<real>, sourceRate: int, targetRate: int)
    requires sourceRate > 0 && targetRate > 0 && |samples| > 0
    ensures Resample(samples, sourceRate, targetRate).Ok?
    ensures var length := |Resample(samples, sourceRate, targetRate).value|;
      IsRounded(length, length * sourceRate, |samples| * targetRate, sourceRate)
  {
    var length := |Resample(samples, sourceRate, targetRate).value|;
    var span := LengthIsRounded(|samples|, sourceRate, targetRate, length, |samples| * targetRate);
    assert span == length * sourceRate;
  }

  /** The same of the length alone, with the products named. */
  lemma LengthIsRounded(n: nat, sourceRate: int, targetRate: int, length: int, ideal: nat) returns (span: int)
    requires n > 0 && sourceRate > 0 && targetRate > 0 && ideal == n * targetRate
    requires length == TargetLength(n, sourceRate, targetRate)
    ensures span == length * sourceRate && IsRounded(length, span, ideal, sourceRate)
  {
    var rounded, exact := RoundedLength(n, sourceRate, targetRate, ideal);
    if rounded >= 1 {
      PositiveIntProduct(sourceRate, rounded);
    }
    AtLeastOne(rounded, exact, ideal, sourceRate);
    span := if rounded >= 1 then exact else sourceRate;
  }

  /** A length that lasts `span` is `ideal` over `rate`, rounded with ties to even, and at least one. */
  predicate IsRounded(length: int, span: int, ideal: int, rate: int) {
    && length > 0
    && (-rate <= 2 * (span - ideal) <= rate <==> rate <= 2 * ideal)
    && (2 * (span - ideal) == rate || 2 * (span - ideal) == -rate ==> length == 1 || length % 2 == 0)
  }

  /** The length before it is raised to one, and how long it lasts. */
  lemma RoundedLength(n: nat, sourceRate: int, targetRate: int, ideal: nat) returns (rounded: nat, span: int)
    requires n > 0 && sourceRate > 0 && targetRate > 0 && ideal == n * targetRate
    ensures TargetLength(n, sourceRate, targetRate) == if rounded >= 1 then rounded else 1
    ensures n * targetRate > 0 && rounded >= 0
    ensures span == rounded * sourceRate && -sourceRate <= 2 * (span - ideal) <= sourceRate
    ensures 2 * (span - ideal) == sourceRate || 2 * (span - ideal) == -sourceRate ==> rounded % 2 == 0
  {
    IdealIsQuotient(n, sourceRate, targetRate);
    RoundedNear(ideal, sourceRate);
    RoundedTie(ideal, sourceRate);
    rounded := RoundHalfEven(Over(ideal, sourceRate));
    span := rounded * sourceRate;
  }

  /** A rounded number of samples, raised to one if it is none; `span` is how long they last. */
  lemma AtLeastOne(rounded: int, span: int, ideal: int, rate: int)
    requires rate > 0 && ideal > 0 && -rate <= 2 * (span - ideal) <= rate
    requires if rounded >= 1 then span >= rate else span == 0
    requires 2 * (span - ideal) == rate || 2 * (span - ideal) == -rate ==> rounded % 2 == 0
    ensures if rounded >= 1 then IsRounded(rounded, span, ideal, rate) else IsRounded(1, rate, ideal, rate)
  {
  }

  lemma IdealIsQuotient(n: nat, sourceRate: int, targetRate: int)
    requires n > 0 && sourceRate > 0 && targetRate > 0
    ensures n * targetRate > 0 && IdealLength(n, sourceRate, targetRate) == Over(n * targetRate, sourceRate)
  {
    PositiveIntProduct(n, targetRate);
    ProductOfShare(targetRate as real, n as real, sourceRate as real);
    ProductCommutes(targetRate as real, n as real);
    ProductCommutes(targetRate as real, Quotient(n as real, sourceRate as real));
    ProductOfInts(n, targetRate);
  }

  // ---- Integer factors ---------------------------------------------------------------------

  lemma NothingOfSpan(left: real, right: real, d: real)
    requires left < right
    ensures Product(d, Fraction(left, left, right)) == 0.0
  {
  }

  /** At a knot the interpolant is the sample itself. */
  lemma InterpAtKnot(xs: seq<real>, ys: seq<real>, i: nat)
    requires |xs| == |ys| && i < |xs| && Increasing(xs)
    ensures Interp(xs[i], xs, ys) == ys[i]
  {
    if 0 < i < |xs| - 1 {
      var k := Locate(xs[i], xs, |xs| - 1);
      assert k == i;
      NothingOfSpan(xs[i], xs[i + 1], ys[i + 1] - ys[i]);
    }
  }

  lemma PositionRefined(i: int, n: int, k: int, duration: real)
    requires n > 0 && k > 0
    ensures n * k > 0
    ensures Position(i * k, n * k, duration) == Position(i, n, duration)
  {
    PositiveIntProduct(n, k);
    var ir, nr, kr := i as real, n as real, k as real;
    ProductOfInts(i, k);
    ProductOfInts(n, k);
    ProductAssociates(ir, kr, duration);
    ProductCommutes(kr, duration);
    ProductAssociates(ir, duration, kr);
    QuotientCancels(Product(ir, duration), nr, kr);
  }

  lemma PositiveIntProduct(n: int, k: int)
    requires n > 0 && k > 0
    ensures n * k >= n && n * k > 0
  {
  }

  lemma DurationRefined(n: nat, rate: int, k: int)
    requires n > 0 && rate > 0 && k > 0
    ensures rate * k > 0 && n * k > 0
    ensures DurationSeconds(n * k, rate * k) == DurationSeconds(n, rate)
  {
    PositiveIntProduct(rate, k);
    PositiveIntProduct(n, k);
    ProductOfInts(n, k);
    ProductOfInts(rate, k);
    QuotientCancels(n as real, rate as real, k as real);
  }

  lemma LengthUp(n: nat, rate: int, k: int)
    requires n > 0 && rate > 0 && k > 0
    ensures n * k > 0 && TargetLength(n, rate, rate * k) == n * k
  {
    PositiveIntProduct(n, k);
    var nr, rr, kr := n as real, rate as real, k as real;
    ProductOfInts(n, k);
    ProductOfInts(rate, k);
    ProductAssociates(Quotient(nr, rr), rr, kr);
    ProductOfQuotient(nr, rr);
    RoundHalfEvenOfInt(n * k);
  }

  lemma LengthSame(n: nat, rate: int)
    requires n > 0 && rate > 0
    ensures TargetLength(n, rate, rate) == n
  {
    ProductOfQuotient(n as real, rate as real);
    RoundHalfEvenOfInt(n);
  }

  lemma LengthRefined(n: nat, rate: int, k: int)
    requires n > 0 && rate > 0 && k > 0
    ensures rate * k > 0 && n * k > 0
    ensures TargetLength(n, rate, rate * k) == n * k
    ensures TargetLength(n * k, rate * k, rate) == n
    ensures DurationSeconds(n * k, rate * k) == DurationSeconds(n, rate)
  {
    DurationRefined(n, rate, k);
    LengthUp(n, rate, k);
    LengthSame(n, rate);
  }

  /** Upsampling by an integer factor keeps every sample, at its multiple of the factor. */
  lemma UpsampleKeepsSamples(samples: seq<real>, rate: int, k: int, i: nat)
    requires rate > 0 && k > 0 && i < |samples|
    ensures rate * k > 0 && 0 <= i * k < |samples| * k
    ensures var up := Resample(samples, rate, rate * k);
      up.Ok? && |up.value| == |samples| * k && up.value[i * k] == samples[i]
  {
    var n := |samples|;
    var duration := DurationSeconds(n, rate);
    LengthRefined(n, rate, k);
    IndexRefined(i, n, k);
    DurationPositive(n, rate);
    PositionsIncrease(n, duration);
    PositionRefined(i, n, k, duration);
    InterpAtKnot(Positions(n, duration), samples, i);
  }

  lemma IndexRefined(i: nat, n: nat, k: int)
    requires i < n && k > 0
    ensures 0 <= i * k < n * k
  {
    Arithmetic.ProductMonotone(0, i, k);
    Arithmetic.ProductMonotone(i + 1, n, k);
    Arithmetic.ProductStep(i, k);
  }

  /** Upsampling by an integer factor and downsampling by it returns the original samples. */
  lemma ResampleRoundTrip(samples: seq<real>, rate: int, k: int)
    requires rate > 0 && k > 0
    ensures rate * k > 0
    ensures var up := Resample(samples, rate, rate * k);
      up.Ok? && Resample(up.value, rate * k, rate) == Ok(samples)
  {
    PositiveIntProduct(rate, k);
    if |samples| > 0 {
      var n := |samples|;
      LengthRefined(n, rate, k);
      UpsampleKeepsSamples(samples, rate, k, 0);
      var up := Resample(samples, rate, rate * k).value;
      var down := Resample(up, rate * k, rate).value;
      forall j | 0 <= j < n
        ensures down[j] == samples[j]
      {
        UpsampleKeepsSamples(samples, rate, k, j);
        DownsampleReads(up, n, rate, k, j);
      }
      assert down == samples;
    }
  }

  lemma DownsampleReads(up: seq<real>, n: nat, rate: int, k: int, j: nat)
    requires rate > 0 && k > 0 && j < n && |up| == n * k && rate * k > 0
    ensures 0 <= j * k < |up|
    ensures var down := Resample(up, rate * k, rate); down.Ok? && |down.value| == n && down.value[j] == up[j * k]
  {
    LengthRefined(n, rate, k);
    IndexRefined(j, n, k);
    var duration := DurationSeconds(n * k, rate * k);
    DurationPositive(n * k, rate * k);
    PositionsIncrease(n * k, duration);
    PositionRefined(j, n, k, duration);
    InterpAtKnot(Positions(n * k, duration), up, j * k);
  }

  // ---- Between the samples -----------------------------------------------------------------

  /** The spacing of a grid on which both the source and the target positions lie. */
  function Unit(duration: real, n: nat, m: nat): real
    requires n > 0 && m > 0
  {
    PositiveIntProduct(n, m);
    Quotient(duration, (n * m) as real)
  }

  lemma UnitPositive(duration: real, n: nat, m: nat)
    requires n > 0 && m > 0 && duration > 0.0
    ensures Unit(duration, n, m) > 0.0
  {
    PositiveIntProduct(n, m);
    QuotientStrict(0.0, duration, (n * m) as real);
  }

  /** In that unit, position i of n is i * m. */
  lemma PositionInUnits(i: int, n: nat, m: nat, duration: real)
    requires n > 0 && m > 0
    ensures Position(i, n, duration) == Product((i * m) as real, Unit(duration, n, m))
  {
    PositiveIntProduct(n, m);
    PositionRefined(i, n, m, duration);
    ProductOfShare((i * m) as real, duration, (n * m) as real);
  }

  lemma UnitSwaps(duration: real, n: nat, m: nat)
    requires n > 0 && m > 0
    ensures Unit(duration, n, m) == Unit(duration, m, n)
  {
    PositiveIntProduct(n, m);
    assert n * m == m * n;
  }

  /** Source and target positions compare as products of integers. */
  lemma PositionsCompare(i: int, n: nat, j: int, m: nat, duration: real)
    requires n > 0 && m > 0 && duration > 0.0
    ensures Position(i, n, duration) <= Position(j, m, duration) <==> i * m <= j * n
    ensures Position(i, n, duration) == Position(j, m, duration) <==> i * m == j * n
  {
    var u := Unit(duration, n, m);
    UnitPositive(duration, n, m);
    UnitSwaps(duration, n, m);
    PositionInUnits(i, n, m, duration);
    PositionInUnits(j, m, n, duration);
    if i * m < j * n {
      ProductStrict((i * m) as real, (j * n) as real, u);
    } else if i * m > j * n {
      ProductStrict((j * n) as real, (i * m) as real, u);
    }
  }

  lemma ProductOfDifference(a: real, b: real, u: real)
    ensures Product(a, u) - Product(b, u) == Product(a - b, u)
  {
  }

  /** How far a target position is from one source position to the next. */
  lemma FractionIs(k: int, n: nat, j: int, m: nat, duration: real)
    requires n > 0 && m > 0 && duration > 0.0
    ensures Position(k, n, duration) < Position(k + 1, n, duration)
    ensures Fraction(Position(j, m, duration), Position(k, n, duration), Position(k + 1, n, duration))
         == Quotient((j * n - k * m) as real, m as real)
  {
    var u := Unit(duration, n, m);
    UnitPositive(duration, n, m);
    UnitSwaps(duration, n, m);
    PositionMonotone(k, k + 1, n, duration);
    PositionInUnits(k, n, m, duration);
    PositionInUnits(k + 1, n, m, duration);
    PositionInUnits(j, m, n, duration);
    Arithmetic.ProductStep(k, m);
    ProductOfDifference((j * n) as real, (k * m) as real, u);
    ProductOfDifference(((k + 1) * m) as real, (k * m) as real, u);
    assert ((k + 1) * m) as real - (k * m) as real == m as real;
    assert (j * n) as real - (k * m) as real == (j * n - k * m) as real;
    QuotientCancels((j * n - k * m) as real, m as real, u);
  }

  lemma LocateIs(x: real, xs: seq<real>, k: nat)
    requires Increasing(xs) && k + 1 < |xs| && xs[k] <= x < xs[k + 1]
    ensures xs[0] <= x && Locate(x, xs, |xs| - 1) == k
  {
    assert forall i :: k < i < |xs| ==> x < xs[i];
  }

  lemma LerpOfShare(a: real, b: real, r: real, d: real)
    requires d != 0.0
    ensures Product(d, Lerp(a, b, Quotient(r, d))) == Product(d - r, a) + Product(r, b)
  {
    ProductOfShare(b - a, r, d);
    ProductCommutes(d, Quotient(Product(b - a, r), d));
    ProductOfQuotient(Product(b - a, r), d);
    ProductOfSum(d, a, Quotient(Product(b - a, r), d));
    Distribute(a, b, r, d);
  }

  lemma Distribute(a: real, b: real, r: real, d: real)
    ensures Product(d, a) + Product(b - a, r) == Product(d - r, a) + Product(r, b)
  {
  }

  /**
   * The output at `k` source samples and `r` of `m` parts: the mean of the samples on either side of that place,
   * weighted by how near they are, and the last sample from there on.
   */
  ghost predicate OutputIs(y: real, samples: seq<real>, m: int, k: nat, r: int)
    requires |samples| > 0
  {
    if k >= |samples| - 1 then y == samples[|samples| - 1]
    else Product(m as real, y) == Product((m - r) as real, samples[k]) + Product(r as real, samples[k + 1])
  }

  /** `place` is `k` whole parts of size `m` and a remainder. */
  predicate Divides(place: int, m: int, k: int, r: int) {
    place == k * m + r && 0 <= r < m
  }

  /** Where a number lies among the multiples of another. */
  lemma PlaceOf(place: int, m: int, k: int, r: int, last: int)
    requires Divides(place, m, k, r)
    ensures k * m <= place < (k + 1) * m
    ensures k >= last <==> last * m <= place
  {
    Arithmetic.ProductStep(k, m);
    if k >= last {
      Arithmetic.ProductMonotone(last, k, m);
    } else {
      Arithmetic.ProductMonotone(k + 1, last, m);
    }
  }

  /** Positions behind the last sample take its value. */
  lemma InterpBehind(samples: seq<real>, j: nat, m: nat, duration: real)
    requires |samples| > 0 && m > 0 && duration > 0.0 && Increasing(Positions(|samples|, duration))
    requires (|samples| - 1) * m <= j * |samples|
    ensures Interp(Position(j, m, duration), Positions(|samples|, duration), samples) == samples[|samples| - 1]
  {
    var n := |samples|;
    PositionsCompare(n - 1, n, j, m, duration);
    if Position(j, m, duration) <= Position(0, n, duration) {
      AtTheFront(n, j, m, duration);
    }
  }

  /** A place at the front and behind the last sample is that of the only one. */
  lemma AtTheFront(n: nat, j: nat, m: nat, duration: real)
    requires n > 0 && m > 0 && duration > 0.0
    requires Position(j, m, duration) <= Position(0, n, duration) && Position(n - 1, n, duration) <= Position(j, m, duration)
    ensures n == 1
  {
    if n > 1 {
      PositionMonotone(0, n - 1, n, duration);
    }
  }

  lemma InterpInside(samples: seq<real>, j: nat, m: nat, duration: real, k: nat, r: nat)
    requires m > 0 && duration > 0.0 && Increasing(Positions(|samples|, duration))
    requires k + 1 < |samples| && Divides(j * |samples|, m, k, r)
    ensures OutputIs(Interp(Position(j, m, duration), Positions(|samples|, duration), samples), samples, m, k, r)
  {
    var n := |samples|;
    var xs, x := Positions(n, duration), Position(j, m, duration);
    Between(n, j, m, duration, k, r);
    LocateIs(x, xs, k);
    FractionIs(k, n, j, m, duration);
    LerpOfShare(samples[k], samples[k + 1], r as real, m as real);
    if x <= xs[0] {
      FirstOfAll(n, j, m, duration, k, r);
    }
  }

  lemma Between(n: nat, j: nat, m: nat, duration: real, k: nat, r: nat)
    requires k + 1 < n && m > 0 && duration > 0.0 && Divides(j * n, m, k, r)
    ensures Position(k, n, duration) <= Position(j, m, duration) < Position(k + 1, n, duration)
    ensures Position(j, m, duration) < Position(n - 1, n, duration)
  {
    PlaceOf(j * n, m, k, r, n - 1);
    PositionsCompare(k, n, j, m, duration);
    PositionsCompare(k + 1, n, j, m, duration);
    PositionsCompare(n - 1, n, j, m, duration);
  }

  lemma FirstOfAll(n: nat, j: nat, m: nat, duration: real, k: nat, r: nat)
    requires k + 1 < n && m > 0 && duration > 0.0 && Divides(j * n, m, k, r)
    requires Position(j, m, duration) <= Position(0, n, duration)
    ensures k == 0 && r == 0
  {
    if j > 0 {
      PositionMonotone(0, j, m, duration);
    }
    assert k * m + r == 0;
    if k > 0 {
      PositiveIntProduct(k, m);
    }
  }

  lemma OutputAt(samples: seq<real>, sourceRate: int, targetRate: int, j: nat) returns (duration: real)
    requires sourceRate > 0 && targetRate > 0 && |samples| > 0
    requires j < |Resample(samples, sourceRate, targetRate).value|
    ensures duration > 0.0 && Increasing(Positions(|samples|, duration))
    ensures var out := Resample(samples, sourceRate, targetRate).value;
      out[j] == Interp(Position(j, |out|, duration), Positions(|samples|, duration), samples)
  {
    duration := DurationSeconds(|samples|, sourceRate);
    DurationPositive(|samples|, sourceRate);
    PositionsIncrease(|samples|, duration);
  }

  /** Every output in closed form: output j of m stands at j * n / m source samples, k whole ones and r of m parts. */
  lemma ResampledSample(samples: seq<real>, sourceRate: int, targetRate: int, j: nat, k: nat, r: nat)
    requires sourceRate > 0 && targetRate > 0 && |samples| > 0
    requires j < |Resample(samples, sourceRate, targetRate).value|
    requires Divides(j * |samples|, |Resample(samples, sourceRate, targetRate).value|, k, r)
    ensures var out := Resample(samples, sourceRate, targetRate).value; OutputIs(out[j], samples, |out|, k, r)
  {
    var n, m := |samples|, |Resample(samples, sourceRate, targetRate).value|;
    var duration := OutputAt(samples, sourceRate, targetRate, j);
    if k >= n - 1 {
      PlaceOf(j * n, m, k, r, n - 1);
      InterpBehind(samples, j, m, duration);
    } else {
      InterpInside(samples, j, m, duration, k, r);
    }
  }

  lemma SameOutput(x: real, y: real, one: seq<real>, other: seq<real>, m: int, k: nat, r: int)
    requires |one| == |other| > 0 && m > 0 && OutputIs(x, one, m, k, r) && OutputIs(y, other, m, k, r)
    requires SameAround(one, other, k)
    ensures x == y
  {
    QuotientOfProduct(x, m as real);
    QuotientOfProduct(y, m as real);
    ProductCommutes(x, m as real);
    ProductCommutes(y, m as real);
  }

  /** The same samples at `k` and behind it, or at the end if `k` is beyond it. */
  predicate SameAround(one: seq<real>, other: seq<real>, k: nat)
    requires |one| == |other| > 0
  {
    var last := |one| - 1;
    if k >= last then one[last] == other[last] else one[k] == other[k] && one[k + 1] == other[k + 1]
  }

  /** An output depends on the two samples around its place, and on the number of samples. */
  lemma ResampleIsLocal(one: seq<real>, other: seq<real>, sourceRate: int, targetRate: int, j: nat, k: nat, r: nat)
    requires sourceRate > 0 && targetRate > 0 && |one| == |other| > 0
    requires j < |Resample(one, sourceRate, targetRate).value|
    requires Divides(j * |one|, |Resample(one, sourceRate, targetRate).value|, k, r) && SameAround(one, other, k)
    ensures j < |Resample(other, sourceRate, targetRate).value|
    ensures Resample(one, sourceRate, targetRate).value[j] == Resample(other, sourceRate, targetRate).value[j]
  {
    ResampledSample(one, sourceRate, targetRate, j, k, r);
    ResampledSample(other, sourceRate, targetRate, j, k, r);
    SameOutput(Resample(one, sourceRate, targetRate).value[j], Resample(other, sourceRate, targetRate).value[j],
               one, other, |Resample(one, sourceRate, targetRate).value|, k, r);
  }

  /** The point of a line at a place that need not be whole. */
  function LinePoint(p: real, q: real, x: real): real {
    p + Product(q, x)
  }

  /** On a straight line every output lies on the line, at its own place; behind the last sample the line is held. */
  lemma ResampleKeepsLines(samples: seq<real>, p: real, q: real, sourceRate: int, targetRate: int, j: nat)
    requires sourceRate > 0 && targetRate > 0 && |samples| > 0
    requires forall i :: 0 <= i < |samples| ==> samples[i] == LinePoint(p, q, i as real)
    requires j < |Resample(samples, sourceRate, targetRate).value|
    ensures var last, m := |samples| - 1, |Resample(samples, sourceRate, targetRate).value|;
      Resample(samples, sourceRate, targetRate).value[j] == LinePoint(p, q, HeldPlace(j * |samples|, m, last))
  {
    var m, place := |Resample(samples, sourceRate, targetRate).value|, j * |samples|;
    var k, r := Divide(place, m);
    ResampledSample(samples, sourceRate, targetRate, j, k, r);
    LineOutput(Resample(samples, sourceRate, targetRate).value[j], samples, p, q, m, place, k, r);
  }

  /** A place in parts of `m`, in whole samples, but not beyond the last. */
  function HeldPlace(place: int, m: int, last: int): real
    requires m > 0
  {
    if place <= last * m then Quotient(place as real, m as real) else last as real
  }

  lemma Divide(place: nat, m: nat) returns (k: nat, r: nat)
    requires m > 0
    ensures Divides(place, m, k, r)
  {
    k, r := place / m, place % m;
  }

  lemma LineOutput(y: real, samples: seq<real>, p: real, q: real, m: nat, place: nat, k: nat, r: nat)
    requires |samples| > 0 && m > 0 && Divides(place, m, k, r) && OutputIs(y, samples, m, k, r)
    requires forall i :: 0 <= i < |samples| ==> samples[i] == LinePoint(p, q, i as real)
    ensures y == LinePoint(p, q, HeldPlace(place, m, |samples| - 1))
  {
    var last := |samples| - 1;
    PlaceOf(place, m, k, r, last);
    if k < last {
      OnTheLine(y, p, q, m, k, r);
    } else if place <= last * m {
      ProductOfInts(last, m);
      QuotientOfProduct(last as real, m as real);
    }
  }

  lemma OnTheLine(y: real, p: real, q: real, m: int, k: int, r: int)
    requires m > 0
    requires Product(m as real, y)
          == Product((m - r) as real, LinePoint(p, q, k as real)) + Product(r as real, LinePoint(p, q, (k + 1) as real))
    ensures y == LinePoint(p, q, Quotient((k * m + r) as real, m as real))
  {
    var mr, place := m as real, (k * m + r) as real;
    MixedPoints(p, q, mr, k as real, r as real);
    ProductOfInts(k, m);
    QuotientIs(place, mr, Quotient(place, mr));
    ProductOfQuotient(place, mr);
    ProductOfSum(mr, p, Product(q, Quotient(place, mr)));
    ProductCommutes(mr, Product(q, Quotient(place, mr)));
    ProductAssociates(q, Quotient(place, mr), mr);
    QuotientOfProduct(y, mr);
    QuotientOfProduct(LinePoint(p, q, Quotient(place, mr)), mr);
    ProductCommutes(y, mr);
    ProductCommutes(LinePoint(p, q, Quotient(place, mr)), mr);
  }

  lemma MixedPoints(p: real, q: real, m: real, k: real, r: real)
    ensures Product(m - r, LinePoint(p, q, k)) + Product(r, LinePoint(p, q, k + 1.0))
         == Product(m, p) + Product(q, Product(k, m) + r)
  {
    assert (m - r) * (p + q * k) == m * p - r * p + q * k * m - q * k * r;
    assert r * (p + q * (k + 1.0)) == r * p + q * k * r + q * r;
    assert q * (k * m + r) == q * k * m + q * r;
  }

  // ---- Loading -----------------------------------------------------------------------------

  datatype AudioConfig = AudioConfig(sampleRate: int, enablePcm16FastPath: bool, requireTargetSampleRate: bool)

  datatype DecodedAudio = DecodedAudio(samples: seq<real>, sampleRate: int)

  /** What `_decode_wav` does: decode, raise one of the errors that are caught, or let `EOFError` escape. */
  datatype WavOutcome = WavDecoded(audio: DecodedAudio) | NotWav | WavEnds

  /** What the WAV and soundfile readers make of a file. */
  datatype Readers = Readers(wav: WavOutcome, soundfile: Option<DecodedAudio>)

  const RIFF: Bytes := [0x52, 0x49, 0x46, 0x46]
  const FORM: Bytes := [0x46, 0x4F, 0x52, 0x4D]

  function ShouldUsePcm16FastPath(config: AudioConfig, data: Bytes, sampleRate: Option<int>): Result<bool, AudioError> {
    if !config.enablePcm16FastPath || sampleRate.None? then Ok(false)
    else if RIFF <= data || FORM <= data then Ok(false)
    else if config.requireTargetSampleRate && sampleRate.value != config.sampleRate then Err(RateMismatch)
    else Ok(true)
  }

  function DecodeGeneral(data: Bytes, sampleRate: Option<int>, readers: Readers): Result<DecodedAudio, AudioError> {
    if readers.wav.WavDecoded? then Ok(readers.wav.audio)
    else if readers.wav.WavEnds? then Err(EndOfFile)
    else if readers.soundfile.Some? then Ok(readers.soundfile.value)
    else if sampleRate.None? then Err(UnsupportedFormat)
    else
      var pcm := DecodePcm16(data);
      if pcm.Err? then Err(pcm.error) else Ok(DecodedAudio(pcm.value, sampleRate.value))
  }

  function ToTargetRate(config: AudioConfig, audio: DecodedAudio): Result<DecodedAudio, AudioError> {
    if audio.sampleRate == config.sampleRate then Ok(audio)
    else
      var resampled := Resample(audio.samples, audio.sampleRate, config.sampleRate);
      if resampled.Err? then Err(resampled.error) else Ok(DecodedAudio(resampled.value, config.sampleRate))
  }

  function LoadAudio(config: AudioConfig, data: Bytes, sampleRate: Option<int>, readers: Readers): Result<DecodedAudio, AudioError> {
    if data == [] then Err(NoAudioData)
    else if sampleRate.Some? && sampleRate.value <= 0 then Err(BadSampleRate)
    else
      var fast := ShouldUsePcm16FastPath(config, data, sampleRate);
      if fast.Err? then Err(fast.error)
      else if fast.value then
        var pcm := DecodePcm16(data);
        if pcm.Err? then Err(pcm.error) else Ok(DecodedAudio(pcm.value, sampleRate.value))
      else
        var decoded := DecodeGeneral(data, sampleRate, readers);
        if decoded.Err? then Err(decoded.error) else ToTargetRate(config, decoded.value)
  }

  /** Bytes that can be loaded: some, and with no rate or a positive one. */
  predicate Loadable(data: Bytes, sampleRate: Option<int>) {
    data != [] && (sampleRate.Some? ==> sampleRate.value > 0)
  }

  /** The fast path is on, a rate is given, and no container header says otherwise. */
  predicate TakenAsRaw(config: AudioConfig, data: Bytes, sampleRate: Option<int>) {
    config.enablePcm16FastPath && sampleRate.Some? && data[..Arithmetic.Min(4, |data|)] !in {RIFF, FORM}
  }

  /** No reader recognises the data. */
  predicate Unrecognised(readers: Readers) {
    readers.wav.NotWav? && readers.soundfile.None?
  }

  /** When loading fails, and with which error. */
  lemma LoadFails(config: AudioConfig, data: Bytes, sampleRate: Option<int>, readers: Readers)
    requires Loadable(data, sampleRate)
    ensures var r, raw := LoadAudio(config, data, sampleRate, readers), TakenAsRaw(config, data, sampleRate);
      && (r == Err(RateMismatch) <==> raw && config.requireTargetSampleRate && sampleRate.value != config.sampleRate)
      && (r == Err(EndOfFile) <==> !raw && readers.wav.WavEnds?)
      && (r == Err(UnsupportedFormat) <==> !raw && Unrecognised(readers) && sampleRate.None?)
      && (r == Err(OddLength) <==> |data| % 2 != 0 && r != Err(RateMismatch)
                                   && (raw || (Unrecognised(readers) && sampleRate.Some?)))
  {
    HeaderIff(data);
  }

  lemma HeaderIff(data: Bytes)
    ensures data[..Arithmetic.Min(4, |data|)] in {RIFF, FORM} <==> RIFF <= data || FORM <= data
  {
    if |data| >= 4 {
      assert RIFF <= data <==> data[..4] == RIFF;
      assert FORM <= data <==> data[..4] == FORM;
    }
  }

  /** Off the fast path the WAV reader comes first, then soundfile, then raw PCM; all are brought to the target rate. */
  lemma LoadGives(config: AudioConfig, data: Bytes, sampleRate: Option<int>, readers: Readers)
    requires Loadable(data, sampleRate) && !TakenAsRaw(config, data, sampleRate) && !readers.wav.WavEnds?
    requires config.sampleRate > 0
    ensures var loaded := LoadAudio(config, data, sampleRate, readers);
      && (readers.wav.WavDecoded? && readers.wav.audio.sampleRate > 0 ==>
            loaded.Ok? && IsAtTarget(config, readers.wav.audio, loaded.value))
      && (readers.wav.NotWav? && readers.soundfile.Some? && readers.soundfile.value.sampleRate > 0 ==>
            loaded.Ok? && IsAtTarget(config, readers.soundfile.value, loaded.value))
      && (Unrecognised(readers) && sampleRate.Some? && |data| % 2 == 0 ==>
            loaded.Ok? && IsAtTarget(config, DecodedAudio(DecodePcm16(data).value, sampleRate.value), loaded.value))
  {
    HeaderIff(data);
  }

  predicate IsAtTarget(config: AudioConfig, source: DecodedAudio, loaded: DecodedAudio) {
    && loaded.sampleRate == config.sampleRate
    && (source.sampleRate == config.sampleRate ==> loaded.samples == source.samples)
    && (source.sampleRate != config.sampleRate ==> Ok(loaded.samples) == Resample(source.samples, source.sampleRate, config.sampleRate))
  }

  /** The fast path decodes raw PCM and leaves its rate alone. */
  lemma FastPathGives(config: AudioConfig, data: Bytes, sampleRate: Option<int>, readers: Readers)
    requires Loadable(data, sampleRate) && TakenAsRaw(config, data, sampleRate) && |data| % 2 == 0
    requires config.requireTargetSampleRate ==> sampleRate.value == config.sampleRate
    ensures LoadAudio(config, data, sampleRate, readers) == Ok(DecodedAudio(DecodePcm16(data).value, sampleRate.value))
  {
    HeaderIff(data);
  }

  const CHUNK_HEADER_BYTES := 8

  /** The WAV reader wants a whole chunk header before it looks at the name in it. */
  predicate WavReaderFits(data: Bytes, wav: WavOutcome) {
    && (|data| < CHUNK_HEADER_BYTES ==> wav.WavEnds?)
    && (|data| >= CHUNK_HEADER_BYTES && !(RIFF <= data) ==> wav.NotWav?)
  }

  /** The two paths treat data alike: not raw, too little to look at, or long enough and at the target rate. */
  predicate PathsAgree(config: AudioConfig, data: Bytes, sampleRate: Option<int>) {
    || data == [] || sampleRate.None? || sampleRate.value <= 0 || RIFF <= data || FORM <= data
    || (|data| >= CHUNK_HEADER_BYTES
        && (sampleRate.value == config.sampleRate || (!config.requireTargetSampleRate && |data| % 2 != 0)))
  }

  /**
   * Where soundfile does not recognise the data, switching the fast path on changes nothing exactly if it is not
   * taken, or if raw PCM of at least a chunk header is at the target rate. Off the target rate only audio of odd
   * length fails alike on both, and only if the rate is not enforced.
   */
  lemma FastPathAgreesIff(config: AudioConfig, data: Bytes, sampleRate: Option<int>, wav: WavOutcome)
    requires WavReaderFits(data, wav)
    ensures LoadAudio(config.(enablePcm16FastPath := true), data, sampleRate, Readers(wav, None))
         == LoadAudio(config.(enablePcm16FastPath := false), data, sampleRate, Readers(wav, None))
       <==> PathsAgree(config, data, sampleRate)
  {
    if PathsAgree(config, data, sampleRate) {
      assert RIFF <= data || FORM <= data ==> ShouldUsePcm16FastPath(config, data, sampleRate) == Ok(false);
    }
  }

  /** One sample at the target rate: decoded on the fast path, an escaping `EOFError` off it. */
  lemma ShortAudioNeedsFastPath(config: AudioConfig, wav: WavOutcome)
    requires config.sampleRate > 0 && WavReaderFits([0, 64], wav)
    ensures LoadAudio(config.(enablePcm16FastPath := true), [0, 64], Some(config.sampleRate), Readers(wav, None))
         == Ok(DecodedAudio([0.5], config.sampleRate))
    ensures LoadAudio(config.(enablePcm16FastPath := false), [0, 64], Some(config.sampleRate), Readers(wav, None))
         == Err(EndOfFile)
  {
    var data: Bytes := [0, 64];
    assert data[2..] == [];
    assert DecodePcm16(data).value == [0.5];
  }

  /** On the fast path the readers are never asked, so a compressed file given with a rate is taken for raw PCM. */
  lemma FastPathIgnoresReaders(config: AudioConfig, data: Bytes, sampleRate: Option<int>, one: Readers, other: Readers)
    requires config.enablePcm16FastPath && sampleRate.Some? && !(RIFF <= data) && !(FORM <= data)
    ensures LoadAudio(config, data, sampleRate, one) == LoadAudio(config, data, sampleRate, other)
  {
  }

  /** Whatever is loaded off the fast path is at the target rate. */
  lemma GeneralPathHitsTargetRate(config: AudioConfig, data: Bytes, sampleRate: Option<int>, readers: Readers)
    requires LoadAudio(config, data, sampleRate, readers).Ok?
    ensures LoadAudio(config, data, sampleRate, readers).value.sampleRate == config.sampleRate
         || (config.enablePcm16FastPath && !config.requireTargetSampleRate
             && sampleRate == Some(LoadAudio(config, data, sampleRate, readers).value.sampleRate))
  {
  }
}
