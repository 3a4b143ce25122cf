/** Word error rate: the two-row edit distance and what it measures. */
module EditDistance {
  import opened Arithmetic
  import opened Results
  import opened Rounding

  type Word = string
  type Text = seq<Word>

  // ---- The specification: shortest chains of single-word edits ----------------------------

  function Inserted(s: Text, i: nat, w: Word): Text
    requires i <= |s|
  {
    s[..i] + [w] + s[i..]
  }

  function Replaced(s: Text, i: nat, w: Word): Text
    requires i < |s|
  {
    s[i := w]
  }

  /** `t` is `s` after inserting, deleting or replacing one word, at any position. */
  ghost predicate OneEdit(s: Text, t: Text) {
    || (exists i: nat, w :: i <= |s| && t == Inserted(s, i, w))
    || (exists i: nat, w :: i <= |t| && s == Inserted(t, i, w))
    || (exists i: nat, w :: i < |s| && t == Replaced(s, i, w))
  }

  /** A chain of texts, each one edit away from the one before. */
  ghost predicate IsChain(chain: seq<Text>, a: Text, b: Text) {
    && |chain| > 0
    && chain[0] == a
    && chain[|chain| - 1] == b
    && forall k :: 0 < k < |chain| ==> OneEdit(chain[k - 1], chain[k])
  }

  // ---- The recurrence ----------------------------------------------------------------------

  function SubstitutionCost(x: Word, y: Word): nat {
    if x == y then 0 else 1
  }

  function Distance(a: Text, b: Text): nat
    decreases |a| + |b|
  {
    if |a| == 0 then |b|
    else if |b| == 0 then |a|
    else
      var a', b' := a[..|a| - 1], b[..|b| - 1];
      Min(Min(Distance(a', b) + 1, Distance(a, b') + 1),
          Distance(a', b') + SubstitutionCost(a[|a| - 1], b[|b| - 1]))
  }

  // ---- The two-row table -------------------------------------------------------------------

  ghost predicate IsRow(row: seq<nat>, prefix: Text, hypothesis: Text) {
    && |row| <= |hypothesis| + 1
    && forall j :: 0 <= j < |row| ==> row[j] == Distance(prefix, hypothesis[..j])
  }

  /** One cell of the table, from the cells above, to the left and on the diagonal. */
  function Cell(above: nat, left: nat, diagonal: nat, cost: nat): nat {
    Min(Min(above + 1, left + 1), diagonal + cost)
  }

  lemma DistanceStep(a: Text, x: Word, b: Text, y: Word)
    ensures Distance(a + [x], b + [y])
         == Cell(Distance(a, b + [y]), Distance(a + [x], b), Distance(a, b), SubstitutionCost(x, y))
  {
    assert (a + [x])[..|a|] == a;
    assert (b + [y])[..|b|] == b;
  }

  lemma NextPrefix(s: Text, i: nat)
    requires 0 < i <= |s|
    ensures s[..i] == s[..i - 1] + [s[i - 1]]
  {
  }

  lemma ExtendRow(row: seq<nat>, prefix: Text, hypothesis: Text, cell: nat)
    requires IsRow(row, prefix, hypothesis) && |row| <= |hypothesis|
    requires cell == Distance(prefix, hypothesis[..|row|])
    ensures IsRow(row + [cell], prefix, hypothesis)
  {
  }

  lemma FirstRow(row: seq<nat>, hypothesis: Text)
    requires |row| == |hypothesis| + 1
    requires forall j :: 0 <= j < |row| ==> row[j] == j
    ensures IsRow(row, [], hypothesis)
  {
  }

  method LevenshteinDistance(reference: Text, hypothesis: Text) returns (distance: nat)
    ensures distance == Distance(reference, hypothesis)
  {
    var previous: seq<nat> := seq(|hypothesis| + 1, j requires j >= 0 => j);
    FirstRow(previous, hypothesis);
    for i := 1 to |reference| + 1
      invariant |previous| == |hypothesis| + 1
      invariant IsRow(previous, reference[..i - 1], hypothesis)
    {
      var current: seq<nat> := [i];
      NextPrefix(reference, i);
      for j := 1 to |hypothesis| + 1
        invariant |current| == j
        invariant IsRow(current, reference[..i], hypothesis)
      {
        var substitutionCost := if reference[i - 1] == hypothesis[j - 1] then 0 else 1;
        var cell := Min(Min(previous[j] + 1, current[j - 1] + 1), previous[j - 1] + substitutionCost);
        NextPrefix(hypothesis, j);
        DistanceStep(reference[..i - 1], reference[i - 1], hypothesis[..j - 1], hypothesis[j - 1]);
        ExtendRow(current, reference[..i], hypothesis, cell);
        current := current + [cell];
      }
      previous := current;
    }
    assert reference[..|reference|] == reference && hypothesis[..|hypothesis|] == hypothesis;
    distance := previous[|previous| - 1];
  }

  // ---- No chain of edits is shorter --------------------------------------------------------

  /** One more word at the end moves the distance by at most one, either way. */
  lemma {:induction false} LastWordMovesByOne(a: Text, x: Word, b: Text)
    ensures -1 <= Distance(a + [x], b) - Distance(a, b) <= 1
    decreases |b|
  {
    if |b| == 0 {
      assert |a + [x]| == |a| + 1;
    } else {
      var b', y := b[..|b| - 1], b[|b| - 1];
      assert b' + [y] == b;
      DistanceStep(a, x, b', y);
      LastWordMovesByOne(a, x, b');
      ExtendRight(a, b', y);
    }
  }

  lemma ExtendRight(a: Text, b: Text, y: Word)
    ensures Distance(a, b + [y]) <= Distance(a, b) + 1
  {
    assert (b + [y])[..|b|] == b;
  }

  /** The last word replaced moves the distance by at most one. */
  lemma {:induction false} LastReplacedMovesByOne(a: Text, x: Word, y: Word, b: Text)
    ensures Distance(a + [x], b) <= Distance(a + [y], b) + 1
    decreases |b|
  {
    if |b| == 0 {
      assert |a + [x]| == |a + [y]|;
    } else {
      var b', z := b[..|b| - 1], b[|b| - 1];
      assert b' + [z] == b;
      DistanceStep(a, x, b', z);
      DistanceStep(a, y, b', z);
      LastReplacedMovesByOne(a, x, y, b');
    }
  }

  ghost predicate WithinOne(s: Text, t: Text, b: Text) {
    forall j :: 0 <= j <= |b| ==> Distance(s, b[..j]) <= Distance(t, b[..j]) + 1
  }

  /** A common continuation does not widen a gap of one. */
  lemma {:induction false} SuffixKeepsGap(s: Text, t: Text, v: Text, b: Text)
    requires |s| <= |t| + 1
    requires WithinOne(s, t, b)
    ensures Distance(s + v, b) <= Distance(t + v, b) + 1
    decreases |v| + |b|
  {
    if |v| == 0 {
      assert s + v == s && t + v == t && b[..|b|] == b;
    } else if |b| == 0 {
      assert |s + v| <= |t + v| + 1;
    } else {
      var v', z := v[..|v| - 1], v[|v| - 1];
      var b', y := b[..|b| - 1], b[|b| - 1];
      assert b' + [y] == b;
      assert s + v == (s + v') + [z] && t + v == (t + v') + [z];
      assert forall j :: 0 <= j <= |b'| ==> b'[..j] == b[..j];
      DistanceStep(s + v', z, b', y);
      DistanceStep(t + v', z, b', y);
      SuffixKeepsGap(s, t, v', b);
      SuffixKeepsGap(s, t, v, b');
      SuffixKeepsGap(s, t, v', b');
    }
  }

  lemma InsertionMovesByOne(u: Text, w: Word, v: Text, b: Text)
    ensures Distance(u + v, b) <= Distance(u + [w] + v, b) + 1
    ensures Distance(u + [w] + v, b) <= Distance(u + v, b) + 1
  {
    forall j | 0 <= j <= |b|
      ensures Distance(u, b[..j]) <= Distance(u + [w], b[..j]) + 1
      ensures Distance(u + [w], b[..j]) <= Distance(u, b[..j]) + 1
    {
      LastWordMovesByOne(u, w, b[..j]);
    }
    SuffixKeepsGap(u, u + [w], v, b);
    SuffixKeepsGap(u + [w], u, v, b);
  }

  lemma ReplacementMovesByOne(u: Text, x: Word, w: Word, v: Text, b: Text)
    ensures Distance(u + [x] + v, b) <= Distance(u + [w] + v, b) + 1
  {
    forall j | 0 <= j <= |b|
      ensures Distance(u + [x], b[..j]) <= Distance(u + [w], b[..j]) + 1
    {
      LastReplacedMovesByOne(u, x, w, b[..j]);
    }
    SuffixKeepsGap(u + [x], u + [w], v, b);
  }

  lemma InsertedMovesByOne(s: Text, i: nat, w: Word, b: Text)
    requires i <= |s|
    ensures Distance(s, b) <= Distance(Inserted(s, i, w), b) + 1
    ensures Distance(Inserted(s, i, w), b) <= Distance(s, b) + 1
  {
    assert s == s[..i] + s[i..];
    InsertionMovesByOne(s[..i], w, s[i..], b);
  }

  lemma ReplacedMovesByOne(s: Text, i: nat, w: Word, b: Text)
    requires i < |s|
    ensures Distance(s, b) <= Distance(Replaced(s, i, w), b) + 1
  {
    assert s == s[..i] + [s[i]] + s[i + 1..];
    assert Replaced(s, i, w) == s[..i] + [w] + s[i + 1..];
    ReplacementMovesByOne(s[..i], s[i], w, s[i + 1..], b);
  }

  lemma OneEditMovesByOne(s: Text, t: Text, b: Text)
    requires OneEdit(s, t)
    ensures Distance(s, b) <= Distance(t, b) + 1
  {
    if i: nat, w :| i <= |s| && t == Inserted(s, i, w) {
      InsertedMovesByOne(s, i, w, b);
    } else if i: nat, w :| i <= |t| && s == Inserted(t, i, w) {
      InsertedMovesByOne(t, i, w, b);
    } else {
      var i: nat, w :| i < |s| && t == Replaced(s, i, w);
      ReplacedMovesByOne(s, i, w, b);
    }
  }

  lemma {:induction false} NoShorterChain(chain: seq<Text>, a: Text, b: Text)
    requires IsChain(chain, a, b)
    ensures Distance(a, b) <= |chain| - 1
    decreases |chain|
  {
    if |chain| == 1 {
      DistanceToSelf(a);
    } else {
      var rest := chain[1..];
      assert OneEdit(chain[0], chain[1]);
      forall k | 0 < k < |rest|
        ensures OneEdit(rest[k - 1], rest[k])
      {
        assert OneEdit(chain[k], chain[k + 1]);
      }
      NoShorterChain(rest, chain[1], b);
      OneEditMovesByOne(a, chain[1], b);
    }
  }

  lemma {:induction false} DistanceToSelf(a: Text)
    ensures Distance(a, a) == 0
  {
    if |a| > 0 {
      DistanceToSelf(a[..|a| - 1]);
    }
  }

  // ---- Some chain attains it ---------------------------------------------------------------

  /** Every text of a chain can carry one more word at its end. */
  function Lift(chain: seq<Text>, w: Word): seq<Text> {
    seq(|chain|, k requires 0 <= k < |chain| => chain[k] + [w])
  }

  lemma InsertedLifts(s: Text, i: nat, x: Word, w: Word)
    requires i <= |s|
    ensures Inserted(s, i, x) + [w] == Inserted(s + [w], i, x)
  {
    assert (s + [w])[..i] == s[..i] && (s + [w])[i..] == s[i..] + [w];
  }

  lemma OneEditLifts(s: Text, t: Text, w: Word)
    requires OneEdit(s, t)
    ensures OneEdit(s + [w], t + [w])
  {
    if i: nat, x :| i <= |s| && t == Inserted(s, i, x) {
      InsertedLifts(s, i, x, w);
    } else if i: nat, x :| i <= |t| && s == Inserted(t, i, x) {
      InsertedLifts(t, i, x, w);
    } else {
      var i: nat, x :| i < |s| && t == Replaced(s, i, x);
      assert t + [w] == Replaced(s + [w], i, x);
    }
  }

  lemma ChainLifts(chain: seq<Text>, a: Text, b: Text, w: Word)
    requires IsChain(chain, a, b)
    ensures IsChain(Lift(chain, w), a + [w], b + [w])
  {
    forall k | 0 < k < |chain|
      ensures OneEdit(Lift(chain, w)[k - 1], Lift(chain, w)[k])
    {
      OneEditLifts(chain[k - 1], chain[k], w);
    }
  }

  lemma ChainThenEdit(chain: seq<Text>, a: Text, b: Text, c: Text)
    requires IsChain(chain, a, b) && OneEdit(b, c)
    ensures IsChain(chain + [c], a, c)
  {
  }

  lemma EditThenChain(a: Text, chain: seq<Text>, b: Text, c: Text)
    requires OneEdit(a, b) && IsChain(chain, b, c)
    ensures IsChain([a] + chain, a, c)
  {
    var whole := [a] + chain;
    forall k | 0 < k < |whole|
      ensures OneEdit(whole[k - 1], whole[k])
    {
      if k > 1 {
        assert whole[k - 1] == chain[k - 2] && whole[k] == chain[k - 1];
      }
    }
  }

  lemma InsertLast(s: Text, w: Word)
    ensures OneEdit(s, s + [w]) && OneEdit(s + [w], s)
  {
    assert s + [w] == Inserted(s, |s|, w);
  }

  /** A shortest chain, built by walking back from the last cell of the table. */
  lemma {:induction false} ShortestChain(a: Text, b: Text) returns (chain: seq<Text>)
    ensures IsChain(chain, a, b)
    ensures |chain| - 1 == Distance(a, b)
    decreases |a| + |b|
  {
    if |a| == 0 && |b| == 0 {
      chain := [a];
    } else if |a| == 0 {
      var b', y := b[..|b| - 1], b[|b| - 1];
      assert b' + [y] == b;
      chain := ShortestChain(a, b');
      InsertLast(b', y);
      ChainThenEdit(chain, a, b', b);
      chain := chain + [b];
    } else if |b| == 0 {
      var a', x := a[..|a| - 1], a[|a| - 1];
      assert a' + [x] == a;
      chain := ShortestChain(a', b);
      InsertLast(a', x);
      EditThenChain(a, chain, a', b);
      chain := [a] + chain;
    } else {
      var a', x := a[..|a| - 1], a[|a| - 1];
      var b', y := b[..|b| - 1], b[|b| - 1];
      assert a' + [x] == a && b' + [y] == b;
      if Distance(a, b) == Distance(a', b) + 1 {
        chain := ShortestChain(a', b);
        InsertLast(a', x);
        EditThenChain(a, chain, a', b);
        chain := [a] + chain;
      } else if Distance(a, b) == Distance(a, b') + 1 {
        chain := ShortestChain(a, b');
        InsertLast(b', y);
        ChainThenEdit(chain, a, b', b);
        chain := chain + [b];
      } else {
        var shorter := ShortestChain(a', b');
        ChainLifts(shorter, a', b', x);
        chain := Lift(shorter, x);
        if x != y {
          assert b == Replaced(b' + [x], |b'|, y);
          ChainThenEdit(chain, a, b' + [x], b);
          chain := chain + [b];
        }
      }
    }
  }

  // ---- Main results ------------------------------------------------------------------------

  /** The distance is the least number of single-word edits turning one text into the other. */
  lemma DistanceIsMinimal(a: Text, b: Text)
    ensures exists chain :: IsChain(chain, a, b) && |chain| - 1 == Distance(a, b)
    ensures forall chain :: IsChain(chain, a, b) ==> Distance(a, b) <= |chain| - 1
  {
    var shortest := ShortestChain(a, b);
    forall chain | IsChain(chain, a, b)
      ensures Distance(a, b) <= |chain| - 1
    {
      NoShorterChain(chain, a, b);
    }
  }

  lemma {:induction false} DistanceSymmetric(a: Text, b: Text)
    ensures Distance(a, b) == Distance(b, a)
    decreases |a| + |b|
  {
    if |a| > 0 && |b| > 0 {
      DistanceSymmetric(a[..|a| - 1], b);
      DistanceSymmetric(a, b[..|b| - 1]);
      DistanceSymmetric(a[..|a| - 1], b[..|b| - 1]);
    }
  }

  lemma {:induction false} DistanceZeroIffEqual(a: Text, b: Text)
    ensures Distance(a, b) == 0 <==> a == b
  {
    if a == b {
      DistanceToSelf(a);
    } else if |a| > 0 && |b| > 0 {
      assert a == a[..|a| - 1] + [a[|a| - 1]] && b == b[..|b| - 1] + [b[|b| - 1]];
      DistanceZeroIffEqual(a[..|a| - 1], b[..|b| - 1]);
    }
  }

  lemma {:induction false} DistanceTriangle(a: Text, b: Text, c: Text)
    ensures Distance(a, c) <= Distance(a, b) + Distance(b, c)
  {
    var first := ShortestChain(a, b);
    var second := ShortestChain(b, c);
    var whole := first + second[1..];
    forall k | 0 < k < |whole|
      ensures OneEdit(whole[k - 1], whole[k])
    {
      if k >= |first| {
        assert whole[k - 1] == second[k - |first|] && whole[k] == second[k - |first| + 1];
      }
    }
    NoShorterChain(whole, a, c);
  }

  lemma {:induction false} DistanceBounds(a: Text, b: Text)
    ensures Max(|a| - |b|, |b| - |a|) <= Distance(a, b) <= Max(|a|, |b|)
    decreases |a| + |b|
  {
    if |a| > 0 && |b| > 0 {
      DistanceBounds(a[..|a| - 1], b);
      DistanceBounds(a, b[..|b| - 1]);
      DistanceBounds(a[..|a| - 1], b[..|b| - 1]);
    }
  }

  // ---- Word error rate ---------------------------------------------------------------------

  /** `words` splits a transcript into its normalised words; `reference` and `hypothesis` may be absent. */
  method ComputeWordErrorRate(words: string -> Text, reference: Option<string>, hypothesis: Option<string>)
    returns (rate: Option<real>)
    ensures rate == WordErrorRate(words, reference, hypothesis)
    ensures rate.None? <==>
      Blank(reference) || (words(reference.value) == [] && words(OrEmpty(hypothesis)) != [])
    ensures rate.Some? && words(reference.value) == [] ==> rate.value == 0.0
    ensures rate.Some? && words(reference.value) != [] ==>
      IsNearRate(rate.value, Distance(words(reference.value), words(OrEmpty(hypothesis))), |words(reference.value)|)
  {
    if reference.None? || reference.value == "" {
      return None;
    }
    var referenceWords := words(reference.value);
    var hypothesisWords := words(if hypothesis.None? then "" else hypothesis.value);
    if |referenceWords| == 0 {
      return if |hypothesisWords| == 0 then Some(0.0) else None;
    }
    var distance := LevenshteinDistance(referenceWords, hypothesisWords);
    rate := Some(RoundTo(Over(distance, |referenceWords|), 1000));
    RateIsNear(distance, |referenceWords|);
  }

  predicate Blank(text: Option<string>) {
    text.None? || text.value == ""
  }

  function OrEmpty(text: Option<string>): string {
    if text.None? then "" else text.value
  }

  /** A number of thousandths that is not negative and at most half a thousandth from the exact ratio. */
  ghost predicate IsNearRate(rate: real, edits: nat, length: int) {
    exists thousandths: nat :: rate == Over(thousandths, 1000) && -length <= 2 * (thousandths * length - 1000 * edits) <= length
  }

  ghost function WordErrorRate(words: string -> Text, reference: Option<string>, hypothesis: Option<string>): Option<real> {
    if Blank(reference) then None
    else
      var referenceWords, hypothesisWords := words(reference.value), words(OrEmpty(hypothesis));
      if |referenceWords| == 0 then (if |hypothesisWords| == 0 then Some(0.0) else None)
      else Some(RoundTo(Over(Distance(referenceWords, hypothesisWords), |referenceWords|), 1000))
  }

  lemma Thousandths(edits: nat, length: nat)
    requires length > 0
    ensures Times(Over(edits, length), 1000) == Over(1000 * edits, length)
  {
    OverTimes(edits, length);
    OverIs(1000 * edits, length, 1000.0 * Over(edits, length));
  }

  lemma OverIs(n: nat, d: nat, x: real)
    requires d > 0 && Times(x, d) == n as real
    ensures x == Over(n, d)
  {
  }

  lemma RateIsNear(edits: nat, length: nat)
    requires length > 0
    ensures IsNearRate(RoundTo(Over(edits, length), 1000), edits, length)
  {
    Thousandths(edits, length);
    RoundedNear(1000 * edits, length);
    var thousandths: nat := RoundHalfEven(Over(1000 * edits, length));
    assert RoundTo(Over(edits, length), 1000) == Over(thousandths, 1000);
  }

  /**
   * Whatever way the tie goes, a near rate is zero below one error in two thousand words and not zero above.
   * On the tie itself the code's float quotient lies above one half of a thousandth and prints 0.001.
   */
  lemma NearRateZero(rate: real, d: nat, n: int)
    requires n > 0 && IsNearRate(rate, d, n)
    ensures 2000 * d < n ==> rate == 0.0
    ensures 2000 * d > n ==> rate != 0.0
  {
    var t: nat :| rate == Over(t, 1000) && -n <= 2 * (t * n - 1000 * d) <= n;
    ThousandthsZero(t, d, n);
    OverZeroIff(t);
  }

  /** Over exact ratios, the printed rate is zero exactly when at most one word in two thousand is wrong: equal texts, or long ones. */
  lemma RateZeroIff(a: Text, b: Text)
    requires |a| > 0
    ensures RoundTo(Over(Distance(a, b), |a|), 1000) == 0.0 <==> 2000 * Distance(a, b) <= |a|
  {
    RoundedRateZeroIff(Distance(a, b), |a|);
  }

  lemma RoundedRateZeroIff(d: nat, n: nat)
    requires n > 0
    ensures RoundTo(Over(d, n), 1000) == 0.0 <==> 2000 * d <= n
  {
    Thousandths(d, n);
    RoundedNear(1000 * d, n);
    var t := RoundHalfEven(Over(1000 * d, n));
    ThousandthsZero(t, d, n);
    OverZeroIff(t);
    if 2000 * d == n {
      HalfRoundsToZero(d, n);
    }
  }

  lemma OverZeroIff(t: int)
    ensures Over(t, 1000) == 0.0 <==> t == 0
  {
  }

  lemma HalfRoundsToZero(d: nat, n: nat)
    requires n > 0 && 2000 * d == n
    ensures RoundHalfEven(Over(1000 * d, n)) == 0
  {
    OverIs(1000 * d, n, 0.5);
  }

  /** Away from the tie, whether there are thousandths can be told from the bounds. */
  lemma ThousandthsZero(t: nat, d: nat, n: int)
    requires n > 0 && -n <= 2 * (t * n - 1000 * d) <= n
    ensures t == 0 ==> 2000 * d <= n
    ensures 2000 * d < n ==> t == 0
  {
    if t > 0 {
      ProductMonotone(1, t, n);
    }
  }
}
