/** Prerendering the benchmark site: marked blocks, and the write and check runs. */
module SitePrerender {
  import opened Results
  import opened Sequences
  import opened TextSearch

  // ---- Markers -----------------------------------------------------------------------------

  const BEGIN_PREFIX := "<!-- BEGIN GENERATED:"
  const END_PREFIX := "<!-- END GENERATED:"
  const SUFFIX := " -->"

  function Begin(id: string): string {
    BEGIN_PREFIX + id + SUFFIX
  }

  function End(id: string): string {
    END_PREFIX + id + SUFFIX
  }

  /** What makes a string usable as a marker: it opens with the only `<` in it and stays on one line. */
  predicate IsMarker(m: string) {
    && |m| > 0 && m[0] == '<'
    && (forall k :: 0 < k < |m| ==> m[k] != '<')
    && (forall k :: 0 <= k < |m| ==> m[k] != '\n')
  }

  /** Two markers that can never stand at the same place. */
  ghost predicate Apart(m: string, n: string) {
    exists k :: 0 <= k < |m| && k < |n| && m[k] != n[k]
  }

  predicate Free(content: string, m: string) {
    FindFrom(content, m, 0).None?
  }

  // ---- Replacing one block -----------------------------------------------------------------

  /** Where the first block starts and where its end marker starts: the shortest match from the first begin. */
  function FirstBlock(doc: string, b: string, e: string): (found: Option<(nat, nat)>)
    ensures found.Some? ==> found.value.0 + |b| <= found.value.1 <= |doc| - |e|
  {
    var i := FindFrom(doc, b, 0);
    if i.None? then None
    else
      var j := FindFrom(doc, e, i.value + |b|);
      if j.None? then None else Some((i.value, j.value))
  }

  function Rendered(b: string, e: string, content: string): string {
    b + "\n" + content + "\n" + e
  }

  /** `pattern.subn(...)`: the new document and the number of blocks replaced. */
  function Substitute(doc: string, b: string, e: string, content: string): (string, nat)
    requires |b| > 0
    decreases |doc|
  {
    var found := FirstBlock(doc, b, e);
    if found.None? then (doc, 0)
    else
      var (i, j) := found.value;
      var (rest, count) := Substitute(doc[j + |e|..], b, e, content);
      (doc[..i] + Rendered(b, e, content) + rest, count + 1)
  }

  datatype RenderError = WrongBlockCount(found: nat)

  function ReplaceBlock(doc: string, b: string, e: string, content: string): Result<string, RenderError>
    requires |b| > 0
  {
    var (updated, count) := Substitute(doc, b, e, content);
    if count != 1 then Err(WrongBlockCount(count)) else Ok(updated)
  }

  function ReplaceGeneratedBlock(doc: string, id: string, content: string): Result<string, RenderError> {
    ReplaceBlock(doc, Begin(id), End(id), content)
  }

  /** A document laid out around a block. */
  function Layout(head: string, b: string, inner: string, e: string, tail: string): string {
    head + (b + (inner + (e + tail)))
  }

  lemma LayoutParts(head: string, b: string, inner: string, e: string, tail: string)
    ensures |Layout(head, b, inner, e, tail)| == |head| + |b| + |inner| + |e| + |tail|
    ensures Layout(head, b, inner, e, tail)[..|head|] == head
    ensures Layout(head, b, inner, e, tail)[|head| + |b| + |inner| + |e|..] == tail
  {
  }

  lemma LayoutOf(doc: string, b: string, e: string, i: nat, j: nat)
    requires i + |b| <= j && MatchesAt(doc, b, i) && MatchesAt(doc, e, j)
    ensures doc == Layout(doc[..i], b, doc[i + |b|..j], e, doc[j + |e|..])
  {
    MatchIsSlice(doc, b, i);
    MatchIsSlice(doc, e, j);
    SplitConcat(doc, i);
    SplitConcat(doc[i..], |b|);
    assert doc[i..][..|b|] == b && doc[i..][|b|..] == doc[i + |b|..];
    SplitConcat(doc[i + |b|..], j - i - |b|);
    assert doc[i + |b|..][..j - i - |b|] == doc[i + |b|..j] && doc[i + |b|..][j - i - |b|..] == doc[j..];
    SplitConcat(doc[j..], |e|);
    assert doc[j..][..|e|] == e && doc[j..][|e|..] == doc[j + |e|..];
  }

  /** A document with exactly one block, taken apart around it. */
  ghost predicate OneBlock(doc: string, b: string, e: string, head: string, inner: string, tail: string) {
    && doc == Layout(head, b, inner, e, tail)
    && FindFrom(doc, b, 0) == Some(|head|)
    && FindFrom(doc, e, |head| + |b|) == Some(|head| + |b| + |inner|)
    && FirstBlock(tail, b, e) == None
  }

  lemma CountIsZeroIff(doc: string, b: string, e: string, content: string)
    requires |b| > 0
    ensures Substitute(doc, b, e, content).1 == 0 <==> FirstBlock(doc, b, e).None?
    ensures FirstBlock(doc, b, e).None? ==> Substitute(doc, b, e, content).0 == doc
  {
  }

  lemma SubstituteStep(doc: string, b: string, e: string, content: string, i: nat, j: nat, rest: string)
    requires |b| > 0 && FirstBlock(doc, b, e) == Some((i, j)) && rest == doc[j + |e|..]
    ensures Substitute(doc, b, e, content).0 == doc[..i] + Rendered(b, e, content) + Substitute(rest, b, e, content).0
    ensures Substitute(doc, b, e, content).1 == Substitute(rest, b, e, content).1 + 1
  {
  }

  /** One block found and none behind it: the document is cut around it. */
  lemma ReplaceOne(doc: string, b: string, e: string, content: string, i: nat, j: nat)
    requires |b| > 0 && FindFrom(doc, b, 0) == Some(i) && FindFrom(doc, e, i + |b|) == Some(j)
    requires j + |e| <= |doc| && FirstBlock(doc[j + |e|..], b, e) == None
    ensures ReplaceBlock(doc, b, e, content) == Ok(doc[..i] + Rendered(b, e, content) + doc[j + |e|..])
  {
    SubstituteStep(doc, b, e, content, i, j, doc[j + |e|..]);
    CountIsZeroIff(doc[j + |e|..], b, e, content);
  }

  lemma OnlyOne(doc: string, b: string, e: string, content: string) returns (i: nat, j: nat)
    requires |b| > 0 && ReplaceBlock(doc, b, e, content).Ok?
    ensures FindFrom(doc, b, 0) == Some(i) && FindFrom(doc, e, i + |b|) == Some(j)
    ensures j + |e| <= |doc| && FirstBlock(doc[j + |e|..], b, e) == None
  {
    var found := FirstBlock(doc, b, e);
    i, j := found.value.0, found.value.1;
    CountIsZeroIff(doc[j + |e|..], b, e, content);
  }

  lemma TakeApart(doc: string, b: string, e: string, content: string)
    returns (head: string, inner: string, tail: string)
    requires |b| > 0 && ReplaceBlock(doc, b, e, content).Ok?
    ensures OneBlock(doc, b, e, head, inner, tail)
    ensures ReplaceBlock(doc, b, e, content) == Ok(head + (Rendered(b, e, content) + tail))
  {
    var i, j := OnlyOne(doc, b, e, content);
    head, inner, tail := doc[..i], doc[i + |b|..j], doc[j + |e|..];
    LayoutOf(doc, b, e, i, j);
    ReplaceOne(doc, b, e, content, i, j);
    ConcatAssociative(head, Rendered(b, e, content), tail);
  }

  lemma PutTogether(doc: string, b: string, e: string, content: string, head: string, inner: string, tail: string)
    requires |b| > 0 && OneBlock(doc, b, e, head, inner, tail)
    ensures ReplaceBlock(doc, b, e, content) == Ok(head + (Rendered(b, e, content) + tail))
  {
    LayoutParts(head, b, inner, e, tail);
    ReplaceOne(doc, b, e, content, |head|, |head| + |b| + |inner|);
    ConcatAssociative(head, Rendered(b, e, content), tail);
  }

  /** No begin marker of the text has an end marker behind it. */
  ghost predicate NoBlock(text: string, b: string, e: string) {
    forall i: nat, j: nat :: MatchesAt(text, b, i) && i + |b| <= j ==> !MatchesAt(text, e, j)
  }

  lemma NoBlockIff(text: string, b: string, e: string)
    ensures FirstBlock(text, b, e).None? <==> NoBlock(text, b, e)
  {
    var i := FindFrom(text, b, 0);
    if i.Some? {
      var j := FindFrom(text, e, i.value + |b|);
      if j.None? {
        forall k: nat, l: nat | MatchesAt(text, b, k) && k + |b| <= l
          ensures !MatchesAt(text, e, l)
        {
          assert i.value <= k;
        }
      }
    }
  }

  /** The document is cut around its first begin marker and the first end marker behind it, and has no other block. */
  ghost predicate CutAround(doc: string, b: string, e: string, head: string, inner: string, tail: string) {
    && doc == head + (b + (inner + (e + tail)))
    && (forall k: nat :: k < |head| ==> !MatchesAt(doc, b, k))
    && (forall k: nat :: |head| + |b| <= k < |head| + |b| + |inner| ==> !MatchesAt(doc, e, k))
    && NoBlock(tail, b, e)
  }

  lemma LayoutMarkers(doc: string, b: string, e: string, head: string, inner: string, tail: string)
    requires doc == Layout(head, b, inner, e, tail)
    ensures MatchesAt(doc, b, |head|) && MatchesAt(doc, e, |head| + |b| + |inner|)
  {
    MatchBehind(head, b, inner + (e + tail));
    ConcatAssociative(head, b, inner + (e + tail));
    MatchAfter(head + b, inner, e, tail);
  }

  lemma MatchBehind(head: string, m: string, tail: string)
    ensures MatchesAt(head + (m + tail), m, |head|)
  {
    ConcatEmpty(m + tail);
    MatchAfter(head, "", m, tail);
  }

  lemma CutAroundIff(doc: string, b: string, e: string, head: string, inner: string, tail: string)
    ensures OneBlock(doc, b, e, head, inner, tail) <==> CutAround(doc, b, e, head, inner, tail)
  {
    NoBlockIff(tail, b, e);
    if CutAround(doc, b, e, head, inner, tail) {
      LayoutMarkers(doc, b, e, head, inner, tail);
      FindFromIs(doc, b, 0, |head|);
      FindFromIs(doc, e, |head| + |b|, |head| + |b| + |inner|);
    }
  }

  /** A replacement succeeds exactly on a document with one block, and changes what stands between its markers. */
  lemma ReplaceBlockIff(doc: string, b: string, e: string, content: string, out: string)
    requires |b| > 0
    ensures ReplaceBlock(doc, b, e, content) == Ok(out) <==>
      exists head, inner, tail ::
        CutAround(doc, b, e, head, inner, tail) && out == head + (b + ("\n" + (content + ("\n" + (e + tail)))))
  {
    if ReplaceBlock(doc, b, e, content).Ok? {
      var head, inner, tail := TakeApart(doc, b, e, content);
      CutAroundIff(doc, b, e, head, inner, tail);
      RenderedText(b, e, content, tail);
    }
    forall head, inner, tail | CutAround(doc, b, e, head, inner, tail)
      ensures ReplaceBlock(doc, b, e, content) == Ok(head + (b + ("\n" + (content + ("\n" + (e + tail))))))
    {
      CutAroundIff(doc, b, e, head, inner, tail);
      PutTogether(doc, b, e, content, head, inner, tail);
      RenderedText(b, e, content, tail);
    }
  }

  lemma RenderedText(b: string, e: string, content: string, tail: string)
    ensures Rendered(b, e, content) + tail == b + ("\n" + (content + ("\n" + (e + tail))))
  {
  }

  // ---- Where markers can be ----------------------------------------------------------------

  lemma MatchChar(s: string, m: string, p: nat, k: nat)
    requires MatchesAt(s, m, p) && k < |m|
    ensures s[p + k] == m[k]
  {
    MatchIsSlice(s, m, p);
    assert s[p..p + |m|][k] == s[p + k];
  }

  /** A marker cannot run across a line break. */
  lemma MarkerAvoidsNewline(s: string, m: string, p: nat, at: nat)
    requires IsMarker(m) && MatchesAt(s, m, p)
    requires at < |s| && s[at] == '\n'
    ensures p + |m| <= at || at < p
  {
    if p <= at < p + |m| {
      MatchChar(s, m, p, at - p);
    }
  }

  /** Nor across the start of another marker, nor share its start with one it differs from. */
  lemma MarkersDoNotOverlap(s: string, m: string, p: nat, n: string, q: nat)
    requires IsMarker(m) && IsMarker(n) && MatchesAt(s, m, p) && MatchesAt(s, n, q)
    ensures p == q || p + |m| <= q || q + |n| <= p
    ensures Apart(m, n) ==> p != q
  {
    MatchChar(s, m, p, 0);
    MatchChar(s, n, q, 0);
    if p < q < p + |m| {
      MatchChar(s, m, p, q - p);
    } else if q < p < q + |n| {
      MatchChar(s, n, q, p - q);
    } else if p == q && Apart(m, n) {
      var k: nat :| k < |m| && k < |n| && m[k] != n[k];
      MatchChar(s, m, p, k);
      MatchChar(s, n, p, k);
    }
  }

  /** The part of a rendered block between its markers. */
  function Filling(content: string): string {
    "\n" + (content + "\n")
  }

  lemma RenderedParts(head: string, b: string, e: string, content: string, tail: string)
    ensures head + (Rendered(b, e, content) + tail) == Layout(head, b, Filling(content), e, tail)
  {
    assert Rendered(b, e, content) + tail == b + (Filling(content) + (e + tail));
  }

  /** In a filling that is free of it, a marker has no room: it ends before or starts after. */
  lemma MarkerAvoidsFilling(left: string, content: string, right: string, m: string, p: nat)
    requires IsMarker(m) && Free(content, m)
    requires MatchesAt(left + (Filling(content) + right), m, p)
    ensures p + |m| <= |left| || |left| + |Filling(content)| <= p
  {
    var s := left + (Filling(content) + right);
    var last := |left| + 1 + |content|;
    assert s[|left|] == '\n' && s[last] == '\n';
    MarkerAvoidsNewline(s, m, p, |left|);
    MarkerAvoidsNewline(s, m, p, last);
    if |left| < p && p + |m| <= last {
      MatchInContent(left, content, right, m, p);
    }
  }

  lemma MatchInContent(left: string, content: string, right: string, m: string, p: nat)
    requires |left| < p && p + |m| <= |left| + 1 + |content|
    requires MatchesAt(left + (Filling(content) + right), m, p)
    ensures MatchesAt(content, m, p - |left| - 1)
  {
    var s, k := left + (Filling(content) + right), p - |left| - 1;
    MatchIsSlice(s, m, p);
    MatchIsSlice(content, m, k);
    assert s[p..p + |m|] == content[k..k + |m|];
  }

  // ---- Idempotence -------------------------------------------------------------------------

  /** A begin marker that is first in `head + b` is first whatever follows. */
  lemma BeginStaysFirst(head: string, b: string, before: string, after: string)
    requires FindFrom(head + (b + before), b, 0) == Some(|head|)
    ensures FindFrom(head + (b + after), b, 0) == Some(|head|)
  {
    ConcatAssociative(head, b, before);
    ConcatAssociative(head, b, after);
    forall j: nat | j < |head|
      ensures !MatchesAt(head + b + after, b, j)
    {
      MatchInPrefix(head + b, before, b, j);
      MatchInPrefix(head + b, after, b, j);
    }
    MatchIsSlice(head + b + after, b, |head|);
    assert (head + b + after)[|head|..|head| + |b|] == b;
    FindFromIs(head + b + after, b, 0, |head|);
  }

  lemma NoEarlyEnd(left: string, e: string, content: string, tail: string, j: nat)
    requires IsMarker(e) && Free(content, e)
    requires |left| <= j < |left| + |Filling(content)|
    ensures !MatchesAt(left + (Filling(content) + (e + tail)), e, j)
  {
    if MatchesAt(left + (Filling(content) + (e + tail)), e, j) {
      MarkerAvoidsFilling(left, content, e + tail, e, j);
    }
  }

  /** After its begin marker, a rendered block ends where it was made to end. */
  lemma EndIsFirst(left: string, at: nat, e: string, content: string, tail: string, s: string)
    requires IsMarker(e) && Free(content, e) && at == |left|
    requires s == left + (Filling(content) + (e + tail))
    ensures FindFrom(s, e, at) == Some(at + |Filling(content)|)
  {
    forall j: nat | at <= j < at + |Filling(content)|
      ensures !MatchesAt(s, e, j)
    {
      NoEarlyEnd(left, e, content, tail, j);
    }
    MatchAfter(left, Filling(content), e, tail);
    FindFromIs(s, e, at, at + |Filling(content)|);
  }

  lemma MatchAfter(left: string, middle: string, m: string, tail: string)
    ensures MatchesAt(left + (middle + (m + tail)), m, |left| + |middle|)
  {
    var s, at := left + (middle + (m + tail)), |left| + |middle|;
    MatchIsSlice(s, m, at);
    assert s[at..at + |m|] == m;
  }

  /** A rendered block found first, with no other after it, makes a document of one block. */
  lemma RenderedIsOneBlock(head: string, b: string, e: string, content: string, tail: string, doc: string)
    requires IsMarker(b) && IsMarker(e) && Free(content, e)
    requires doc == head + (Rendered(b, e, content) + tail)
    requires FindFrom(doc, b, 0) == Some(|head|)
    requires FirstBlock(tail, b, e) == None
    ensures OneBlock(doc, b, e, head, Filling(content), tail)
  {
    RenderedParts(head, b, e, content, tail);
    EndOfLayout(head, b, e, content, tail, doc);
  }

  lemma EndOfLayout(head: string, b: string, e: string, content: string, tail: string, doc: string)
    requires IsMarker(e) && Free(content, e)
    requires doc == Layout(head, b, Filling(content), e, tail)
    ensures FindFrom(doc, e, |head| + |b|) == Some(|head| + |b| + |Filling(content)|)
  {
    ConcatAssociative(head, b, Filling(content) + (e + tail));
    EndIsFirst(head + b, |head| + |b|, e, content, tail, doc);
  }

  /** Replacing a block is idempotent exactly when the content does not contain the block's end marker. */
  lemma ReplaceIdempotentIff(doc: string, b: string, e: string, content: string)
    requires IsMarker(b) && IsMarker(e) && ReplaceBlock(doc, b, e, content).Ok?
    ensures var once := ReplaceBlock(doc, b, e, content);
      ReplaceBlock(once.value, b, e, content) == once <==> Free(content, e)
  {
    var head, inner, tail := TakeApart(doc, b, e, content);
    var once := head + (Rendered(b, e, content) + tail);
    RenderedParts(head, b, e, content, tail);
    BeginStaysFirst(head, b, inner + (e + tail), Filling(content) + (e + tail));
    if Free(content, e) {
      RenderedIsOneBlock(head, b, e, content, tail, once);
      PutTogether(once, b, e, content, head, Filling(content), tail);
    } else {
      EndComesEarly(head, b, e, content, tail, once);
    }
  }

  /** With the end marker in the content, a second run cuts the block short and leaves the rest behind it. */
  lemma EndComesEarly(head: string, b: string, e: string, content: string, tail: string, once: string)
    requires IsMarker(b) && IsMarker(e) && !Free(content, e)
    requires once == head + (Rendered(b, e, content) + tail) && FindFrom(once, b, 0) == Some(|head|)
    ensures ReplaceBlock(once, b, e, content) != Ok(once)
  {
    var at := EarlyEnd(head, b, e, content, tail, once);
    if ReplaceBlock(once, b, e, content).Ok? {
      var head', inner', tail' := TakeApart(once, b, e, content);
      assert |head'| + |b| + |inner'| <= at;
    }
  }

  lemma EarlyEnd(head: string, b: string, e: string, content: string, tail: string, once: string) returns (at: nat)
    requires !Free(content, e) && once == head + (Rendered(b, e, content) + tail)
    ensures |head| + |b| <= at < |head| + |b| + |Filling(content)| && MatchesAt(once, e, at)
  {
    var k := FindFrom(content, e, 0).value;
    at := |head| + |b| + 1 + k;
    MatchIsSlice(once, e, at);
    MatchIsSlice(content, e, k);
    assert once[at..at + |e|] == content[k..k + |e|];
  }

  // ---- Two blocks --------------------------------------------------------------------------

  /** A marker of one block stays clear of another block's rendering. */
  lemma AvoidsRendered(left: string, b: string, e: string, content: string, right: string, doc: string, m: string, p: nat)
    requires IsMarker(b) && IsMarker(e) && IsMarker(m) && Apart(m, b) && Apart(m, e) && Free(content, m)
    requires doc == left + (Rendered(b, e, content) + right) && MatchesAt(doc, m, p)
    ensures p + |m| <= |left| || |left| + |Rendered(b, e, content)| <= p
  {
    RenderedParts(left, b, e, content, right);
    ConcatAssociative(left, b, Filling(content) + (e + right));
    AvoidsMarker(left, b, Filling(content) + (e + right), doc, m, p);
    ConcatAssociative(left + b, Filling(content), e + right);
    AvoidsMarker((left + b) + Filling(content), e, right, doc, m, p);
    MarkerAvoidsFilling(left + b, content, e + right, m, p);
  }

  lemma AvoidsMarker(left: string, b: string, right: string, doc: string, m: string, p: nat)
    requires IsMarker(b) && IsMarker(m) && Apart(m, b)
    requires doc == left + (b + right) && MatchesAt(doc, m, p)
    ensures p + |m| <= |left| || |left| + |b| <= p
  {
    MatchIsSlice(doc, b, |left|);
    assert doc[|left|..|left| + |b|] == b;
    MarkersDoNotOverlap(doc, m, p, b, |left|);
  }

  /** Matches that stay clear of a stretch survive its replacement, moved along with what follows it. */
  lemma MatchTransfers(left: string, was: string, becomes: string, right: string, m: string, p: nat)
    ensures p + |m| <= |left| ==>
      (MatchesAt(left + (was + right), m, p) <==> MatchesAt(left + (becomes + right), m, p))
    ensures MatchesAt(left + (was + right), m, |left| + |was| + p) <==> MatchesAt(left + (becomes + right), m, |left| + |becomes| + p)
  {
    if p + |m| <= |left| {
      MatchInPrefix(left, was + right, m, p);
      MatchInPrefix(left, becomes + right, m, p);
    }
    ConcatAssociative(left, was, right);
    ConcatAssociative(left, becomes, right);
    MatchInSuffix(left + was, right, m, p);
    MatchInSuffix(left + becomes, right, m, p);
  }

  lemma BlockExists(doc: string, b: string, e: string, p: nat, q: nat)
    requires MatchesAt(doc, b, p) && MatchesAt(doc, e, q) && p + |b| <= q
    ensures FirstBlock(doc, b, e).Some?
  {
  }

  /** The stretch `was` has been replaced by another block's rendering. */
  ghost predicate Swapped(
    left: string, was: string, b: string, e: string, content: string, right: string, before: string, after: string)
  {
    && IsMarker(b) && IsMarker(e)
    && before == left + (was + right)
    && after == left + (Rendered(b, e, content) + right)
  }

  /** A marker that may be looked for next to a block rendered with this content. */
  ghost predicate Foreign(m: string, b: string, e: string, content: string) {
    IsMarker(m) && Apart(m, b) && Apart(m, e) && Free(content, m)
  }

  /** Where a foreign marker was before the other block was replaced. */
  function Earlier(p: nat, left: string, was: string, rendered: string): int {
    if p < |left| + |rendered| then p else p - |rendered| + |was|
  }

  lemma ForeignTransfers(left: string, was: string, b: string, e: string, content: string, right: string,
                         before: string, after: string, m: string, p: nat)
    requires Swapped(left, was, b, e, content, right, before, after)
    requires Foreign(m, b, e, content) && MatchesAt(after, m, p)
    ensures p + |m| <= |left| || |left| + |Rendered(b, e, content)| <= p
    ensures 0 <= Earlier(p, left, was, Rendered(b, e, content))
    ensures MatchesAt(before, m, Earlier(p, left, was, Rendered(b, e, content)))
  {
    var rendered := Rendered(b, e, content);
    AvoidsRendered(left, b, e, content, right, after, m, p);
    if p + |m| <= |left| {
      MatchTransfers(left, was, rendered, right, m, p);
    } else {
      MatchTransfers(left, was, rendered, right, m, p - |left| - |rendered|);
    }
  }

  /** Replacing one block does not create another. */
  lemma BlockWasThere(left: string, was: string, b: string, e: string, content: string, right: string,
                      before: string, after: string, b1: string, e1: string)
    requires Swapped(left, was, b, e, content, right, before, after)
    requires Foreign(b1, b, e, content) && Foreign(e1, b, e, content)
    requires FirstBlock(after, b1, e1).Some?
    ensures FirstBlock(before, b1, e1).Some?
  {
    var (p, q) := FirstBlock(after, b1, e1).value;
    ForeignTransfers(left, was, b, e, content, right, before, after, b1, p);
    ForeignTransfers(left, was, b, e, content, right, before, after, e1, q);
    var rendered := Rendered(b, e, content);
    BlockExists(before, b1, e1, Earlier(p, left, was, rendered), Earlier(q, left, was, rendered));
  }

  lemma NoBlockTransfers(left: string, was: string, b: string, e: string, content: string, right: string,
                         before: string, after: string, b1: string, e1: string)
    requires Swapped(left, was, b, e, content, right, before, after)
    requires Foreign(b1, b, e, content) && Foreign(e1, b, e, content)
    requires FirstBlock(before, b1, e1) == None
    ensures FirstBlock(after, b1, e1) == None
  {
    if FirstBlock(after, b1, e1).Some? {
      BlockWasThere(left, was, b, e, content, right, before, after, b1, e1);
    }
  }

  /** Replacing a block in front of the first begin marker only moves that marker. */
  lemma FirstBeginTransfers(left: string, was: string, b: string, e: string, content: string, right: string,
                            before: string, after: string, m: string, d: nat)
    requires Swapped(left, was, b, e, content, right, before, after)
    requires Foreign(m, b, e, content)
    requires FindFrom(before, m, 0) == Some(|left| + |was| + d)
    ensures FindFrom(after, m, 0) == Some(|left| + |Rendered(b, e, content)| + d)
  {
    var rendered := Rendered(b, e, content);
    MatchTransfers(left, was, rendered, right, m, d);
    forall j: nat | j < |left| + |rendered| + d
      ensures !MatchesAt(after, m, j)
    {
      if MatchesAt(after, m, j) {
        ForeignTransfers(left, was, b, e, content, right, before, after, m, j);
      }
    }
    FindFromIs(after, m, 0, |left| + |rendered| + d);
  }

  /** Two blocks with markers and contents that do not get in each other's way. */
  ghost predicate Separate(b1: string, e1: string, c1: string, b2: string, e2: string, c2: string) {
    && IsMarker(b1) && IsMarker(e1) && IsMarker(b2) && IsMarker(e2)
    && Foreign(b1, b2, e2, c2) && Foreign(e1, b2, e2, c2) && Free(c2, e2)
    && Foreign(b2, b1, e1, c1) && Foreign(e2, b1, e1, c1) && Free(c1, e1)
  }

  /** The first block replaced: where it stands now, and that it is still first. */
  ghost predicate FirstDone(doc: string, b1: string, e1: string, c1: string, head: string, tail: string) {
    && doc == head + (Rendered(b1, e1, c1) + tail)
    && FindFrom(doc, b1, 0) == Some(|head|)
    && FirstBlock(tail, b1, e1) == None
  }

  lemma ReplaceFirst(doc: string, b1: string, e1: string, c1: string) returns (head: string, inner: string, tail: string)
    requires IsMarker(b1) && IsMarker(e1) && ReplaceBlock(doc, b1, e1, c1).Ok?
    ensures FirstDone(ReplaceBlock(doc, b1, e1, c1).value, b1, e1, c1, head, tail)
    ensures doc == Layout(head, b1, inner, e1, tail) && FindFrom(doc, b1, 0) == Some(|head|)
  {
    head, inner, tail := TakeApart(doc, b1, e1, c1);
    RenderedParts(head, b1, e1, c1, tail);
    BeginStaysFirst(head, b1, inner + (e1 + tail), Filling(c1) + (e1 + tail));
  }

  /** A document whose first block has just been rendered is left alone by rendering it again. */
  lemma DoneStays(doc: string, b1: string, e1: string, c1: string, head: string, tail: string)
    requires IsMarker(b1) && IsMarker(e1) && Free(c1, e1)
    requires FirstDone(doc, b1, e1, c1, head, tail)
    ensures ReplaceBlock(doc, b1, e1, c1) == Ok(doc)
  {
    RenderedIsOneBlock(head, b1, e1, c1, tail, doc);
    PutTogether(doc, b1, e1, c1, head, Filling(c1), tail);
  }

  /** The second block stands wholly in front of the first. */
  lemma SecondInFront(r1: string, b1: string, e1: string, c1: string, b2: string, e2: string, c2: string,
                      head: string, tail: string, left: string, was: string, right: string, h: string)
    requires Separate(b1, e1, c1, b2, e2, c2)
    requires FirstDone(r1, b1, e1, c1, head, tail) && Swapped(left, was, b2, e2, c2, right, r1, h)
    requires |left| + |was| <= |head|
    ensures ReplaceBlock(h, b1, e1, c1) == Ok(h)
  {
    var d := |head| - |left| - |was|;
    FrontOfRight(r1, head, Rendered(b1, e1, c1) + tail, left, was, right);
    FirstBeginTransfers(left, was, b2, e2, c2, right, r1, h, b1, d);
    MovedFirstStays(h, b1, e1, c1, left, Rendered(b2, e2, c2), right, d, tail);
  }

  lemma MovedFirstStays(h: string, b1: string, e1: string, c1: string, left: string, other: string, right: string,
                        d: nat, tail: string)
    requires IsMarker(b1) && IsMarker(e1) && Free(c1, e1) && FirstBlock(tail, b1, e1) == None
    requires h == left + (other + right) && d <= |right| && right == right[..d] + (Rendered(b1, e1, c1) + tail)
    requires FindFrom(h, b1, 0) == Some(|left| + |other| + d)
    ensures ReplaceBlock(h, b1, e1, c1) == Ok(h)
  {
    RegroupFront(left, other, right, right[..d], Rendered(b1, e1, c1) + tail);
    DoneStays(h, b1, e1, c1, (left + other) + right[..d], tail);
  }

  lemma RegroupFront(left: string, middle: string, right: string, front: string, rest: string)
    requires right == front + rest
    ensures left + (middle + right) == ((left + middle) + front) + rest
    ensures |(left + middle) + front| == |left| + |middle| + |front|
  {
    ConcatAssociative(left, middle, right);
    ConcatAssociative(left + middle, front, rest);
  }

  lemma FrontOfRight(doc: string, head: string, rest: string, left: string, was: string, right: string)
    requires doc == head + rest && doc == left + (was + right) && |left| + |was| <= |head|
    ensures |head| - |left| - |was| <= |right|
    ensures right == right[..|head| - |left| - |was|] + rest
  {
    ConcatAssociative(left, was, right);
    SplitRight(head, rest, left + was, right);
  }

  lemma SplitRight(a: string, x: string, b: string, y: string)
    requires a + x == b + y && |b| <= |a|
    ensures y == y[..|a| - |b|] + x
  {
    assert y == (a + x)[|b|..];
    assert y[|a| - |b|..] == x;
  }

  /** The second block stands wholly behind the first. */
  lemma SecondBehind(r1: string, b1: string, e1: string, c1: string, b2: string, e2: string, c2: string,
                     head: string, tail: string, left: string, was: string, right: string, h: string)
    requires Separate(b1, e1, c1, b2, e2, c2)
    requires FirstDone(r1, b1, e1, c1, head, tail) && Swapped(left, was, b2, e2, c2, right, r1, h)
    requires |head| + |Rendered(b1, e1, c1)| <= |left|
    ensures ReplaceBlock(h, b1, e1, c1) == Ok(h)
  {
    var block := Rendered(b1, e1, c1);
    var n := |head| + |block|;
    var between := left[n..];
    ConcatAssociative(head, block, tail);
    assert r1[..n] == head + block && r1[n..] == tail;
    assert left[..n] == head + block && tail == between + (was + right);
    SplitConcat(left, n);
    var tail' := between + (Rendered(b2, e2, c2) + right);
    ConcatAssociative(head + block, between, Rendered(b2, e2, c2) + right);
    ConcatAssociative(head, block, tail');
    NoBlockTransfers(between, was, b2, e2, c2, right, tail, tail', b1, e1);
    BeginOfRendered(head, b1, e1, c1, tail, tail');
    DoneStays(h, b1, e1, c1, head, tail');
  }

  lemma BeginOfRendered(head: string, b1: string, e1: string, c1: string, tail: string, tail': string)
    requires FindFrom(head + (Rendered(b1, e1, c1) + tail), b1, 0) == Some(|head|)
    ensures FindFrom(head + (Rendered(b1, e1, c1) + tail'), b1, 0) == Some(|head|)
  {
    RenderedParts(head, b1, e1, c1, tail);
    RenderedParts(head, b1, e1, c1, tail');
    BeginStaysFirst(head, b1, Filling(c1) + (e1 + tail), Filling(c1) + (e1 + tail'));
  }

  /** The second block encloses the first, and its replacement leaves no first block behind. */
  lemma SecondEncloses(r1: string, b1: string, e1: string, c1: string, b2: string, e2: string, c2: string,
                       head: string, tail: string, left: string, was: string, right: string, h: string)
    requires Separate(b1, e1, c1, b2, e2, c2)
    requires FirstDone(r1, b1, e1, c1, head, tail) && Swapped(left, was, b2, e2, c2, right, r1, h)
    requires |left| <= |head| && |head| + |Rendered(b1, e1, c1)| <= |left| + |was|
    ensures ReplaceBlock(h, b1, e1, c1) == Err(WrongBlockCount(0))
  {
    if FirstBlock(h, b1, e1).Some? {
      var (p, q) := FirstBlock(h, b1, e1).value;
      ForeignTransfers(left, was, b2, e2, c2, right, r1, h, b1, p);
      ForeignTransfers(left, was, b2, e2, c2, right, r1, h, e1, q);
      var rendered := Rendered(b2, e2, c2);
      NoBlockBehind(r1, head, Rendered(b1, e1, c1), tail, b1, e1,
                    Earlier(p, left, was, rendered), Earlier(q, left, was, rendered));
    }
  }

  /** With no block in the tail, a block of the whole starts before it. */
  lemma NoBlockBehind(doc: string, head: string, block: string, tail: string, b: string, e: string, p: nat, q: nat)
    requires doc == head + (block + tail) && FirstBlock(tail, b, e) == None
    requires MatchesAt(doc, b, p) && MatchesAt(doc, e, q) && p + |b| <= q
    ensures p < |head| + |block|
  {
    var n := |head| + |block|;
    if p >= n {
      ConcatAssociative(head, block, tail);
      MatchInSuffix(head + block, tail, b, p - n);
      MatchInSuffix(head + block, tail, e, q - n);
    }
  }

  /** The second block's begin comes before the first block's, and its end does not. */
  predicate Encloses(doc: string, b1: string, b2: string, e2: string) {
    var first, second := FindFrom(doc, b1, 0), FindFrom(doc, b2, 0);
    first.Some? && second.Some? && second.value < first.value
    && var end := FindFrom(doc, e2, second.value + |b2|); end.None? || end.value > first.value
  }

  lemma SamePrefix(head: string, x: string, y: string, m: string, p: nat)
    requires p + |m| <= |head|
    ensures MatchesAt(head + x, m, p) <==> MatchesAt(head + y, m, p)
  {
    MatchInPrefix(head, x, m, p);
    MatchInPrefix(head, y, m, p);
  }

  /** A foreign marker in front of the first block ends in front of it, before and after rendering alike. */
  lemma InFrontAlike(head: string, x: string, y: string, b1: string, m: string, p: nat)
    requires IsMarker(b1) && IsMarker(m) && Apart(m, b1) && MatchesAt(head + x, b1, |head|)
    requires MatchesAt(head + x, m, p) && p <= |head|
    ensures p + |m| <= |head| && MatchesAt(head + y, m, p)
  {
    MarkersDoNotOverlap(head + x, m, p, b1, |head|);
    SamePrefix(head, x, y, m, p);
  }

  /** Whether the second block encloses the first can be read off the document before rendering. */
  lemma EnclosesIff(doc: string, r1: string, head: string, x: string, y: string,
                    b1: string, b2: string, e2: string, i: nat, j: nat)
    requires IsMarker(b1) && IsMarker(b2) && IsMarker(e2) && Apart(b2, b1) && Apart(e2, b1)
    requires doc == head + x && r1 == head + y
    requires FindFrom(doc, b1, 0) == Some(|head|) && FindFrom(r1, b1, 0) == Some(|head|)
    requires FindFrom(r1, b2, 0) == Some(i) && FindFrom(r1, e2, i + |b2|) == Some(j)
    ensures Encloses(doc, b1, b2, e2) <==> i < |head| < j
  {
    var second := FindFrom(doc, b2, 0);
    if i < |head| {
      InFrontAlike(head, y, x, b1, b2, i);
      if second.value < i {
        InFrontAlike(head, x, y, b1, b2, second.value);
      }
      var end := FindFrom(doc, e2, i + |b2|);
      if j <= |head| {
        InFrontAlike(head, y, x, b1, e2, j);
      }
      if end.Some? && end.value <= |head| {
        InFrontAlike(head, x, y, b1, e2, end.value);
      }
      MatchBeginApart(r1, e2, b1, j, |head|);
    } else if second.Some? && second.value < |head| {
      InFrontAlike(head, x, y, b1, b2, second.value);
    }
  }

  lemma MatchBeginApart(doc: string, m: string, n: string, p: nat, q: nat)
    requires IsMarker(m) && IsMarker(n) && Apart(m, n) && MatchesAt(doc, m, p) && MatchesAt(doc, n, q)
    ensures p != q
  {
    MarkersDoNotOverlap(doc, m, p, n, q);
  }

  function RenderTwo(doc: string, b1: string, e1: string, c1: string, b2: string, e2: string, c2: string)
    : Result<string, RenderError>
    requires |b1| > 0 && |b2| > 0
  {
    var first := ReplaceBlock(doc, b1, e1, c1);
    if first.Err? then first else ReplaceBlock(first.value, b2, e2, c2)
  }

  /** A block as one stretch of the document. */
  lemma BlockStretch(doc: string, left: string, b: string, inner: string, e: string, right: string, was: string)
    requires doc == Layout(left, b, inner, e, right) && was == b + (inner + e)
    ensures doc == left + (was + right) && |was| == |b| + |inner| + |e|
  {
    ConcatAssociative(inner, e, right);
    ConcatAssociative(b, inner + e, right);
  }

  /** Taking out the second block as one stretch. */
  lemma TakeSecond(r1: string, b2: string, e2: string, c2: string, h: string)
    returns (left: string, was: string, right: string, j: nat)
    requires IsMarker(b2) && IsMarker(e2) && ReplaceBlock(r1, b2, e2, c2) == Ok(h)
    ensures Swapped(left, was, b2, e2, c2, right, r1, h)
    ensures FindFrom(r1, b2, 0) == Some(|left|) && FindFrom(r1, e2, |left| + |b2|) == Some(j)
    ensures j + |e2| == |left| + |was|
  {
    var inner;
    left, inner, right := TakeApart(r1, b2, e2, c2);
    was := b2 + (inner + e2);
    j := |left| + |b2| + |inner|;
    BlockStretch(r1, left, b2, inner, e2, right, was);
  }

  /** The second block is behind the first, in front of it, or around it. */
  lemma SecondPlaced(r1: string, b1: string, e1: string, c1: string, b2: string, e2: string,
                     head: string, tail: string, i: nat, j: nat)
    requires IsMarker(b1) && IsMarker(e1) && Foreign(b2, b1, e1, c1) && Foreign(e2, b1, e1, c1)
    requires FirstDone(r1, b1, e1, c1, head, tail)
    requires MatchesAt(r1, b2, i) && MatchesAt(r1, e2, j) && i + |b2| <= j
    ensures |head| + |Rendered(b1, e1, c1)| <= i || i < |head|
    ensures i < |head| ==> j + |e2| <= |head| || (|head| < j && |head| + |Rendered(b1, e1, c1)| <= j)
  {
    AvoidsRendered(head, b1, e1, c1, tail, r1, b2, i);
    AvoidsRendered(head, b1, e1, c1, tail, r1, e2, j);
  }

  /** What rendering the first block again does, by where the second one stood. */
  lemma FirstAgain(r1: string, b1: string, e1: string, c1: string, b2: string, e2: string, c2: string,
                   head: string, tail: string, left: string, was: string, right: string, h: string, j: nat)
    requires Separate(b1, e1, c1, b2, e2, c2)
    requires FirstDone(r1, b1, e1, c1, head, tail) && Swapped(left, was, b2, e2, c2, right, r1, h)
    requires MatchesAt(r1, b2, |left|) && MatchesAt(r1, e2, j) && |left| + |b2| <= j && j + |e2| == |left| + |was|
    ensures ReplaceBlock(h, b1, e1, c1) == if |left| < |head| < j then Err(WrongBlockCount(0)) else Ok(h)
  {
    SecondPlaced(r1, b1, e1, c1, b2, e2, head, tail, |left|, j);
    if |left| >= |head| {
      SecondBehind(r1, b1, e1, c1, b2, e2, c2, head, tail, left, was, right, h);
    } else if j <= |head| {
      SecondInFront(r1, b1, e1, c1, b2, e2, c2, head, tail, left, was, right, h);
    } else {
      SecondEncloses(r1, b1, e1, c1, b2, e2, c2, head, tail, left, was, right, h);
    }
  }

  /** Rendering both blocks reaches a fixpoint exactly when the second does not enclose the first. */
  lemma RenderFixpointIff(doc: string, b1: string, e1: string, c1: string, b2: string, e2: string, c2: string)
    requires Separate(b1, e1, c1, b2, e2, c2) && RenderTwo(doc, b1, e1, c1, b2, e2, c2).Ok?
    ensures RenderTwo(RenderTwo(doc, b1, e1, c1, b2, e2, c2).value, b1, e1, c1, b2, e2, c2)
         == if Encloses(doc, b1, b2, e2) then Err(WrongBlockCount(0)) else RenderTwo(doc, b1, e1, c1, b2, e2, c2)
  {
    var r1 := ReplaceBlock(doc, b1, e1, c1).value;
    var h := ReplaceBlock(r1, b2, e2, c2).value;
    FirstAgainByDocument(doc, r1, h, b1, e1, c1, b2, e2, c2);
    ReplaceIdempotentIff(r1, b2, e2, c2);
  }

  lemma FirstAgainByDocument(doc: string, r1: string, h: string,
                             b1: string, e1: string, c1: string, b2: string, e2: string, c2: string)
    requires Separate(b1, e1, c1, b2, e2, c2)
    requires ReplaceBlock(doc, b1, e1, c1) == Ok(r1) && ReplaceBlock(r1, b2, e2, c2) == Ok(h)
    ensures ReplaceBlock(h, b1, e1, c1) == if Encloses(doc, b1, b2, e2) then Err(WrongBlockCount(0)) else Ok(h)
  {
    var head, inner, tail := ReplaceFirst(doc, b1, e1, c1);
    var i, j := FirstAgainWhereFound(r1, h, b1, e1, c1, b2, e2, c2, head, tail);
    EnclosedByDocument(doc, r1, b1, e1, c1, head, inner, tail, b2, e2, i, j);
  }

  lemma FirstAgainWhereFound(r1: string, h: string, b1: string, e1: string, c1: string, b2: string, e2: string, c2: string,
                             head: string, tail: string)
    returns (i: nat, j: nat)
    requires Separate(b1, e1, c1, b2, e2, c2) && FirstDone(r1, b1, e1, c1, head, tail)
    requires ReplaceBlock(r1, b2, e2, c2) == Ok(h)
    ensures FindFrom(r1, b2, 0) == Some(i) && FindFrom(r1, e2, i + |b2|) == Some(j)
    ensures ReplaceBlock(h, b1, e1, c1) == if i < |head| < j then Err(WrongBlockCount(0)) else Ok(h)
  {
    var left, was, right;
    left, was, right, j := TakeSecond(r1, b2, e2, c2, h);
    i := |left|;
    FirstAgain(r1, b1, e1, c1, b2, e2, c2, head, tail, left, was, right, h, j);
  }

  lemma EnclosedByDocument(doc: string, r1: string, b1: string, e1: string, c1: string, head: string, inner: string,
                           tail: string, b2: string, e2: string, i: nat, j: nat)
    requires IsMarker(b1) && IsMarker(b2) && IsMarker(e2) && Apart(b2, b1) && Apart(e2, b1)
    requires doc == Layout(head, b1, inner, e1, tail) && FindFrom(doc, b1, 0) == Some(|head|)
    requires FirstDone(r1, b1, e1, c1, head, tail)
    requires FindFrom(r1, b2, 0) == Some(i) && FindFrom(r1, e2, i + |b2|) == Some(j)
    ensures Encloses(doc, b1, b2, e2) <==> i < |head| < j
  {
    EnclosesIff(doc, r1, head, b1 + (inner + (e1 + tail)), Rendered(b1, e1, c1) + tail, b1, b2, e2, i, j);
  }

  // ---- The homepage ------------------------------------------------------------------------

  const GENERATED_AT := "generated-at"
  const STATIC_SUMMARY := "static-summary"

  function RenderHomepage(homepage: string, generatedAt: string, staticSummary: string): Result<string, RenderError> {
    RenderTwo(homepage, Begin(GENERATED_AT), End(GENERATED_AT), generatedAt,
              Begin(STATIC_SUMMARY), End(STATIC_SUMMARY), staticSummary)
  }

  /** The timestamp goes between its markers first, then the summary between its own. */
  lemma HomepageIs(homepage: string, generatedAt: string, staticSummary: string, out: string)
    ensures RenderHomepage(homepage, generatedAt, staticSummary) == Ok(out) <==>
      exists stamped ::
        && ReplaceBlock(homepage, "<!-- BEGIN GENERATED:generated-at -->", "<!-- END GENERATED:generated-at -->", generatedAt)
        == Ok(stamped)
        && ReplaceBlock(stamped, "<!-- BEGIN GENERATED:static-summary -->", "<!-- END GENERATED:static-summary -->", staticSummary)
        == Ok(out)
  {
    MarkerTexts();
  }

  lemma MarkerTexts()
    ensures Begin(GENERATED_AT) == "<!-- BEGIN GENERATED:generated-at -->"
    ensures End(GENERATED_AT) == "<!-- END GENERATED:generated-at -->"
    ensures Begin(STATIC_SUMMARY) == "<!-- BEGIN GENERATED:static-summary -->"
    ensures End(STATIC_SUMMARY) == "<!-- END GENERATED:static-summary -->"
  {
    TimestampMarkers();
    SummaryMarkers();
  }

  lemma TimestampMarkers()
    ensures Begin(GENERATED_AT) == "<!-- BEGIN GENERATED:generated-at -->"
    ensures End(GENERATED_AT) == "<!-- END GENERATED:generated-at -->"
  {
  }

  lemma SummaryMarkers()
    ensures Begin(STATIC_SUMMARY) == "<!-- BEGIN GENERATED:static-summary -->"
    ensures End(STATIC_SUMMARY) == "<!-- END GENERATED:static-summary -->"
  {
  }

  predicate PlainId(id: string) {
    forall k :: 0 <= k < |id| ==> id[k] != '<' && id[k] != '\n'
  }

  lemma MarkersOf(id: string)
    requires PlainId(id)
    ensures IsMarker(Begin(id)) && IsMarker(End(id))
  {
    assert PlainId(BEGIN_PREFIX[1..]) && PlainId(END_PREFIX[1..]) && PlainId(SUFFIX);
  }

  /** Replacing the marked block of an id is idempotent exactly when the content does not contain its end marker. */
  lemma GeneratedBlockIdempotentIff(doc: string, id: string, content: string)
    requires PlainId(id) && ReplaceGeneratedBlock(doc, id, content).Ok?
    ensures var once := ReplaceGeneratedBlock(doc, id, content);
      ReplaceGeneratedBlock(once.value, id, content) == once <==> Free(content, End(id))
  {
    MarkersOf(id);
    ReplaceIdempotentIff(doc, Begin(id), End(id), content);
  }

  lemma MarkersApart(id: string, other: string)
    requires |id| > 0 && |other| > 0 && id[0] != other[0]
    ensures Apart(Begin(id), Begin(other)) && Apart(Begin(id), End(other))
    ensures Apart(End(id), Begin(other)) && Apart(End(id), End(other))
  {
    var p, q := |BEGIN_PREFIX|, |END_PREFIX|;
    assert Begin(id)[p] == id[0] && Begin(other)[p] == other[0];
    assert End(id)[q] == id[0] && End(other)[q] == other[0];
    assert Begin(id)[5] == 'B' && Begin(other)[5] == 'B' && End(id)[5] == 'E' && End(other)[5] == 'E';
  }

  /** Generated content carries no end marker of its own block and no marker of the other. */
  ghost predicate CleanContents(generatedAt: string, staticSummary: string) {
    && Free(generatedAt, End(GENERATED_AT)) && Free(generatedAt, Begin(STATIC_SUMMARY)) && Free(generatedAt, End(STATIC_SUMMARY))
    && Free(staticSummary, End(STATIC_SUMMARY)) && Free(staticSummary, Begin(GENERATED_AT)) && Free(staticSummary, End(GENERATED_AT))
  }

  /** A page whose summary block encloses its timestamp block. */
  predicate SummaryEnclosesTimestamp(homepage: string) {
    Encloses(homepage, Begin(GENERATED_AT), Begin(STATIC_SUMMARY), End(STATIC_SUMMARY))
  }

  lemma HomepageFixpointIff(homepage: string, generatedAt: string, staticSummary: string)
    requires CleanContents(generatedAt, staticSummary) && RenderHomepage(homepage, generatedAt, staticSummary).Ok?
    ensures RenderHomepage(RenderHomepage(homepage, generatedAt, staticSummary).value, generatedAt, staticSummary)
         == if SummaryEnclosesTimestamp(homepage) then Err(WrongBlockCount(0))
            else RenderHomepage(homepage, generatedAt, staticSummary)
  {
    HomepageMarkers(generatedAt, staticSummary);
    RenderFixpointIff(homepage, Begin(GENERATED_AT), End(GENERATED_AT), generatedAt,
                      Begin(STATIC_SUMMARY), End(STATIC_SUMMARY), staticSummary);
  }

  // ---- What is read back -------------------------------------------------------------------

  /** `read_text`: files are stored as written, but carriage returns are read as line feeds. */
  function ReadText(stored: string): string {
    if stored == [] then []
    else if stored[0] != '\r' then [stored[0]] + ReadText(stored[1..])
    else "\n" + ReadText(if |stored| > 1 && stored[1] == '\n' then stored[2..] else stored[1..])
  }

  predicate Plain(text: string) {
    '\r' !in text
  }

  lemma {:induction false} ReadIsPlain(stored: string)
    ensures Plain(ReadText(stored))
    decreases |stored|
  {
    if stored != [] {
      ReadIsPlain(stored[1..]);
      if |stored| > 1 {
        ReadIsPlain(stored[2..]);
      }
    }
  }

  /** Texts are read part by part, unless a part ends inside a line end of two characters. */
  lemma {:induction false} ReadConcat(a: string, b: string)
    requires a == "" || b == "" || a[|a| - 1] != '\r' || b[0] != '\n'
    ensures ReadText(a + b) == ReadText(a) + ReadText(b)
    decreases |a|
  {
    if a == "" {
      ConcatEmpty(b);
      ConcatEmpty(ReadText(b));
    } else if |a| > 1 && a[0] == '\r' && a[1] == '\n' {
      assert (a + b)[2..] == a[2..] + b;
      ReadConcat(a[2..], b);
      ConcatAssociative("\n", ReadText(a[2..]), ReadText(b));
    } else {
      assert (a + b)[1..] == a[1..] + b;
      ReadConcat(a[1..], b);
      ConcatAssociative(if a[0] == '\r' then "\n" else [a[0]], ReadText(a[1..]), ReadText(b));
    }
  }

  /** Each of the three line ends is read as a line feed. */
  lemma LineEndsAreRead(a: string, b: string)
    ensures ReadText(a + ("\r\n" + b)) == ReadText(a) + ("\n" + ReadText(b))
    ensures b == "" || b[0] != '\n' ==> ReadText(a + ("\r" + b)) == ReadText(a) + ("\n" + ReadText(b))
    ensures a == "" || a[|a| - 1] != '\r' ==> ReadText(a + ("\n" + b)) == ReadText(a) + ("\n" + ReadText(b))
  {
    assert ("\r\n" + b)[2..] == b && ("\r" + b)[1..] == b && ("\n" + b)[1..] == b;
    ReadConcat(a, "\r\n" + b);
    ReadConcat(a, "\r" + b);
    if a == "" || a[|a| - 1] != '\r' {
      ReadConcat(a, "\n" + b);
    }
  }

  /** A text is read back as it was written exactly when it has no carriage return. */
  lemma {:induction false} ReadBackIff(text: string)
    ensures ReadText(text) == text <==> Plain(text)
  {
    ReadIsPlain(text);
    if text != [] && Plain(text) {
      ReadBackIff(text[1..]);
      assert text == [text[0]] + text[1..];
    }
  }

  lemma PlainConcat(a: string, b: string)
    ensures Plain(a + b) <==> Plain(a) && Plain(b)
  {
  }

  lemma RenderedPlain(b: string, e: string, content: string)
    requires Plain(b) && Plain(e)
    ensures Plain(Rendered(b, e, content)) <==> Plain(content)
  {
    PlainConcat(b + "\n" + content, "\n" + e);
  }

  lemma PiecesPlain(head: string, block: string, tail: string)
    ensures Plain(head + (block + tail)) <==> Plain(head) && Plain(block) && Plain(tail)
  {
    PlainConcat(head, block + tail);
    PlainConcat(block, tail);
  }

  /** Replacing a block in a plain text with plain content gives a plain text. */
  lemma ReplaceKeepsPlain(doc: string, b: string, e: string, content: string)
    requires |b| > 0 && Plain(b) && Plain(e) && ReplaceBlock(doc, b, e, content).Ok?
    requires Plain(doc) && Plain(content)
    ensures Plain(ReplaceBlock(doc, b, e, content).value)
  {
    var head, inner, tail := TakeApart(doc, b, e, content);
    PiecesPlain(head, b, inner + (e + tail));
    PlainConcat(inner, e + tail);
    PlainConcat(e, tail);
    RenderedPlain(b, e, content);
    PiecesPlain(head, Rendered(b, e, content), tail);
  }

  /** A text that a block was replaced in holds the block's content. */
  lemma ReplacedHoldsContent(doc: string, b: string, e: string, content: string)
    requires |b| > 0 && Plain(b) && Plain(e) && ReplaceBlock(doc, b, e, content).Ok?
    ensures Plain(ReplaceBlock(doc, b, e, content).value) ==> Plain(content)
  {
    var head, inner, tail := TakeApart(doc, b, e, content);
    RenderedPlain(b, e, content);
    PiecesPlain(head, Rendered(b, e, content), tail);
  }

  lemma RenderTwoKeepsPlain(doc: string, b1: string, e1: string, c1: string, b2: string, e2: string, c2: string)
    requires |b1| > 0 && |b2| > 0 && Plain(b1) && Plain(e1) && Plain(b2) && Plain(e2)
    requires RenderTwo(doc, b1, e1, c1, b2, e2, c2).Ok? && Plain(doc) && Plain(c1) && Plain(c2)
    ensures Plain(RenderTwo(doc, b1, e1, c1, b2, e2, c2).value)
  {
    ReplaceKeepsPlain(doc, b1, e1, c1);
    ReplaceKeepsPlain(ReplaceBlock(doc, b1, e1, c1).value, b2, e2, c2);
  }

  /** A text that rendering leaves alone holds both contents. */
  lemma FixpointHoldsContents(doc: string, b1: string, e1: string, c1: string, b2: string, e2: string, c2: string)
    requires Separate(b1, e1, c1, b2, e2, c2) && Plain(b1) && Plain(e1) && Plain(b2) && Plain(e2)
    requires RenderTwo(doc, b1, e1, c1, b2, e2, c2) == Ok(doc)
    ensures Plain(doc) ==> Plain(c1) && Plain(c2)
  {
    var r1 := ReplaceBlock(doc, b1, e1, c1).value;
    ReplacedHoldsContent(r1, b2, e2, c2);
    RenderFixpointIff(doc, b1, e1, c1, b2, e2, c2);
    FirstAgainByDocument(doc, r1, doc, b1, e1, c1, b2, e2, c2);
    ReplacedHoldsContent(doc, b1, e1, c1);
  }

  lemma HomepageMarkers(generatedAt: string, staticSummary: string)
    requires CleanContents(generatedAt, staticSummary)
    ensures Separate(Begin(GENERATED_AT), End(GENERATED_AT), generatedAt,
                     Begin(STATIC_SUMMARY), End(STATIC_SUMMARY), staticSummary)
    ensures Plain(Begin(GENERATED_AT)) && Plain(End(GENERATED_AT))
    ensures Plain(Begin(STATIC_SUMMARY)) && Plain(End(STATIC_SUMMARY))
  {
    assert PlainId(GENERATED_AT) && PlainId(STATIC_SUMMARY);
    MarkersOf(GENERATED_AT);
    MarkersOf(STATIC_SUMMARY);
    MarkersApart(GENERATED_AT, STATIC_SUMMARY);
    MarkersApart(STATIC_SUMMARY, GENERATED_AT);
    MarkersPlain(GENERATED_AT);
    MarkersPlain(STATIC_SUMMARY);
  }

  lemma MarkersPlain(id: string)
    requires Plain(id)
    ensures Plain(Begin(id)) && Plain(End(id))
  {
    assert Plain(BEGIN_PREFIX) && Plain(END_PREFIX) && Plain(SUFFIX);
    PlainConcat(BEGIN_PREFIX, id);
    PlainConcat(BEGIN_PREFIX + id, SUFFIX);
    PlainConcat(END_PREFIX, id);
    PlainConcat(END_PREFIX + id, SUFFIX);
  }

  /** What was rendered from a plain page, stored and read back, renders to itself again exactly under two conditions. */
  lemma ReadBackFixpointIff(homepage: string, generatedAt: string, staticSummary: string)
    requires CleanContents(generatedAt, staticSummary) && Plain(homepage)
    requires RenderHomepage(homepage, generatedAt, staticSummary).Ok?
    ensures var read := ReadText(RenderHomepage(homepage, generatedAt, staticSummary).value);
      RenderHomepage(read, generatedAt, staticSummary) == Ok(read)
      <==> !SummaryEnclosesTimestamp(homepage) && Plain(generatedAt) && Plain(staticSummary)
  {
    var stored := RenderHomepage(homepage, generatedAt, staticSummary).value;
    var b1, e1, b2, e2 := Begin(GENERATED_AT), End(GENERATED_AT), Begin(STATIC_SUMMARY), End(STATIC_SUMMARY);
    HomepageMarkers(generatedAt, staticSummary);
    ReadIsPlain(stored);
    if Plain(generatedAt) && Plain(staticSummary) {
      RenderTwoKeepsPlain(homepage, b1, e1, generatedAt, b2, e2, staticSummary);
      ReadBackIff(stored);
      HomepageFixpointIff(homepage, generatedAt, staticSummary);
    } else if RenderHomepage(ReadText(stored), generatedAt, staticSummary) == Ok(ReadText(stored)) {
      FixpointHoldsContents(ReadText(stored), b1, e1, generatedAt, b2, e2, staticSummary);
    }
  }

  // ---- The write and check runs ------------------------------------------------------------

  type Path = string

  /** Where the site's files go. */
  datatype Paths = Paths(homepage: Path, sitemap: Path, robots: Path, llms: Path)

  /** What one manifest renders to. Detail pages are HTML files of the detail directory. */
  datatype Rendering = Rendering(
    generatedAt: string, staticSummary: string, sitemap: string, robots: string, llms: string, detailPages: map<Path, string>)

  datatype RunError = BadHomepage(error: RenderError) | NoHomepage | StaleHomepage | StaleDetailPages | StaleFile(path: Path)

  ghost predicate PathsApart(paths: Paths, detailDir: iset<Path>) {
    && paths.homepage !in {paths.sitemap, paths.robots, paths.llms}
    && paths.sitemap !in {paths.robots, paths.llms} && paths.robots != paths.llms
    && paths.homepage !in detailDir && paths.sitemap !in detailDir && paths.robots !in detailDir && paths.llms !in detailDir
  }

  function OrphanedDetailPages(files: map<Path, string>, inDetailDir: Path -> bool, pages: map<Path, string>): set<Path> {
    set p | p in files && inDetailDir(p) && p !in pages
  }

  /** The files after a write run: four files written, orphaned pages removed, expected pages written. */
  function WrittenFiles(files: map<Path, string>, paths: Paths, inDetailDir: Path -> bool, r: Rendering, homepage: string)
    : map<Path, string>
  {
    var main := files[paths.homepage := homepage][paths.sitemap := r.sitemap][paths.robots := r.robots][paths.llms := r.llms];
    main - OrphanedDetailPages(main, inDetailDir, r.detailPages) + r.detailPages
  }

  predicate Holds(files: map<Path, string>, path: Path, content: string) {
    path in files && files[path] == content
  }

  /** What a write run leaves behind. */
  lemma WrittenFacts(files: map<Path, string>, paths: Paths, inDetailDir: Path -> bool, r: Rendering, homepage: string)
    requires PathsApart(paths, iset p: Path | inDetailDir(p)) && forall p :: p in r.detailPages ==> inDetailDir(p)
    ensures var after := WrittenFiles(files, paths, inDetailDir, r, homepage);
      && Holds(after, paths.homepage, homepage) && Holds(after, paths.sitemap, r.sitemap)
      && Holds(after, paths.robots, r.robots) && Holds(after, paths.llms, r.llms)
      && OrphanedDetailPages(after, inDetailDir, r.detailPages) == {}
      && (forall p :: p in r.detailPages ==> Holds(after, p, r.detailPages[p]))
      && (forall p :: p in files && !inDetailDir(p) && p !in {paths.homepage, paths.sitemap, paths.robots, paths.llms}
            ==> Holds(after, p, files[p]))
  {
  }

  predicate ReadsAs(files: map<Path, string>, path: Path, content: string) {
    path in files && ReadText(files[path]) == content
  }

  function CheckFiles(files: map<Path, string>, paths: Paths, inDetailDir: Path -> bool, r: Rendering): Result<(), RunError> {
    if paths.homepage !in files then Err(NoHomepage)
    else
      var homepage := ReadText(files[paths.homepage]);
      var rendered := RenderHomepage(homepage, r.generatedAt, r.staticSummary);
      if rendered.Err? then Err(BadHomepage(rendered.error))
      else if homepage != rendered.value then Err(StaleHomepage)
      else if (exists p :: p in r.detailPages && !ReadsAs(files, p, r.detailPages[p]))
              || OrphanedDetailPages(files, inDetailDir, r.detailPages) != {}
      then Err(StaleDetailPages)
      else if !ReadsAs(files, paths.sitemap, r.sitemap) then Err(StaleFile(paths.sitemap))
      else if !ReadsAs(files, paths.robots, r.robots) then Err(StaleFile(paths.robots))
      else if !ReadsAs(files, paths.llms, r.llms) then Err(StaleFile(paths.llms))
      else Ok(())
  }

  /** On any files: the check passes exactly when nothing is missing, stale or orphaned. */
  lemma CheckPassesIff(files: map<Path, string>, paths: Paths, inDetailDir: Path -> bool, r: Rendering)
    ensures CheckFiles(files, paths, inDetailDir, r).Ok? <==>
      && paths.homepage in files
      && RenderHomepage(ReadText(files[paths.homepage]), r.generatedAt, r.staticSummary) == Ok(ReadText(files[paths.homepage]))
      && (forall p :: p in r.detailPages ==> p in files && ReadText(files[p]) == r.detailPages[p])
      && (forall p :: p in files && inDetailDir(p) ==> p in r.detailPages)
      && paths.sitemap in files && ReadText(files[paths.sitemap]) == r.sitemap
      && paths.robots in files && ReadText(files[paths.robots]) == r.robots
      && paths.llms in files && ReadText(files[paths.llms]) == r.llms
  {
    var orphans := OrphanedDetailPages(files, inDetailDir, r.detailPages);
    assert orphans == {} <==> forall p :: p in files && inDetailDir(p) ==> p in r.detailPages by {
      assert forall p :: p in files && inDetailDir(p) && p !in r.detailPages ==> p in orphans;
    }
  }

  /** No rendered text has a carriage return in it. */
  predicate PlainRendering(r: Rendering) {
    && Plain(r.generatedAt) && Plain(r.staticSummary) && Plain(r.sitemap) && Plain(r.robots) && Plain(r.llms)
    && forall p :: p in r.detailPages ==> Plain(r.detailPages[p])
  }

  lemma HeldReadsAsIff(files: map<Path, string>, path: Path, content: string)
    requires Holds(files, path, content)
    ensures ReadsAs(files, path, content) <==> Plain(content)
  {
    ReadBackIff(content);
  }

  /** The check of what a write run left behind. */
  lemma CheckAfterWriteIff(files: map<Path, string>, paths: Paths, inDetailDir: Path -> bool, r: Rendering, before: string)
    requires PathsApart(paths, iset p: Path | inDetailDir(p)) && forall p :: p in r.detailPages ==> inDetailDir(p)
    requires CleanContents(r.generatedAt, r.staticSummary) && Plain(before)
    requires RenderHomepage(before, r.generatedAt, r.staticSummary).Ok?
    ensures var homepage := RenderHomepage(before, r.generatedAt, r.staticSummary).value;
      CheckFiles(WrittenFiles(files, paths, inDetailDir, r, homepage), paths, inDetailDir, r).Ok?
      <==> !SummaryEnclosesTimestamp(before) && PlainRendering(r)
  {
    var homepage := RenderHomepage(before, r.generatedAt, r.staticSummary).value;
    var after := WrittenFiles(files, paths, inDetailDir, r, homepage);
    WrittenFacts(files, paths, inDetailDir, r, homepage);
    ReadBackFixpointIff(before, r.generatedAt, r.staticSummary);
    HeldReadsAsIff(after, paths.sitemap, r.sitemap);
    HeldReadsAsIff(after, paths.robots, r.robots);
    HeldReadsAsIff(after, paths.llms, r.llms);
    forall p | p in r.detailPages
      ensures ReadsAs(after, p, r.detailPages[p]) <==> Plain(r.detailPages[p])
    {
      HeldReadsAsIff(after, p, r.detailPages[p]);
    }
  }

  /** The files as they are read. */
  function AsRead(files: map<Path, string>): map<Path, string> {
    map p | p in files :: ReadText(files[p])
  }

  /** The check passes exactly when a write run would change nothing that is read, and all rendered texts are plain. */
  lemma CheckPassesIffNothingToWrite(files: map<Path, string>, paths: Paths, inDetailDir: Path -> bool, r: Rendering)
    requires PathsApart(paths, iset p: Path | inDetailDir(p)) && forall p :: p in r.detailPages ==> inDetailDir(p)
    requires CleanContents(r.generatedAt, r.staticSummary)
    ensures CheckFiles(files, paths, inDetailDir, r).Ok? <==>
      && paths.homepage in files && PlainRendering(r)
      && var rendered := RenderHomepage(ReadText(files[paths.homepage]), r.generatedAt, r.staticSummary);
         rendered.Ok? && AsRead(WrittenFiles(files, paths, inDetailDir, r, rendered.value)) == AsRead(files)
  {
    CheckPassesIff(files, paths, inDetailDir, r);
    if paths.homepage in files {
      var homepage := ReadText(files[paths.homepage]);
      var rendered := RenderHomepage(homepage, r.generatedAt, r.staticSummary);
      ReadIsPlain(files[paths.homepage]);
      if CheckFiles(files, paths, inDetailDir, r).Ok? {
        PassedIsPlain(files, paths, inDetailDir, r);
        PassedIsWritten(files, paths, inDetailDir, r);
      } else if rendered.Ok? && PlainRendering(r) {
        RenderedHomepagePlain(homepage, r.generatedAt, r.staticSummary);
        UnchangedPasses(files, paths, inDetailDir, r, rendered.value);
      }
    }
  }

  lemma RenderedHomepagePlain(homepage: string, generatedAt: string, staticSummary: string)
    requires CleanContents(generatedAt, staticSummary) && Plain(homepage) && Plain(generatedAt) && Plain(staticSummary)
    requires RenderHomepage(homepage, generatedAt, staticSummary).Ok?
    ensures ReadText(RenderHomepage(homepage, generatedAt, staticSummary).value)
         == RenderHomepage(homepage, generatedAt, staticSummary).value
  {
    var b1, e1, b2, e2 := Begin(GENERATED_AT), End(GENERATED_AT), Begin(STATIC_SUMMARY), End(STATIC_SUMMARY);
    HomepageMarkers(generatedAt, staticSummary);
    RenderTwoKeepsPlain(homepage, b1, e1, generatedAt, b2, e2, staticSummary);
    ReadBackIff(RenderHomepage(homepage, generatedAt, staticSummary).value);
  }

  /** What a passing check compared equal to something read has no carriage return. */
  lemma PassedIsPlain(files: map<Path, string>, paths: Paths, inDetailDir: Path -> bool, r: Rendering)
    requires CleanContents(r.generatedAt, r.staticSummary) && CheckFiles(files, paths, inDetailDir, r).Ok?
    ensures PlainRendering(r)
  {
    var homepage := ReadText(files[paths.homepage]);
    ReadIsPlain(files[paths.homepage]);
    HomepageMarkers(r.generatedAt, r.staticSummary);
    FixpointHoldsContents(homepage, Begin(GENERATED_AT), End(GENERATED_AT), r.generatedAt,
                          Begin(STATIC_SUMMARY), End(STATIC_SUMMARY), r.staticSummary);
    ReadIsPlain(files[paths.sitemap]);
    ReadIsPlain(files[paths.robots]);
    ReadIsPlain(files[paths.llms]);
    forall p | p in r.detailPages
      ensures Plain(r.detailPages[p])
    {
      ReadIsPlain(files[p]);
    }
  }

  lemma PassedIsWritten(files: map<Path, string>, paths: Paths, inDetailDir: Path -> bool, r: Rendering)
    requires PathsApart(paths, iset p: Path | inDetailDir(p)) && forall p :: p in r.detailPages ==> inDetailDir(p)
    requires CheckFiles(files, paths, inDetailDir, r).Ok? && PlainRendering(r)
    ensures AsRead(WrittenFiles(files, paths, inDetailDir, r, ReadText(files[paths.homepage]))) == AsRead(files)
  {
    var homepage := ReadText(files[paths.homepage]);
    var after := WrittenFiles(files, paths, inDetailDir, r, homepage);
    forall p | p in files
      ensures p in after && ReadText(after[p]) == ReadText(files[p])
    {
      PassedFileIsWritten(files, paths, inDetailDir, r, p);
    }
    forall p | p in after
      ensures p in files
    {
      WrittenWasThere(files, paths, inDetailDir, r, p);
    }
  }

  lemma WrittenWasThere(files: map<Path, string>, paths: Paths, inDetailDir: Path -> bool, r: Rendering, p: Path)
    requires CheckFiles(files, paths, inDetailDir, r).Ok?
    requires p in WrittenFiles(files, paths, inDetailDir, r, ReadText(files[paths.homepage]))
    ensures p in files
  {
    CheckPassesIff(files, paths, inDetailDir, r);
  }

  lemma PassedFileIsWritten(files: map<Path, string>, paths: Paths, inDetailDir: Path -> bool, r: Rendering, p: Path)
    requires PathsApart(paths, iset q: Path | inDetailDir(q)) && forall q :: q in r.detailPages ==> inDetailDir(q)
    requires CheckFiles(files, paths, inDetailDir, r).Ok? && PlainRendering(r) && p in files
    ensures var after := WrittenFiles(files, paths, inDetailDir, r, ReadText(files[paths.homepage]));
      p in after && ReadText(after[p]) == ReadText(files[p])
  {
    var homepage := ReadText(files[paths.homepage]);
    var after := WrittenFiles(files, paths, inDetailDir, r, homepage);
    WrittenFacts(files, paths, inDetailDir, r, homepage);
    CheckPassesIff(files, paths, inDetailDir, r);
    ReadIsPlain(files[paths.homepage]);
    if p in after {
      ReadBackIff(after[p]);
    }
  }

  lemma UnchangedPasses(files: map<Path, string>, paths: Paths, inDetailDir: Path -> bool, r: Rendering, homepage: string)
    requires PathsApart(paths, iset p: Path | inDetailDir(p)) && forall p :: p in r.detailPages ==> inDetailDir(p)
    requires paths.homepage in files && PlainRendering(r) && ReadText(homepage) == homepage
    requires RenderHomepage(ReadText(files[paths.homepage]), r.generatedAt, r.staticSummary) == Ok(homepage)
    ensures AsRead(WrittenFiles(files, paths, inDetailDir, r, homepage)) == AsRead(files) ==>
      CheckFiles(files, paths, inDetailDir, r).Ok?
  {
    var after := WrittenFiles(files, paths, inDetailDir, r, homepage);
    if AsRead(after) == AsRead(files) {
      WrittenFacts(files, paths, inDetailDir, r, homepage);
      SameAsRead(files, after, paths.homepage);
      SameAsRead(files, after, paths.sitemap);
      SameAsRead(files, after, paths.robots);
      SameAsRead(files, after, paths.llms);
      HeldReadsAsIff(after, paths.sitemap, r.sitemap);
      HeldReadsAsIff(after, paths.robots, r.robots);
      HeldReadsAsIff(after, paths.llms, r.llms);
      forall p
        ensures p in r.detailPages ==> p in files && ReadText(files[p]) == r.detailPages[p]
        ensures p in files && inDetailDir(p) ==> p in r.detailPages
      {
        SameAsRead(files, after, p);
        if p in r.detailPages {
          HeldReadsAsIff(after, p, r.detailPages[p]);
        }
        assert p in after && inDetailDir(p) && p !in r.detailPages ==> p in OrphanedDetailPages(after, inDetailDir, r.detailPages);
      }
      CheckPassesIff(files, paths, inDetailDir, r);
    }
  }

  lemma SameAsRead(files: map<Path, string>, after: map<Path, string>, p: Path)
    requires AsRead(after) == AsRead(files)
    ensures p in files <==> p in after
    ensures p in files ==> ReadText(files[p]) == ReadText(after[p])
  {
    assert p in files <==> p in AsRead(files);
    assert p in after <==> p in AsRead(after);
  }

  /** A page with both blocks and nothing else. */
  function EmptyBlocks(): string {
    Rendered(Begin(GENERATED_AT), End(GENERATED_AT), "") + Rendered(Begin(STATIC_SUMMARY), End(STATIC_SUMMARY), "")
  }

  lemma NoneInRendered(b: string, e: string, content: string, m: string, p: nat)
    requires IsMarker(b) && IsMarker(e) && Foreign(m, b, e, content)
    ensures !MatchesAt(Rendered(b, e, content), m, p)
  {
    if MatchesAt(Rendered(b, e, content), m, p) {
      ConcatEmpty(Rendered(b, e, content));
      AvoidsRendered("", b, e, content, "", Rendered(b, e, content), m, p);
    }
  }

  /** Behind a rendered block, the begin of another is the first of its kind. */
  lemma SecondBeginFirst(b1: string, e1: string, c1: string, b2: string, rest: string, doc: string)
    requires IsMarker(b1) && IsMarker(e1) && Foreign(b2, b1, e1, c1)
    requires doc == Rendered(b1, e1, c1) + (b2 + rest)
    ensures FindFrom(doc, b2, 0) == Some(|Rendered(b1, e1, c1)|)
  {
    var head := Rendered(b1, e1, c1);
    forall p: nat | p < |head|
      ensures !MatchesAt(doc, b2, p)
    {
      if MatchesAt(doc, b2, p) {
        ConcatEmpty(doc);
        AvoidsRendered("", b1, e1, c1, b2 + rest, doc, b2, p);
      }
    }
    ConcatEmpty(b2 + rest);
    MatchAfter(head, "", b2, rest);
    FindFromIs(doc, b2, 0, |head|);
  }

  lemma RenderedOpens(b: string, e: string, content: string)
    ensures Rendered(b, e, content) == b + ("\n" + content + "\n" + e)
  {
  }

  /** The second of two blocks that stand alone can be replaced whatever the first holds. */
  lemma SecondOfTwo(b1: string, e1: string, c1: string, b2: string, e2: string, c2: string)
    requires Separate(b1, e1, c1, b2, e2, c2)
    ensures ReplaceBlock(Rendered(b1, e1, c1) + Rendered(b2, e2, ""), b2, e2, c2).Ok?
  {
    var head, block := Rendered(b1, e1, c1), Rendered(b2, e2, "");
    RenderedOpens(b2, e2, "");
    SecondBeginFirst(b1, e1, c1, b2, "\n" + "" + "\n" + e2, head + block);
    ConcatEmpty(block);
    ReplaceRendered(head, b2, e2, "", "", head + block, c2);
  }

  /** A rendered block with no other behind it can be rendered anew. */
  lemma ReplaceRendered(head: string, b: string, e: string, was: string, tail: string, doc: string, content: string)
    requires IsMarker(b) && IsMarker(e) && |was| < |e| && FindFrom(tail, b, 0).None?
    requires doc == head + (Rendered(b, e, was) + tail) && FindFrom(doc, b, 0) == Some(|head|)
    ensures ReplaceBlock(doc, b, e, content) == Ok(head + (Rendered(b, e, content) + tail))
  {
    ShortIsFree(was, e);
    RenderedIsOneBlock(head, b, e, was, tail, doc);
    PutTogether(doc, b, e, content, head, Filling(was), tail);
  }

  lemma FirstOfTwo(b1: string, e1: string, c1: string, b2: string, e2: string)
    requires IsMarker(b1) && IsMarker(e1) && IsMarker(b2) && IsMarker(e2) && Foreign(b1, b2, e2, "")
    ensures ReplaceBlock(Rendered(b1, e1, "") + Rendered(b2, e2, ""), b1, e1, c1)
         == Ok(Rendered(b1, e1, c1) + Rendered(b2, e2, ""))
  {
    var block, tail := Rendered(b1, e1, ""), Rendered(b2, e2, "");
    ConcatEmpty(block + tail);
    BeginsFirst(b1, e1, "", tail);
    if FindFrom(tail, b1, 0).Some? {
      NoneInRendered(b2, e2, "", b1, FindFrom(tail, b1, 0).value);
    }
    ReplaceRendered("", b1, e1, "", tail, block + tail, c1);
    ConcatEmpty(Rendered(b1, e1, c1) + tail);
  }

  lemma BeginsFirst(b: string, e: string, content: string, tail: string)
    ensures FindFrom(Rendered(b, e, content) + tail, b, 0) == Some(0)
  {
    var doc := Rendered(b, e, content) + tail;
    MatchIsSlice(doc, b, 0);
    assert doc[..|b|] == b;
    FindFromIs(doc, b, 0, 0);
  }

  /** Nothing as long as a marker is in a shorter text. */
  lemma ShortIsFree(content: string, m: string)
    requires |content| < |m|
    ensures Free(content, m)
  {
  }

  lemma ShortContentsClean(generatedAt: string, staticSummary: string)
    requires |generatedAt| < 20 && |staticSummary| < 20
    ensures CleanContents(generatedAt, staticSummary)
  {
    ShortIsFree(generatedAt, End(GENERATED_AT));
    ShortIsFree(generatedAt, Begin(STATIC_SUMMARY));
    ShortIsFree(generatedAt, End(STATIC_SUMMARY));
    ShortIsFree(staticSummary, End(STATIC_SUMMARY));
    ShortIsFree(staticSummary, Begin(GENERATED_AT));
    ShortIsFree(staticSummary, End(GENERATED_AT));
  }

  lemma EmptyBlocksRender(generatedAt: string, staticSummary: string)
    requires CleanContents(generatedAt, staticSummary)
    ensures RenderHomepage(EmptyBlocks(), generatedAt, staticSummary).Ok? && Plain(EmptyBlocks())
  {
    var b1, e1, b2, e2 := Begin(GENERATED_AT), End(GENERATED_AT), Begin(STATIC_SUMMARY), End(STATIC_SUMMARY);
    HomepageMarkers(generatedAt, staticSummary);
    ShortIsFree("", b1);
    FirstOfTwo(b1, e1, generatedAt, b2, e2);
    SecondOfTwo(b1, e1, generatedAt, b2, e2, staticSummary);
    RenderedPlain(b1, e1, "");
    RenderedPlain(b2, e2, "");
    PlainConcat(Rendered(b1, e1, ""), Rendered(b2, e2, ""));
  }

  const TWO_LINES := "two\rlines"

  /** A carriage return in a rendered text: the page is written, and found stale at once. */
  lemma CarriageReturnIsStale(files: map<Path, string>, paths: Paths, inDetailDir: Path -> bool, r: Rendering)
    requires PathsApart(paths, iset p: Path | inDetailDir(p)) && forall p :: p in r.detailPages ==> inDetailDir(p)
    requires r.generatedAt == "today" && r.staticSummary == TWO_LINES
    ensures RenderHomepage(EmptyBlocks(), r.generatedAt, r.staticSummary).Ok?
    ensures var homepage := RenderHomepage(EmptyBlocks(), r.generatedAt, r.staticSummary).value;
      CheckFiles(WrittenFiles(files, paths, inDetailDir, r, homepage), paths, inDetailDir, r).Err?
  {
    assert TWO_LINES[3] == '\r';
    ShortContentsClean(r.generatedAt, r.staticSummary);
    EmptyBlocksRender(r.generatedAt, r.staticSummary);
    CheckAfterWriteIff(files, paths, inDetailDir, r, EmptyBlocks());
  }

  class Site {
    const paths: Paths
    /** Tells the HTML files of the detail directory from all other paths. */
    const inDetailDir: Path -> bool
    var files: map<Path, string>

    constructor (paths: Paths, inDetailDir: Path -> bool, files: map<Path, string>)
      ensures this.paths == paths && this.inDetailDir == inDetailDir && this.files == files
    {
      this.paths := paths;
      this.inDetailDir := inDetailDir;
      this.files := files;
    }

    ghost function DetailDir(): iset<Path> {
      iset p: Path | inDetailDir(p)
    }

    method WriteRun(r: Rendering) returns (result: Result<(), RunError>)
      modifies this
      ensures result.Ok? <==>
        paths.homepage in old(files) && RenderHomepage(ReadText(old(files)[paths.homepage]), r.generatedAt, r.staticSummary).Ok?
      ensures result.Err? ==> files == old(files)
      ensures result.Ok? ==>
        var homepage := RenderHomepage(ReadText(old(files)[paths.homepage]), r.generatedAt, r.staticSummary).value;
        files == WrittenFiles(old(files), paths, inDetailDir, r, homepage)
    {
      if paths.homepage !in files {
        return Err(NoHomepage);
      }
      var rendered := RenderHomepage(ReadText(files[paths.homepage]), r.generatedAt, r.staticSummary);
      if rendered.Err? {
        return Err(BadHomepage(rendered.error));
      }
      files := files[paths.homepage := rendered.value];
      files := files[paths.sitemap := r.sitemap];
      files := files[paths.robots := r.robots];
      files := files[paths.llms := r.llms];
      files := files - OrphanedDetailPages(files, inDetailDir, r.detailPages);
      files := files + r.detailPages;
      result := Ok(());
    }

    function CheckRun(r: Rendering): Result<(), RunError>
      reads this
    {
      CheckFiles(files, paths, inDetailDir, r)
    }

    /**
     * A write run followed by a check run on the same manifest: the detail directory holds exactly the expected
     * pages, and the check passes exactly when the page written first did not have its summary block around its
     * timestamp block and no rendered text has a carriage return.
     */
    method WriteThenCheck(r: Rendering) returns (written: Result<(), RunError>, checked: Result<(), RunError>)
      requires PathsApart(paths, DetailDir())
      requires forall p :: p in r.detailPages ==> inDetailDir(p)
      requires CleanContents(r.generatedAt, r.staticSummary)
      modifies this
      ensures written.Ok? ==> forall p :: inDetailDir(p) ==> (p in files <==> p in r.detailPages)
      ensures written.Ok? ==> forall p :: p in r.detailPages ==> p in files && files[p] == r.detailPages[p]
      ensures written.Ok? ==> paths.homepage in old(files)
      ensures written.Ok? ==>
        (checked.Ok? <==> !SummaryEnclosesTimestamp(ReadText(old(files)[paths.homepage])) && PlainRendering(r))
      ensures forall p :: p in old(files) && !inDetailDir(p) && p !in {paths.homepage, paths.sitemap, paths.robots, paths.llms}
                ==> p in files && files[p] == old(files)[p]
    {
      written := WriteRun(r);
      if written.Ok? {
        ghost var before := ReadText(old(files)[paths.homepage]);
        ghost var homepage := RenderHomepage(before, r.generatedAt, r.staticSummary).value;
        ReadIsPlain(old(files)[paths.homepage]);
        WrittenFacts(old(files), paths, inDetailDir, r, homepage);
        CheckAfterWriteIff(old(files), paths, inDetailDir, r, before);
      }
      checked := CheckRun(r);
    }
  }
}
