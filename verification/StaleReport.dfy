/** The stale-artifact report: selection, grouping, limits, and the list of paths to clean up. */
module StaleReport {
  import opened ArtifactPaths
  import opened Results
  import opened Sequences

  datatype Track = Track(slug: Option<string>, artifactPath: Option<string>)

  datatype Artifact = Artifact(
    path: Option<string>, slug: Option<string>, artifactLabel: Option<string>, backend: Option<string>, model: Option<string>,
    status: Option<string>, measuredAt: Option<string>, sizeBytes: Option<nat>)

  datatype StaleEntry = StaleEntry(
    artifact: Artifact, artifactPath: string, currentArtifactPath: Option<string>, detailPagePath: Option<string>)

  predicate Given(text: Option<string>) {
    text.Some? && text.value != ""
  }

  // ---- Selection ---------------------------------------------------------------------------

  function CurrentArtifactPaths(tracks: seq<Track>): set<string> {
    set t | t in tracks && Given(t.artifactPath) :: t.artifactPath.value
  }

  /** `current_path_by_slug.get(slug)`: the last track with the slug wins. */
  function CurrentPathBySlug(tracks: seq<Track>, slug: Option<string>): Option<string> {
    if tracks == [] then None
    else
      var t := tracks[|tracks| - 1];
      if Given(t.artifactPath) && Given(t.slug) && t.slug == slug then t.artifactPath
      else CurrentPathBySlug(tracks[..|tracks| - 1], slug)
  }

  /** The current path under a slug is that of the last track with a path and this slug. */
  lemma {:induction false} CurrentPathIs(tracks: seq<Track>, slug: Option<string>, i: nat)
    requires i < |tracks| && slug.Some? && slug.value != ""
    requires tracks[i].slug == slug && tracks[i].artifactPath.Some? && tracks[i].artifactPath.value != ""
    requires forall j :: i < j < |tracks| && tracks[j].slug == slug ==> tracks[j].artifactPath in {None, Some("")}
    ensures CurrentPathBySlug(tracks, slug) == tracks[i].artifactPath
    decreases |tracks|
  {
    if i < |tracks| - 1 {
      CurrentPathIs(tracks[..|tracks| - 1], slug, i);
    }
  }

  lemma {:induction false} NoCurrentPath(tracks: seq<Track>, slug: Option<string>)
    requires slug in {None, Some("")}
          || forall j :: 0 <= j < |tracks| && tracks[j].slug == slug ==> tracks[j].artifactPath in {None, Some("")}
    ensures CurrentPathBySlug(tracks, slug).None?
    decreases |tracks|
  {
    if tracks != [] {
      NoCurrentPath(tracks[..|tracks| - 1], slug);
    }
  }

  type Filter = (Artifact, Option<string>) -> bool

  /** An artifact no track points at, which the chosen filters let through. */
  predicate IsStale(tracks: seq<Track>, a: Artifact, keep: Filter) {
    Given(a.path) && a.path.value !in CurrentArtifactPaths(tracks) && keep(a, CurrentPathBySlug(tracks, a.slug))
  }

  function EntryOf(tracks: seq<Track>, a: Artifact): StaleEntry
    requires Given(a.path)
  {
    StaleEntry(a, a.path.value, CurrentPathBySlug(tracks, a.slug), DetailPagePath(a.path))
  }

  function StaleOf(tracks: seq<Track>, artifacts: seq<Artifact>, keep: Filter): seq<StaleEntry> {
    if artifacts == [] then []
    else
      var a := artifacts[|artifacts| - 1];
      StaleOf(tracks, artifacts[..|artifacts| - 1], keep) + if IsStale(tracks, a, keep) then [EntryOf(tracks, a)] else []
  }

  method StaleArtifacts(tracks: seq<Track>, artifacts: seq<Artifact>, keep: Filter) returns (stale: seq<StaleEntry>)
    ensures stale == StaleOf(tracks, artifacts, keep)
  {
    var currentArtifactPaths := CurrentArtifactPaths(tracks);
    stale := [];
    for i := 0 to |artifacts|
      invariant stale == StaleOf(tracks, artifacts[..i], keep)
    {
      var artifact := artifacts[i];
      assert artifacts[..i + 1][..i] == artifacts[..i];
      if artifact.path.None? || artifact.path.value == "" || artifact.path.value in currentArtifactPaths {
        continue;
      }
      var current := CurrentPathBySlug(tracks, artifact.slug);
      if !keep(artifact, current) {
        continue;
      }
      stale := stale + [StaleEntry(artifact, artifact.path.value, current, DetailPagePath(artifact.path))];
    }
    assert artifacts[..|artifacts|] == artifacts;
  }

  /** The entries are those of the stale artifacts, each an artifact the report was given. */
  lemma {:induction false} StaleOfContains(tracks: seq<Track>, artifacts: seq<Artifact>, keep: Filter, e: StaleEntry)
    ensures e in StaleOf(tracks, artifacts, keep) <==>
      e.artifact in artifacts && IsStale(tracks, e.artifact, keep) && e == EntryOf(tracks, e.artifact)
  {
    if artifacts != [] {
      var before, a := artifacts[..|artifacts| - 1], artifacts[|artifacts| - 1];
      StaleOfContains(tracks, before, keep, e);
      assert artifacts == before + [a];
    }
  }

  function CountOfArtifacts(tracks: seq<Track>, artifacts: seq<Artifact>, current: bool): nat {
    if artifacts == [] then 0
    else
      var a := artifacts[|artifacts| - 1];
      CountOfArtifacts(tracks, artifacts[..|artifacts| - 1], current)
      + if Given(a.path) && (a.path.value in CurrentArtifactPaths(tracks) <==> current) then 1 else 0
  }

  /** Without filters, every artifact with a path that is not current is reported, once. */
  lemma {:induction false} UnfilteredIsTheRest(tracks: seq<Track>, artifacts: seq<Artifact>, keep: Filter)
    requires forall a, path :: keep(a, path)
    ensures |StaleOf(tracks, artifacts, keep)| == CountOfArtifacts(tracks, artifacts, false)
  {
    if artifacts != [] {
      UnfilteredIsTheRest(tracks, artifacts[..|artifacts| - 1], keep);
    }
  }

  // ---- Grouping ----------------------------------------------------------------------------

  datatype Bucket = Bucket(key: string, count: nat, totalSizeBytes: nat)

  type KeyOf = StaleEntry -> string

  function SizeOf(e: StaleEntry): nat {
    if e.artifact.sizeBytes.Some? then e.artifact.sizeBytes.value else 0
  }

  function TotalSize(stale: seq<StaleEntry>): nat {
    if stale == [] then 0 else TotalSize(stale[..|stale| - 1]) + SizeOf(stale[|stale| - 1])
  }

  /** Sizes add up, and an entry without one adds nothing. */
  lemma OneMoreSize(stale: seq<StaleEntry>, e: StaleEntry)
    ensures TotalSize(stale + [e]) == TotalSize(stale) + (match e.artifact.sizeBytes case Some(n) => n case None => 0)
  {
    assert (stale + [e])[..|stale|] == stale;
  }

  /** The bucket of one key: how many entries have it, and their bytes. */
  function BucketFor(stale: seq<StaleEntry>, keyOf: KeyOf, key: string): (b: Bucket)
    ensures b.key == key
  {
    if stale == [] then Bucket(key, 0, 0)
    else
      var b, e := BucketFor(stale[..|stale| - 1], keyOf, key), stale[|stale| - 1];
      if keyOf(e) == key then Bucket(key, b.count + 1, b.totalSizeBytes + SizeOf(e)) else b
  }

  ghost predicate AreTheKeys(keys: seq<string>, stale: seq<StaleEntry>, keyOf: KeyOf) {
    NoDuplicates(keys) && forall key :: key in keys <==> BucketFor(stale, keyOf, key).count > 0
  }

  function BucketsFor(stale: seq<StaleEntry>, keyOf: KeyOf, keys: seq<string>): seq<Bucket> {
    if keys == [] then []
    else BucketsFor(stale, keyOf, keys[..|keys| - 1]) + [BucketFor(stale, keyOf, keys[|keys| - 1])]
  }

  lemma BucketGrows(stale: seq<StaleEntry>, i: nat, keyOf: KeyOf, key: string)
    requires i < |stale|
    ensures var b := BucketFor(stale[..i], keyOf, key);
      BucketFor(stale[..i + 1], keyOf, key)
      == if keyOf(stale[i]) == key then Bucket(key, b.count + 1, b.totalSizeBytes + SizeOf(stale[i])) else b
  {
    assert stale[..i + 1][..i] == stale[..i];
  }

  ghost predicate AreTheBuckets(buckets: map<string, Bucket>, keys: seq<string>, stale: seq<StaleEntry>, keyOf: KeyOf) {
    && (forall key :: key in buckets <==> key in keys)
    && forall key :: key in buckets ==> buckets[key] == BucketFor(stale, keyOf, key)
  }

  lemma KeysGrow(stale: seq<StaleEntry>, i: nat, keyOf: KeyOf, keys: seq<string>)
    requires i < |stale| && AreTheKeys(keys, stale[..i], keyOf)
    ensures AreTheKeys(WithOnce(keys, keyOf(stale[i])), stale[..i + 1], keyOf)
  {
    forall key
      ensures BucketFor(stale[..i + 1], keyOf, key).count > 0 <==> key in keys || key == keyOf(stale[i])
    {
      BucketGrows(stale, i, keyOf, key);
    }
  }

  /** `buckets.setdefault(key, {...})` and the two `+=` keep the buckets right. */
  lemma BucketsGrow(buckets: map<string, Bucket>, keys: seq<string>, stale: seq<StaleEntry>, i: nat, keyOf: KeyOf)
    requires i < |stale| && AreTheKeys(keys, stale[..i], keyOf) && AreTheBuckets(buckets, keys, stale[..i], keyOf)
    ensures var key := keyOf(stale[i]);
      var entered := if key in buckets then buckets else buckets[key := Bucket(key, 0, 0)];
      var b := entered[key];
      AreTheBuckets(entered[key := b.(count := b.count + 1, totalSizeBytes := b.totalSizeBytes + SizeOf(stale[i]))],
                    WithOnce(keys, key), stale[..i + 1], keyOf)
  {
    var key := keyOf(stale[i]);
    EmptyBucket(stale[..i], keyOf, key);
    forall other {
      BucketGrows(stale, i, keyOf, other);
    }
  }

  lemma {:induction false} EmptyBucket(stale: seq<StaleEntry>, keyOf: KeyOf, key: string)
    ensures BucketFor(stale, keyOf, key).count == 0 ==> BucketFor(stale, keyOf, key) == Bucket(key, 0, 0)
  {
    if stale != [] {
      EmptyBucket(stale[..|stale| - 1], keyOf, key);
    }
  }

  /** The keys that occur, in order of first appearance. */
  function KeysInOrder(stale: seq<StaleEntry>, keyOf: KeyOf): (keys: seq<string>)
    ensures AreTheKeys(keys, stale, keyOf)
  {
    if stale == [] then []
    else
      var n := |stale| - 1;
      assert stale[..n + 1] == stale;
      KeysGrow(stale, n, keyOf, KeysInOrder(stale[..n], keyOf));
      WithOnce(KeysInOrder(stale[..n], keyOf), keyOf(stale[n]))
  }

  /** One of the groupings of the summary: its dictionary of buckets, keys in the order of insertion. */
  method GroupBy(stale: seq<StaleEntry>, keyOf: KeyOf) returns (buckets: map<string, Bucket>, keys: seq<string>)
    ensures keys == KeysInOrder(stale, keyOf) && AreTheBuckets(buckets, keys, stale, keyOf)
  {
    buckets := map[];
    keys := [];
    for i := 0 to |stale|
      invariant keys == KeysInOrder(stale[..i], keyOf) && AreTheBuckets(buckets, keys, stale[..i], keyOf)
    {
      var entry := stale[i];
      var key := keyOf(entry);
      assert stale[..i + 1][..i] == stale[..i];
      BucketsGrow(buckets, keys, stale, i, keyOf);
      if key !in buckets {
        buckets := buckets[key := Bucket(key, 0, 0)];
        keys := keys + [key];
      }
      var b := buckets[key];
      buckets := buckets[key := b.(count := b.count + 1, totalSizeBytes := b.totalSizeBytes + SizeOf(entry))];
    }
    assert stale[..|stale|] == stale;
  }

  function CountOfBuckets(buckets: seq<Bucket>): nat {
    if buckets == [] then 0 else CountOfBuckets(buckets[..|buckets| - 1]) + buckets[|buckets| - 1].count
  }

  function SizeOfBuckets(buckets: seq<Bucket>): nat {
    if buckets == [] then 0 else SizeOfBuckets(buckets[..|buckets| - 1]) + buckets[|buckets| - 1].totalSizeBytes
  }

  /** One more entry adds one, and its bytes, to the buckets of its key and to no other. */
  lemma {:induction false} EntryEntersOneBucket(before: seq<StaleEntry>, e: StaleEntry, keyOf: KeyOf, keys: seq<string>)
    requires NoDuplicates(keys)
    ensures var was, now := BucketsFor(before, keyOf, keys), BucketsFor(before + [e], keyOf, keys);
      && CountOfBuckets(now) == CountOfBuckets(was) + (if keyOf(e) in keys then 1 else 0)
      && SizeOfBuckets(now) == SizeOfBuckets(was) + (if keyOf(e) in keys then SizeOf(e) else 0)
  {
    if keys != [] {
      var init, key := keys[..|keys| - 1], keys[|keys| - 1];
      EntryEntersOneBucket(before, e, keyOf, init);
      LastBucket(before, keyOf, keys);
      LastBucket(before + [e], keyOf, keys);
      assert (before + [e])[..|before|] == before;
      assert keys == init + [key] && key !in init;
    }
  }

  lemma LastBucket(stale: seq<StaleEntry>, keyOf: KeyOf, keys: seq<string>)
    requires keys != []
    ensures var all, init := BucketsFor(stale, keyOf, keys), BucketsFor(stale, keyOf, keys[..|keys| - 1]);
      var b := BucketFor(stale, keyOf, keys[|keys| - 1]);
      CountOfBuckets(all) == CountOfBuckets(init) + b.count && SizeOfBuckets(all) == SizeOfBuckets(init) + b.totalSizeBytes
  {
    var init := BucketsFor(stale, keyOf, keys[..|keys| - 1]);
    assert BucketsFor(stale, keyOf, keys)[..|init|] == init;
  }

  /** Over distinct keys that cover the entries, the buckets add up to the whole. */
  lemma {:induction false} BucketsAddUp(stale: seq<StaleEntry>, keyOf: KeyOf, keys: seq<string>)
    requires NoDuplicates(keys) && forall e :: e in stale ==> keyOf(e) in keys
    ensures var buckets := BucketsFor(stale, keyOf, keys);
      CountOfBuckets(buckets) == |stale| && SizeOfBuckets(buckets) == TotalSize(stale)
  {
    if stale == [] {
      NoEntriesNoCounts(keyOf, keys);
    } else {
      var before, e := stale[..|stale| - 1], stale[|stale| - 1];
      assert stale == before + [e];
      BucketsAddUp(before, keyOf, keys);
      EntryEntersOneBucket(before, e, keyOf, keys);
    }
  }

  lemma {:induction false} NoEntriesNoCounts(keyOf: KeyOf, keys: seq<string>)
    ensures var buckets := BucketsFor([], keyOf, keys); CountOfBuckets(buckets) == 0 && SizeOfBuckets(buckets) == 0
  {
    if keys != [] {
      NoEntriesNoCounts(keyOf, keys[..|keys| - 1]);
      LastBucket([], keyOf, keys);
    }
  }

  lemma {:induction false} EveryEntryCounts(stale: seq<StaleEntry>, keyOf: KeyOf, e: StaleEntry)
    requires e in stale
    ensures BucketFor(stale, keyOf, keyOf(e)).count > 0
  {
    var before, last := stale[..|stale| - 1], stale[|stale| - 1];
    assert stale == before + [last];
    if e in before {
      EveryEntryCounts(before, keyOf, e);
    }
  }

  /** Every grouping partitions the stale list. */
  lemma GroupingConserves(stale: seq<StaleEntry>, keyOf: KeyOf)
    ensures var buckets := BucketsFor(stale, keyOf, KeysInOrder(stale, keyOf));
      CountOfBuckets(buckets) == |stale| && SizeOfBuckets(buckets) == TotalSize(stale)
  {
    var keys := KeysInOrder(stale, keyOf);
    forall e | e in stale
      ensures keyOf(e) in keys
    {
      EveryEntryCounts(stale, keyOf, e);
    }
    BucketsAddUp(stale, keyOf, keys);
  }

  // ---- Limits ------------------------------------------------------------------------------

  datatype Bounds = Bounds(minCount: Option<int>, maxCount: Option<int>, minSize: Option<int>, maxSize: Option<int>)

  datatype SummaryError = NegativeLimit | NegativeBound | MinAboveMax

  predicate Negative(bound: Option<int>) {
    bound.Some? && bound.value < 0
  }

  predicate Above(min: Option<int>, max: Option<int>) {
    min.Some? && max.Some? && min.value > max.value
  }

  function Validate(limit: Option<int>, bounds: Bounds): Option<SummaryError> {
    if Negative(limit) then Some(NegativeLimit)
    else if Negative(bounds.minCount) || Negative(bounds.maxCount) then Some(NegativeBound)
    else if Above(bounds.minCount, bounds.maxCount) then Some(MinAboveMax)
    else if Negative(bounds.minSize) || Negative(bounds.maxSize) then Some(NegativeBound)
    else if Above(bounds.minSize, bounds.maxSize) then Some(MinAboveMax)
    else None
  }

  /** `[bucket for bucket in buckets if keep(bucket)]` */
  function Only(buckets: seq<Bucket>, keep: Bucket -> bool): seq<Bucket> {
    if buckets == [] then []
    else Only(buckets[..|buckets| - 1], keep) + if keep(buckets[|buckets| - 1]) then [buckets[|buckets| - 1]] else []
  }

  function CountFrom(min: int): Bucket -> bool {
    (b: Bucket) => b.count >= min
  }

  function CountUpTo(max: int): Bucket -> bool {
    (b: Bucket) => b.count <= max
  }

  function SizeFrom(min: int): Bucket -> bool {
    (b: Bucket) => b.totalSizeBytes >= min
  }

  function SizeUpTo(max: int): Bucket -> bool {
    (b: Bucket) => b.totalSizeBytes <= max
  }

  function Filtered(buckets: seq<Bucket>, bounds: Bounds): seq<Bucket> {
    var a := if bounds.minCount.Some? then Only(buckets, CountFrom(bounds.minCount.value)) else buckets;
    var b := if bounds.maxCount.Some? then Only(a, CountUpTo(bounds.maxCount.value)) else a;
    var c := if bounds.minSize.Some? then Only(b, SizeFrom(bounds.minSize.value)) else b;
    if bounds.maxSize.Some? then Only(c, SizeUpTo(bounds.maxSize.value)) else c
  }

  type Order = (Bucket, Bucket) -> bool

  /** Behind everything it does not come before. */
  function Insert(b: Bucket, sorted: seq<Bucket>, before: Order): seq<Bucket> {
    if sorted == [] then [b]
    else
      var last := sorted[|sorted| - 1];
      if before(b, last) then Insert(b, sorted[..|sorted| - 1], before) + [last] else sorted + [b]
  }

  /** A stable sort. */
  function Sorted(buckets: seq<Bucket>, before: Order): seq<Bucket> {
    if buckets == [] then [] else Insert(buckets[|buckets| - 1], Sorted(buckets[..|buckets| - 1], before), before)
  }

  /** The filtered buckets in the order asked for; the default order is the one they come in. */
  function Arranged(buckets: seq<Bucket>, bounds: Bounds, order: Option<Order>): seq<Bucket> {
    if order.None? then Filtered(buckets, bounds) else Sorted(Filtered(buckets, bounds), order.value)
  }

  function LimitSummaryBuckets(buckets: seq<Bucket>, limit: Option<int>, bounds: Bounds, order: Option<Order>)
    : Result<seq<Bucket>, SummaryError>
  {
    var error := Validate(limit, bounds);
    if error.Some? then Err(error.value)
    else
      var arranged := Arranged(buckets, bounds, order);
      if limit.None? || limit.value > |arranged| then Ok(arranged) else Ok(arranged[..limit.value])
  }

  datatype Omitted = Omitted(count: nat, totalSizeBytes: nat)

  datatype Rendered = Rendered(shown: seq<Bucket>, omitted: Option<Omitted>)

  /** One group of the JSON summary: the buckets shown, and what the limit leaves out. */
  function RenderGroup(buckets: seq<Bucket>, limit: Option<int>, bounds: Bounds, order: Option<Order>)
    : Result<Rendered, SummaryError>
  {
    var error := Validate(limit, bounds);
    if error.Some? then Err(error.value)
    else
      var filtered := LimitSummaryBuckets(buckets, None, bounds, order).value;
      var shown := if limit.None? || limit.value > |filtered| then filtered else filtered[..limit.value];
      if limit.Some? && |filtered| > |shown| then
        var omitted := filtered[|shown|..];
        Ok(Rendered(shown, Some(Omitted(|omitted|, SizeOfBuckets(omitted)))))
      else Ok(Rendered(shown, None))
  }

  /** A summary is refused exactly for a limit or a bound below zero, or a least bound above the greatest. */
  lemma RenderRefusedIff(buckets: seq<Bucket>, limit: Option<int>, bounds: Bounds, order: Option<Order>)
    ensures var r := RenderGroup(buckets, limit, bounds, order);
      && (r == Err(NegativeLimit) <==> limit.Some? && limit.value < 0)
      && (r.Err? <==>
            || (exists n :: n < 0 && Some(n) in {limit, bounds.minCount, bounds.maxCount, bounds.minSize, bounds.maxSize})
            || (exists least, most :: least > most && bounds.minCount == Some(least) && bounds.maxCount == Some(most))
            || (exists least, most :: least > most && bounds.minSize == Some(least) && bounds.maxSize == Some(most)))
  {
    var all := {limit, bounds.minCount, bounds.maxCount, bounds.minSize, bounds.maxSize};
    forall b | b in all && Negative(b)
      ensures b.value < 0 && Some(b.value) in all
    {
      assert b == Some(b.value);
    }
  }

  predicate Within(b: Bucket, bounds: Bounds) {
    && (bounds.minCount.Some? ==> b.count >= bounds.minCount.value)
    && (bounds.maxCount.Some? ==> b.count <= bounds.maxCount.value)
    && (bounds.minSize.Some? ==> b.totalSizeBytes >= bounds.minSize.value)
    && (bounds.maxSize.Some? ==> b.totalSizeBytes <= bounds.maxSize.value)
  }

  /** The four passes together keep each bucket as often as it was there if it is within bounds, and drop it if not. */
  lemma FilteredIsWithin(buckets: seq<Bucket>, bounds: Bounds, b: Bucket)
    ensures multiset(Filtered(buckets, bounds))[b] == if Within(b, bounds) then multiset(buckets)[b] else 0
  {
    var first := if bounds.minCount.Some? then Only(buckets, CountFrom(bounds.minCount.value)) else buckets;
    var second := if bounds.maxCount.Some? then Only(first, CountUpTo(bounds.maxCount.value)) else first;
    var third := if bounds.minSize.Some? then Only(second, SizeFrom(bounds.minSize.value)) else second;
    if bounds.minCount.Some? {
      OnlyKeeps(buckets, CountFrom(bounds.minCount.value), b);
    }
    if bounds.maxCount.Some? {
      OnlyKeeps(first, CountUpTo(bounds.maxCount.value), b);
    }
    if bounds.minSize.Some? {
      OnlyKeeps(second, SizeFrom(bounds.minSize.value), b);
    }
    if bounds.maxSize.Some? {
      OnlyKeeps(third, SizeUpTo(bounds.maxSize.value), b);
    }
  }

  lemma {:induction false} OnlyKeeps(buckets: seq<Bucket>, keep: Bucket -> bool, b: Bucket)
    ensures multiset(Only(buckets, keep))[b] == if keep(b) then multiset(buckets)[b] else 0
  {
    if buckets != [] {
      OnlyKeeps(buckets[..|buckets| - 1], keep, b);
      assert buckets == buckets[..|buckets| - 1] + [buckets[|buckets| - 1]];
    }
  }

  lemma {:induction false} InsertAdds(b: Bucket, sorted: seq<Bucket>, before: Order)
    ensures multiset(Insert(b, sorted, before)) == multiset(sorted) + multiset{b}
    ensures SizeOfBuckets(Insert(b, sorted, before)) == SizeOfBuckets(sorted) + b.totalSizeBytes
    ensures CountOfBuckets(Insert(b, sorted, before)) == CountOfBuckets(sorted) + b.count
  {
    if sorted != [] {
      var init, last := sorted[..|sorted| - 1], sorted[|sorted| - 1];
      assert sorted == init + [last];
      if before(b, last) {
        InsertAdds(b, init, before);
        assert (Insert(b, init, before) + [last])[..|Insert(b, init, before)|] == Insert(b, init, before);
      } else {
        assert (sorted + [b])[..|sorted|] == sorted;
      }
    }
  }

  lemma {:induction false} SortedIsPermutation(buckets: seq<Bucket>, before: Order)
    ensures multiset(Sorted(buckets, before)) == multiset(buckets)
    ensures SizeOfBuckets(Sorted(buckets, before)) == SizeOfBuckets(buckets)
    ensures CountOfBuckets(Sorted(buckets, before)) == CountOfBuckets(buckets)
  {
    if buckets != [] {
      var init, last := buckets[..|buckets| - 1], buckets[|buckets| - 1];
      SortedIsPermutation(init, before);
      InsertAdds(last, Sorted(init, before), before);
      WithLast(buckets, init, last);
    }
  }

  lemma WithLast(buckets: seq<Bucket>, init: seq<Bucket>, last: Bucket)
    requires buckets != [] && init == buckets[..|buckets| - 1] && last == buckets[|buckets| - 1]
    ensures multiset(buckets) == multiset(init) + multiset{last}
    ensures SizeOfBuckets(buckets) == SizeOfBuckets(init) + last.totalSizeBytes
    ensures CountOfBuckets(buckets) == CountOfBuckets(init) + last.count
  {
    assert buckets == init + [last];
  }

  lemma {:induction false} SizesOfConcat(a: seq<Bucket>, b: seq<Bucket>)
    ensures SizeOfBuckets(a + b) == SizeOfBuckets(a) + SizeOfBuckets(b)
    ensures CountOfBuckets(a + b) == CountOfBuckets(a) + CountOfBuckets(b)
  {
    if b == [] {
      assert a + b == a;
    } else {
      var init := b[..|b| - 1];
      SizesOfConcat(a, init);
      assert (a + b)[..|a + b| - 1] == a + init;
    }
  }

  /** Shown and omitted buckets are the filtered ones, and what is shown is what the limited list holds. */
  lemma ShownAndOmitted(buckets: seq<Bucket>, limit: Option<int>, bounds: Bounds, order: Option<Order>)
    ensures RenderGroup(buckets, limit, bounds, order).Ok? <==> LimitSummaryBuckets(buckets, limit, bounds, order).Ok?
    ensures RenderGroup(buckets, limit, bounds, order).Ok? ==>
      var r, filtered := RenderGroup(buckets, limit, bounds, order).value, Filtered(buckets, bounds);
      var left := if r.omitted.Some? then r.omitted.value else Omitted(0, 0);
      && LimitSummaryBuckets(buckets, limit, bounds, order) == Ok(r.shown)
      && |r.shown| + left.count == |filtered|
      && SizeOfBuckets(r.shown) + left.totalSizeBytes == SizeOfBuckets(filtered)
      && (r.omitted.Some? <==> limit.Some? && limit.value < |filtered|)
  {
    if Validate(limit, bounds).None? {
      var arranged := Arranged(buckets, bounds, order);
      assert Validate(None, bounds).None?;
      ArrangedIsFiltered(buckets, bounds, order);
      if limit.Some? && limit.value <= |arranged| {
        CutConserves(arranged, limit.value);
      }
    }
  }

  lemma ArrangedIsFiltered(buckets: seq<Bucket>, bounds: Bounds, order: Option<Order>)
    ensures var arranged, filtered := Arranged(buckets, bounds, order), Filtered(buckets, bounds);
      |arranged| == |filtered| && SizeOfBuckets(arranged) == SizeOfBuckets(filtered)
  {
    var filtered := Filtered(buckets, bounds);
    if order.Some? {
      SortedIsPermutation(filtered, order.value);
      assert |multiset(Sorted(filtered, order.value))| == |multiset(filtered)|;
    }
  }

  lemma CutConserves(buckets: seq<Bucket>, n: nat)
    requires n <= |buckets|
    ensures |buckets[..n]| + |buckets[n..]| == |buckets|
    ensures SizeOfBuckets(buckets[..n]) + SizeOfBuckets(buckets[n..]) == SizeOfBuckets(buckets)
  {
    assert buckets == buckets[..n] + buckets[n..];
    SizesOfConcat(buckets[..n], buckets[n..]);
  }

  /** With no bounds, the buckets shown and omitted account for every byte of the stale artifacts. */
  lemma EveryByteIsAccountedFor(stale: seq<StaleEntry>, keyOf: KeyOf, bySize: Order,
                                limit: Option<int>, order: Option<Order>)
    requires !Negative(limit)
    ensures var buckets := Sorted(BucketsFor(stale, keyOf, KeysInOrder(stale, keyOf)), bySize);
      var r := RenderGroup(buckets, limit, Bounds(None, None, None, None), order);
      && r.Ok?
      && SizeOfBuckets(r.value.shown) + (if r.value.omitted.Some? then r.value.omitted.value.totalSizeBytes else 0)
         == TotalSize(stale)
  {
    var buckets := BucketsFor(stale, keyOf, KeysInOrder(stale, keyOf));
    GroupingConserves(stale, keyOf);
    SortedIsPermutation(buckets, bySize);
    ShownAndOmitted(Sorted(buckets, bySize), limit, Bounds(None, None, None, None), order);
  }

  /** A strict weak order, as comparing by a key gives. */
  ghost predicate IsOrder(before: Order) {
    && (forall a :: !before(a, a))
    && (forall a, b, c :: before(a, b) && before(b, c) ==> before(a, c))
    && (forall a, b, c :: !before(a, b) && !before(b, c) ==> !before(a, c))
  }

  predicate InOrder(buckets: seq<Bucket>, before: Order) {
    forall i, j :: 0 <= i < j < |buckets| ==> !before(buckets[j], buckets[i])
  }

  lemma InsertHolds(b: Bucket, sorted: seq<Bucket>, before: Order)
    ensures forall x :: x in Insert(b, sorted, before) ==> x == b || x in sorted
  {
    InsertAdds(b, sorted, before);
    forall x | x in Insert(b, sorted, before)
      ensures x == b || x in sorted
    {
      assert x in multiset(Insert(b, sorted, before));
      assert x in multiset(sorted) + multiset{b};
    }
  }

  lemma {:induction false} InsertKeepsOrder(b: Bucket, sorted: seq<Bucket>, before: Order)
    requires IsOrder(before) && InOrder(sorted, before)
    ensures InOrder(Insert(b, sorted, before), before)
  {
    if sorted != [] {
      var init, last := sorted[..|sorted| - 1], sorted[|sorted| - 1];
      if before(b, last) {
        InsertKeepsOrder(b, init, before);
        InsertHolds(b, init, before);
        forall x | x in init
          ensures !before(last, x)
        {
          var i :| 0 <= i < |init| && init[i] == x;
          assert sorted[i] == x && sorted[|init|] == last;
        }
        assert before(last, b) ==> before(b, b);
      }
    }
  }

  lemma {:induction false} SortedIsInOrder(buckets: seq<Bucket>, before: Order)
    requires IsOrder(before)
    ensures InOrder(Sorted(buckets, before), before)
  {
    if buckets != [] {
      SortedIsInOrder(buckets[..|buckets| - 1], before);
      InsertKeepsOrder(buckets[|buckets| - 1], Sorted(buckets[..|buckets| - 1], before), before);
    }
  }

  /** No omitted bucket comes before a shown one. */
  lemma OmittedComeLast(buckets: seq<Bucket>, limit: Option<int>, bounds: Bounds, order: Order, b: Bucket)
    requires IsOrder(order) && RenderGroup(buckets, limit, bounds, Some(order)).Ok?
    requires var shown := RenderGroup(buckets, limit, bounds, Some(order)).value.shown;
      multiset(shown)[b] < multiset(Filtered(buckets, bounds))[b]
    ensures forall s :: s in RenderGroup(buckets, limit, bounds, Some(order)).value.shown ==> !order(b, s)
  {
    var shown, filtered := RenderGroup(buckets, limit, bounds, Some(order)).value.shown, Filtered(buckets, bounds);
    SortedIsPermutation(filtered, order);
    SortedIsInOrder(filtered, order);
    ShownIsFront(buckets, limit, bounds, order);
    RestComesLast(Sorted(filtered, order), shown, order, b);
  }

  lemma ShownIsFront(buckets: seq<Bucket>, limit: Option<int>, bounds: Bounds, order: Order)
    requires RenderGroup(buckets, limit, bounds, Some(order)).Ok?
    ensures var shown, arranged := RenderGroup(buckets, limit, bounds, Some(order)).value.shown, Sorted(Filtered(buckets, bounds), order);
      |shown| <= |arranged| && shown == arranged[..|shown|]
  {
  }

  lemma RestComesLast(arranged: seq<Bucket>, front: seq<Bucket>, before: Order, b: Bucket)
    requires InOrder(arranged, before) && |front| <= |arranged| && front == arranged[..|front|]
    requires multiset(front)[b] < multiset(arranged)[b]
    ensures forall s :: s in front ==> !before(b, s)
  {
    var rest := arranged[|front|..];
    assert arranged == front + rest;
    assert b in multiset(rest);
    var j :| 0 <= j < |rest| && rest[j] == b;
    forall s | s in front
      ensures !before(b, s)
    {
      var i :| 0 <= i < |front| && front[i] == s;
      assert arranged[i] == s && arranged[|front| + j] == b;
    }
  }

  // ---- Paths to clean up -------------------------------------------------------------------

  datatype PathOptions = PathOptions(
    includeDetailPages: bool, detailPagesOnly: bool, existing: Option<string -> bool>, missing: Option<string -> bool>)

  /** `existing_root` asks for paths that exist below it, `missing_root` for paths that do not. */
  predicate Wanted(options: PathOptions, path: string) {
    (options.existing.Some? ==> options.existing.value(path)) && (options.missing.Some? ==> !options.missing.value(path))
  }

  predicate ListsArtifact(options: PathOptions, e: StaleEntry) {
    !options.detailPagesOnly && Wanted(options, e.artifactPath)
  }

  predicate ListsPage(options: PathOptions, e: StaleEntry) {
    (options.includeDetailPages || options.detailPagesOnly) && Given(e.detailPagePath)
    && Wanted(options, e.detailPagePath.value)
  }

  /** The paths to list, in order, with repetitions. */
  function PathsOf(stale: seq<StaleEntry>, options: PathOptions, place: string -> string): seq<string> {
    if stale == [] then []
    else
      var e := stale[|stale| - 1];
      WithEntry(PathsOf(stale[..|stale| - 1], options, place), e, options, place)
  }

  function WithEntry(paths: seq<string>, e: StaleEntry, options: PathOptions, place: string -> string): seq<string> {
    var withArtifact := if ListsArtifact(options, e) then paths + [place(e.artifactPath)] else paths;
    if ListsPage(options, e) then withArtifact + [place(e.detailPagePath.value)] else withArtifact
  }

  /** Each path where it first occurs. */
  function Once(paths: seq<string>): (once: seq<string>)
    ensures NoDuplicates(once)
    ensures forall path :: path in once <==> path in paths
  {
    if paths == [] then []
    else
      assert paths == paths[..|paths| - 1] + [paths[|paths| - 1]];
      WithOnce(Once(paths[..|paths| - 1]), paths[|paths| - 1])
  }

  lemma OnceStep(paths: seq<string>, path: string)
    ensures Once(paths + [path]) == WithOnce(Once(paths), path)
  {
    assert (paths + [path])[..|paths|] == paths;
  }

  method RenderPaths(stale: seq<StaleEntry>, options: PathOptions, place: string -> string) returns (paths: seq<string>)
    ensures paths == Once(PathsOf(stale, options, place))
  {
    paths := [];
    for i := 0 to |stale|
      invariant paths == Once(PathsOf(stale[..i], options, place))
    {
      var entry := stale[i];
      ghost var listed := PathsOf(stale[..i], options, place);
      PathsStep(stale, i, options, place);
      if !options.detailPagesOnly {
        if options.existing.None? || options.existing.value(entry.artifactPath) {
          if options.missing.None? || !options.missing.value(entry.artifactPath) {
            OnceStep(listed, place(entry.artifactPath));
            listed := listed + [place(entry.artifactPath)];
            paths := AppendPathOnce(paths, place(entry.artifactPath));
          }
        }
      }
      if (options.includeDetailPages || options.detailPagesOnly) && Given(entry.detailPagePath) {
        var detailPath := entry.detailPagePath.value;
        if options.existing.Some? && !options.existing.value(detailPath) {
          continue;
        }
        if options.missing.Some? && options.missing.value(detailPath) {
          continue;
        }
        OnceStep(listed, place(detailPath));
        paths := AppendPathOnce(paths, place(detailPath));
      }
    }
    assert stale[..|stale|] == stale;
  }

  method AppendPathOnce(paths: seq<string>, path: string) returns (appended: seq<string>)
    ensures appended == WithOnce(paths, path)
  {
    appended := paths;
    if path !in paths {
      appended := paths + [path];
    }
  }

  lemma PathsStep(stale: seq<StaleEntry>, i: nat, options: PathOptions, place: string -> string)
    requires i < |stale|
    ensures PathsOf(stale[..i + 1], options, place)
         == WithEntry(PathsOf(stale[..i], options, place), stale[i], options, place)
  {
    assert stale[..i + 1][..i] == stale[..i];
  }

  lemma {:induction false} PathsOfContains(stale: seq<StaleEntry>, options: PathOptions, place: string -> string, path: string)
    ensures path in PathsOf(stale, options, place) <==>
      exists e :: e in stale && ((ListsArtifact(options, e) && path == place(e.artifactPath))
                                 || (ListsPage(options, e) && path == place(e.detailPagePath.value)))
  {
    if stale != [] {
      var before, last := stale[..|stale| - 1], stale[|stale| - 1];
      PathsOfContains(before, options, place, path);
      assert stale == before + [last];
    }
  }

  // ---- What the list spares ----------------------------------------------------------------

  /** A path as the manifest builder writes it. */
  predicate IsBuilderPath(path: string) {
    IsJsonName(NameOf(path)) && path == ArtifactPath(NameOf(path))
  }

  ghost predicate BuilderPaths(tracks: seq<Track>, artifacts: seq<Artifact>) {
    && (forall t :: t in tracks && Given(t.artifactPath) ==> IsBuilderPath(t.artifactPath.value))
    && (forall a :: a in artifacts && Given(a.path) ==> IsBuilderPath(a.path.value))
  }

  /** The paths of tracks and artifacts, and of their detail pages. */
  ghost predicate IsAtHand(tracks: seq<Track>, artifacts: seq<Artifact>, path: string) {
    || path in CurrentArtifactPaths(tracks)
    || (exists t :: t in tracks && DetailPagePath(t.artifactPath) == Some(path))
    || (exists a :: a in artifacts && (a.path == Some(path) || DetailPagePath(a.path) == Some(path)))
  }

  /** Prefixes and roots under which the paths at hand stay different. */
  ghost predicate KeepsApart(place: string -> string, tracks: seq<Track>, artifacts: seq<Artifact>) {
    forall a, b :: IsAtHand(tracks, artifacts, a) && IsAtHand(tracks, artifacts, b) && place(a) == place(b) ==> a == b
  }

  function CleanupPaths(tracks: seq<Track>, artifacts: seq<Artifact>, keep: Filter, options: PathOptions,
                        place: string -> string): seq<string>
  {
    Once(PathsOf(StaleOf(tracks, artifacts, keep), options, place))
  }

  /** Two paths that a prefix or a root makes one, as `a/b` and `a//b` below a prefix. */
  predicate Coincide(place: string -> string, a: string, b: string) {
    a != b && place(a) == place(b)
  }

  /** An entry whose detail page is listed and has this path. */
  ghost predicate PageListed(stale: seq<StaleEntry>, options: PathOptions, path: string) {
    exists e :: e in stale && ListsPage(options, e) && e.detailPagePath.value == path
  }

  /** An entry that is listed under the placed text of another path. */
  ghost predicate CoincidenceListed(stale: seq<StaleEntry>, options: PathOptions, place: string -> string, path: string) {
    exists e :: e in stale && ((ListsArtifact(options, e) && Coincide(place, e.artifactPath, path))
                               || (ListsPage(options, e) && Coincide(place, e.detailPagePath.value, path)))
  }

  /** Under any placement, the cleanup list names a current artifact only as another's page, or by coincidence. */
  lemma CleanupNamesCurrentIff(tracks: seq<Track>, artifacts: seq<Artifact>, keep: Filter, options: PathOptions,
                               place: string -> string, path: string)
    requires path in CurrentArtifactPaths(tracks)
    ensures var stale := StaleOf(tracks, artifacts, keep);
      place(path) in CleanupPaths(tracks, artifacts, keep, options, place)
      <==> PageListed(stale, options, path) || CoincidenceListed(stale, options, place, path)
  {
    var stale := StaleOf(tracks, artifacts, keep);
    PathsOfContains(stale, options, place, place(path));
    forall e | e in stale
      ensures path != e.artifactPath
    {
      StaleOfContains(tracks, artifacts, keep, e);
    }
  }

  lemma EntryIsAtHand(tracks: seq<Track>, artifacts: seq<Artifact>, keep: Filter, e: StaleEntry)
    requires e in StaleOf(tracks, artifacts, keep)
    ensures IsAtHand(tracks, artifacts, e.artifactPath)
    ensures e.detailPagePath.Some? ==> IsAtHand(tracks, artifacts, e.detailPagePath.value)
  {
    StaleOfContains(tracks, artifacts, keep, e);
  }

  /**
   * So it spares the current artifacts under a placement that keeps the paths at hand apart, if no pages are listed
   * or all paths are as the builder writes them.
   */
  lemma CleanupSparesCurrent(tracks: seq<Track>, artifacts: seq<Artifact>, keep: Filter, options: PathOptions,
                             place: string -> string, path: string)
    requires KeepsApart(place, tracks, artifacts) && path in CurrentArtifactPaths(tracks)
    requires BuilderPaths(tracks, artifacts) || !(options.includeDetailPages || options.detailPagesOnly)
    ensures place(path) !in CleanupPaths(tracks, artifacts, keep, options, place)
  {
    var stale := StaleOf(tracks, artifacts, keep);
    CleanupNamesCurrentIff(tracks, artifacts, keep, options, place, path);
    forall e | e in stale
      ensures !Coincide(place, e.artifactPath, path)
      ensures e.detailPagePath.Some? ==> !Coincide(place, e.detailPagePath.value, path)
      ensures ListsPage(options, e) ==> e.detailPagePath.value != path
    {
      EntryIsAtHand(tracks, artifacts, keep, e);
      StaleOfContains(tracks, artifacts, keep, e);
      if ListsPage(options, e) {
        PageIsNoArtifact(e.artifactPath, NameOf(path));
      }
    }
  }

  /** A stale artifact and a current one whose names share a detail page. */
  ghost predicate PageIsContested(stale: seq<StaleEntry>, path: string) {
    exists e :: e in stale && SharesPage(NameOf(e.artifactPath), NameOf(path))
  }

  lemma EntryPage(tracks: seq<Track>, artifacts: seq<Artifact>, keep: Filter, path: string, e: StaleEntry)
    requires BuilderPaths(tracks, artifacts) && path in CurrentArtifactPaths(tracks)
    requires e in StaleOf(tracks, artifacts, keep)
    ensures Given(DetailPagePath(Some(path))) && Given(e.detailPagePath)
    ensures e.detailPagePath == DetailPagePath(Some(path)) <==> SharesPage(NameOf(e.artifactPath), NameOf(path))
    ensures e.artifactPath != DetailPagePath(Some(path)).value
  {
    StaleOfContains(tracks, artifacts, keep, e);
    PagesEqualIff(NameOf(e.artifactPath), NameOf(path));
    PageIsNoArtifact(path, NameOf(e.artifactPath));
  }

  /**
   * The list names the page of a current artifact exactly when pages are listed, this one is wanted, and a stale
   * artifact shares it, which only the names `.json` and `.json.json` do.
   */
  lemma CleanupNamesCurrentPageIff(tracks: seq<Track>, artifacts: seq<Artifact>, keep: Filter, options: PathOptions,
                                   place: string -> string, path: string)
    requires KeepsApart(place, tracks, artifacts) && BuilderPaths(tracks, artifacts) && path in CurrentArtifactPaths(tracks)
    ensures DetailPagePath(Some(path)).Some?
    ensures var page := DetailPagePath(Some(path)).value;
      place(page) in CleanupPaths(tracks, artifacts, keep, options, place)
      <==> (options.includeDetailPages || options.detailPagesOnly) && Wanted(options, page)
           && PageIsContested(StaleOf(tracks, artifacts, keep), path)
  {
    var stale := StaleOf(tracks, artifacts, keep);
    PagesEqualIff(NameOf(path), NameOf(path));
    var page := DetailPagePath(Some(path)).value;
    PathsOfContains(stale, options, place, place(page));
    forall e | e in stale
      ensures place(e.artifactPath) != place(page)
      ensures Given(e.detailPagePath)
      ensures place(e.detailPagePath.value) == place(page) <==> SharesPage(NameOf(e.artifactPath), NameOf(path))
      ensures SharesPage(NameOf(e.artifactPath), NameOf(path)) ==> e.detailPagePath.value == page
    {
      EntryPlaced(tracks, artifacts, keep, place, path, e);
    }
  }

  lemma EntryPlaced(tracks: seq<Track>, artifacts: seq<Artifact>, keep: Filter, place: string -> string, path: string,
                    e: StaleEntry)
    requires KeepsApart(place, tracks, artifacts) && BuilderPaths(tracks, artifacts) && path in CurrentArtifactPaths(tracks)
    requires e in StaleOf(tracks, artifacts, keep)
    ensures DetailPagePath(Some(path)).Some? && Given(e.detailPagePath)
    ensures var page, contested := DetailPagePath(Some(path)).value, SharesPage(NameOf(e.artifactPath), NameOf(path));
      && place(e.artifactPath) != place(page)
      && (place(e.detailPagePath.value) == place(page) <==> contested)
      && (contested ==> e.detailPagePath.value == page)
  {
    EntryPage(tracks, artifacts, keep, path, e);
    EntryIsAtHand(tracks, artifacts, keep, e);
    PageIsAtHand(tracks, artifacts, path);
  }

  lemma PageIsAtHand(tracks: seq<Track>, artifacts: seq<Artifact>, path: string)
    requires path in CurrentArtifactPaths(tracks) && DetailPagePath(Some(path)).Some?
    ensures IsAtHand(tracks, artifacts, DetailPagePath(Some(path)).value)
  {
    var t :| t in tracks && Given(t.artifactPath) && t.artifactPath.value == path;
    assert DetailPagePath(t.artifactPath) == DetailPagePath(Some(path));
  }
}
