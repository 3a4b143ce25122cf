/** Accounting for image sizes: totals with and without images listed under several tags. */
module ImageSizes {
  import opened Results
  import opened Sequences

  datatype ImageSizeRecord = ImageSizeRecord(
    tag: string, imageId: Option<string>, sizeBytes: Option<int>, created: Option<string>, present: bool,
    containers: seq<string>)

  /** A record whose size enters the totals. */
  predicate Counted(r: ImageSizeRecord) {
    r.present && r.sizeBytes.Some?
  }

  predicate HasId(r: ImageSizeRecord) {
    r.imageId.Some? && r.imageId.value != ""
  }

  predicate IsFor(r: ImageSizeRecord, id: string) {
    HasId(r) && r.imageId.value == id
  }

  function Size(r: ImageSizeRecord): int {
    if Counted(r) then r.sizeBytes.value else 0
  }

  // ---- Totals ------------------------------------------------------------------------------

  function PlainTotal(records: seq<ImageSizeRecord>): int {
    if records == [] then 0 else PlainTotal(records[..|records| - 1]) + Size(records[|records| - 1])
  }

  /** A counted record with this image id. */
  predicate Known(records: seq<ImageSizeRecord>, id: string) {
    exists k :: 0 <= k < |records| && Counted(records[k]) && IsFor(records[k], id)
  }

  /** A record whose image was counted before, under another tag. */
  predicate Repeats(before: seq<ImageSizeRecord>, r: ImageSizeRecord) {
    Counted(r) && HasId(r) && Known(before, r.imageId.value)
  }

  /** The total over the first counted record of each image, and all counted records without an id. */
  function DeduplicatedTotal(records: seq<ImageSizeRecord>): int {
    if records == [] then 0
    else
      var before, r := records[..|records| - 1], records[|records| - 1];
      DeduplicatedTotal(before) + if Repeats(before, r) then 0 else Size(r)
  }

  /** One more record adds its size if it is present with one, unless an earlier counted record has its image id. */
  lemma OneMoreRecord(records: seq<ImageSizeRecord>, r: ImageSizeRecord)
    ensures var counted := r.present && r.sizeBytes.Some?;
      var known := r.imageId.Some? && r.imageId.value != ""
        && exists k :: 0 <= k < |records| && records[k].present && records[k].sizeBytes.Some? && records[k].imageId == r.imageId;
      DeduplicatedTotal(records + [r]) == DeduplicatedTotal(records) + if counted && !known then r.sizeBytes.value else 0
  {
    assert (records + [r])[..|records|] == records;
    if r.imageId.Some? && r.imageId.value != "" {
      assert Known(records, r.imageId.value) <==>
        exists k :: 0 <= k < |records| && records[k].present && records[k].sizeBytes.Some? && records[k].imageId == r.imageId;
    }
  }

  method DeduplicatedPresentSizeBytes(records: seq<ImageSizeRecord>) returns (total: int)
    ensures total == DeduplicatedTotal(records)
  {
    var seen: set<string> := {};
    total := 0;
    for i := 0 to |records|
      invariant forall id :: id in seen <==> Known(records[..i], id)
      invariant total == DeduplicatedTotal(records[..i])
    {
      var record := records[i];
      ghost var upTo := records[..i + 1];
      assert upTo[..i] == records[..i] && upTo[i] == record;
      KnownGrows(upTo);
      if !record.present || record.sizeBytes.None? {
        continue;
      }
      if HasId(record) {
        if record.imageId.value in seen {
          continue;
        }
        seen := seen + {record.imageId.value};
      }
      total := total + record.sizeBytes.value;
    }
    assert records[..|records|] == records;
  }

  lemma KnownGrows(records: seq<ImageSizeRecord>)
    requires records != []
    ensures var before, r := records[..|records| - 1], records[|records| - 1];
      forall id :: Known(records, id) <==> Known(before, id) || (Counted(r) && IsFor(r, id))
  {
    var n := |records| - 1;
    forall id
      ensures Known(records, id) <==> Known(records[..n], id) || (Counted(records[n]) && IsFor(records[n], id))
    {
      if Known(records[..n], id) {
        var k :| 0 <= k < n && Counted(records[..n][k]) && IsFor(records[..n][k], id);
        assert records[k] == records[..n][k];
      }
      if Known(records, id) {
        var k :| 0 <= k < |records| && Counted(records[k]) && IsFor(records[k], id);
        assert k < n ==> records[..n][k] == records[k];
      }
    }
  }

  // ---- Order -------------------------------------------------------------------------------

  /** Two records that both give a size for the same image give the same size. */
  predicate Agree(r: ImageSizeRecord, s: ImageSizeRecord) {
    Counted(r) && Counted(s) && HasId(r) && r.imageId == s.imageId ==> r.sizeBytes == s.sizeBytes
  }

  predicate Consistent(records: seq<ImageSizeRecord>) {
    forall i, j :: 0 <= i < |records| && 0 <= j < |records| ==> Agree(records[i], records[j])
  }

  /** The total as it is accumulated from the front, given the images already seen. */
  function TotalAfter(seen: set<string>, records: seq<ImageSizeRecord>): int
    decreases |records|
  {
    if records == [] then 0
    else Worth(seen, records[0]) + TotalAfter(Seen(seen, records[0]), records[1..])
  }

  function Worth(seen: set<string>, r: ImageSizeRecord): int {
    if HasId(r) && r.imageId.value in seen then 0 else Size(r)
  }

  function Seen(seen: set<string>, r: ImageSizeRecord): set<string> {
    if Counted(r) && HasId(r) then seen + {r.imageId.value} else seen
  }

  function SeenAll(seen: set<string>, records: seq<ImageSizeRecord>): (all: set<string>)
    ensures forall id :: id in all <==> id in seen || Known(records, id)
  {
    if records == [] then seen
    else
      KnownGrows(records);
      Seen(SeenAll(seen, records[..|records| - 1]), records[|records| - 1])
  }

  lemma {:induction false} TotalAfterSnoc(seen: set<string>, records: seq<ImageSizeRecord>, r: ImageSizeRecord)
    ensures TotalAfter(seen, records + [r]) == TotalAfter(seen, records) + Worth(SeenAll(seen, records), r)
    decreases |records|
  {
    if records == [] {
      assert [] + [r] == [r] && [r][1..] == [];
    } else {
      var first, rest := records[0], records[1..];
      assert (records + [r])[0] == first && (records + [r])[1..] == rest + [r];
      TotalAfterSnoc(Seen(seen, first), rest, r);
      SeenAllFromFront(seen, records);
    }
  }

  lemma SeenAllFromFront(seen: set<string>, records: seq<ImageSizeRecord>)
    requires records != []
    ensures SeenAll(Seen(seen, records[0]), records[1..]) == SeenAll(seen, records)
  {
    forall id
      ensures Known(records, id) <==> Known(records[1..], id) || (Counted(records[0]) && IsFor(records[0], id))
    {
      if Known(records[1..], id) {
        var k :| 0 <= k < |records| - 1 && Counted(records[1..][k]) && IsFor(records[1..][k], id);
        assert records[k + 1] == records[1..][k];
      }
      if Known(records, id) {
        var k :| 0 <= k < |records| && Counted(records[k]) && IsFor(records[k], id);
        assert k > 0 ==> records[1..][k - 1] == records[k];
      }
    }
  }

  /** Both ways of adding up agree. */
  lemma {:induction false} TotalFromFront(records: seq<ImageSizeRecord>)
    ensures DeduplicatedTotal(records) == TotalAfter({}, records)
  {
    if records != [] {
      var before, r := records[..|records| - 1], records[|records| - 1];
      TotalFromFront(before);
      assert records == before + [r];
      TotalAfterSnoc({}, before, r);
    }
  }

  lemma SwapFirstTwo(seen: set<string>, r: ImageSizeRecord, s: ImageSizeRecord, rest: seq<ImageSizeRecord>)
    requires Agree(r, s)
    ensures TotalAfter(seen, [r] + ([s] + rest)) == TotalAfter(seen, [s] + ([r] + rest))
  {
    TotalOfTwo(seen, r, s, rest);
    TotalOfTwo(seen, s, r, rest);
    assert Seen(Seen(seen, r), s) == Seen(Seen(seen, s), r);
  }

  lemma TotalOfTwo(seen: set<string>, r: ImageSizeRecord, s: ImageSizeRecord, rest: seq<ImageSizeRecord>)
    ensures TotalAfter(seen, [r] + ([s] + rest))
         == Worth(seen, r) + Worth(Seen(seen, r), s) + TotalAfter(Seen(Seen(seen, r), s), rest)
  {
    assert ([r] + ([s] + rest))[1..] == [s] + rest && ([s] + rest)[1..] == rest;
  }

  lemma {:induction false} MoveToFront(seen: set<string>, before: seq<ImageSizeRecord>, r: ImageSizeRecord,
                                       rest: seq<ImageSizeRecord>)
    requires forall k :: 0 <= k < |before| ==> Agree(before[k], r)
    ensures TotalAfter(seen, before + ([r] + rest)) == TotalAfter(seen, [r] + (before + rest))
    decreases |before|
  {
    if before == [] {
      assert [] + ([r] + rest) == [r] + ([] + rest);
    } else {
      var first, more := before[0], before[1..];
      assert before + ([r] + rest) == [first] + (more + ([r] + rest));
      assert before + rest == [first] + (more + rest);
      assert ([first] + (more + ([r] + rest)))[1..] == more + ([r] + rest);
      assert ([first] + ([r] + (more + rest)))[1..] == [r] + (more + rest);
      MoveToFront(Seen(seen, first), more, r, rest);
      SwapFirstTwo(seen, first, r, more + rest);
    }
  }

  lemma {:induction false} SameTotalAfter(seen: set<string>, a: seq<ImageSizeRecord>, b: seq<ImageSizeRecord>)
    requires Consistent(a) && multiset(a) == multiset(b)
    ensures TotalAfter(seen, a) == TotalAfter(seen, b)
    decreases |b|
  {
    if b == [] {
      assert |multiset(a)| == 0;
    } else {
      var r := b[0];
      var k := PositionIn(a, b);
      var before, rest := a[..k], a[k + 1..];
      Removed(a, k, b);
      MoveToFront(seen, before, r, rest);
      assert ([r] + (before + rest))[1..] == before + rest;
      SameTotalAfter(Seen(seen, r), before + rest, b[1..]);
    }
  }

  lemma PositionIn(a: seq<ImageSizeRecord>, b: seq<ImageSizeRecord>) returns (k: nat)
    requires b != [] && multiset(a) == multiset(b)
    ensures k < |a| && a[k] == b[0]
  {
    assert b[0] in multiset(b);
    assert b[0] in a;
    k :| k < |a| && a[k] == b[0];
  }

  lemma Removed(a: seq<ImageSizeRecord>, k: nat, b: seq<ImageSizeRecord>)
    requires k < |a| && b != [] && a[k] == b[0] && multiset(a) == multiset(b)
    ensures a == a[..k] + ([a[k]] + a[k + 1..])
    ensures multiset(a[..k] + a[k + 1..]) == multiset(b[1..])
    ensures forall r :: r in a[..k] + a[k + 1..] ==> r in a
  {
    assert a == a[..k] + ([a[k]] + a[k + 1..]);
    assert multiset(a) == multiset(a[..k]) + (multiset{a[k]} + multiset(a[k + 1..]));
    assert b == [b[0]] + b[1..];
    assert multiset(b) == multiset{b[0]} + multiset(b[1..]);
    assert multiset(a[..k] + a[k + 1..]) == multiset(a) - multiset{a[k]};
    assert multiset(b[1..]) == multiset(b) - multiset{b[0]};
  }

  ghost predicate OrderIrrelevant(records: seq<ImageSizeRecord>) {
    forall other: seq<ImageSizeRecord> :: multiset(other) == multiset(records) ==>
      DeduplicatedTotal(other) == DeduplicatedTotal(records)
  }

  /** The de-duplicated total is the same in every order exactly when no image is given two sizes. */
  lemma OrderIrrelevantIff(records: seq<ImageSizeRecord>)
    ensures OrderIrrelevant(records) <==> Consistent(records)
  {
    if Consistent(records) {
      forall other: seq<ImageSizeRecord> | multiset(other) == multiset(records)
        ensures DeduplicatedTotal(other) == DeduplicatedTotal(records)
      {
        SameTotalAfter({}, records, other);
        TotalFromFront(records);
        TotalFromFront(other);
      }
    } else {
      var i, j :| 0 <= i < |records| && 0 <= j < |records| && !Agree(records[i], records[j]);
      var one, two := TwoOrders(records, i, j);
    }
  }

  /** Two records that disagree, put first in either order, give different totals. */
  lemma TwoOrders(records: seq<ImageSizeRecord>, i: nat, j: nat)
    returns (one: seq<ImageSizeRecord>, two: seq<ImageSizeRecord>)
    requires i < |records| && j < |records| && !Agree(records[i], records[j])
    ensures multiset(one) == multiset(records) && multiset(two) == multiset(records)
    ensures DeduplicatedTotal(one) != DeduplicatedTotal(two)
  {
    var r, s := records[i], records[j];
    var rest := WithoutTwo(records, i, j);
    one, two := [r] + ([s] + rest), [s] + ([r] + rest);
    TotalFromFront(one);
    TotalFromFront(two);
    FirstTwoDiffer(r, s, rest);
  }

  lemma FirstTwoDiffer(r: ImageSizeRecord, s: ImageSizeRecord, rest: seq<ImageSizeRecord>)
    requires !Agree(r, s)
    ensures TotalAfter({}, [r] + ([s] + rest)) != TotalAfter({}, [s] + ([r] + rest))
  {
    TotalOfTwo({}, r, s, rest);
    TotalOfTwo({}, s, r, rest);
    assert Seen(Seen({}, r), s) == Seen(Seen({}, s), r);
  }

  lemma WithoutOne(records: seq<ImageSizeRecord>, k: nat) returns (rest: seq<ImageSizeRecord>)
    requires k < |records|
    ensures multiset(records) == multiset{records[k]} + multiset(rest)
  {
    rest := records[..k] + records[k + 1..];
    assert records == records[..k] + ([records[k]] + records[k + 1..]);
  }

  lemma WithoutTwo(records: seq<ImageSizeRecord>, i: nat, j: nat) returns (rest: seq<ImageSizeRecord>)
    requires i < |records| && j < |records| && records[i] != records[j]
    ensures multiset([records[i]] + ([records[j]] + rest)) == multiset(records)
    ensures multiset([records[j]] + ([records[i]] + rest)) == multiset(records)
  {
    var others := WithoutOne(records, i);
    assert records[j] in multiset(records);
    assert records[j] in others;
    var k: nat :| k < |others| && others[k] == records[j];
    rest := WithoutOne(others, k);
  }

  // ---- Savings -----------------------------------------------------------------------------

  datatype Group = Group(imageId: string, tags: seq<string>)

  /** The tags of the present records with this image id, in order. */
  function TagsOf(records: seq<ImageSizeRecord>, id: string): seq<string> {
    if records == [] then []
    else
      var before, r := records[..|records| - 1], records[|records| - 1];
      TagsOf(before, id) + if r.present && IsFor(r, id) then [r.tag] else []
  }

  /** The keys of the dictionary: each image id once. */
  ghost predicate AreTheIds(ids: seq<string>, records: seq<ImageSizeRecord>) {
    NoDuplicates(ids) && forall id :: id in ids <==> TagsOf(records, id) != []
  }

  ghost predicate IsGroup(g: Group, records: seq<ImageSizeRecord>) {
    g.tags == TagsOf(records, g.imageId) && |g.tags| > 1
  }

  lemma TagsGrow(records: seq<ImageSizeRecord>, i: nat, id: string)
    requires i < |records|
    ensures TagsOf(records[..i + 1], id)
         == TagsOf(records[..i], id) + if records[i].present && IsFor(records[i], id) then [records[i].tag] else []
  {
    assert records[..i + 1][..i] == records[..i] && records[..i + 1][i] == records[i];
  }

  lemma IdsGrow(records: seq<ImageSizeRecord>, i: nat, ids: seq<string>)
    requires i < |records| && AreTheIds(ids, records[..i])
    ensures AreTheIds(KeysWith(ids, records[i]), records[..i + 1])
  {
    forall id
      ensures TagsOf(records[..i + 1], id) != [] <==>
        id in ids || (records[i].present && IsFor(records[i], id))
    {
      TagsGrow(records, i, id);
    }
  }

  function KeysWith(keys: seq<string>, r: ImageSizeRecord): seq<string> {
    if r.present && HasId(r) then WithOnce(keys, r.imageId.value) else keys
  }

  /** The tags collected under each key. */
  ghost predicate AreTheTags(tagsByImageId: map<string, seq<string>>, keys: seq<string>, records: seq<ImageSizeRecord>) {
    && (forall id :: id in tagsByImageId <==> id in keys)
    && forall id :: id in tagsByImageId ==> tagsByImageId[id] == TagsOf(records, id)
  }

  /** `tags_by_image_id.setdefault(image_id, []).append(tag)` */
  function Entered(tagsByImageId: map<string, seq<string>>, id: string, tag: string): (r: map<string, seq<string>>)
    ensures forall k :: k in r <==> k in tagsByImageId || k == id
    ensures r[id] == (if id in tagsByImageId then tagsByImageId[id] else []) + [tag]
    ensures forall k :: k in tagsByImageId && k != id ==> r[k] == tagsByImageId[k]
  {
    var entry := if id in tagsByImageId then tagsByImageId else tagsByImageId[id := []];
    entry[id := entry[id] + [tag]]
  }

  /** Entering the tag of one more record keeps the tags collected. */
  lemma TagsStay(tagsByImageId: map<string, seq<string>>, keys: seq<string>, records: seq<ImageSizeRecord>, i: nat)
    requires i < |records| && AreTheIds(keys, records[..i]) && AreTheTags(tagsByImageId, keys, records[..i])
    requires records[i].present && HasId(records[i])
    ensures var id := records[i].imageId.value;
      AreTheTags(Entered(tagsByImageId, id, records[i].tag), WithOnce(keys, id), records[..i + 1])
  {
    var id := records[i].imageId.value;
    var now := Entered(tagsByImageId, id, records[i].tag);
    forall k | k in now
      ensures now[k] == TagsOf(records[..i + 1], k)
    {
      TagsGrow(records, i, k);
      if k !in tagsByImageId {
        assert TagsOf(records[..i], k) == [];
      }
    }
  }

  lemma NoTagsStay(tagsByImageId: map<string, seq<string>>, keys: seq<string>, records: seq<ImageSizeRecord>, i: nat)
    requires i < |records| && AreTheTags(tagsByImageId, keys, records[..i])
    requires !(records[i].present && HasId(records[i]))
    ensures AreTheTags(tagsByImageId, keys, records[..i + 1])
  {
    forall k | k in tagsByImageId
      ensures tagsByImageId[k] == TagsOf(records[..i + 1], k)
    {
      TagsGrow(records, i, k);
    }
  }

  /** The image ids of the present records, in order of first appearance. */
  function IdsInOrder(records: seq<ImageSizeRecord>): (ids: seq<string>)
    ensures AreTheIds(ids, records)
  {
    if records == [] then []
    else
      var n := |records| - 1;
      assert records[..n + 1] == records;
      IdsGrow(records, n, IdsInOrder(records[..n]));
      KeysWith(IdsInOrder(records[..n]), records[n])
  }

  /** The dictionary of tags by image id, with its keys in the order of insertion. */
  method CollectTags(records: seq<ImageSizeRecord>) returns (tagsByImageId: map<string, seq<string>>, keys: seq<string>)
    ensures keys == IdsInOrder(records) && AreTheTags(tagsByImageId, keys, records)
  {
    tagsByImageId := map[];
    keys := [];
    for i := 0 to |records|
      invariant keys == IdsInOrder(records[..i]) && AreTheTags(tagsByImageId, keys, records[..i])
    {
      var record := records[i];
      assert records[..i + 1][..i] == records[..i];
      if record.present && HasId(record) {
        var id := record.imageId.value;
        TagsStay(tagsByImageId, keys, records, i);
        if id !in tagsByImageId {
          tagsByImageId := tagsByImageId[id := []];
          keys := keys + [id];
        }
        tagsByImageId := tagsByImageId[id := tagsByImageId[id] + [record.tag]];
      } else {
        NoTagsStay(tagsByImageId, keys, records, i);
      }
    }
    assert records[..|records|] == records;
  }

  method RecordsWithDuplicateImageIds(records: seq<ImageSizeRecord>) returns (groups: seq<Group>)
    ensures groups == GroupsOf(records, IdsInOrder(records))
  {
    var tagsByImageId, keys := CollectTags(records);
    groups := [];
    for i := 0 to |keys|
      invariant groups == GroupsOf(records, keys[..i])
    {
      NextGroup(records, keys, i);
      var tags := tagsByImageId[keys[i]];
      if |tags| > 1 {
        groups := groups + [Group(keys[i], tags)];
      }
    }
    assert keys[..|keys|] == keys;
  }

  function GroupsOf(records: seq<ImageSizeRecord>, ids: seq<string>): seq<Group> {
    if ids == [] then []
    else
      var before, id := ids[..|ids| - 1], ids[|ids| - 1];
      var tags := TagsOf(records, id);
      GroupsOf(records, before) + if |tags| > 1 then [Group(id, tags)] else []
  }

  lemma NextGroup(records: seq<ImageSizeRecord>, ids: seq<string>, i: nat)
    requires i < |ids|
    ensures GroupsOf(records, ids[..i + 1]) ==
            GroupsOf(records, ids[..i]) +
            if |TagsOf(records, ids[i])| > 1 then [Group(ids[i], TagsOf(records, ids[i]))] else []
  {
    assert ids[..i + 1][..i] == ids[..i];
  }

  /** The groups are exactly the images with more than one present record, with the tags of those records. */
  lemma GroupsAreTheDuplicates(records: seq<ImageSizeRecord>)
    ensures forall g :: g in GroupsOf(records, IdsInOrder(records)) <==> IsGroup(g, records)
  {
    var ids := IdsInOrder(records);
    forall g
      ensures g in GroupsOf(records, ids) <==> g.imageId in ids && IsGroup(g, records)
    {
      GroupsOfContains(records, ids, g);
    }
  }

  lemma {:induction false} GroupsOfContains(records: seq<ImageSizeRecord>, ids: seq<string>, g: Group)
    ensures g in GroupsOf(records, ids) <==> g.imageId in ids && IsGroup(g, records)
  {
    if ids != [] {
      var before, id := ids[..|ids| - 1], ids[|ids| - 1];
      GroupsOfContains(records, before, g);
      assert ids == before + [id];
    }
  }

  /** What the records of one image add to the plain total beyond the first. */
  function Repeated(records: seq<ImageSizeRecord>, id: string): int {
    if records == [] then 0
    else
      var before, r := records[..|records| - 1], records[|records| - 1];
      Repeated(before, id) + if IsFor(r, id) && Repeats(before, r) then Size(r) else 0
  }

  function SumRepeated(records: seq<ImageSizeRecord>, ids: seq<string>): int {
    if ids == [] then 0
    else SumRepeated(records, ids[..|ids| - 1]) + Repeated(records, ids[|ids| - 1])
  }

  function GroupSavings(records: seq<ImageSizeRecord>, groups: seq<Group>): int {
    if groups == [] then 0
    else GroupSavings(records, groups[..|groups| - 1]) + Repeated(records, groups[|groups| - 1].imageId)
  }

  /** One more record changes the sum over all ids by what that record repeats. */
  lemma {:induction false} SumRepeatedStep(before: seq<ImageSizeRecord>, r: ImageSizeRecord, ids: seq<string>)
    requires NoDuplicates(ids)
    ensures SumRepeated(before + [r], ids)
         == SumRepeated(before, ids) + if HasId(r) && r.imageId.value in ids && Repeats(before, r) then Size(r) else 0
  {
    var records := before + [r];
    assert records[..|records| - 1] == before;
    if ids != [] {
      var init, id := ids[..|ids| - 1], ids[|ids| - 1];
      SumRepeatedStep(before, r, init);
      assert Repeated(records, id) == Repeated(before, id) + if IsFor(r, id) && Repeats(before, r) then Size(r) else 0;
      assert id !in init;
      assert forall other :: other in ids <==> other in init || other == id;
    }
  }

  lemma {:induction false} SumRepeatedIsDifference(records: seq<ImageSizeRecord>, ids: seq<string>)
    requires NoDuplicates(ids)
    requires forall k :: 0 <= k < |records| && records[k].present && HasId(records[k]) ==> records[k].imageId.value in ids
    ensures SumRepeated(records, ids) == PlainTotal(records) - DeduplicatedTotal(records)
  {
    if records == [] {
      SumRepeatedOfNone(ids);
    } else {
      var before, r := records[..|records| - 1], records[|records| - 1];
      assert records == before + [r];
      SumRepeatedIsDifference(before, ids);
      SumRepeatedStep(before, r, ids);
    }
  }

  lemma {:induction false} SumRepeatedOfNone(ids: seq<string>)
    ensures SumRepeated([], ids) == 0
  {
    if ids != [] {
      SumRepeatedOfNone(ids[..|ids| - 1]);
    }
  }

  /** An image listed once repeats nothing. */
  lemma {:induction false} RepeatedNeedsTwo(records: seq<ImageSizeRecord>, id: string)
    ensures TagsOf(records, id) == [] ==> !Known(records, id)
    ensures |TagsOf(records, id)| <= 1 ==> Repeated(records, id) == 0
  {
    if records != [] {
      RepeatedNeedsTwo(records[..|records| - 1], id);
      KnownGrows(records);
    }
  }

  lemma {:induction false} GroupsCarryAll(records: seq<ImageSizeRecord>, ids: seq<string>)
    ensures GroupSavings(records, GroupsOf(records, ids)) == SumRepeated(records, ids)
  {
    if ids != [] {
      var before, id := ids[..|ids| - 1], ids[|ids| - 1];
      GroupsCarryAll(records, before);
      RepeatedNeedsTwo(records, id);
      var groups := GroupsOf(records, ids);
      if |TagsOf(records, id)| > 1 {
        assert groups[..|groups| - 1] == GroupsOf(records, before);
      } else {
        assert groups == GroupsOf(records, before);
      }
    }
  }

  lemma {:induction false} Tagged(records: seq<ImageSizeRecord>, k: nat, id: string)
    requires k < |records| && records[k].present && IsFor(records[k], id)
    ensures |TagsOf(records, id)| > 0
  {
    var n := |records| - 1;
    if k < n {
      assert records[..n][k] == records[k];
      Tagged(records[..n], k, id);
    }
  }

  /** The reported saving is what the duplicate groups repeat, and nothing else. */
  lemma SavingsAreInTheGroups(records: seq<ImageSizeRecord>)
    ensures PlainTotal(records) - DeduplicatedTotal(records) == GroupSavings(records, GroupsOf(records, IdsInOrder(records)))
  {
    var ids := IdsInOrder(records);
    forall k: nat | k < |records| && records[k].present && HasId(records[k])
      ensures records[k].imageId.value in ids
    {
      Tagged(records, k, records[k].imageId.value);
    }
    SumRepeatedIsDifference(records, ids);
    GroupsCarryAll(records, ids);
  }

  function KnownReferences(records: seq<ImageSizeRecord>, id: string): nat {
    if records == [] then 0
    else
      var before, r := records[..|records| - 1], records[|records| - 1];
      KnownReferences(before, id) + if Counted(r) && IsFor(r, id) then 1 else 0
  }

  /** The size an image is given wherever it is given one. */
  ghost predicate HasSize(records: seq<ImageSizeRecord>, id: string, size: int) {
    forall k :: 0 <= k < |records| && Counted(records[k]) && IsFor(records[k], id) ==> records[k].sizeBytes.value == size
  }

  function Times(n: nat, size: int): int {
    if n == 0 then 0 else Times(n - 1, size) + size
  }

  lemma {:induction false} TimesIsProduct(n: nat, size: int)
    ensures Times(n, size) == n * size
  {
    if n > 0 {
      TimesIsProduct(n - 1, size);
    }
  }

  lemma {:induction false} KnownIffReferenced(records: seq<ImageSizeRecord>, id: string)
    ensures Known(records, id) <==> KnownReferences(records, id) > 0
  {
    if records != [] {
      KnownIffReferenced(records[..|records| - 1], id);
      KnownGrows(records);
    }
  }

  /** What an image repeats: its size once for each known reference but the first. */
  lemma {:induction false} RepeatedIsSizeTimes(records: seq<ImageSizeRecord>, id: string, size: int)
    requires HasSize(records, id, size)
    ensures var refs := KnownReferences(records, id);
      Repeated(records, id) == if refs == 0 then 0 else Times(refs - 1, size)
  {
    if records != [] {
      var before, r := records[..|records| - 1], records[|records| - 1];
      assert forall k :: 0 <= k < |before| ==> before[k] == records[k];
      RepeatedIsSizeTimes(before, id, size);
      KnownIffReferenced(before, id);
    }
  }

  lemma KnownSize(records: seq<ImageSizeRecord>, id: string) returns (size: int)
    requires Consistent(records)
    ensures HasSize(records, id, size)
  {
    size := 0;
    if Known(records, id) {
      var k :| 0 <= k < |records| && Counted(records[k]) && IsFor(records[k], id);
      size := records[k].sizeBytes.value;
      forall j | 0 <= j < |records| && Counted(records[j]) && IsFor(records[j], id)
        ensures records[j].sizeBytes.value == size
      {
        assert Agree(records[k], records[j]);
      }
    }
  }

  /** With one size an image, a group saves its size for each known reference but the first. */
  lemma GroupSaving(records: seq<ImageSizeRecord>, id: string) returns (size: int)
    requires Consistent(records)
    ensures HasSize(records, id, size)
    ensures var refs := KnownReferences(records, id);
      Repeated(records, id) == if refs == 0 then 0 else (refs - 1) * size
  {
    size := KnownSize(records, id);
    RepeatedIsSizeTimes(records, id, size);
    var refs := KnownReferences(records, id);
    if refs > 0 {
      TimesIsProduct(refs - 1, size);
    }
  }

  /** The de-duplicated total never exceeds the plain one, so the reported saving needs no clamp at zero. */
  lemma {:induction false} DeduplicatedAtMostPlain(records: seq<ImageSizeRecord>)
    requires forall r :: r in records ==> Size(r) >= 0
    ensures 0 <= DeduplicatedTotal(records) <= PlainTotal(records)
  {
    if records != [] {
      var before := records[..|records| - 1];
      assert forall r :: r in before ==> r in records;
      assert records[|records| - 1] in records;
      DeduplicatedAtMostPlain(before);
    }
  }
}
