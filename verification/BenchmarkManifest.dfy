/** The artifact manifest: latest artifact per key, tracks, history, and the published totals. */
module BenchmarkManifest {
  import opened Results
  import RuntimeLabels
  import opened Sequences

  // ---- Inputs ------------------------------------------------------------------------------

  /** A JSON file of the results directory. `stamp` orders as the timestamps do. */
  datatype File = File(
    name: string, isAsr: bool, payload: RuntimeLabels.Payload, stamp: int, sizeBytes: nat, transport: string, hint: string)

  datatype Status = Validated | Legacy | Blocked

  /** A track of the catalog; an empty `artifact` leaves the choice to the key. */
  datatype Track = Track(
    artifact: string, backend: string, model: string, device: Option<string>, compute: Option<string>, status: Status)

  /** Artifact paths are a fixed directory followed by the name, so the name stands for the path. */
  datatype TrackEntry = TrackEntry(
    status: Status, entry: RuntimeLabels.Entry, artifactPath: string, sizeBytes: nat, transport: string, hint: string)

  datatype HistoryEntry = HistoryEntry(
    artifactPath: string, entry: RuntimeLabels.Entry, sizeBytes: nat, transport: string, hint: string, status: Status)

  datatype Summary = Summary(
    artifactFileCount: nat,
    artifactTotalSizeBytes: nat,
    staleArtifactCount: nat,
    staleArtifactTotalSizeBytes: nat,
    publishedArtifactCount: nat,
    publishedArtifactTotalSizeBytes: nat)

  function GetOr(value: Option<string>, fallback: string): string {
    if value.Some? then value.value else fallback
  }

  function TrackKey(t: Track): string {
    RuntimeLabels.FormatKey(t.backend, t.model, GetOr(t.device, "unknown"), GetOr(t.compute, "default"))
  }

  function TrackRuntime(t: Track): string {
    RuntimeLabels.RuntimeLabel(RuntimeLabels.Payload(t.backend, t.model, GetOr(t.device, ""), GetOr(t.compute, "")))
  }

  /** The backend part that an artifact of this track would have; what is not configured is absent. */
  function PayloadOf(t: Track): RuntimeLabels.Payload {
    RuntimeLabels.Payload(t.backend, t.model, if t.device.Some? then t.device.value else "",
                          if t.compute.Some? then t.compute.value else "")
  }

  /**
   * A track is looked up under the key of its artifacts, exactly unless its device or compute type is configured as an
   * empty text: the key of an artifact never has an empty part there.
   */
  lemma TrackKeyIff(t: Track)
    ensures TrackKey(t) == RuntimeLabels.BenchmarkKey(PayloadOf(t)) <==> t.device != Some("") && t.compute != Some("")
  {
    var p := PayloadOf(t);
    var device, compute := if t.device.Some? then t.device.value else "unknown", if t.compute.Some? then t.compute.value else "default";
    RuntimeLabels.KeyText(t.backend, t.model, device, compute);
    RuntimeLabels.KeyText(p.name, p.model, RuntimeLabels.Or(p.device, "unknown"), RuntimeLabels.Or(p.compute, "default"));
    KeyLength(t.backend, t.model, device, compute);
    KeyLength(p.name, p.model, RuntimeLabels.Or(p.device, "unknown"), RuntimeLabels.Or(p.compute, "default"));
  }

  lemma KeyLength(backend: string, model: string, device: string, compute: string)
    ensures |RuntimeLabels.FormatKey(backend, model, device, compute)| == 11 + |backend| + |model| + |device| + |compute|
  {
    RuntimeLabels.KeyText(backend, model, device, compute);
  }

  // ---- Reading the results directory -------------------------------------------------------

  predicate Included(f: File, tracksName: string) {
    f.name != "manifest.json" && f.name != tracksName && f.isAsr
  }

  function Artifacts(files: seq<File>, tracksName: string): seq<File> {
    if |files| == 0 then []
    else
      var last := files[|files| - 1];
      Artifacts(files[..|files| - 1], tracksName) + (if Included(last, tracksName) then [last] else [])
  }

  ghost predicate DistinctNames(files: seq<File>) {
    forall i, j :: 0 <= i < j < |files| ==> files[i].name != files[j].name
  }

  function KeyOf(f: File): string {
    RuntimeLabels.BenchmarkKey(f.payload)
  }

  /** The first of the newest artifacts with this key sits at `i`. */
  ghost predicate IsLatestAt(artifacts: seq<File>, key: string, i: nat) {
    && i < |artifacts| && KeyOf(artifacts[i]) == key
    && forall j :: 0 <= j < |artifacts| && KeyOf(artifacts[j]) == key ==>
         artifacts[j].stamp <= artifacts[i].stamp && (j < i ==> artifacts[j].stamp < artifacts[i].stamp)
  }

  ghost predicate IsLatest(artifacts: seq<File>, key: string, f: File) {
    exists i: nat :: IsLatestAt(artifacts, key, i) && artifacts[i] == f
  }

  ghost predicate LatestOk(artifacts: seq<File>, latest: map<string, File>) {
    && (forall f :: f in artifacts ==> KeyOf(f) in latest)
    && (forall key :: key in latest ==> IsLatest(artifacts, key, latest[key]))
  }

  ghost predicate ByNameOk(artifacts: seq<File>, byName: map<string, File>) {
    && (forall f :: f in artifacts ==> f.name in byName && byName[f.name] == f)
    && (forall name :: name in byName ==> byName[name] in artifacts && byName[name].name == name)
  }

  lemma LatestKept(artifacts: seq<File>, key: string, f: File, newer: File)
    requires IsLatest(artifacts, key, f)
    requires KeyOf(newer) != key || newer.stamp <= f.stamp
    ensures IsLatest(artifacts + [newer], key, f)
  {
    var i: nat :| IsLatestAt(artifacts, key, i) && artifacts[i] == f;
    assert IsLatestAt(artifacts + [newer], key, i);
  }

  lemma NewerIsLatest(artifacts: seq<File>, key: string, f: File)
    requires KeyOf(f) == key
    requires forall j :: 0 <= j < |artifacts| && KeyOf(artifacts[j]) == key ==> artifacts[j].stamp < f.stamp
    ensures IsLatest(artifacts + [f], key, f)
  {
    assert IsLatestAt(artifacts + [f], key, |artifacts|);
  }

  lemma LatestReplaced(artifacts: seq<File>, latest: map<string, File>, f: File)
    requires LatestOk(artifacts, latest)
    requires KeyOf(f) !in latest || f.stamp > latest[KeyOf(f)].stamp
    ensures IsLatest(artifacts + [f], KeyOf(f), f)
  {
    var key := KeyOf(f);
    if key in latest {
      var i: nat :| IsLatestAt(artifacts, key, i) && artifacts[i] == latest[key];
      assert forall j :: 0 <= j < |artifacts| && KeyOf(artifacts[j]) == key ==> artifacts[j].stamp <= artifacts[i].stamp;
    } else {
      assert forall j :: 0 <= j < |artifacts| ==> artifacts[j] in artifacts;
    }
    NewerIsLatest(artifacts, key, f);
  }

  lemma LatestStep(artifacts: seq<File>, latest: map<string, File>, f: File)
    requires LatestOk(artifacts, latest)
    ensures LatestOk(artifacts + [f],
      if KeyOf(f) !in latest || f.stamp > latest[KeyOf(f)].stamp then latest[KeyOf(f) := f] else latest)
  {
    var replaced := KeyOf(f) !in latest || f.stamp > latest[KeyOf(f)].stamp;
    var latest' := if replaced then latest[KeyOf(f) := f] else latest;
    if replaced {
      LatestReplaced(artifacts, latest, f);
    }
    forall key | key in latest' && !(replaced && key == KeyOf(f))
      ensures IsLatest(artifacts + [f], key, latest'[key])
    {
      LatestKept(artifacts, key, latest[key], f);
    }
  }

  // ---- Tracks ------------------------------------------------------------------------------

  function ChooseArtifact(t: Track, byName: map<string, File>, latest: map<string, File>): Option<File> {
    if t.artifact != "" then (if t.artifact in byName then Some(byName[t.artifact]) else None)
    else if TrackKey(t) in latest then Some(latest[TrackKey(t)]) else None
  }

  function BuildTrackEntry(t: Track, artifact: Option<File>): TrackEntry {
    var entry := RuntimeLabels.Entry(t.backend, t.model, TrackRuntime(t));
    if artifact.None? then TrackEntry(t.status, entry, "", 0, "", "")
    else TrackEntry(t.status, entry, artifact.value.name, artifact.value.sizeBytes, artifact.value.transport, artifact.value.hint)
  }

  function BuildHistoryEntry(f: File): HistoryEntry {
    HistoryEntry(f.name, RuntimeLabels.EntryOf(f.payload), f.sizeBytes, f.transport, f.hint, Legacy)
  }

  // ---- History -----------------------------------------------------------------------------

  /** How well an artifact fits a track: its name first, then hint and transport. */
  datatype MatchScore = MatchScore(name: nat, context: nat)

  predicate Less(a: MatchScore, b: MatchScore) {
    a.name < b.name || (a.name == b.name && a.context < b.context)
  }

  function ScoreMatch(h: HistoryEntry, t: TrackEntry): MatchScore {
    MatchScore(
      if h.artifactPath != "" && h.artifactPath == t.artifactPath then 1 else 0,
      (if h.hint != "" && h.hint == t.hint then 1 else 0) + (if h.transport != "" && h.transport == t.transport then 1 else 0))
  }

  predicate SameKey(h: HistoryEntry, t: TrackEntry) {
    RuntimeLabels.BenchmarkKeyFromEntry(t.entry) == RuntimeLabels.BenchmarkKeyFromEntry(h.entry)
  }

  function MatchingTracks(h: HistoryEntry, tracks: seq<TrackEntry>): seq<TrackEntry> {
    if |tracks| == 0 then []
    else (if SameKey(h, tracks[0]) then [tracks[0]] else []) + MatchingTracks(h, tracks[1..])
  }

  /** `max(matching_tracks, key=...)`: the first of the best. */
  function BestTrack(h: HistoryEntry, matching: seq<TrackEntry>): TrackEntry
    requires |matching| > 0
  {
    var last := matching[|matching| - 1];
    if |matching| == 1 then last
    else
      var before := BestTrack(h, matching[..|matching| - 1]);
      if Less(ScoreMatch(h, before), ScoreMatch(h, last)) then last else before
  }

  function EnrichHistoryEntry(h: HistoryEntry, tracks: seq<TrackEntry>): HistoryEntry {
    var matching := MatchingTracks(h, tracks);
    if |matching| == 0 then h.(status := Legacy)
    else
      var track := BestTrack(h, matching);
      if track.artifactPath != "" && h.artifactPath == track.artifactPath then h.(status := track.status)
      else h.(status := Legacy)
  }

  lemma {:induction false} MatchingTracksAre(h: HistoryEntry, tracks: seq<TrackEntry>)
    ensures forall t :: t in MatchingTracks(h, tracks) <==> t in tracks && SameKey(h, t)
  {
    if |tracks| > 0 {
      MatchingTracksAre(h, tracks[1..]);
      assert tracks == [tracks[0]] + tracks[1..];
    }
  }

  predicate NoneBetter(h: HistoryEntry, best: MatchScore, tracks: seq<TrackEntry>) {
    forall t :: t in tracks ==> !Less(best, ScoreMatch(h, t))
  }

  lemma NoneBetterThanBetter(h: HistoryEntry, best: MatchScore, better: MatchScore, tracks: seq<TrackEntry>)
    requires NoneBetter(h, best, tracks) && Less(best, better)
    ensures NoneBetter(h, better, tracks)
  {
    forall t | t in tracks ensures !Less(better, ScoreMatch(h, t)) {
      assert !Less(best, ScoreMatch(h, t));
    }
  }

  lemma NoneBetterWithLast(h: HistoryEntry, best: MatchScore, front: seq<TrackEntry>, last: TrackEntry)
    requires NoneBetter(h, best, front) && !Less(best, ScoreMatch(h, last))
    ensures NoneBetter(h, best, front + [last])
  {
  }

  lemma {:induction false} BestTrackIsBest(h: HistoryEntry, matching: seq<TrackEntry>)
    requires |matching| > 0
    ensures BestTrack(h, matching) in matching && NoneBetter(h, ScoreMatch(h, BestTrack(h, matching)), matching)
    decreases |matching|
  {
    var front, last := matching[..|matching| - 1], matching[|matching| - 1];
    SplitConcat(matching, |front|);
    assert matching[|front|..] == [last];
    var score := ScoreMatch(h, last);
    if |matching| > 1 {
      BestTrackIsBest(h, front);
      var before := ScoreMatch(h, BestTrack(h, front));
      if Less(before, score) {
        NoneBetterThanBetter(h, before, score, front);
        NoneBetterWithLast(h, score, front, last);
      } else {
        NoneBetterWithLast(h, before, front, last);
      }
    } else {
      NoneBetterWithLast(h, score, front, last);
    }
  }

  /** An artifact takes a track's status exactly when some track of its key points at it. */
  lemma CurrentIff(h: HistoryEntry, tracks: seq<TrackEntry>)
    requires h.artifactPath != ""
    ensures (|MatchingTracks(h, tracks)| > 0 && BestTrack(h, MatchingTracks(h, tracks)).artifactPath == h.artifactPath)
       <==> exists t :: t in tracks && SameKey(h, t) && t.artifactPath == h.artifactPath
  {
    var matching := MatchingTracks(h, tracks);
    MatchingTracksAre(h, tracks);
    if |matching| > 0 {
      BestTrackIsBest(h, matching);
    }
    if t :| t in tracks && SameKey(h, t) && t.artifactPath == h.artifactPath {
      assert t in matching;
      assert !Less(ScoreMatch(h, BestTrack(h, matching)), ScoreMatch(h, t));
    }
  }

  // ---- The manifest ------------------------------------------------------------------------

  function Enriched(artifacts: seq<File>, tracks: seq<TrackEntry>): seq<HistoryEntry> {
    seq(|artifacts|, i requires 0 <= i < |artifacts| => EnrichHistoryEntry(BuildHistoryEntry(artifacts[i]), tracks))
  }

  function SumSizes(entries: seq<HistoryEntry>): nat {
    if |entries| == 0 then 0 else entries[0].sizeBytes + SumSizes(entries[1..])
  }

  function SumTrackSizes(entries: seq<TrackEntry>): nat {
    if |entries| == 0 then 0 else entries[0].sizeBytes + SumTrackSizes(entries[1..])
  }

  function Backed(tracks: seq<TrackEntry>): seq<TrackEntry> {
    if |tracks| == 0 then []
    else (if tracks[0].artifactPath != "" then [tracks[0]] else []) + Backed(tracks[1..])
  }

  function CurrentPaths(tracks: seq<TrackEntry>): set<string> {
    set t | t in tracks && t.artifactPath != "" :: t.artifactPath
  }

  function Stale(history: seq<HistoryEntry>, paths: set<string>): seq<HistoryEntry> {
    if |history| == 0 then []
    else (if history[0].artifactPath !in paths && history[0].status.Legacy? then [history[0]] else []) + Stale(history[1..], paths)
  }

  function Summarize(history: seq<HistoryEntry>, tracks: seq<TrackEntry>): Summary {
    var stale := Stale(history, CurrentPaths(tracks));
    Summary(|history|, SumSizes(history), |stale|, SumSizes(stale), |Backed(tracks)|, SumTrackSizes(Backed(tracks)))
  }

  /** The tracks of a manifest point at artifacts of the directory, by name or as the latest of their key. */
  ghost predicate TracksOk(catalog: seq<Track>, artifacts: seq<File>, tracks: seq<TrackEntry>) {
    && |tracks| == |catalog|
    && forall i :: 0 <= i < |tracks| ==> TrackOk(catalog[i], artifacts, tracks[i])
  }

  ghost predicate TrackOk(t: Track, artifacts: seq<File>, entry: TrackEntry) {
    || (entry == BuildTrackEntry(t, None)
        && forall f :: f in artifacts ==>
             if t.artifact != "" then f.name != t.artifact else KeyOf(f) != TrackKey(t))
    || (exists f :: f in artifacts && IsChoice(t, artifacts, f) && entry == BuildTrackEntry(t, Some(f)))
  }

  lemma TracksGrow(catalog: seq<Track>, i: nat, artifacts: seq<File>, tracks: seq<TrackEntry>, entry: TrackEntry)
    requires i < |catalog| && TracksOk(catalog[..i], artifacts, tracks) && TrackOk(catalog[i], artifacts, entry)
    ensures TracksOk(catalog[..i + 1], artifacts, tracks + [entry])
  {
    forall j | 0 <= j < i
      ensures TrackOk(catalog[..i + 1][j], artifacts, (tracks + [entry])[j])
    {
      assert TrackOk(catalog[..i][j], artifacts, tracks[j]);
    }
  }

  ghost predicate IsChoice(t: Track, artifacts: seq<File>, f: File) {
    if t.artifact != "" then f.name == t.artifact else IsLatest(artifacts, TrackKey(t), f)
  }

  lemma ChosenTrackOk(t: Track, artifacts: seq<File>, byName: map<string, File>, latest: map<string, File>)
    requires ByNameOk(artifacts, byName) && LatestOk(artifacts, latest)
    ensures TrackOk(t, artifacts, BuildTrackEntry(t, ChooseArtifact(t, byName, latest)))
  {
    var chosen := ChooseArtifact(t, byName, latest);
    if chosen.Some? {
      if t.artifact == "" {
        assert IsLatest(artifacts, TrackKey(t), chosen.value);
      }
      assert chosen.value in artifacts;
    }
  }

  /** Files come sorted by name from one directory, so their names are distinct and not empty. */
  ghost predicate Directory(files: seq<File>) {
    DistinctNames(files) && forall f :: f in files ==> f.name != ""
  }

  lemma {:induction false} ArtifactsAreFiles(files: seq<File>, tracksName: string)
    ensures forall f :: f in Artifacts(files, tracksName) <==>
      f in files && f.isAsr && f.name !in {"manifest.json", tracksName}
    decreases |files|
  {
    if |files| > 0 {
      var front, last := files[..|files| - 1], files[|files| - 1];
      ArtifactsAreFiles(front, tracksName);
      assert files == front + [last];
    }
  }

  lemma {:induction false} ArtifactsDistinct(files: seq<File>, tracksName: string)
    requires DistinctNames(files)
    ensures DistinctNames(Artifacts(files, tracksName))
    decreases |files|
  {
    if |files| > 0 {
      var front := files[..|files| - 1];
      ArtifactsDistinct(front, tracksName);
      var before := Artifacts(front, tracksName);
      forall i | 0 <= i < |before|
        ensures before[i].name != files[|files| - 1].name
      {
        ArtifactsAreFiles(front, tracksName);
        assert before[i] in before;
        assert before[i] in front;
      }
    }
  }

  lemma ByNameStep(files: seq<File>, i: nat, tracksName: string, byName: map<string, File>)
    requires DistinctNames(files) && i < |files|
    requires ByNameOk(Artifacts(files[..i], tracksName), byName)
    ensures ByNameOk(Artifacts(files[..i], tracksName) + [files[i]], byName[files[i].name := files[i]])
  {
    var before := Artifacts(files[..i], tracksName);
    ArtifactsAreFiles(files[..i], tracksName);
    forall f | f in before
      ensures f.name != files[i].name
    {
      assert f in files[..i];
    }
  }

  method BuildManifest(files: seq<File>, tracksName: string, catalog: seq<Track>)
    returns (tracks: seq<TrackEntry>, history: seq<HistoryEntry>, summary: Summary)
    requires Directory(files)
    ensures TracksOk(catalog, Artifacts(files, tracksName), tracks)
    ensures history == Enriched(Artifacts(files, tracksName), tracks)
    ensures summary == Summarize(history, tracks)
  {
    var latest: map<string, File> := map[];
    var artifactsByName: map<string, File> := map[];
    var artifacts: seq<File> := [];
    for i := 0 to |files|
      invariant artifacts == Artifacts(files[..i], tracksName)
      invariant LatestOk(artifacts, latest)
      invariant ByNameOk(artifacts, artifactsByName)
    {
      var f := files[i];
      ArtifactsStep(files, i, tracksName);
      if Included(f, tracksName) {
        ByNameStep(files, i, tracksName, artifactsByName);
        LatestStep(artifacts, latest, f);
        var key := KeyOf(f);
        artifacts := artifacts + [f];
        artifactsByName := artifactsByName[f.name := f];
        if key !in latest || f.stamp > latest[key].stamp {
          latest := latest[key := f];
        }
      }
    }
    assert files[..|files|] == files;
    tracks := [];
    for i := 0 to |catalog|
      invariant TracksOk(catalog[..i], artifacts, tracks)
    {
      var entry := BuildTrackEntry(catalog[i], ChooseArtifact(catalog[i], artifactsByName, latest));
      ChosenTrackOk(catalog[i], artifacts, artifactsByName, latest);
      TracksGrow(catalog, i, artifacts, tracks, entry);
      tracks := tracks + [entry];
    }
    assert catalog[..|catalog|] == catalog;
    history := Enriched(artifacts, tracks);
    summary := Summarize(history, tracks);
  }

  lemma ArtifactsStep(files: seq<File>, i: nat, tracksName: string)
    requires i < |files|
    ensures Artifacts(files[..i + 1], tracksName)
         == Artifacts(files[..i], tracksName) + (if Included(files[i], tracksName) then [files[i]] else [])
  {
    assert files[..i + 1][..i] == files[..i];
  }

  /** So what the method returns is what the conservation laws below are about. */
  lemma BuildManifestIsBuilt(files: seq<File>, tracksName: string, catalog: seq<Track>, tracks: seq<TrackEntry>)
    requires Directory(files) && TracksOk(catalog, Artifacts(files, tracksName), tracks)
    ensures Built(Artifacts(files, tracksName), catalog, tracks, Enriched(Artifacts(files, tracksName), tracks))
  {
    ArtifactsDistinct(files, tracksName);
    ArtifactsAreFiles(files, tracksName);
  }

  // ---- Every artifact is current or stale --------------------------------------------------

  /** What `BuildManifest` establishes about a history and its tracks. */
  ghost predicate Built(artifacts: seq<File>, catalog: seq<Track>, tracks: seq<TrackEntry>, history: seq<HistoryEntry>) {
    && DistinctNames(artifacts) && (forall f :: f in artifacts ==> f.name != "")
    && TracksOk(catalog, artifacts, tracks)
    && history == Enriched(artifacts, tracks)
  }

  ghost predicate DistinctPaths(history: seq<HistoryEntry>) {
    forall i, j :: 0 <= i < j < |history| ==> history[i].artifactPath != history[j].artifactPath
  }

  /** Entries some track points at. */
  function Current(history: seq<HistoryEntry>, paths: set<string>): seq<HistoryEntry> {
    if |history| == 0 then []
    else (if history[0].artifactPath in paths then [history[0]] else []) + Current(history[1..], paths)
  }

  /** An artifact no track points at is never given a track's status. */
  lemma UntrackedIsLegacy(h: HistoryEntry, tracks: seq<TrackEntry>)
    requires h.artifactPath != "" && h.artifactPath !in CurrentPaths(tracks)
    ensures EnrichHistoryEntry(h, tracks).status.Legacy?
  {
    MatchingTracksAre(h, tracks);
    if |MatchingTracks(h, tracks)| > 0 {
      BestTrackIsBest(h, MatchingTracks(h, tracks));
    }
  }

  lemma {:induction false} MatchingConcat(h: HistoryEntry, front: seq<TrackEntry>, back: seq<TrackEntry>)
    ensures MatchingTracks(h, front + back) == MatchingTracks(h, front) + MatchingTracks(h, back)
  {
    if front == [] {
      ConcatEmpty(back);
      ConcatEmpty(MatchingTracks(h, back));
    } else {
      assert (front + back)[1..] == front[1..] + back;
      MatchingConcat(h, front[1..], back);
      ConcatAssociative(if SameKey(h, front[0]) then [front[0]] else [], MatchingTracks(h, front[1..]), MatchingTracks(h, back));
    }
  }

  /** A match that beats all before it and is beaten by none is the one chosen. */
  lemma {:induction false} BestTrackAt(h: HistoryEntry, matching: seq<TrackEntry>, b: nat)
    requires b < |matching|
    requires forall q :: 0 <= q < b ==> Less(ScoreMatch(h, matching[q]), ScoreMatch(h, matching[b]))
    requires forall q :: b < q < |matching| ==> !Less(ScoreMatch(h, matching[b]), ScoreMatch(h, matching[q]))
    ensures BestTrack(h, matching) == matching[b]
    decreases |matching|
  {
    if |matching| > 1 {
      var front := matching[..|matching| - 1];
      if b < |front| {
        BestTrackAt(h, front, b);
      } else {
        BestTrackIsBest(h, front);
        var before := BestTrack(h, front);
        var q :| 0 <= q < |front| && front[q] == before;
        assert matching[q] == before;
      }
    }
  }

  predicate SameHint(h: HistoryEntry, t: TrackEntry) {
    h.hint != "" && t.hint == h.hint
  }

  predicate SameTransport(h: HistoryEntry, t: TrackEntry) {
    h.transport != "" && t.transport == h.transport
  }

  /**
   * The track chosen for an artifact points at it if any match does; among those that do, or if none does, it agrees
   * with the artifact on hint and transport as far as any other.
   */
  lemma ChosenAgreesMost(h: HistoryEntry, tracks: seq<TrackEntry>, t: TrackEntry)
    requires h.artifactPath != "" && t in MatchingTracks(h, tracks)
    ensures var best := BestTrack(h, MatchingTracks(h, tracks));
      && best in tracks && (t.artifactPath == h.artifactPath ==> best.artifactPath == h.artifactPath)
      && ((t.artifactPath == h.artifactPath <==> best.artifactPath == h.artifactPath) ==>
            && (SameHint(h, t) && SameTransport(h, t) ==> SameHint(h, best) && SameTransport(h, best))
            && (SameHint(h, t) || SameTransport(h, t) ==> SameHint(h, best) || SameTransport(h, best)))
  {
    MatchingTracksAre(h, tracks);
    BestTrackIsBest(h, MatchingTracks(h, tracks));
  }

  /** The track points at the artifact and has its key. */
  predicate Names(t: TrackEntry, h: HistoryEntry) {
    && RuntimeLabels.BenchmarkKeyFromEntry(t.entry) == RuntimeLabels.BenchmarkKeyFromEntry(h.entry)
    && t.artifactPath == h.artifactPath
  }

  /** Tracks that point at one artifact describe it alike, so the first of them is chosen. */
  lemma FirstNamingIsBest(h: HistoryEntry, tracks: seq<TrackEntry>, p: nat)
    requires h.artifactPath != "" && p < |tracks| && Names(tracks[p], h)
    requires forall q :: 0 <= q < p ==> !Names(tracks[q], h)
    requires forall t :: t in tracks && Names(t, h) ==> t.transport == h.transport && t.hint == h.hint
    ensures |MatchingTracks(h, tracks)| > 0 && BestTrack(h, MatchingTracks(h, tracks)) == tracks[p]
  {
    var front, back := tracks[..p], tracks[p..];
    SplitConcat(tracks, p);
    MatchingConcat(h, front, back);
    var before, matching := MatchingTracks(h, front), MatchingTracks(h, tracks);
    MatchingTracksAre(h, front);
    MatchingTracksAre(h, tracks);
    assert MatchingTracks(h, back)[0] == tracks[p];
    forall q | 0 <= q < |before|
      ensures Less(ScoreMatch(h, matching[q]), ScoreMatch(h, tracks[p]))
    {
      assert before[q] in before;
      assert before[q] in front;
    }
    forall q | |before| < q < |matching|
      ensures !Less(ScoreMatch(h, tracks[p]), ScoreMatch(h, matching[q]))
    {
      assert matching[q] in matching;
    }
    BestTrackAt(h, matching, |before|);
  }

  /** The first track that points at an artifact and has its key. */
  ghost predicate FirstNames(tracks: seq<TrackEntry>, h: HistoryEntry, p: nat) {
    p < |tracks| && Names(tracks[p], h) && forall q :: 0 <= q < p ==> !Names(tracks[q], h)
  }

  /** Each track, in catalog order, has its own status and runtime, and the data of the artifact chosen for it. */
  lemma TrackIs(artifacts: seq<File>, catalog: seq<Track>, tracks: seq<TrackEntry>, i: nat)
    requires TracksOk(catalog, artifacts, tracks) && i < |catalog|
    ensures |tracks| == |catalog|
    ensures var t, e := catalog[i], tracks[i];
      && e.status == t.status && e.entry == RuntimeLabels.EntryOf(PayloadOf(t))
      && ((exists f :: f in artifacts && IsChoice(t, artifacts, f)) ==>
            exists f :: f in artifacts && IsChoice(t, artifacts, f)
              && e.artifactPath == f.name && e.sizeBytes == f.sizeBytes && e.transport == f.transport && e.hint == f.hint)
      && ((forall f :: f in artifacts ==> !IsChoice(t, artifacts, f)) ==> e.artifactPath == e.transport == e.hint == "" && e.sizeBytes == 0)
  {
    assert TrackOk(catalog[i], artifacts, tracks[i]);
  }

  /**
   * What the history says of each artifact: its own data, and the status of the first track that points at it and has
   * its key. Without such a track it is legacy.
   */
  lemma HistoryStatusIs(artifacts: seq<File>, catalog: seq<Track>, tracks: seq<TrackEntry>, history: seq<HistoryEntry>, i: nat)
    requires Built(artifacts, catalog, tracks, history) && i < |artifacts|
    ensures |history| == |artifacts|
    ensures var f, h := artifacts[i], history[i];
      && h.artifactPath == f.name && h.entry == RuntimeLabels.EntryOf(f.payload)
      && h.sizeBytes == f.sizeBytes && h.transport == f.transport && h.hint == f.hint
    ensures forall p: nat :: FirstNames(tracks, history[i], p) ==> history[i].status == tracks[p].status
    ensures (forall t :: t in tracks ==> !Names(t, history[i])) ==> history[i].status.Legacy?
  {
    var f := artifacts[i];
    var h := BuildHistoryEntry(f);
    assert f in artifacts;
    TracksDescribe(artifacts, catalog, tracks, i);
    assert forall t :: Names(t, h) <==> Names(t, history[i]);
    forall p: nat | FirstNames(tracks, h, p)
      ensures history[i].status == tracks[p].status
    {
      FirstNamingIsBest(h, tracks, p);
    }
    CurrentIff(h, tracks);
  }

  lemma TracksDescribe(artifacts: seq<File>, catalog: seq<Track>, tracks: seq<TrackEntry>, i: nat)
    requires DistinctNames(artifacts) && i < |artifacts| && artifacts[i].name != "" && TracksOk(catalog, artifacts, tracks)
    ensures forall t :: t in tracks && t.artifactPath == artifacts[i].name ==>
      t.transport == artifacts[i].transport && t.hint == artifacts[i].hint
  {
    forall k | 0 <= k < |tracks| && tracks[k].artifactPath == artifacts[i].name
      ensures tracks[k].transport == artifacts[i].transport && tracks[k].hint == artifacts[i].hint
    {
      assert TrackOk(catalog[k], artifacts, tracks[k]);
      var f :| f in artifacts && tracks[k] == BuildTrackEntry(catalog[k], Some(f));
      var j :| 0 <= j < |artifacts| && artifacts[j] == f;
    }
  }

  lemma {:induction false} CurrentOrStale(history: seq<HistoryEntry>, paths: set<string>)
    requires forall h :: h in history && h.artifactPath !in paths ==> h.status.Legacy?
    ensures |Stale(history, paths)| + |Current(history, paths)| == |history|
    ensures SumSizes(Stale(history, paths)) + SumSizes(Current(history, paths)) == SumSizes(history)
  {
    if |history| > 0 {
      var h, rest := history[0], history[1..];
      CurrentOrStale(rest, paths);
      assert ([h] + Stale(rest, paths))[1..] == Stale(rest, paths);
      assert ([h] + Current(rest, paths))[1..] == Current(rest, paths);
      assert [] + Stale(rest, paths) == Stale(rest, paths) && [] + Current(rest, paths) == Current(rest, paths);
      assert h in history;
    }
  }

  lemma SizeWithout(paths: set<string>, path: string)
    ensures |paths| == |paths - {path}| + (if path in paths then 1 else 0)
  {
    if path in paths {
      assert paths == (paths - {path}) + {path};
    } else {
      assert paths == paths - {path};
    }
  }

  lemma RestCovers(history: seq<HistoryEntry>, paths: set<string>)
    requires |history| > 0
    requires forall p :: p in paths ==> exists i :: 0 <= i < |history| && history[i].artifactPath == p
    ensures forall p :: p in paths - {history[0].artifactPath} ==>
      exists i :: 0 <= i < |history[1..]| && history[1..][i].artifactPath == p
  {
    forall p | p in paths - {history[0].artifactPath}
      ensures exists i :: 0 <= i < |history[1..]| && history[1..][i].artifactPath == p
    {
      var i :| 0 <= i < |history| && history[i].artifactPath == p;
      assert history[1..][i - 1].artifactPath == p;
    }
  }

  /** With distinct paths, there are as many current entries as current paths. */
  lemma {:induction false} CurrentCount(history: seq<HistoryEntry>, paths: set<string>)
    requires DistinctPaths(history)
    requires forall p :: p in paths ==> exists i :: 0 <= i < |history| && history[i].artifactPath == p
    ensures |Current(history, paths)| == |paths|
    decreases |history|
  {
    if |history| == 0 {
      assert paths == {};
    } else {
      var h, rest := history[0], history[1..];
      var fewer := paths - {h.artifactPath};
      RestCovers(history, paths);
      CurrentCount(rest, fewer);
      CurrentIgnores(rest, paths, h.artifactPath);
      SizeWithout(paths, h.artifactPath);
    }
  }

  lemma {:induction false} CurrentIgnores(history: seq<HistoryEntry>, paths: set<string>, path: string)
    requires forall i :: 0 <= i < |history| ==> history[i].artifactPath != path
    ensures Current(history, paths) == Current(history, paths - {path})
  {
    if |history| > 0 {
      CurrentIgnores(history[1..], paths, path);
    }
  }

  lemma BuiltFacts(artifacts: seq<File>, catalog: seq<Track>, tracks: seq<TrackEntry>, history: seq<HistoryEntry>)
    requires Built(artifacts, catalog, tracks, history)
    ensures DistinctPaths(history)
    ensures forall h :: h in history && h.artifactPath !in CurrentPaths(tracks) ==> h.status.Legacy?
    ensures forall p :: p in CurrentPaths(tracks) ==> exists i :: 0 <= i < |history| && history[i].artifactPath == p
    ensures forall i :: 0 <= i < |tracks| && tracks[i].artifactPath != "" ==> PointsInto(tracks[i], history)
  {
    forall i | 0 <= i < |artifacts|
      ensures history[i].artifactPath == artifacts[i].name && history[i].sizeBytes == artifacts[i].sizeBytes
      ensures history[i].artifactPath !in CurrentPaths(tracks) ==> history[i].status.Legacy?
    {
      assert artifacts[i] in artifacts;
      if artifacts[i].name !in CurrentPaths(tracks) {
        UntrackedIsLegacy(BuildHistoryEntry(artifacts[i]), tracks);
      }
    }
    forall i | 0 <= i < |tracks| && tracks[i].artifactPath != ""
      ensures PointsInto(tracks[i], history)
    {
      assert TrackOk(catalog[i], artifacts, tracks[i]);
      var f :| f in artifacts && tracks[i] == BuildTrackEntry(catalog[i], Some(f));
      var k :| 0 <= k < |artifacts| && artifacts[k] == f;
      assert history[k].artifactPath == f.name;
    }
  }

  /** The number of files is the number of stale artifacts plus the number of distinct paths tracks point at. */
  lemma FileCountConserved(artifacts: seq<File>, catalog: seq<Track>, tracks: seq<TrackEntry>, history: seq<HistoryEntry>)
    requires Built(artifacts, catalog, tracks, history)
    ensures var s := Summarize(history, tracks);
      s.artifactFileCount == |artifacts| && s.artifactFileCount == s.staleArtifactCount + |CurrentPaths(tracks)|
  {
    BuiltFacts(artifacts, catalog, tracks, history);
    CurrentOrStale(history, CurrentPaths(tracks));
    CurrentCount(history, CurrentPaths(tracks));
  }

  // ---- Published bytes ---------------------------------------------------------------------

  /** How many tracks point at a path. */
  function References(tracks: seq<TrackEntry>, path: string): nat {
    if |tracks| == 0 then 0
    else (if tracks[0].artifactPath == path then 1 else 0) + References(tracks[1..], path)
  }

  /** Each history entry counted once for every track pointing at it. */
  function SumReferenced(history: seq<HistoryEntry>, tracks: seq<TrackEntry>): nat {
    if |history| == 0 then 0
    else References(tracks, history[0].artifactPath) * history[0].sizeBytes + SumReferenced(history[1..], tracks)
  }

  ghost predicate PointsInto(t: TrackEntry, history: seq<HistoryEntry>) {
    exists k :: 0 <= k < |history| && history[k].artifactPath == t.artifactPath && history[k].sizeBytes == t.sizeBytes
  }

  /** One more track adds its artifact's size to the referenced total. */
  lemma {:induction false} OneMoreTrack(history: seq<HistoryEntry>, t: TrackEntry, tracks: seq<TrackEntry>)
    requires DistinctPaths(history)
    ensures PointsInto(t, history) ==>
      SumReferenced(history, [t] + tracks) == SumReferenced(history, tracks) + t.sizeBytes
    ensures (forall k :: 0 <= k < |history| ==> history[k].artifactPath != t.artifactPath) ==>
      SumReferenced(history, [t] + tracks) == SumReferenced(history, tracks)
    decreases |history|
  {
    if |history| > 0 {
      var h, rest := history[0], history[1..];
      assert ([t] + tracks)[1..] == tracks;
      OneMoreTrack(rest, t, tracks);
      var r := References(tracks, h.artifactPath);
      assert (r + 1) * h.sizeBytes == r * h.sizeBytes + h.sizeBytes;
      if PointsInto(t, history) {
        var k :| 0 <= k < |history| && history[k].artifactPath == t.artifactPath && history[k].sizeBytes == t.sizeBytes;
        if k == 0 {
          assert forall j :: 0 <= j < |rest| ==> rest[j].artifactPath != t.artifactPath;
        } else {
          assert rest[k - 1] == history[k];
        }
      }
    }
  }

  lemma {:induction false} PublishedIsReferenced(history: seq<HistoryEntry>, tracks: seq<TrackEntry>)
    requires DistinctPaths(history) && forall h :: h in history ==> h.artifactPath != ""
    requires forall i :: 0 <= i < |tracks| && tracks[i].artifactPath != "" ==> PointsInto(tracks[i], history)
    ensures SumTrackSizes(Backed(tracks)) == SumReferenced(history, tracks)
    decreases |tracks|
  {
    if |tracks| == 0 {
      NoReferences(history);
    } else {
      var t, rest := tracks[0], tracks[1..];
      assert tracks == [t] + rest;
      PublishedIsReferenced(history, rest);
      OneMoreTrack(history, t, rest);
      if t.artifactPath != "" {
        assert ([t] + Backed(rest))[1..] == Backed(rest);
      } else {
        assert [] + Backed(rest) == Backed(rest);
        assert forall k :: 0 <= k < |history| ==> history[k] in history;
      }
    }
  }

  lemma {:induction false} NoReferences(history: seq<HistoryEntry>)
    ensures SumReferenced(history, []) == 0
  {
    if |history| > 0 {
      NoReferences(history[1..]);
    }
  }

  lemma {:induction false} ReferencedPath(tracks: seq<TrackEntry>, path: string)
    requires path != ""
    ensures References(tracks, path) > 0 <==> path in CurrentPaths(tracks)
  {
    if |tracks| > 0 {
      ReferencedPath(tracks[1..], path);
      assert tracks == [tracks[0]] + tracks[1..];
    }
  }

  ghost predicate SharedBytes(h: HistoryEntry, tracks: seq<TrackEntry>) {
    References(tracks, h.artifactPath) > 1 && h.sizeBytes > 0
  }

  /** Counting every reference gives at least the current bytes, and more exactly when something not empty is shared. */
  lemma {:induction false} ReferencedVersusCurrent(history: seq<HistoryEntry>, tracks: seq<TrackEntry>)
    requires forall h :: h in history ==> h.artifactPath != ""
    ensures SumSizes(Current(history, CurrentPaths(tracks))) <= SumReferenced(history, tracks)
    ensures SumSizes(Current(history, CurrentPaths(tracks))) == SumReferenced(history, tracks)
       <==> forall i :: 0 <= i < |history| ==> !SharedBytes(history[i], tracks)
    decreases |history|
  {
    if |history| > 0 {
      var h, rest, paths := history[0], history[1..], CurrentPaths(tracks);
      ReferencedVersusCurrent(rest, tracks);
      assert h in history;
      ReferencedPath(tracks, h.artifactPath);
      assert ([h] + Current(rest, paths))[1..] == Current(rest, paths);
      assert [] + Current(rest, paths) == Current(rest, paths);
      TimesAtLeast(References(tracks, h.artifactPath), h.sizeBytes);
      assert forall i :: 0 <= i < |rest| ==> rest[i] == history[i + 1];
      assert (forall i :: 0 <= i < |history| ==> !SharedBytes(history[i], tracks))
        <==> !SharedBytes(h, tracks) && (forall i :: 0 <= i < |rest| ==> !SharedBytes(rest[i], tracks));
    }
  }

  lemma TimesAtLeast(r: nat, n: nat)
    ensures r > 0 ==> r * n >= n && (r * n == n <==> r == 1 || n == 0)
    ensures r == 0 ==> r * n == 0
  {
  }

  /**
   * Total bytes never exceed stale plus published bytes, and they agree exactly when no artifact
   * of some size is pointed at by two tracks.
   */
  lemma BytesConserved(artifacts: seq<File>, catalog: seq<Track>, tracks: seq<TrackEntry>, history: seq<HistoryEntry>)
    requires Built(artifacts, catalog, tracks, history)
    ensures var s := Summarize(history, tracks);
      s.artifactTotalSizeBytes <= s.staleArtifactTotalSizeBytes + s.publishedArtifactTotalSizeBytes
    ensures var s := Summarize(history, tracks);
      s.artifactTotalSizeBytes == s.staleArtifactTotalSizeBytes + s.publishedArtifactTotalSizeBytes
      <==> !SomeShared(tracks)
  {
    BuiltFacts(artifacts, catalog, tracks, history);
    assert forall i :: 0 <= i < |artifacts| ==> artifacts[i] in artifacts;
    CurrentOrStale(history, CurrentPaths(tracks));
    PublishedIsReferenced(history, tracks);
    ReferencedVersusCurrent(history, tracks);
    SharedIffTwoTracks(history, tracks);
  }

  /** Two tracks point at the same artifact, and it is not empty. */
  ghost predicate SomeShared(tracks: seq<TrackEntry>) {
    exists i, j :: 0 <= i < j < |tracks| && tracks[i].artifactPath == tracks[j].artifactPath
      && tracks[i].artifactPath != "" && tracks[i].sizeBytes > 0
  }

  lemma SharedIffTwoTracks(history: seq<HistoryEntry>, tracks: seq<TrackEntry>)
    requires DistinctPaths(history) && forall h :: h in history ==> h.artifactPath != ""
    requires forall i :: 0 <= i < |tracks| && tracks[i].artifactPath != "" ==> PointsInto(tracks[i], history)
    ensures (forall k :: 0 <= k < |history| ==> !SharedBytes(history[k], tracks))
       <==> !SomeShared(tracks)
  {
    if k :| 0 <= k < |history| && SharedBytes(history[k], tracks) {
      var i, j := TwoReferences(tracks, history[k].artifactPath);
      assert history[k] in history;
      assert PointsInto(tracks[i], history);
    }
    if SomeShared(tracks) {
      var i, j :| 0 <= i < j < |tracks| && tracks[i].artifactPath == tracks[j].artifactPath
        && tracks[i].artifactPath != "" && tracks[i].sizeBytes > 0;
      assert PointsInto(tracks[i], history);
      var k :| 0 <= k < |history| && history[k].artifactPath == tracks[i].artifactPath && history[k].sizeBytes == tracks[i].sizeBytes;
      ReferencedTwice(tracks, i, j);
      assert SharedBytes(history[k], tracks);
    }
  }

  lemma {:induction false} SomeReference(tracks: seq<TrackEntry>, path: string) returns (i: nat)
    requires References(tracks, path) > 0
    ensures i < |tracks| && tracks[i].artifactPath == path
  {
    if tracks[0].artifactPath == path {
      i := 0;
    } else {
      i := SomeReference(tracks[1..], path);
      i := i + 1;
    }
  }

  lemma {:induction false} TwoReferences(tracks: seq<TrackEntry>, path: string) returns (i: nat, j: nat)
    requires References(tracks, path) > 1
    ensures i < j < |tracks| && tracks[i].artifactPath == path && tracks[j].artifactPath == path
  {
    if tracks[0].artifactPath == path {
      i := 0;
      j := SomeReference(tracks[1..], path);
      j := j + 1;
    } else {
      i, j := TwoReferences(tracks[1..], path);
      i, j := i + 1, j + 1;
    }
  }

  lemma {:induction false} ReferencedTwice(tracks: seq<TrackEntry>, i: nat, j: nat)
    requires i < j < |tracks| && tracks[i].artifactPath == tracks[j].artifactPath
    ensures References(tracks, tracks[i].artifactPath) > 1
    decreases |tracks|
  {
    if i > 0 {
      ReferencedTwice(tracks[1..], i - 1, j - 1);
    } else {
      ReferencedOnce(tracks[1..], j - 1);
    }
  }

  lemma {:induction false} ReferencedOnce(tracks: seq<TrackEntry>, i: nat)
    requires i < |tracks|
    ensures References(tracks, tracks[i].artifactPath) > 0
  {
    if i > 0 {
      ReferencedOnce(tracks[1..], i - 1);
    }
  }
}
