/** Artifact paths and the detail pages made from them. */
module ArtifactPaths {
  import opened Results

  /** `s.rfind(c)` */
  function LastIndexOf(s: string, c: char): (found: Option<nat>)
    ensures found.Some? ==> found.value < |s| && s[found.value] == c
    ensures forall k :: 0 <= k < |s| && (found.Some? ==> found.value < k) ==> s[k] != c
  {
    if s == [] then None
    else if s[|s| - 1] == c then Some(|s| - 1)
    else LastIndexOf(s[..|s| - 1], c)
  }

  lemma LastIndexIs(s: string, c: char, at: nat)
    requires at < |s| && s[at] == c && forall k :: at < k < |s| ==> s[k] != c
    ensures LastIndexOf(s, c) == Some(at)
  {
  }

  /** `Path(path).name`: the last component that is neither empty nor a single dot. */
  function NameOf(path: string): string
    decreases |path|
  {
    var slash := LastIndexOf(path, '/');
    var component := if slash.None? then path else path[slash.value + 1..];
    if component != "" && component != "." then component
    else if slash.None? then ""
    else NameOf(path[..slash.value])
  }

  /** `Path(name).stem` */
  function StemOf(name: string): string {
    var dot := LastIndexOf(name, '.');
    if dot.Some? && 0 < dot.value < |name| - 1 then name[..dot.value] else name
  }

  const JSON := ".json"
  const PAGES := "benchmark-results/pages/"
  const HTML := ".html"

  predicate EndsWith(s: string, suffix: string) {
    |suffix| <= |s| && s[|s| - |suffix|..] == suffix
  }

  function DetailPagePath(artifactPath: Option<string>): Option<string> {
    if artifactPath.None? || artifactPath.value == "" then None
    else
      var name := NameOf(artifactPath.value);
      if !EndsWith(name, JSON) then None else Some(PAGES + StemOf(name) + HTML)
  }

  /** The name is what stands behind the last slash; empty and single-dot components at the end do not count. */
  lemma NameOfIs(path: string, name: string)
    requires forall k :: 0 <= k < |name| ==> name[k] != '/'
    ensures NameOf(path + ("/" + name)) == if name == "" || name == "." then NameOf(path) else name
    ensures NameOf(name) == if name == "." then "" else name
  {
    var whole := path + ("/" + name);
    LastIndexIs(whole, '/', |path|);
    assert whole[|path| + 1..] == name && whole[..|path|] == path;
    assert LastIndexOf(name, '/').None?;
  }

  /** The stem ends ahead of the last dot, unless that is the first character or the last one. */
  lemma StemOfIs(stem: string, extension: string)
    requires forall k :: 0 <= k < |extension| ==> extension[k] != '.'
    ensures StemOf(stem + ("." + extension)) == if stem == "" || extension == "" then stem + ("." + extension) else stem
    ensures StemOf(extension) == extension
  {
    LastIndexIs(stem + ("." + extension), '.', |stem|);
    assert LastIndexOf(extension, '.').None?;
  }

  /** Only a path whose name ends in `.json` has a detail page, named after the stem. */
  lemma DetailPageIs(path: string)
    ensures DetailPagePath(None).None?
    ensures var name := NameOf(path);
      DetailPagePath(Some(path)) ==
        if path != "" && |name| >= 5 && name[|name| - 5..] == ".json"
        then Some("benchmark-results/pages/" + (StemOf(name) + ".html")) else None
  {
    assert PAGES + StemOf(NameOf(path)) + HTML == PAGES + (StemOf(NameOf(path)) + HTML);
  }

  // ---- Paths as the manifest builder writes them -------------------------------------------

  const RESULTS := "benchmark-results/"

  /** A file name the builder finds with `*.json`. */
  predicate IsJsonName(name: string) {
    EndsWith(name, JSON) && forall k :: 0 <= k < |name| ==> name[k] != '/'
  }

  function ArtifactPath(name: string): string {
    RESULTS + name
  }

  lemma NameOfArtifactPath(name: string)
    requires IsJsonName(name)
    ensures NameOf(ArtifactPath(name)) == name
  {
    var path := ArtifactPath(name);
    LastIndexIs(path, '/', |RESULTS| - 1);
    assert path[|RESULTS|..] == name;
  }

  /** The stem loses the extension, unless the extension is the whole name. */
  lemma StemOfJson(name: string)
    requires EndsWith(name, JSON)
    ensures StemOf(name) == if |name| > |JSON| then name[..|name| - |JSON|] else name
  {
    var at := |name| - |JSON|;
    assert forall k :: at <= k < |name| ==> name[k] == name[at..][k - at] == JSON[k - at];
    LastIndexIs(name, '.', at);
  }

  /** The one pair of names that share a detail page. */
  predicate SharesPage(name: string, other: string) {
    (name == JSON && other == JSON + JSON) || (name == JSON + JSON && other == JSON)
  }

  lemma SameAround(front: string, a: string, b: string, back: string)
    ensures front + a + back == front + b + back <==> a == b
  {
    if front + a + back == front + b + back {
      assert |a| == |b|;
      assert a == (front + a + back)[|front|..|front| + |a|] == b;
    }
  }

  lemma WithoutExtension(name: string)
    requires EndsWith(name, JSON)
    ensures name == name[..|name| - |JSON|] + JSON
  {
  }

  lemma StemIsJsonIff(name: string)
    requires EndsWith(name, JSON)
    ensures StemOf(name) == JSON <==> name == JSON || name == JSON + JSON
  {
    StemOfJson(name);
    WithoutExtension(name);
    if |name| == |JSON| {
      assert name == name[|name| - |JSON|..];
    } else {
      SameFront(name[..|name| - |JSON|], JSON);
    }
  }

  lemma SameFront(front: string, other: string)
    ensures front + JSON == other + JSON <==> front == other
  {
    SameAround("", front, other, JSON);
    assert "" + front == front && "" + other == other;
  }

  lemma StemsEqualIff(name: string, other: string)
    requires EndsWith(name, JSON) && EndsWith(other, JSON)
    ensures StemOf(name) == StemOf(other) <==> name == other || SharesPage(name, other)
  {
    StemOfJson(name);
    StemOfJson(other);
    if |name| == |JSON| {
      assert name == name[|name| - |JSON|..];
      StemIsJsonIff(other);
    } else if |other| == |JSON| {
      assert other == other[|other| - |JSON|..];
      StemIsJsonIff(name);
    } else {
      WithoutExtension(name);
      WithoutExtension(other);
      SameFront(name[..|name| - |JSON|], other[..|other| - |JSON|]);
    }
  }

  /** Two artifacts share a detail page exactly when they are one, or are called `.json` and `.json.json`. */
  lemma PagesEqualIff(name: string, other: string)
    requires IsJsonName(name) && IsJsonName(other)
    ensures DetailPagePath(Some(ArtifactPath(name))).Some?
    ensures DetailPagePath(Some(ArtifactPath(name))) == DetailPagePath(Some(ArtifactPath(other)))
       <==> name == other || SharesPage(name, other)
  {
    NameOfArtifactPath(name);
    NameOfArtifactPath(other);
    SameAround(PAGES, StemOf(name), StemOf(other), HTML);
    StemsEqualIff(name, other);
  }

  /** A detail page is never an artifact. */
  lemma PageIsNoArtifact(path: string, name: string)
    requires DetailPagePath(Some(path)).Some? && IsJsonName(name)
    ensures DetailPagePath(Some(path)).value != ArtifactPath(name)
  {
    var page := DetailPagePath(Some(path)).value;
    assert page[|page| - 1] == 'l';
    assert name[|name| - 1] == name[|name| - |JSON|..][|JSON| - 1] == 'n';
    assert ArtifactPath(name)[|ArtifactPath(name)| - 1] == name[|name| - 1];
  }
}
