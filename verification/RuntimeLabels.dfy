/** Runtime labels and benchmark keys: what is printed, and what is read back from it. */
module RuntimeLabels {
  import opened Results
  import opened TextSearch

  /** The backend part of a payload; an empty string stands for an absent device or compute type. */
  datatype Payload = Payload(name: string, model: string, device: string, compute: string)

  /** A manifest entry as far as its key is concerned. */
  datatype Entry = Entry(backend: string, model: string, runtime: string)

  const SEPARATOR := " / "

  function Or(value: string, fallback: string): string {
    if value == "" then fallback else value
  }

  function RuntimeLabel(p: Payload): string {
    var device := Or(p.device, "unknown");
    if p.compute != "" then device + SEPARATOR + p.compute else device
  }

  /** `separator.join(parts)` */
  function JoinWith(separator: string, parts: seq<string>): string {
    if |parts| == 0 then "" else if |parts| == 1 then parts[0]
    else parts[0] + (separator + JoinWith(separator, parts[1..]))
  }

  function FormatKey(backend: string, model: string, device: string, compute: string): string {
    JoinWith("::", ["asr", backend, model, device, compute])
  }

  lemma KeyText(backend: string, model: string, device: string, compute: string)
    ensures FormatKey(backend, model, device, compute)
         == "asr" + ("::" + (backend + ("::" + (model + ("::" + (device + ("::" + compute)))))))
  {
    var parts := ["asr", backend, model, device, compute];
    assert parts[1..][1..][1..][1..] == [compute];
    assert JoinWith("::", parts[1..][1..][1..]) == device + ("::" + compute);
    assert JoinWith("::", parts[1..][1..]) == model + ("::" + (device + ("::" + compute)));
    assert JoinWith("::", parts[1..]) == backend + ("::" + (model + ("::" + (device + ("::" + compute)))));
  }

  function BenchmarkKey(p: Payload): string {
    FormatKey(p.name, p.model, Or(p.device, "unknown"), Or(p.compute, "default"))
  }

  /** `text.partition(" / ")`, without the separator itself. */
  function Partition(text: string): (string, string) {
    var at := FindFrom(text, SEPARATOR, 0);
    if at.None? then (text, "") else (text[..at.value], text[at.value + |SEPARATOR|..])
  }

  function BenchmarkKeyFromEntry(e: Entry): string {
    var (device, compute) := Partition(Or(e.runtime, "unknown"));
    FormatKey(e.backend, e.model, Or(device, "unknown"), Or(compute, "default"))
  }

  function EntryOf(p: Payload): Entry {
    Entry(p.name, p.model, RuntimeLabel(p))
  }

  /**
   * With a compute type, the first separator of the label must be the printed one; without, the
   * device must not contain a separator.
   */
  predicate LabelIsReadable(p: Payload) {
    var device := Or(p.device, "unknown");
    if p.compute != "" then FindFrom(device + SEPARATOR, SEPARATOR, 0) == Some(|device|)
    else FindFrom(device, SEPARATOR, 0) == None
  }

  /** An entry without a runtime has the key of an unknown device and the default compute type. */
  lemma NoRuntimeKey(backend: string, model: string)
    ensures BenchmarkKeyFromEntry(Entry(backend, model, "")) == FormatKey(backend, model, "unknown", "default")
  {
    var device := "unknown";
    forall i: nat | i + |SEPARATOR| <= |device|
      ensures !MatchesAt(device, SEPARATOR, i)
    {
      MatchIsSlice(device, SEPARATOR, i);
      assert device[i..i + |SEPARATOR|][0] == device[i] != SEPARATOR[0];
    }
    assert FindFrom(device, SEPARATOR, 0).None?;
  }

  lemma SearchStopsAtSeparator(device: string, compute: string)
    ensures FindFrom(device + SEPARATOR, SEPARATOR, 0).Some?
    ensures FindFrom(device + SEPARATOR + compute, SEPARATOR, 0) == FindFrom(device + SEPARATOR, SEPARATOR, 0)
  {
    var head := device + SEPARATOR;
    MatchIsSlice(head, SEPARATOR, |device|);
    var at := FindFrom(head, SEPARATOR, 0).value;
    forall j: nat | j <= at
      ensures MatchesAt(head + compute, SEPARATOR, j) <==> MatchesAt(head, SEPARATOR, j)
    {
      MatchInPrefix(head, compute, SEPARATOR, j);
    }
    FindFromIs(head + compute, SEPARATOR, 0, at);
  }

  lemma SameFront(front: string, a: string, b: string)
    ensures front + a == front + b ==> a == b
  {
    assert (front + a)[|front|..] == a && (front + b)[|front|..] == b;
  }

  lemma Regroup(a: string, b: string)
    ensures a + "::" + b == a + ("::" + b)
  {
  }

  /** Keys with the same front but a blank on one side where the other has its colon differ. */
  lemma KeysDiffer(backend: string, model: string, device: string, compute: string, at: nat, rest: string)
    requires at < |device| && device[at] == ' '
    ensures FormatKey(backend, model, Or(device[..at], "unknown"), rest) != FormatKey(backend, model, device, compute)
  {
    var a, b := Or(device[..at], "unknown") + ("::" + rest), device + ("::" + compute);
    KeyText(backend, model, Or(device[..at], "unknown"), rest);
    KeyText(backend, model, device, compute);
    SameFront(model + "::", a, b);
    SameFront(backend + "::", model + ("::" + a), model + ("::" + b));
    SameFront("asr" + "::", backend + ("::" + (model + ("::" + a))), backend + ("::" + (model + ("::" + b))));
    Regroup(model, a);
    Regroup(model, b);
    Regroup(backend, model + ("::" + a));
    Regroup(backend, model + ("::" + b));
    Regroup("asr", backend + ("::" + (model + ("::" + a))));
    Regroup("asr", backend + ("::" + (model + ("::" + b))));
    if at == 0 {
      assert a[0] == 'u' && b[0] == ' ';
    } else {
      assert a[at] == ':' && b[at] == ' ';
    }
  }

  /** Reading a label gives back what was printed, or breaks the device off at one of its blanks. */
  lemma PartitionOfLabel(p: Payload) returns (at: nat)
    ensures LabelIsReadable(p) ==> Partition(RuntimeLabel(p)) == (Or(p.device, "unknown"), p.compute)
    ensures !LabelIsReadable(p) ==>
      var device := Or(p.device, "unknown");
      at < |device| && device[at] == ' ' && Partition(RuntimeLabel(p)).0 == device[..at]
  {
    var device := Or(p.device, "unknown");
    var printed := RuntimeLabel(p);
    if p.compute != "" {
      SearchStopsAtSeparator(device, p.compute);
      MatchIsSlice(printed, SEPARATOR, |device|);
    }
    var found := FindFrom(printed, SEPARATOR, 0);
    at := 0;
    if LabelIsReadable(p) {
      if p.compute != "" {
        assert printed[..|device|] == device && printed[|device| + |SEPARATOR|..] == p.compute;
      }
    } else {
      at := found.value;
      MatchIsSlice(printed, SEPARATOR, at);
      assert printed[at..at + |SEPARATOR|][0] == ' ';
      assert printed[..at] == device[..at];
    }
  }

  /** Printing the label and splitting it again recovers the benchmark key exactly when the label is readable. */
  lemma KeyRoundTrip(p: Payload)
    ensures BenchmarkKeyFromEntry(EntryOf(p)) == BenchmarkKey(p) <==> LabelIsReadable(p)
  {
    var at := PartitionOfLabel(p);
    if !LabelIsReadable(p) {
      KeysDiffer(p.name, p.model, Or(p.device, "unknown"), Or(p.compute, "default"), at,
                 Or(Partition(RuntimeLabel(p)).1, "default"));
    }
  }
}
