/** When a stable partial is declared final, read off the partials the backend returned. */
module AsrStability {
  import opened AsrWorker
  import opened Results

  /** The partials that came back with a transcript: their texts as compared, absent if blank. */
  function Returned(schedule: seq<Action>): seq<Option<string>> {
    if schedule == [] then []
    else
      var front, a := schedule[..|schedule| - 1], schedule[|schedule| - 1];
      if a.PartialReturns? && a.result.Some? then Returned(front) + [a.result.value.1] else Returned(front)
  }

  /** No cancel, finalize, close or final so far. */
  predicate Open(f: Flags) {
    !f.cancelRequested && !f.finalizeRequested && !f.closed
  }

  /** The last `k` texts are there, not blank, and the same. */
  predicate AgreeAtEnd(texts: seq<Option<string>>, k: nat) {
    && k <= |texts|
    && forall i :: |texts| - k <= i < |texts| ==> texts[i].Some? && texts[i] == texts[|texts| - 1]
  }

  /** The counter of the session is the length of the run of equal texts at the end. */
  ghost predicate CountsTheRun(session: Session, texts: seq<Option<string>>) {
    && (forall k: nat :: k <= session.stablePartialCount <==> AgreeAtEnd(texts, k))
    && (session.stablePartialCount > 0 ==> texts != [] && session.stablePartialText == texts[|texts| - 1])
    && (session.stablePartialCount == 0 ==> session.stablePartialText.None?)
  }

  lemma AgreeSnoc(texts: seq<Option<string>>, last: Option<string>, k: nat)
    ensures AgreeAtEnd(texts + [last], k + 1) <==>
      last.Some? && AgreeAtEnd(texts, k) && (k > 0 ==> texts[|texts| - 1] == last)
  {
    var longer := texts + [last];
    if AgreeAtEnd(longer, k + 1) {
      assert longer[|longer| - 1] == last;
      forall i | |texts| - k <= i < |texts| ensures texts[i] == last {
        assert longer[i] == last;
      }
    }
  }

  lemma RecordedRun(session: Session, texts: seq<Option<string>>, t: Transcript)
    requires CountsTheRun(session, texts)
    ensures CountsTheRun(RecordStability(session, t), texts + [t.normalized])
  {
    var after, longer := RecordStability(session, t), texts + [t.normalized];
    forall k: nat
      ensures k <= after.stablePartialCount <==> AgreeAtEnd(longer, k)
    {
      if k > 0 {
        AgreeSnoc(texts, t.normalized, k - 1);
        assert k - 1 <= session.stablePartialCount <==> AgreeAtEnd(texts, k - 1);
      }
    }
  }

  /** A stream that is open after a step was open before it. */
  lemma OpenBefore(c: Config, s: State, a: Action)
    requires Enabled(c, s, a) && Open(Apply(c, s, a).flags)
    ensures Open(s.flags)
  {
  }

  lemma OpenStep(c: Config, s: State, a: Action, texts: seq<Option<string>>)
    requires Inv(c, s) && Enabled(c, s, a) && Open(Apply(c, s, a).flags) && CountsTheRun(s.session, texts)
    ensures CountsTheRun(Apply(c, s, a).session,
                         if a.PartialReturns? && a.result.Some? then texts + [a.result.value.1] else texts)
  {
    if a.PartialReturns? && a.result.Some? {
      OpenBefore(c, s, a);
      ReturnedPartial(c, s, a.result.value.0, a.result.value.1, texts);
    } else {
      assert Apply(c, s, a).session.stablePartialCount == s.session.stablePartialCount;
      assert Apply(c, s, a).session.stablePartialText == s.session.stablePartialText;
    }
  }

  /** What a returned transcript does to the counter of an open stream. */
  lemma ReturnedPartial(c: Config, s: State, text: string, normalized: Option<string>, texts: seq<Option<string>>)
    requires Inv(c, s) && Enabled(c, s, PartialReturns(Some((text, normalized)))) && Open(s.flags)
    requires CountsTheRun(s.session, texts)
    ensures var after := PartialDone(c, s, Some((text, normalized)));
      && CountsTheRun(after.session, texts + [normalized])
      && (after.flags.finalEmitted <==>
            normalized.Some? && c.finalizeOnStablePartial && after.session.stablePartialCount >= c.stablePartialCycles)
  {
    var snap := s.worker.snap;
    var t := Transcript(text, normalized, if c.stateful then s.pushed else snap.audio);
    RecordedRun(RecordPartial(s.session, t, snap), texts, t);
  }

  lemma {:induction false} OpenStreamCounts(c: Config, schedule: seq<Action>, s: State)
    requires ValidConfig(c) && Execute(c, schedule) == Some(s) && Open(s.flags)
    ensures CountsTheRun(s.session, Returned(schedule))
    decreases |schedule|
  {
    if schedule != [] {
      var front, a := schedule[..|schedule| - 1], schedule[|schedule| - 1];
      var before := Execute(c, front).value;
      OpenBefore(c, before, a);
      ExecuteKeepsInv(c, front);
      OpenStreamCounts(c, front, before);
      OpenStep(c, before, a, Returned(front));
    }
  }

  /**
   * After any schedule, a partial is declared final exactly when the stream is open, the option is on, and the last
   * so many partials, this one included, have the same text, which is not blank.
   */
  lemma StableFinalIff(c: Config, schedule: seq<Action>, s: State, text: string, normalized: Option<string>)
    requires ValidConfig(c) && Execute(c, schedule) == Some(s) && Enabled(c, s, PartialReturns(Some((text, normalized))))
    ensures DeclaresFinal(c, s, Some((text, normalized))) <==>
      && Open(s.flags) && c.finalizeOnStablePartial
      && AgreeAtEnd(Returned(schedule) + [normalized], c.stablePartialCycles)
  {
    ExecuteKeepsInv(c, schedule);
    if Open(s.flags) {
      OpenStreamCounts(c, schedule, s);
      ReturnedPartial(c, s, text, normalized, Returned(schedule));
      var after := PartialDone(c, s, Some((text, normalized)));
      assert c.stablePartialCycles <= after.session.stablePartialCount
        <==> AgreeAtEnd(Returned(schedule) + [normalized], c.stablePartialCycles);
    } else if DeclaresFinal(c, s, Some((text, normalized))) {
      DeclaredFinalIsOpen(c, s, Some((text, normalized)));
    }
  }

  /** Without a transcript nothing is declared. */
  lemma NoTranscriptNoFinal(c: Config, s: State)
    requires Enabled(c, s, PartialReturns(None))
    ensures !DeclaresFinal(c, s, None) && Apply(c, s, PartialReturns(None)).events == s.events
  {
  }
}
