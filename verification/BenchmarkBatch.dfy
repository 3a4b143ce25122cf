/**
 * All the runs of a benchmark: in each run N sessions start together, meet at a barrier and
 * stream. Any client call may fail, and tasks interleave freely.
 */
module BenchmarkBatch {
  import BenchmarkSession
  import opened Results

  datatype Phase =
    | Created      // not run yet
    | Starting     // awaiting client.start
    | AtBarrier    // awaiting the start barrier
    | Streaming    // past the barrier
    | Closing      // awaiting client.close before re-raising
    | Raised       // ended with an exception
    | Finished     // returned its sample

  datatype Session = Session(
    phase: Phase,
    starts: nat,
    closes: nat,
    startReturned: bool,
    startRaised: bool,
    audioSends: nat,
    cancelRequested: bool)

  datatype Barrier = Filling | Released | Broken

  datatype MainPc = Gathering | Aborting | AwaitingTasks | RunDone | RunFailed

  datatype Batch = Batch(sessions: seq<Session>, barrier: Barrier, main: MainPc)

  /** `earlier` are the runs already collected. */
  datatype System = System(earlier: seq<Batch>, current: Batch)

  const FRESH := Session(Created, 0, 0, false, false, 0, false)

  function NewBatch(concurrency: nat): Batch {
    Batch(seq(concurrency, _ => FRESH), Filling, Gathering)
  }

  function Initial(concurrency: nat): System {
    System([], NewBatch(concurrency))
  }

  predicate Done(s: Session) {
    s.phase.Raised? || s.phase.Finished?
  }

  datatype Action =
    | SetupRaises(i: nat)
    | CallStart(i: nat)
    | StartReturns(i: nat)
    | StartRaises(i: nat)
    | BarrierOpens(i: nat)
    | BarrierBreaks(i: nat)
    | SendAudio(i: nat)
    | SessionEnds(i: nat)
    | CloseEnds(i: nat)
    | CancelArrives(i: nat)
    | MainCatches
    | MainCancels
    | MainRaises
    | MainCollects
    | NextRun

  // ---- Steps -------------------------------------------------------------------------------

  predicate AllOthersWait(b: Batch, i: nat) {
    forall j :: 0 <= j < |b.sessions| && j != i ==> b.sessions[j].phase.AtBarrier?
  }

  predicate In(b: Batch, i: nat, phase: Phase) {
    i < |b.sessions| && b.sessions[i].phase == phase
  }

  predicate Enabled(runs: nat, system: System, a: Action) {
    var b := system.current;
    match a
    case SetupRaises(i) => In(b, i, Created) && !b.sessions[i].cancelRequested
    case CallStart(i) => In(b, i, Created) && !b.sessions[i].cancelRequested
    case StartReturns(i) => In(b, i, Starting)
    case StartRaises(i) => In(b, i, Starting)
    case BarrierOpens(i) => In(b, i, AtBarrier) && b.barrier.Released?
    case BarrierBreaks(i) => In(b, i, AtBarrier) && b.barrier.Broken?
    case SendAudio(i) => In(b, i, Streaming)
    case SessionEnds(i) => In(b, i, Streaming)
    case CloseEnds(i) => In(b, i, Closing)
    case CancelArrives(i) => i < |b.sessions| && b.sessions[i].cancelRequested && !Done(b.sessions[i])
    case MainCatches => b.main.Gathering? && exists i :: 0 <= i < |b.sessions| && b.sessions[i].phase.Raised?
    case MainCancels => b.main.Aborting?
    case MainRaises => b.main.AwaitingTasks? && forall i :: 0 <= i < |b.sessions| ==> Done(b.sessions[i])
    case MainCollects => b.main.Gathering? && forall i :: 0 <= i < |b.sessions| ==> b.sessions[i].phase.Finished?
    case NextRun => b.main.RunDone? && |system.earlier| + 1 < runs
  }

  function CloseThenRaise(s: Session): Session {
    s.(phase := Closing, closes := s.closes + 1)
  }

  /** `CancelledError` at the session's current await. */
  function Cancel(s: Session): Session {
    match s.phase
    case Created => s.(phase := Raised)
    case Closing => s.(phase := Raised)
    case _ => CloseThenRaise(s)
  }

  /** The barrier is only there for two or more sessions; the last to arrive releases it. */
  function Arrive(b: Batch, i: nat): Batch
    requires i < |b.sessions|
  {
    var s := b.sessions[i].(startReturned := true);
    if |b.sessions| <= 1 then b.(sessions := b.sessions[i := s.(phase := Streaming)])
    else if b.barrier.Broken? then b.(sessions := b.sessions[i := CloseThenRaise(s)])
    else b.(sessions := b.sessions[i := s.(phase := AtBarrier)],
            barrier := if AllOthersWait(b, i) then Released else b.barrier)
  }

  function RequestCancel(s: Session): Session {
    if Done(s) then s else s.(cancelRequested := true)
  }

  function Sent(s: Session, chunks: nat): Session {
    s.(audioSends := s.audioSends + chunks)
  }

  function Ended(s: Session): Session {
    s.(phase := Finished, closes := s.closes + 1)
  }

  function BatchStep(runs: nat, system: System, a: Action): Batch
    requires Enabled(runs, system, a)
  {
    var b := system.current;
    match a
    case SetupRaises(i) => b.(sessions := b.sessions[i := b.sessions[i].(phase := Raised)])
    case CallStart(i) =>
      b.(sessions := b.sessions[i := b.sessions[i].(phase := Starting, starts := b.sessions[i].starts + 1)])
    case StartReturns(i) => Arrive(b, i)
    case StartRaises(i) => b.(sessions := b.sessions[i := CloseThenRaise(b.sessions[i].(startRaised := true))])
    case BarrierOpens(i) => b.(sessions := b.sessions[i := b.sessions[i].(phase := Streaming)])
    case BarrierBreaks(i) => b.(sessions := b.sessions[i := CloseThenRaise(b.sessions[i])])
    case SendAudio(i) => b.(sessions := b.sessions[i := Sent(b.sessions[i], 1)])
    case SessionEnds(i) => b.(sessions := b.sessions[i := Ended(b.sessions[i])])
    case CloseEnds(i) => b.(sessions := b.sessions[i := b.sessions[i].(phase := Raised)])
    case CancelArrives(i) =>
      b.(sessions := b.sessions[i := Cancel(b.sessions[i]).(cancelRequested := false)])
    case MainCatches => b.(barrier := if |b.sessions| > 1 then Broken else b.barrier, main := Aborting)
    case MainCancels =>
      b.(sessions := seq(|b.sessions|, j requires 0 <= j < |b.sessions| => RequestCancel(b.sessions[j])),
         main := AwaitingTasks)
    case MainRaises => b.(main := RunFailed)
    case MainCollects => b.(main := RunDone)
    case NextRun => NewBatch(|b.sessions|)
  }

  function Apply(runs: nat, system: System, a: Action): System
    requires Enabled(runs, system, a)
  {
    System(if a.NextRun? then system.earlier + [system.current] else system.earlier, BatchStep(runs, system, a))
  }

  /** The system after a whole schedule, if every action in it was possible when taken. */
  ghost function Execute(concurrency: nat, runs: nat, schedule: seq<Action>): Option<System>
    decreases |schedule|
  {
    if |schedule| == 0 then Some(Initial(concurrency))
    else
      var before := Execute(concurrency, runs, schedule[..|schedule| - 1]);
      var a := schedule[|schedule| - 1];
      if before.Some? && Enabled(runs, before.value, a) then Some(Apply(runs, before.value, a)) else None
  }

  ghost predicate Reachable(concurrency: nat, runs: nat, system: System) {
    exists schedule :: Execute(concurrency, runs, schedule) == Some(system)
  }

  // ---- What every step keeps ---------------------------------------------------------------

  /** `start` and `close` are called at most once, and in step with where the session is. */
  predicate SessionOk(s: Session) {
    && s.starts <= 1
    && (s.phase.Created? ==> s.starts == 0)
    && (s.phase.Starting? || s.phase.AtBarrier? || s.phase.Streaming? || s.phase.Closing? || s.phase.Finished? ==> s.starts == 1)
    && s.closes == (if s.phase.Closing? || Done(s) then s.starts else 0)
    && (s.phase.AtBarrier? || s.phase.Streaming? || s.phase.Finished? ==> s.startReturned)
    && (s.audioSends > 0 ==> s.phase.Streaming? || s.phase.Finished?)
    && (s.startRaised ==> s.phase.Closing? || s.phase.Raised?)
  }

  predicate PastBarrier(s: Session) {
    s.phase.Streaming? || s.phase.Finished?
  }

  /** A session that has not come to the barrier. */
  predicate SomeoneIsMissing(sessions: seq<Session>) {
    exists i :: 0 <= i < |sessions| && !sessions[i].phase.AtBarrier?
  }

  /** One session, no barrier: the run fails only if that session has. */
  predicate AloneOk(b: Batch) {
    |b.sessions| == 1 ==>
      && b.barrier.Filling?
      && !b.sessions[0].phase.AtBarrier?
      && (b.main.Aborting? || b.main.AwaitingTasks? || b.main.RunFailed? ==> b.sessions[0].phase.Raised?)
  }

  predicate FillingOk(b: Batch) {
    |b.sessions| > 1 && b.barrier.Filling? ==>
      && b.main.Gathering?
      && (forall i :: 0 <= i < |b.sessions| ==> !PastBarrier(b.sessions[i]))
      && SomeoneIsMissing(b.sessions)
  }

  predicate ReleasedOk(b: Batch) {
    |b.sessions| > 1 && b.barrier.Released? ==>
      && (b.main.Gathering? || b.main.RunDone?)
      && (forall i :: 0 <= i < |b.sessions| ==> b.sessions[i].phase.AtBarrier? || PastBarrier(b.sessions[i]))
  }

  predicate BrokenOk(b: Batch) {
    |b.sessions| > 1 && b.barrier.Broken? ==>
      && (b.main.Aborting? || b.main.AwaitingTasks? || b.main.RunFailed?)
      && (forall i :: 0 <= i < |b.sessions| ==> !PastBarrier(b.sessions[i]))
  }

  predicate BarrierOk(b: Batch) {
    AloneOk(b) && FillingOk(b) && ReleasedOk(b) && BrokenOk(b)
  }

  predicate MainOk(b: Batch) {
    && (b.main.RunDone? ==> forall i :: 0 <= i < |b.sessions| ==> b.sessions[i].phase.Finished?)
    && (b.main.RunFailed? ==> forall i :: 0 <= i < |b.sessions| ==> Done(b.sessions[i]))
    && (forall i :: 0 <= i < |b.sessions| && b.sessions[i].cancelRequested ==> b.main.AwaitingTasks? || b.main.RunFailed?)
  }

  predicate BatchInv(concurrency: nat, b: Batch) {
    && |b.sessions| == concurrency > 0
    && (forall i :: 0 <= i < |b.sessions| ==> SessionOk(b.sessions[i]))
    && BarrierOk(b)
    && MainOk(b)
  }

  predicate Inv(concurrency: nat, system: System) {
    && BatchInv(concurrency, system.current)
    && (forall r :: 0 <= r < |system.earlier| ==> BatchInv(concurrency, system.earlier[r]) && system.earlier[r].main.RunDone?)
  }

  /** Only a session that never came past the barrier is cancelled. */
  lemma CancelledBeforeBarrier(concurrency: nat, b: Batch, i: nat)
    requires BatchInv(concurrency, b) && i < concurrency && b.sessions[i].cancelRequested
    ensures b.sessions[i].audioSends == 0
  {
  }

  lemma ArriveKeeps(b: Batch, i: nat)
    requires i < |b.sessions| && SessionOk(b.sessions[i]) && b.sessions[i].phase.Starting?
    ensures Arrive(b, i).sessions == b.sessions[i := Arrive(b, i).sessions[i]] && SessionOk(Arrive(b, i).sessions[i])
  {
  }

  lemma CancelKeeps(s: Session)
    requires SessionOk(s) && s.audioSends == 0 && !Done(s)
    ensures SessionOk(Cancel(s).(cancelRequested := false))
  {
  }

  /** The session after a step that one session takes by itself. */
  lemma OneSessionStep(runs: nat, system: System, a: Action, i: nat)
    requires Enabled(runs, system, a) && i < |system.current.sessions| && SessionOk(system.current.sessions[i])
    requires a == SetupRaises(i) || a == CallStart(i) || a == StartRaises(i) || a == BarrierOpens(i) || a == BarrierBreaks(i)
          || a == SendAudio(i) || a == SessionEnds(i) || a == CloseEnds(i)
    ensures var after := BatchStep(runs, system, a).sessions;
            after == system.current.sessions[i := after[i]] && SessionOk(after[i])
  {
  }

  lemma StepKeepsSessions(concurrency: nat, runs: nat, system: System, a: Action)
    requires |system.current.sessions| == concurrency && Enabled(runs, system, a)
    requires forall i :: 0 <= i < concurrency ==> SessionOk(system.current.sessions[i])
    requires forall i :: 0 <= i < concurrency && system.current.sessions[i].cancelRequested ==>
      system.current.sessions[i].audioSends == 0
    ensures |BatchStep(runs, system, a).sessions| == concurrency
    ensures forall i :: 0 <= i < concurrency ==> SessionOk(BatchStep(runs, system, a).sessions[i])
  {
    match a
    case StartReturns(i) => ArriveKeeps(system.current, i);
    case CancelArrives(i) => CancelKeeps(system.current.sessions[i]);
    case SetupRaises(i) => OneSessionStep(runs, system, a, i);
    case CallStart(i) => OneSessionStep(runs, system, a, i);
    case StartRaises(i) => OneSessionStep(runs, system, a, i);
    case BarrierOpens(i) => OneSessionStep(runs, system, a, i);
    case BarrierBreaks(i) => OneSessionStep(runs, system, a, i);
    case SendAudio(i) => OneSessionStep(runs, system, a, i);
    case SessionEnds(i) => OneSessionStep(runs, system, a, i);
    case CloseEnds(i) => OneSessionStep(runs, system, a, i);
    case _ =>
  }

  lemma StepKeepsAlone(concurrency: nat, runs: nat, system: System, a: Action)
    requires Inv(concurrency, system) && Enabled(runs, system, a)
    ensures AloneOk(BatchStep(runs, system, a))
  {
  }

  lemma StepKeepsReleased(concurrency: nat, runs: nat, system: System, a: Action)
    requires Inv(concurrency, system) && Enabled(runs, system, a)
    ensures ReleasedOk(BatchStep(runs, system, a))
  {
  }

  lemma StepKeepsBroken(concurrency: nat, runs: nat, system: System, a: Action)
    requires Inv(concurrency, system) && Enabled(runs, system, a)
    ensures BrokenOk(BatchStep(runs, system, a))
  {
  }

  lemma StepKeepsFilling(concurrency: nat, runs: nat, system: System, a: Action)
    requires Inv(concurrency, system) && Enabled(runs, system, a)
    ensures FillingOk(BatchStep(runs, system, a))
  {
    if concurrency > 1 {
      if a.NextRun? {
        assert !NewBatch(concurrency).sessions[0].phase.AtBarrier?;
      } else if system.current.barrier.Filling? {
        StillFilling(system.current, runs, system, a);
      }
    }
  }

  /** Before the barrier opens there is always someone who has not reached it. */
  lemma StillFilling(b: Batch, runs: nat, system: System, a: Action)
    requires Enabled(runs, system, a) && b == system.current
    requires |b.sessions| > 1 && FillingOk(b) && b.barrier.Filling?
    ensures BatchStep(runs, system, a).barrier.Filling? ==> SomeoneIsMissing(BatchStep(runs, system, a).sessions)
  {
    var b' := BatchStep(runs, system, a);
    var w :| 0 <= w < |b.sessions| && !b.sessions[w].phase.AtBarrier?;
    if b'.barrier.Filling? {
      if a.StartReturns? {
        var j :| 0 <= j < |b.sessions| && j != a.i && !b.sessions[j].phase.AtBarrier?;
        assert b'.sessions[j] == b.sessions[j];
      } else {
        assert !b'.sessions[w].phase.AtBarrier?;
      }
    }
  }

  lemma StepKeepsMain(concurrency: nat, runs: nat, system: System, a: Action)
    requires Inv(concurrency, system) && Enabled(runs, system, a)
    ensures MainOk(BatchStep(runs, system, a))
  {
  }

  lemma StepKeepsInv(concurrency: nat, runs: nat, system: System, a: Action)
    requires Inv(concurrency, system) && Enabled(runs, system, a)
    ensures Inv(concurrency, Apply(runs, system, a))
  {
    forall i | 0 <= i < concurrency && system.current.sessions[i].cancelRequested
      ensures system.current.sessions[i].audioSends == 0
    {
      CancelledBeforeBarrier(concurrency, system.current, i);
    }
    StepKeepsSessions(concurrency, runs, system, a);
    StepKeepsAlone(concurrency, runs, system, a);
    StepKeepsFilling(concurrency, runs, system, a);
    StepKeepsReleased(concurrency, runs, system, a);
    StepKeepsBroken(concurrency, runs, system, a);
    StepKeepsMain(concurrency, runs, system, a);
  }

  lemma {:induction false} ExecuteKeepsInv(concurrency: nat, runs: nat, schedule: seq<Action>)
    requires concurrency > 0 && Execute(concurrency, runs, schedule).Some?
    ensures Inv(concurrency, Execute(concurrency, runs, schedule).value)
    decreases |schedule|
  {
    if |schedule| > 0 {
      var front := schedule[..|schedule| - 1];
      ExecuteKeepsInv(concurrency, runs, front);
      StepKeepsInv(concurrency, runs, Execute(concurrency, runs, front).value, schedule[|schedule| - 1]);
    } else {
      assert NewBatch(concurrency).sessions[0] == FRESH;
    }
  }

  lemma ReachableInv(concurrency: nat, runs: nat, system: System)
    requires concurrency > 0 && Reachable(concurrency, runs, system)
    ensures Inv(concurrency, system)
  {
    var schedule :| Execute(concurrency, runs, schedule) == Some(system);
    ExecuteKeepsInv(concurrency, runs, schedule);
  }

  // ---- Main results ------------------------------------------------------------------------

  function AllRuns(system: System): seq<Batch> {
    system.earlier + [system.current]
  }

  /** What the invariant says of two sessions of one run. */
  lemma RunFacts(concurrency: nat, b: Batch, i: nat, j: nat)
    requires BatchInv(concurrency, b) && i < concurrency && j < concurrency
    ensures b.sessions[i].audioSends > 0 ==> b.sessions[j].startReturned && !b.sessions[j].startRaised
    ensures b.sessions[i].startRaised ==> b.sessions[j].audioSends == 0 && !b.main.RunDone?
  {
    assert SessionOk(b.sessions[i]) && SessionOk(b.sessions[j]);
  }

  lemma RunInv(concurrency: nat, runs: nat, system: System, b: Batch)
    requires concurrency > 0 && Reachable(concurrency, runs, system) && b in AllRuns(system)
    ensures BatchInv(concurrency, b)
    ensures b in system.earlier ==> b.main.RunDone?
  {
    ReachableInv(concurrency, runs, system);
  }

  /** No session of a run sends audio before every session of that run has come back from `start`. */
  lemma AudioOnlyAfterAllStarts(concurrency: nat, runs: nat, system: System, b: Batch, i: nat, j: nat)
    requires concurrency > 0 && Reachable(concurrency, runs, system)
    requires b in AllRuns(system) && i < concurrency && j < concurrency
    ensures |b.sessions| == concurrency
    ensures b.sessions[i].audioSends > 0 ==> b.sessions[j].startReturned && !b.sessions[j].startRaised
  {
    RunInv(concurrency, runs, system, b);
    RunFacts(concurrency, b, i, j);
  }

  /** Once a `start` has failed, nothing of that run is ever sent, and no later run begins. */
  lemma FailedStartSilencesRun(concurrency: nat, runs: nat, system: System, i: nat, j: nat)
    requires concurrency > 0 && Reachable(concurrency, runs, system)
    requires i < concurrency && j < concurrency
    ensures |system.current.sessions| == concurrency
    ensures system.current.sessions[i].startRaised ==>
      system.current.sessions[j].audioSends == 0 && !Enabled(runs, system, NextRun)
    ensures forall r :: 0 <= r < |system.earlier| ==>
      |system.earlier[r].sessions| == concurrency && !system.earlier[r].sessions[i].startRaised
  {
    RunInv(concurrency, runs, system, system.current);
    RunFacts(concurrency, system.current, i, j);
    forall r | 0 <= r < |system.earlier|
      ensures |system.earlier[r].sessions| == concurrency && !system.earlier[r].sessions[i].startRaised
    {
      RunInv(concurrency, runs, system, system.earlier[r]);
      RunFacts(concurrency, system.earlier[r], i, j);
    }
  }

  /** A failed start stays failed: every later system is still in the same run. */
  lemma {:induction false} FailedRunIsLast(concurrency: nat, runs: nat, first: seq<Action>, rest: seq<Action>, i: nat)
    requires concurrency > 0 && i < concurrency
    requires Execute(concurrency, runs, first).Some? && Execute(concurrency, runs, first + rest).Some?
    requires i < |Execute(concurrency, runs, first).value.current.sessions|
    requires Execute(concurrency, runs, first).value.current.sessions[i].startRaised
    ensures var later := Execute(concurrency, runs, first + rest).value;
      && later.earlier == Execute(concurrency, runs, first).value.earlier
      && i < |later.current.sessions| && later.current.sessions[i].startRaised
    decreases |rest|
  {
    if |rest| == 0 {
      assert first + rest == first;
    } else {
      var shorter, a := rest[..|rest| - 1], rest[|rest| - 1];
      assert (first + rest)[..|first + rest| - 1] == first + shorter;
      assert (first + rest)[|first + rest| - 1] == a;
      FailedRunIsLast(concurrency, runs, first, shorter, i);
      ExecuteKeepsInv(concurrency, runs, first + shorter);
      FailureStays(concurrency, runs, Execute(concurrency, runs, first + shorter).value, a, i);
    }
  }

  lemma FailureStays(concurrency: nat, runs: nat, system: System, a: Action, i: nat)
    requires Inv(concurrency, system) && Enabled(runs, system, a)
    requires i < concurrency && system.current.sessions[i].startRaised
    ensures Apply(runs, system, a).earlier == system.earlier
    ensures |Apply(runs, system, a).current.sessions| == concurrency
    ensures Apply(runs, system, a).current.sessions[i].startRaised
  {
  }

  /** Every session that has ended called `close` exactly as often as `start`: once, or not at all. */
  lemma ClosedOnce(concurrency: nat, runs: nat, system: System, b: Batch, i: nat)
    requires concurrency > 0 && Reachable(concurrency, runs, system)
    requires b in AllRuns(system) && i < concurrency
    ensures |b.sessions| == concurrency
    ensures b.sessions[i].closes <= b.sessions[i].starts <= 1
    ensures Done(b.sessions[i]) || b.main.RunDone? || b.main.RunFailed? ==> b.sessions[i].closes == b.sessions[i].starts
  {
    ReachableInv(concurrency, runs, system);
  }

  /** A session whose set-up fails ends without a call to the client, and the others are left alone. */
  lemma SetupFails(runs: nat, system: System, i: nat)
    requires Enabled(runs, system, SetupRaises(i)) && SessionOk(system.current.sessions[i])
    ensures var before, after := system.current.sessions, Apply(runs, system, SetupRaises(i)).current.sessions;
      && after == before[i := after[i]] && after[i].phase.Raised?
      && after[i].starts == after[i].closes == 0 && after[i].audioSends == 0
  {
  }

  /** Collected runs are runs in which every session finished and was closed. */
  lemma CollectedRunsFinished(concurrency: nat, runs: nat, system: System, r: nat, i: nat)
    requires concurrency > 0 && Reachable(concurrency, runs, system)
    requires r < |system.earlier| && i < concurrency
    ensures |system.earlier[r].sessions| == concurrency
    ensures system.earlier[r].sessions[i].phase.Finished? && system.earlier[r].sessions[i].closes == 1
  {
    ReachableInv(concurrency, runs, system);
  }

  /** There are never more runs than asked for; the one run of none is the state before anything is done. */
  lemma {:induction false} NeverTooManyRuns(concurrency: nat, runs: nat, schedule: seq<Action>)
    requires runs > 0 && Execute(concurrency, runs, schedule).Some?
    ensures |AllRuns(Execute(concurrency, runs, schedule).value)| <= runs
    decreases |schedule|
  {
    if |schedule| > 0 {
      NeverTooManyRuns(concurrency, runs, schedule[..|schedule| - 1]);
    }
  }

  // ---- The sessions in detail --------------------------------------------------------------

  function SendCount(calls: seq<BenchmarkSession.Call>): nat {
    if calls == [] then 0
    else SendCount(calls[..|calls| - 1]) + if calls[|calls| - 1].SendAudio? then 1 else 0
  }

  function CloseCount(calls: seq<BenchmarkSession.Call>): nat {
    if calls == [] then 0
    else CloseCount(calls[..|calls| - 1]) + if calls[|calls| - 1].Close? then 1 else 0
  }

  /** What a batch sees of a streaming session: its calls to the client, and whether it has ended with a close. */
  function Seen(base: Session, s: BenchmarkSession.State): Session {
    base.(phase := if BenchmarkSession.ClosedBy(s.sender) then Finished else base.phase,
          audioSends := base.audioSends + SendCount(s.calls),
          closes := base.closes + CloseCount(s.calls))
  }

  lemma OneMoreCall(calls: seq<BenchmarkSession.Call>, call: BenchmarkSession.Call)
    ensures SendCount(calls + [call]) == SendCount(calls) + (if call.SendAudio? then 1 else 0)
    ensures CloseCount(calls + [call]) == CloseCount(calls) + (if call.Close? then 1 else 0)
  {
    assert (calls + [call])[..|calls|] == calls;
  }

  /** What a batch sees of at most one more call, of which only a close ends the session. */
  lemma CallIsSeen(base: Session, s: BenchmarkSession.State, after: BenchmarkSession.State, made: seq<BenchmarkSession.Call>)
    requires base.phase.Streaming? && BenchmarkSession.IsStepOfCalls(s, after, made)
    ensures IsSeenStep(Seen(base, s), Seen(base, after))
  {
    if made == [] {
      assert s.calls + made == s.calls;
    } else {
      assert made == [made[0]];
      OneMoreCall(s.calls, made[0]);
    }
  }

  predicate IsSeenStep(before: Session, after: Session) {
    after == before || (before.phase.Streaming? && (after == Sent(before, 1) || after == Ended(before)))
  }

  /** Each step of a session is a step the batch can make with it, or one the batch does not see. */
  lemma SessionStepIsSeen(setup: BenchmarkSession.Setup, s: BenchmarkSession.State, a: BenchmarkSession.Action, base: Session)
    requires BenchmarkSession.ValidSetup(setup) && BenchmarkSession.Enabled(setup, s, a) && base.phase.Streaming?
    ensures IsSeenStep(Seen(base, s), Seen(base, BenchmarkSession.Apply(setup, s, a)))
  {
    var made := BenchmarkSession.CallsMade(setup, s, a);
    CallIsSeen(base, s, BenchmarkSession.Apply(setup, s, a), made);
  }

  /**
   * So the batch's view of streaming is a summary of the session: after any schedule a session has sent some
   * chunks and, if it has come to its close, ended with exactly one.
   */
  lemma {:induction false} SessionIsSummarised(
    setup: BenchmarkSession.Setup, startedAt: real, schedule: seq<BenchmarkSession.Action>, base: Session)
    requires BenchmarkSession.ValidSetup(setup) && base.phase.Streaming?
    requires BenchmarkSession.Execute(setup, startedAt, schedule).Some?
    ensures var s := BenchmarkSession.Execute(setup, startedAt, schedule).value;
      var sent := Sent(base, SendCount(s.calls));
      Seen(base, s) == if BenchmarkSession.ClosedBy(s.sender) then Ended(sent) else sent
    decreases |schedule|
  {
    if schedule != [] {
      var front, a := schedule[..|schedule| - 1], schedule[|schedule| - 1];
      SessionIsSummarised(setup, startedAt, front, base);
      SessionStepIsSeen(setup, BenchmarkSession.Execute(setup, startedAt, front).value, a, base);
    }
  }

  // ---- Progress ----------------------------------------------------------------------------

  /** The barrier never traps anyone: unless the benchmark is over, some task can move. */
  lemma NoDeadlock(concurrency: nat, runs: nat, system: System)
    requires concurrency > 0 && Reachable(concurrency, runs, system)
    requires !system.current.main.RunFailed? && !(system.current.main.RunDone? && |system.earlier| + 1 >= runs)
    ensures exists a: Action :: Enabled(runs, system, a)
  {
    ReachableInv(concurrency, runs, system);
    var b := system.current;
    if b.main.RunDone? {
      assert Enabled(runs, system, NextRun);
    } else if b.main.Aborting? {
      assert Enabled(runs, system, MainCancels);
    } else if i: nat :| i < |b.sessions| && !Done(b.sessions[i]) && !b.sessions[i].phase.AtBarrier? {
      SessionCanMove(runs, system, i);
    } else if i: nat :| i < |b.sessions| && b.sessions[i].phase.Raised? && b.main.Gathering? {
      assert Enabled(runs, system, MainCatches);
    } else if i: nat :| i < |b.sessions| && b.sessions[i].phase.AtBarrier? {
      WaiterCanMove(concurrency, runs, system, i);
    } else if b.main.Gathering? {
      assert Enabled(runs, system, MainCollects);
    } else {
      assert Enabled(runs, system, MainRaises);
    }
  }

  lemma SessionCanMove(runs: nat, system: System, i: nat)
    requires i < |system.current.sessions|
    requires !Done(system.current.sessions[i]) && !system.current.sessions[i].phase.AtBarrier?
    ensures exists a: Action :: Enabled(runs, system, a)
  {
    var s := system.current.sessions[i];
    var a :=
      if s.cancelRequested then CancelArrives(i)
      else match s.phase
        case Created => CallStart(i)
        case Starting => StartReturns(i)
        case Streaming => SessionEnds(i)
        case _ => CloseEnds(i);
    assert Enabled(runs, system, a);
  }

  /** Someone waits and everyone else waits or has ended: the barrier is open or broken. */
  lemma WaiterCanMove(concurrency: nat, runs: nat, system: System, i: nat)
    requires Inv(concurrency, system) && i < concurrency && system.current.sessions[i].phase.AtBarrier?
    requires forall j: nat :: j < concurrency ==> Done(system.current.sessions[j]) || system.current.sessions[j].phase.AtBarrier?
    requires forall j: nat :: j < concurrency && system.current.sessions[j].phase.Raised? ==> !system.current.main.Gathering?
    ensures exists a: Action :: Enabled(runs, system, a)
  {
    var b := system.current;
    if b.barrier.Released? {
      assert Enabled(runs, system, BarrierOpens(i));
    } else if b.barrier.Broken? {
      assert Enabled(runs, system, BarrierBreaks(i));
    } else {
      var w :| 0 <= w < |b.sessions| && !b.sessions[w].phase.AtBarrier?;
      assert false;
    }
  }
}
