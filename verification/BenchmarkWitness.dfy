/** That a benchmark can end both ways: every run completes with any number of chunks sent, or a start fails. */
module BenchmarkWitness {
  import opened BenchmarkBatch
  import opened Results

  /** A row of sessions of which the first few have taken a step that the others have not. */
  function Row(n: nat, k: nat, done: Session, todo: Session): (row: seq<Session>)
    ensures |row| == n
  {
    seq(n, i requires 0 <= i < n => if i < k then done else todo)
  }

  lemma RowStep(n: nat, k: nat, done: Session, todo: Session)
    requires k < n
    ensures Row(n, k, done, todo)[k] == todo && Row(n, k, done, todo)[k := done] == Row(n, k + 1, done, todo)
  {
  }

  lemma RowEnds(n: nat, done: Session, todo: Session, other: Session)
    ensures Row(n, n, done, todo) == Row(n, 0, other, done)
  {
  }

  // ---- Every session in turn ---------------------------------------------------------------

  /** A step that every session takes, one after the other. */
  datatype Wave = Starts | Returns | Opens | Sends(already: nat) | Ends(sent: nat)

  /** A session on its way through a run. */
  function Before(w: Wave, n: nat): Session {
    match w
    case Starts => FRESH
    case Returns => Session(Starting, 1, 0, false, false, 0, false)
    case Opens => Session(AtBarrier, 1, 0, true, false, 0, false)
    case Sends(already) => Session(Streaming, 1, 0, true, false, already, false)
    case Ends(sent) => Session(Streaming, 1, 0, true, false, sent, false)
  }

  function After(w: Wave, n: nat): Session {
    match w
    case Starts => Before(Returns, n)
    case Returns => if n == 1 then Before(Sends(0), n) else Before(Opens, n)
    case Opens => Before(Sends(0), n)
    case Sends(already) => Before(Sends(already + 1), n)
    case Ends(sent) => Session(Finished, 1, 1, true, false, sent, false)
  }

  function ActionOf(w: Wave, k: nat): Action {
    match w
    case Starts => CallStart(k)
    case Returns => StartReturns(k)
    case Opens => BarrierOpens(k)
    case Sends(_) => SendAudio(k)
    case Ends(_) => SessionEnds(k)
  }

  function BarrierIn(w: Wave, n: nat, k: nat): Barrier {
    if n == 1 || w.Starts? || (w.Returns? && k < n) then Filling else Released
  }

  function During(w: Wave, n: nat, k: nat): Batch {
    Batch(Row(n, k, After(w, n), Before(w, n)), BarrierIn(w, n, k), Gathering)
  }

  lemma WaveStep(runs: nat, earlier: seq<Batch>, w: Wave, n: nat, k: nat)
    requires k < n && (w.Opens? ==> n > 1)
    ensures var system := System(earlier, During(w, n, k));
      Enabled(runs, system, ActionOf(w, k)) && Apply(runs, system, ActionOf(w, k)) == System(earlier, During(w, n, k + 1))
  {
    RowStep(n, k, After(w, n), Before(w, n));
    if w.Returns? && n > 1 {
      LastArrives(n, k);
    }
  }

  /** The barrier opens when the last session arrives, and not before. */
  lemma LastArrives(n: nat, k: nat)
    requires k < n && n > 1
    ensures AllOthersWait(During(Returns, n, k), k) <==> k == n - 1
  {
    if k < n - 1 {
      assert !During(Returns, n, k).sessions[n - 1].phase.AtBarrier?;
    }
  }

  lemma Extend(concurrency: nat, runs: nat, schedule: seq<Action>, system: System, a: Action)
    returns (longer: seq<Action>, next: System)
    requires Execute(concurrency, runs, schedule) == Some(system) && Enabled(runs, system, a)
    ensures next == Apply(runs, system, a) && Execute(concurrency, runs, longer) == Some(next)
  {
    next := Apply(runs, system, a);
    longer := schedule + [a];
    assert longer[..|longer| - 1] == schedule;
  }

  lemma RunWave(concurrency: nat, runs: nat, schedule: seq<Action>, earlier: seq<Batch>, w: Wave, n: nat, k: nat)
    returns (longer: seq<Action>)
    requires k <= n && (w.Opens? ==> n > 1)
    requires Execute(concurrency, runs, schedule) == Some(System(earlier, During(w, n, k)))
    ensures Execute(concurrency, runs, longer) == Some(System(earlier, During(w, n, n)))
    decreases n - k
  {
    longer := schedule;
    if k < n {
      WaveStep(runs, earlier, w, n, k);
      var next;
      longer, next := Extend(concurrency, runs, longer, System(earlier, During(w, n, k)), ActionOf(w, k));
      longer := RunWave(concurrency, runs, longer, earlier, w, n, k + 1);
    }
  }

  /** One wave ends where the next begins. */
  lemma WavesMeet(w: Wave, next: Wave, n: nat)
    requires n > 0 && After(w, n) == Before(next, n) && BarrierIn(w, n, n) == BarrierIn(next, n, 0)
    ensures During(w, n, n) == During(next, n, 0)
  {
    RowEnds(n, After(w, n), Before(w, n), After(next, n));
  }

  lemma SendChunks(concurrency: nat, runs: nat, schedule: seq<Action>, earlier: seq<Batch>, n: nat, sent: nat, chunks: nat)
    returns (longer: seq<Action>)
    requires n > 0 && sent <= chunks
    requires Execute(concurrency, runs, schedule) == Some(System(earlier, During(Sends(sent), n, 0)))
    ensures Execute(concurrency, runs, longer) == Some(System(earlier, During(Sends(chunks), n, 0)))
    decreases chunks - sent
  {
    longer := schedule;
    if sent < chunks {
      longer := RunWave(concurrency, runs, longer, earlier, Sends(sent), n, 0);
      WavesMeet(Sends(sent), Sends(sent + 1), n);
      longer := SendChunks(concurrency, runs, longer, earlier, n, sent + 1, chunks);
    }
  }

  /** A run in which every session sent so many chunks and finished. */
  function Completed(n: nat, chunks: nat): Batch {
    During(Ends(chunks), n, n).(main := RunDone)
  }

  lemma NewIsStart(n: nat)
    ensures NewBatch(n) == During(Starts, n, 0)
  {
  }

  lemma CompleteRun(concurrency: nat, runs: nat, schedule: seq<Action>, earlier: seq<Batch>, chunks: nat)
    returns (longer: seq<Action>)
    requires concurrency > 0 && Execute(concurrency, runs, schedule) == Some(System(earlier, NewBatch(concurrency)))
    ensures Execute(concurrency, runs, longer) == Some(System(earlier, Completed(concurrency, chunks)))
  {
    var n := concurrency;
    NewIsStart(n);
    longer := RunWave(n, runs, schedule, earlier, Starts, n, 0);
    WavesMeet(Starts, Returns, n);
    longer := RunWave(n, runs, longer, earlier, Returns, n, 0);
    if n > 1 {
      WavesMeet(Returns, Opens, n);
      longer := RunWave(n, runs, longer, earlier, Opens, n, 0);
      WavesMeet(Opens, Sends(0), n);
    } else {
      WavesMeet(Returns, Sends(0), n);
    }
    longer := SendChunks(n, runs, longer, earlier, n, 0, chunks);
    SendsThenEnds(n, chunks);
    longer := RunWave(n, runs, longer, earlier, Ends(chunks), n, 0);
    var next;
    longer, next := Extend(n, runs, longer, System(earlier, During(Ends(chunks), n, n)), MainCollects);
  }

  lemma SendsThenEnds(n: nat, chunks: nat)
    requires n > 0
    ensures During(Sends(chunks), n, 0) == During(Ends(chunks), n, 0)
  {
  }

  /** So every benchmark can complete all its runs, whatever the number of sessions and of chunks. */
  lemma EveryRunCanComplete(concurrency: nat, runs: nat, chunks: nat) returns (system: System)
    requires concurrency > 0 && runs > 0
    ensures Reachable(concurrency, runs, system) && |AllRuns(system)| == runs
    ensures forall b :: b in AllRuns(system) ==> b == Completed(concurrency, chunks)
    ensures forall i :: 0 <= i < concurrency ==>
      Completed(concurrency, chunks).sessions[i].phase.Finished? && Completed(concurrency, chunks).sessions[i].audioSends == chunks
  {
    var schedule := CompleteRuns(concurrency, runs, chunks, runs - 1);
    system := Execute(concurrency, runs, schedule).value;
  }

  lemma CompleteRuns(concurrency: nat, runs: nat, chunks: nat, more: nat) returns (schedule: seq<Action>)
    requires concurrency > 0 && more < runs
    ensures Execute(concurrency, runs, schedule)
         == Some(System(seq(more, _ => Completed(concurrency, chunks)), Completed(concurrency, chunks)))
  {
    var done := Completed(concurrency, chunks);
    if more == 0 {
      assert Execute(concurrency, runs, []) == Some(Initial(concurrency));
      schedule := CompleteRun(concurrency, runs, [], [], chunks);
      assert seq(0, _ => done) == [];
    } else {
      schedule := CompleteRuns(concurrency, runs, chunks, more - 1);
      var next;
      schedule, next := Extend(concurrency, runs, schedule, System(seq(more - 1, _ => done), done), NextRun);
      assert seq(more - 1, _ => done) + [done] == seq(more, _ => done);
      schedule := CompleteRun(concurrency, runs, schedule, seq(more, _ => done), chunks);
    }
  }

  // ---- A start that fails ------------------------------------------------------------------

  /** The first session's start fails; the others are cancelled while theirs is under way. */
  datatype Failure = Cancels | Closes

  function FailedFirst(): Session {
    Session(Raised, 1, 1, false, true, 0, false)
  }

  function FailBefore(f: Failure): Session {
    if f.Cancels? then Session(Starting, 1, 0, false, false, 0, true) else Session(Closing, 1, 1, false, false, 0, false)
  }

  function FailAfter(f: Failure): Session {
    if f.Cancels? then FailBefore(Closes) else Session(Raised, 1, 1, false, false, 0, false)
  }

  function Failing(f: Failure, n: nat, k: nat): Batch
    requires 0 < k <= n
  {
    Batch(Row(n, k, FailAfter(f), FailBefore(f))[0 := FailedFirst()], if n > 1 then Broken else Filling, AwaitingTasks)
  }

  lemma FailStep(runs: nat, earlier: seq<Batch>, f: Failure, n: nat, k: nat)
    requires 0 < k < n
    ensures var system, a := System(earlier, Failing(f, n, k)), if f.Cancels? then CancelArrives(k) else CloseEnds(k);
      Enabled(runs, system, a) && Apply(runs, system, a) == System(earlier, Failing(f, n, k + 1))
  {
    var before, after := Failing(f, n, k).sessions, Failing(f, n, k + 1).sessions;
    assert before[k] == FailBefore(f);
    assert before[k := FailAfter(f)] == after;
  }

  lemma RunFailure(concurrency: nat, runs: nat, schedule: seq<Action>, earlier: seq<Batch>, f: Failure, n: nat, k: nat)
    returns (longer: seq<Action>)
    requires 0 < k <= n && Execute(concurrency, runs, schedule) == Some(System(earlier, Failing(f, n, k)))
    ensures Execute(concurrency, runs, longer) == Some(System(earlier, Failing(f, n, n)))
    decreases n - k
  {
    longer := schedule;
    if k < n {
      FailStep(runs, earlier, f, n, k);
      var next;
      longer, next := Extend(concurrency, runs, longer, System(earlier, Failing(f, n, k)),
                             if f.Cancels? then CancelArrives(k) else CloseEnds(k));
      longer := RunFailure(concurrency, runs, longer, earlier, f, n, k + 1);
    }
  }

  /** And every benchmark can fail: one start raises, all sessions are closed, and the error is passed on. */
  lemma AStartCanFail(concurrency: nat, runs: nat) returns (system: System)
    requires concurrency > 0
    ensures Reachable(concurrency, runs, system) && system.current.main.RunFailed?
    ensures |system.current.sessions| == concurrency && system.current.sessions[0] == FailedFirst()
    ensures forall i :: 0 < i < concurrency ==> system.current.sessions[i] == FailAfter(Closes)
  {
    var n := concurrency;
    NewIsStart(n);
    assert Execute(n, runs, []) == Some(Initial(n));
    var schedule := RunWave(n, runs, [], [], Starts, n, 0);
    schedule := FirstFails(n, runs, schedule);
    schedule := RunFailure(n, runs, schedule, [], Cancels, n, 1);
    assert Failing(Cancels, n, n).sessions == Failing(Closes, n, 1).sessions;
    schedule := RunFailure(n, runs, schedule, [], Closes, n, 1);
    schedule, system := Extend(n, runs, schedule, System([], Failing(Closes, n, n)), MainRaises);
  }

  lemma FirstFails(n: nat, runs: nat, before: seq<Action>) returns (schedule: seq<Action>)
    requires n > 0 && Execute(n, runs, before) == Some(System([], During(Starts, n, n)))
    ensures Execute(n, runs, schedule) == Some(System([], Failing(Cancels, n, 1)))
  {
    var system := System([], During(Starts, n, n));
    schedule, system := Extend(n, runs, before, system, StartRaises(0));
    schedule, system := Extend(n, runs, schedule, system, CloseEnds(0));
    assert system.current.sessions[0] == FailedFirst();
    assert forall i :: 0 < i < n ==> system.current.sessions[i] == Before(Returns, n);
    schedule := MainStops(n, runs, schedule, system);
  }

  lemma MainStops(n: nat, runs: nat, before: seq<Action>, system: System) returns (schedule: seq<Action>)
    requires n > 0 && Execute(n, runs, before) == Some(system) && system.earlier == [] && |system.current.sessions| == n
    requires system.current.sessions[0] == FailedFirst() && system.current.barrier.Filling? && system.current.main.Gathering?
    requires forall i :: 0 < i < n ==> system.current.sessions[i] == Before(Returns, n)
    ensures Execute(n, runs, schedule) == Some(System([], Failing(Cancels, n, 1)))
  {
    var last;
    assert system.current.sessions[0].phase.Raised?;
    schedule, last := Extend(n, runs, before, system, MainCatches);
    schedule, last := Extend(n, runs, schedule, last, MainCancels);
    assert last.current.sessions == Failing(Cancels, n, 1).sessions;
  }
}
