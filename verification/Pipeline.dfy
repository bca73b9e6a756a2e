/** `main`, `workerParse` and `SaveWorker`: a job channel, a pool of workers, a bounded result channel and one saver,
    as a labelled transition system over any list of files and any number of workers. */
module Pipeline {
  import FanOut
  type FullMatch = FanOut.FullMatch

  const JOBS_CAPACITY: nat := 1000
  const DB_CAPACITY: nat := 20

  /** What `makeOneMatch` does with one file: a match, an error, or a panic that the worker recovers. */
  datatype Attempt = Parsed(fm: FullMatch) | Failed | Panicked

  datatype Worker = Idle | Working(path: string) | Sending(fm: FullMatch) | Finishing | Exited

  /** `main`: before the next `wq.Add`, between it and the send, at `wq.Wait`, at `<-dbDone`, returned. */
  datatype Main = Feeding | Added(path: string) | Waiting | Joining | Finished

  datatype Saver = Receiving | Saving(fm: FullMatch) | Signalling | Stopped

  datatype State = State(
    toFeed: seq<string>,
    main: Main,
    jobs: seq<string>,
    jobsClosed: bool,
    workers: seq<Worker>,
    wq: int,
    db: seq<FullMatch>,
    dbClosed: bool,
    saver: Saver,
    attempts: seq<(string, Attempt)>,  // history: every finished `makeOneMatch` call
    received: seq<FullMatch>           // history: what the saver took from the result channel
  )

  datatype Step =
    | Add | SendJob | CloseJobs | CloseDb | Join
    | Take(w: nat) | Parse(w: nat, attempt: Attempt) | SendMatch(w: nat) | Done(w: nat) | Exit(w: nat)
    | Receive | Save | StopSaver

  function Start(files: seq<string>, numWorkers: nat): State {
    State(files, Feeding, [], false, seq(numWorkers, _ => Idle), 0, [], false, Receiving, [], [])
  }

  predicate At(s: State, w: nat) {
    w < |s.workers|
  }

  predicate Enabled(s: State, step: Step) {
    match step
    case Add => s.main.Feeding? && s.toFeed != []
    case SendJob => s.main.Added? && (|s.jobs| < JOBS_CAPACITY || s.jobsClosed)
    case CloseJobs => s.main.Feeding? && s.toFeed == []
    case CloseDb => s.main.Waiting? && s.wq == 0
    case Join => s.main.Joining? && s.saver.Signalling?
    case Take(w) => At(s, w) && s.workers[w].Idle? && s.jobs != []
    case Parse(w, _) => At(s, w) && s.workers[w].Working?
    case SendMatch(w) => At(s, w) && s.workers[w].Sending? && (|s.db| < DB_CAPACITY || s.dbClosed)
    case Done(w) => At(s, w) && s.workers[w].Finishing?
    case Exit(w) => At(s, w) && s.workers[w].Idle? && s.jobs == [] && s.jobsClosed
    case Receive => s.saver.Receiving? && s.db != []
    case Save => s.saver.Saving?
    case StopSaver => s.saver.Receiving? && s.db == [] && s.dbClosed
  }

  /** One step.  A worker that sends on a closed channel panics, recovers, and its match is lost. */
  function Apply(s: State, step: Step): State
    requires Enabled(s, step)
  {
    match step
    case Add => s.(toFeed := s.toFeed[1..], main := Added(s.toFeed[0]), wq := s.wq + 1)
    case SendJob => s.(main := Feeding, jobs := s.jobs + [s.main.path])
    case CloseJobs => s.(main := Waiting, jobsClosed := true)
    case CloseDb => s.(main := Joining, dbClosed := true)
    case Join => s.(main := Finished, saver := Stopped)
    case Take(w) => s.(workers := s.workers[w := Working(s.jobs[0])], jobs := s.jobs[1..])
    case Parse(w, a) =>
      s.(workers := s.workers[w := if a.Parsed? then Sending(a.fm) else Finishing],
         attempts := s.attempts + [(s.workers[w].path, a)])
    case SendMatch(w) =>
      if s.dbClosed then
        s.(workers := s.workers[w := Finishing])
      else
        s.(workers := s.workers[w := Finishing], db := s.db + [s.workers[w].fm])
    case Done(w) => s.(workers := s.workers[w := Idle], wq := s.wq - 1)
    case Exit(w) => s.(workers := s.workers[w := Exited])
    case Receive => s.(saver := Saving(s.db[0]), db := s.db[1..], received := s.received + [s.db[0]])
    case Save => s.(saver := Receiving)
    case StopSaver => s.(saver := Signalling)
  }

  // ---------- totals over the worker pool ----------

  function BusyOf(w: Worker): nat {
    if w.Idle? || w.Exited? then 0 else 1
  }

  function RankOf(w: Worker): nat {
    match w
    case Idle => 1
    case Working(_) => 6
    case Sending(_) => 5
    case Finishing => 2
    case Exited => 0
  }

  function One(b: bool): nat {
    if b then 1 else 0
  }

  /** How many workers are parsing file `p`. */
  function InHand(ws: seq<Worker>, p: string): nat {
    if ws == [] then 0 else InHand(ws[..|ws| - 1], p) + One(ws[|ws| - 1] == Working(p))
  }

  /** How many workers are about to send match `m`. */
  function Unsent(ws: seq<Worker>, m: FullMatch): nat {
    if ws == [] then 0 else Unsent(ws[..|ws| - 1], m) + One(ws[|ws| - 1] == Sending(m))
  }

  function Busy(ws: seq<Worker>): nat {
    if ws == [] then 0 else Busy(ws[..|ws| - 1]) + BusyOf(ws[|ws| - 1])
  }

  function Ranks(ws: seq<Worker>): nat {
    if ws == [] then 0 else Ranks(ws[..|ws| - 1]) + RankOf(ws[|ws| - 1])
  }

  /** Changing one worker changes each total by that worker's own share. */
  lemma {:induction false} ReplaceWorker(ws: seq<Worker>, i: nat, w: Worker)
    requires i < |ws|
    ensures Busy(ws[i := w]) + BusyOf(ws[i]) == Busy(ws) + BusyOf(w)
    ensures Ranks(ws[i := w]) + RankOf(ws[i]) == Ranks(ws) + RankOf(w)
    ensures BusyOf(ws[i]) <= Busy(ws)
  {
    var n := |ws| - 1;
    if i < n {
      ReplaceWorker(ws[..n], i, w);
      assert ws[i := w][..n] == ws[..n][i := w];
    } else {
      assert ws[i := w][..n] == ws[..n];
    }
  }

  lemma {:induction false} ReplaceInHand(ws: seq<Worker>, i: nat, w: Worker, p: string)
    requires i < |ws|
    ensures InHand(ws[i := w], p) + One(ws[i] == Working(p)) == InHand(ws, p) + One(w == Working(p))
  {
    var n := |ws| - 1;
    if i < n {
      ReplaceInHand(ws[..n], i, w, p);
      assert ws[i := w][..n] == ws[..n][i := w];
    } else {
      assert ws[i := w][..n] == ws[..n];
    }
  }

  lemma {:induction false} ReplaceUnsent(ws: seq<Worker>, i: nat, w: Worker, m: FullMatch)
    requires i < |ws|
    ensures Unsent(ws[i := w], m) + One(ws[i] == Sending(m)) == Unsent(ws, m) + One(w == Sending(m))
  {
    var n := |ws| - 1;
    if i < n {
      ReplaceUnsent(ws[..n], i, w, m);
      assert ws[i := w][..n] == ws[..n][i := w];
    } else {
      assert ws[i := w][..n] == ws[..n];
    }
  }

  lemma {:induction false} BusyWorkerExists(ws: seq<Worker>) returns (i: nat)
    requires Busy(ws) > 0
    ensures i < |ws| && BusyOf(ws[i]) == 1
  {
    if BusyOf(ws[|ws| - 1]) == 1 {
      i := |ws| - 1;
    } else {
      i := BusyWorkerExists(ws[..|ws| - 1]);
    }
  }

  predicate AllAtRest(ws: seq<Worker>) {
    forall w | 0 <= w < |ws| :: ws[w].Idle? || ws[w].Exited?
  }

  lemma {:induction false} NothingInHand(ws: seq<Worker>, p: string)
    requires AllAtRest(ws)
    ensures InHand(ws, p) == 0
  {
    if ws != [] {
      NothingInHand(ws[..|ws| - 1], p);
    }
  }

  lemma {:induction false} NothingUnsent(ws: seq<Worker>, m: FullMatch)
    requires AllAtRest(ws)
    ensures Unsent(ws, m) == 0
  {
    if ws != [] {
      NothingUnsent(ws[..|ws| - 1], m);
    }
  }

  lemma {:induction false} NothingBusy(ws: seq<Worker>)
    requires AllAtRest(ws)
    ensures Busy(ws) == 0
  {
    if ws != [] {
      NothingBusy(ws[..|ws| - 1]);
    }
  }

  lemma {:induction false} IdlePoolRank(n: nat)
    ensures Ranks(seq(n, _ => Idle)) == n
  {
    if n > 0 {
      IdlePoolRank(n - 1);
      assert seq(n, _ => Idle)[..n - 1] == seq(n - 1, _ => Idle);
    }
  }

  // ---------- the history ----------

  /** How often file `p` has been attempted. */
  function AttemptsOn(attempts: seq<(string, Attempt)>, p: string): nat {
    if attempts == [] then 0
    else AttemptsOn(attempts[..|attempts| - 1], p) + One(attempts[|attempts| - 1].0 == p)
  }

  /** How many attempts produced match `m`. */
  function TimesParsed(attempts: seq<(string, Attempt)>, m: FullMatch): nat {
    if attempts == [] then 0
    else TimesParsed(attempts[..|attempts| - 1], m) + One(attempts[|attempts| - 1].1 == Parsed(m))
  }

  // ---------- the inductive invariant ----------

  function Copies<T(==)>(s: seq<T>, x: T): nat {
    multiset(s)[x]
  }

  lemma CopiesOfTail<T>(s: seq<T>, x: T)
    requires s != []
    ensures Copies(s, x) == One(s[0] == x) + Copies(s[1..], x)
  {
    assert s == [s[0]] + s[1..];
  }

  /** Copies of file `p` not yet fed, in the main goroutine's hand, queued, being parsed, or attempted. */
  function Located(s: State, p: string): nat {
    Copies(s.toFeed, p) + One(s.main == Added(p)) + Copies(s.jobs, p) + InHand(s.workers, p) + AttemptsOn(s.attempts, p)
  }

  ghost predicate FilesConserved(s: State, files: seq<string>) {
    forall p: string :: Located(s, p) == Copies(files, p)
  }

  /** Copies of match `m` in a worker's hand, in the result channel, or with the saver. */
  function Delivered(s: State, m: FullMatch): nat {
    Unsent(s.workers, m) + Copies(s.db, m) + Copies(s.received, m)
  }

  ghost predicate MatchesConserved(s: State) {
    forall m: FullMatch :: Delivered(s, m) == TimesParsed(s.attempts, m)
  }

  predicate Protocol(s: State, numWorkers: nat) {
    && |s.workers| == numWorkers
    && |s.jobs| <= JOBS_CAPACITY && |s.db| <= DB_CAPACITY
    && s.wq == (if s.main.Added? then 1 else 0) + |s.jobs| + Busy(s.workers)
    && (s.jobsClosed <==> s.main.Waiting? || s.main.Joining? || s.main.Finished?)
    && (s.jobsClosed ==> s.toFeed == [])
    && (s.dbClosed <==> s.main.Joining? || s.main.Finished?)
    && (s.dbClosed ==> s.wq == 0)
    && (forall w | 0 <= w < |s.workers| && s.workers[w].Exited? :: s.jobsClosed && s.jobs == [])
    && (s.saver.Signalling? || s.saver.Stopped? ==> s.dbClosed && s.db == [])
    && (s.saver.Stopped? <==> s.main.Finished?)
  }

  ghost predicate Inv(s: State, files: seq<string>, numWorkers: nat) {
    FilesConserved(s, files) && MatchesConserved(s) && Protocol(s, numWorkers)
  }

  lemma StartInv(files: seq<string>, numWorkers: nat)
    ensures Inv(Start(files, numWorkers), files, numWorkers)
    ensures Rank(Start(files, numWorkers)) == 8 * |files| + numWorkers + 5
  {
    var s := Start(files, numWorkers);
    IdlePoolRank(numWorkers);
    NothingBusy(s.workers);
    forall p: string
      ensures Located(s, p) == Copies(files, p)
    {
      NothingInHand(s.workers, p);
    }
    forall m: FullMatch
      ensures Delivered(s, m) == TimesParsed(s.attempts, m)
    {
      NothingUnsent(s.workers, m);
    }
  }

  /** Once the result channel is closed no worker is busy, so a send never meets a closed channel;
      `wq` never goes negative and a job is never sent after `close(jobs)`. */
  lemma NoSendAfterClose(s: State, numWorkers: nat)
    requires Protocol(s, numWorkers)
    ensures forall w | 0 <= w < |s.workers| && s.workers[w].Sending? :: !s.dbClosed
    ensures s.main.Added? ==> !s.jobsClosed
    ensures forall w | 0 <= w < |s.workers| && s.workers[w].Finishing? :: s.wq > 0
    ensures s.dbClosed ==> AllAtRest(s.workers)
  {
    forall w | 0 <= w < |s.workers|
      ensures BusyOf(s.workers[w]) <= Busy(s.workers)
    {
      ReplaceWorker(s.workers, w, s.workers[w]);
    }
  }

  predicate IsWorkerStep(step: Step) {
    step.Take? || step.Parse? || step.SendMatch? || step.Done? || step.Exit?
  }

  /** A worker's move keeps the protocol when its counter, the queues and `wq` change together. */
  lemma WorkerMoveKeepsProtocol(s: State, i: nat, w: Worker, jobs: seq<string>, wq: int, db: seq<FullMatch>,
                                numWorkers: nat)
    requires Protocol(s, numWorkers) && At(s, i)
    requires |jobs| <= JOBS_CAPACITY && |db| <= DB_CAPACITY
    requires wq - s.wq == |jobs| - |s.jobs| + BusyOf(w) - BusyOf(s.workers[i])
    requires s.dbClosed ==> wq == 0 && db == s.db
    requires s.jobs == [] ==> jobs == []
    requires w.Exited? ==> s.jobsClosed && jobs == []
    ensures Protocol(s.(workers := s.workers[i := w], jobs := jobs, wq := wq, db := db), numWorkers)
  {
    ReplaceWorker(s.workers, i, w);
  }

  lemma ProtocolKeptByMain(s: State, step: Step, numWorkers: nat)
    requires Protocol(s, numWorkers) && Enabled(s, step) && !IsWorkerStep(step)
    ensures Protocol(Apply(s, step), numWorkers)
  {}

  lemma ProtocolKeptByWorker(s: State, step: Step, numWorkers: nat)
    requires Protocol(s, numWorkers) && Enabled(s, step) && IsWorkerStep(step)
    ensures Protocol(Apply(s, step), numWorkers)
  {
    NoSendAfterClose(s, numWorkers);
    var i := step.w;
    match step {
      case Take(_) =>
        WorkerMoveKeepsProtocol(s, i, Working(s.jobs[0]), s.jobs[1..], s.wq, s.db, numWorkers);
      case Parse(_, a) =>
        WorkerMoveKeepsProtocol(s, i, if a.Parsed? then Sending(a.fm) else Finishing, s.jobs, s.wq, s.db, numWorkers);
      case SendMatch(_) =>
        WorkerMoveKeepsProtocol(s, i, Finishing, s.jobs, s.wq, s.db + [s.workers[i].fm], numWorkers);
      case Done(_) =>
        WorkerMoveKeepsProtocol(s, i, Idle, s.jobs, s.wq - 1, s.db, numWorkers);
      case Exit(_) =>
        WorkerMoveKeepsProtocol(s, i, Exited, s.jobs, s.wq, s.db, numWorkers);
    }
  }

  predicate ByWorker(step: Step) {
    step.Take? || step.Parse? || step.SendMatch? || step.Done? || step.Exit?
  }

  lemma OneMoreAttempt(attempts: seq<(string, Attempt)>, path: string, a: Attempt, p: string, m: FullMatch)
    ensures AttemptsOn(attempts + [(path, a)], p) == AttemptsOn(attempts, p) + One(path == p)
    ensures TimesParsed(attempts + [(path, a)], m) == TimesParsed(attempts, m) + One(a == Parsed(m))
  {
    assert (attempts + [(path, a)])[..|attempts|] == attempts;
  }

  lemma FilesKeptByMain(s: State, step: Step, p: string)
    requires Enabled(s, step) && !ByWorker(step)
    requires s.main.Added? ==> !s.jobsClosed
    ensures Located(Apply(s, step), p) == Located(s, p)
  {
    if step.Add? {
      CopiesOfTail(s.toFeed, p);
    }
  }

  lemma FilesKeptByWorker(s: State, step: Step, p: string)
    requires Enabled(s, step) && ByWorker(step)
    ensures Located(Apply(s, step), p) == Located(s, p)
  {
    ReplaceInHand(s.workers, step.w, Apply(s, step).workers[step.w], p);
    if step.Take? {
      CopiesOfTail(s.jobs, p);
    } else if step.Parse? {
      OneMoreAttempt(s.attempts, s.workers[step.w].path, step.attempt, p, FanOut.FullMatch(0, [], [], []));
    }
  }

  lemma FilesKept(s: State, step: Step, p: string)
    requires Enabled(s, step)
    requires s.main.Added? ==> !s.jobsClosed
    ensures Located(Apply(s, step), p) == Located(s, p)
  {
    if ByWorker(step) {
      FilesKeptByWorker(s, step, p);
    } else {
      FilesKeptByMain(s, step, p);
    }
  }

  lemma MatchesKeptByMain(s: State, step: Step, m: FullMatch)
    requires Enabled(s, step) && !ByWorker(step)
    ensures Delivered(Apply(s, step), m) == Delivered(s, m) && Apply(s, step).attempts == s.attempts
  {
    if step.Receive? {
      CopiesOfTail(s.db, m);
    }
  }

  lemma MatchesKept(s: State, step: Step, m: FullMatch)
    requires Enabled(s, step) && (step.SendMatch? ==> !s.dbClosed)
    ensures Delivered(Apply(s, step), m) - TimesParsed(Apply(s, step).attempts, m)
         == Delivered(s, m) - TimesParsed(s.attempts, m)
  {
    if ByWorker(step) {
      ReplaceUnsent(s.workers, step.w, Apply(s, step).workers[step.w], m);
      if step.Parse? {
        OneMoreAttempt(s.attempts, s.workers[step.w].path, step.attempt, "", m);
      }
    } else {
      MatchesKeptByMain(s, step, m);
    }
  }

  lemma InvPreserved(s: State, step: Step, files: seq<string>, numWorkers: nat)
    requires Inv(s, files, numWorkers) && Enabled(s, step)
    ensures Inv(Apply(s, step), files, numWorkers)
  {
    if IsWorkerStep(step) {
      ProtocolKeptByWorker(s, step, numWorkers);
    } else {
      ProtocolKeptByMain(s, step, numWorkers);
    }
    NoSendAfterClose(s, numWorkers);
    forall p: string
      ensures Located(Apply(s, step), p) == Copies(files, p)
    {
      FilesKept(s, step, p);
    }
    forall m: FullMatch
      ensures Delivered(Apply(s, step), m) == TimesParsed(Apply(s, step).attempts, m)
    {
      MatchesKept(s, step, m);
    }
  }

  // ---------- progress ----------

  /** The pipeline cannot get stuck: until `main` returns, some goroutine can take a step. */
  lemma EnabledStep(s: State, numWorkers: nat) returns (step: Step)
    requires numWorkers > 0 && Protocol(s, numWorkers) && !s.main.Finished?
    ensures Enabled(s, step)
  {
    if s.main.Feeding? {
      step := if s.toFeed == [] then CloseJobs else Add;
    } else if s.main.Joining? {
      step := if s.saver.Signalling? then Join else if s.saver.Saving? then Save
              else if s.db == [] then StopSaver else Receive;
    } else if Enabled(s, SendJob) {
      step := SendJob;
    } else if Enabled(s, CloseDb) {
      step := CloseDb;
    } else {
      var w := 0;
      if s.jobs == [] {
        w := BusyWorkerExists(s.workers);
      }
      var v := s.workers[w];
      step := if v.Idle? then Take(w) else if v.Working? then Parse(w, Failed) else if v.Finishing? then Done(w)
              else if |s.db| < DB_CAPACITY then SendMatch(w) else if s.saver.Saving? then Save else Receive;
    }
  }

  function Rank(s: State): int {
    8 * |s.toFeed| + 6 * |s.jobs| + Ranks(s.workers) + 2 * |s.db|
    + (match s.main
       case Feeding => 3
       case Added(_) => 10
       case Waiting => 2
       case Joining => 1
       case Finished => 0)
    + (match s.saver
       case Receiving => 2
       case Saving(_) => 3
       case Signalling => 1
       case Stopped => 0)
  }

  lemma StepLowersRank(s: State, step: Step)
    requires Enabled(s, step)
    ensures Rank(Apply(s, step)) < Rank(s)
  {
    if ByWorker(step) {
      ReplaceWorker(s.workers, step.w, Apply(s, step).workers[step.w]);
      WorkerStepLowersRank(s, step);
    }
  }

  lemma WorkerStepLowersRank(s: State, step: Step)
    requires Enabled(s, step) && ByWorker(step)
    ensures (var t := Apply(s, step);
             Rank(t) - Ranks(t.workers) + RankOf(t.workers[step.w])
             < Rank(s) - Ranks(s.workers) + RankOf(s.workers[step.w])
             && t.workers == s.workers[step.w := t.workers[step.w]])
  {}

  // ---------- whole runs ----------

  predicate CanRun(s: State, steps: seq<Step>)
    decreases |steps|
  {
    steps == [] || (Enabled(s, steps[0]) && CanRun(Apply(s, steps[0]), steps[1..]))
  }

  function After(s: State, steps: seq<Step>): State
    requires CanRun(s, steps)
    decreases |steps|
  {
    if steps == [] then s else After(Apply(s, steps[0]), steps[1..])
  }

  lemma {:induction false} RunKeepsInv(s: State, steps: seq<Step>, files: seq<string>, numWorkers: nat)
    requires Inv(s, files, numWorkers) && CanRun(s, steps)
    ensures Inv(After(s, steps), files, numWorkers)
    ensures |steps| + Rank(After(s, steps)) <= Rank(s)
    decreases |steps|
  {
    if steps != [] {
      InvPreserved(s, steps[0], files, numWorkers);
      StepLowersRank(s, steps[0]);
      RunKeepsInv(Apply(s, steps[0]), steps[1..], files, numWorkers);
    }
  }

  /** At `main`'s return every file has been attempted exactly once and the saver has received exactly
      the matches of the successful attempts. */
  lemma FinishedDeliversAll(s: State, files: seq<string>, numWorkers: nat)
    requires Inv(s, files, numWorkers) && s.main.Finished?
    ensures forall p: string :: AttemptsOn(s.attempts, p) == Copies(files, p)
    ensures forall m: FullMatch :: Copies(s.received, m) == TimesParsed(s.attempts, m)
  {
    NoSendAfterClose(s, numWorkers);
    forall p: string
      ensures AttemptsOn(s.attempts, p) == Copies(files, p)
    {
      NothingInHand(s.workers, p);
      assert Located(s, p) == Copies(files, p);
    }
    forall m: FullMatch
      ensures Copies(s.received, m) == TimesParsed(s.attempts, m)
    {
      NothingUnsent(s.workers, m);
      assert Delivered(s, m) == TimesParsed(s.attempts, m);
    }
  }

  /** For any files, at least one worker and every interleaving with every choice of parse results: the run is finite
      with an explicit bound, it stops only when `main` has returned, and then nothing was lost or duplicated. */
  lemma {:induction false} EveryInterleaving(files: seq<string>, numWorkers: nat, steps: seq<Step>)
    requires numWorkers > 0 && CanRun(Start(files, numWorkers), steps)
    ensures |steps| <= 8 * |files| + numWorkers + 5
    ensures var s := After(Start(files, numWorkers), steps);
            && ((forall step :: !Enabled(s, step)) ==> s.main.Finished?)
            && (s.main.Finished? ==>
                  && (forall p: string :: AttemptsOn(s.attempts, p) == Copies(files, p))
                  && (forall m: FullMatch :: Copies(s.received, m) == TimesParsed(s.attempts, m)))
  {
    StartInv(files, numWorkers);
    RunKeepsInv(Start(files, numWorkers), steps, files, numWorkers);
    var s := After(Start(files, numWorkers), steps);
    if s.main.Finished? {
      FinishedDeliversAll(s, files, numWorkers);
    } else {
      var step := EnabledStep(s, numWorkers);
    }
  }

  // ---------- with `makeOneMatch` inside ----------

  /** How the three parsers of each file end. */
  type Outcomes = string -> seq<FanOut.Outcome>

  ghost predicate ThreeEach(outcomes: Outcomes) {
    forall p :: |outcomes(p)| == 3
  }

  /** The attempt `makeOneMatch` makes of a file: its verdict on the three outcomes. */
  function AttemptFor(outcomes: Outcomes, p: string): Attempt
    requires |outcomes(p)| == 3
  {
    match FanOut.Verdict(outcomes(p))
    case Match(fm) => Parsed(fm)
    case _ => Failed
  }

  ghost predicate ByVerdict(attempts: seq<(string, Attempt)>, outcomes: Outcomes)
    requires ThreeEach(outcomes)
  {
    forall i | 0 <= i < |attempts| :: attempts[i].1 == AttemptFor(outcomes, attempts[i].0)
  }

  /** How many of the listed files' parsers yield match `m`: all three succeed with nonempty outputs, each in its
      place. */
  ghost function FilesYielding(files: seq<string>, outcomes: Outcomes, m: FullMatch): nat
    requires ThreeEach(outcomes)
  {
    if files == [] then 0
    else
      FilesYielding(files[..|files| - 1], outcomes, m) + One(FanOut.Yields(outcomes(files[|files| - 1]), m))
  }

  lemma {:induction false} YieldOfConcat(a: seq<string>, b: seq<string>, outcomes: Outcomes, m: FullMatch)
    requires ThreeEach(outcomes)
    ensures FilesYielding(a + b, outcomes, m) == FilesYielding(a, outcomes, m) + FilesYielding(b, outcomes, m)
    decreases |b|
  {
    if b == [] {
      assert a + b == a;
    } else {
      var n := |b| - 1;
      YieldOfConcat(a, b[..n], outcomes, m);
      assert (a + b)[..|a + b| - 1] == a + b[..n];
    }
  }

  lemma YieldOfOne(p: string, outcomes: Outcomes, m: FullMatch)
    requires ThreeEach(outcomes)
    ensures FilesYielding([p], outcomes, m) == One(FanOut.Yields(outcomes(p), m))
  {}

  /** `s` with its member at `i` taken out. */
  function Without(s: seq<string>, i: nat): seq<string>
    requires i < |s|
  {
    s[..i] + s[i + 1..]
  }

  lemma WithoutHolds(s: seq<string>, i: nat)
    requires i < |s|
    ensures multiset(Without(s, i)) == multiset(s) - multiset{s[i]} && |Without(s, i)| == |s| - 1
  {
    assert s == s[..i] + [s[i]] + s[i + 1..];
    assert multiset(s) == multiset(Without(s, i)) + multiset{s[i]};
  }

  lemma YieldWithout(files: seq<string>, i: nat, outcomes: Outcomes, m: FullMatch)
    requires ThreeEach(outcomes) && i < |files|
    ensures FilesYielding(files, outcomes, m)
         == FilesYielding(Without(files, i), outcomes, m) + One(FanOut.Yields(outcomes(files[i]), m))
  {
    var (a, b) := (files[..i], files[i + 1..]);
    assert files == (a + [files[i]]) + b;
    YieldOfConcat(a + [files[i]], b, outcomes, m);
    YieldOfConcat(a, [files[i]], outcomes, m);
    YieldOfConcat(a, b, outcomes, m);
    YieldOfOne(files[i], outcomes, m);
  }

  lemma {:induction false} YieldOfPermutation(a: seq<string>, b: seq<string>, outcomes: Outcomes, m: FullMatch)
    requires ThreeEach(outcomes) && multiset(a) == multiset(b)
    ensures FilesYielding(a, outcomes, m) == FilesYielding(b, outcomes, m)
    decreases |a|
  {
    if a == [] {
      assert |multiset(b)| == 0;
    } else {
      assert a[0] in multiset(b);
      var i :| 0 <= i < |b| && b[i] == a[0];
      WithoutHolds(a, 0);
      WithoutHolds(b, i);
      YieldOfPermutation(Without(a, 0), Without(b, i), outcomes, m);
      YieldWithout(a, 0, outcomes, m);
      YieldWithout(b, i, outcomes, m);
    }
  }

  function Paths(attempts: seq<(string, Attempt)>): seq<string> {
    seq(|attempts|, i requires 0 <= i < |attempts| => attempts[i].0)
  }

  lemma {:induction false} AttemptsByPath(attempts: seq<(string, Attempt)>, outcomes: Outcomes, p: string, m: FullMatch)
    requires ThreeEach(outcomes) && ByVerdict(attempts, outcomes)
    ensures AttemptsOn(attempts, p) == Copies(Paths(attempts), p)
    ensures TimesParsed(attempts, m) == FilesYielding(Paths(attempts), outcomes, m)
  {
    if attempts != [] {
      var n := |attempts| - 1;
      AttemptsByPath(attempts[..n], outcomes, p, m);
      assert Paths(attempts) == Paths(attempts[..n]) + [attempts[n].0];
      assert Paths(attempts)[..n] == Paths(attempts[..n]);
      FanOut.VerdictExactly(outcomes(attempts[n].0));
    }
  }

  /** The two protocols together: whatever the three parsers of each file yield, if every attempt is the verdict on its
      file, the saver has received at the end each match exactly as often as files are listed whose parsers yield it. */
  lemma SavedAreTheMatches(files: seq<string>, numWorkers: nat, steps: seq<Step>, outcomes: Outcomes, m: FullMatch)
    requires ThreeEach(outcomes) && numWorkers > 0 && CanRun(Start(files, numWorkers), steps)
    requires (var s := After(Start(files, numWorkers), steps); s.main.Finished? && ByVerdict(s.attempts, outcomes))
    ensures Copies(After(Start(files, numWorkers), steps).received, m) == FilesYielding(files, outcomes, m)
  {
    var s := After(Start(files, numWorkers), steps);
    EveryInterleaving(files, numWorkers, steps);
    AttemptsByPath(s.attempts, outcomes, "", m);
    forall p: string
      ensures multiset(Paths(s.attempts))[p] == multiset(files)[p]
    {
      AttemptsByPath(s.attempts, outcomes, p, m);
      assert AttemptsOn(s.attempts, p) == Copies(files, p);
    }
    YieldOfPermutation(Paths(s.attempts), files, outcomes, m);
  }
}
