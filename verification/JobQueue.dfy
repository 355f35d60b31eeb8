/**
 The backtest job queue (backtests/service.py, backtests/worker.py): jobs in a table, and workers that
 claim one, run it and record what came of it, each in transactions of its own.

 One step is one committed transaction, or one thing that happens to a worker between two of them.
 */
module JobQueue {
  import opened Wrappers

  datatype Status = Queued | Running | Completed | Failed | Cancelled

  predicate Terminal(s: Status) {
    s.Completed? || s.Failed? || s.Cancelled?
  }

  /** A job row, and how many result rows refer to it (the table allows one). */
  datatype Job = Job(key: string, status: Status, attempts: nat, cancelRequested: bool, queuedAt: int, runs: nat)

  /** Where a worker is: between jobs, gone, or at a point of `process_one` with a job in hand. */
  datatype Worker =
    | Idle | Gone
    | Claimed(job: nat)                       // before the transaction that loads the job
    | Loaded(job: nat, cancelled: bool)       // the engine is about to run, or not
    | Executed(job: nat)                      // before the transaction that stores the result
    | Failing(job: nat)                       // in the exception handler

  predicate Busy(w: Worker) {
    !w.Idle? && !w.Gone?
  }

  datatype Sys = Sys(jobs: seq<Job>, workers: seq<Worker>)

  const EMPTY := Sys([], [])

  datatype Event =
    | Submit(key: string, valid: bool, at: int)
    | Cancel(job: nat)
    | Start
    | Claim(worker: nat, job: nat)
    | Load(worker: nat, ok: bool)
    | StopCancelled(worker: nat, ok: bool)
    | Execute(worker: nat, ok: bool)
    | Store(worker: nat, ok: bool)
    | RecordFailure(worker: nat, ok: bool)
    | Die(worker: nat)
    | Requeue

  // ----- one transaction on the jobs -----

  predicate HasKey(jobs: seq<Job>, key: string) {
    exists j :: 0 <= j < |jobs| && jobs[j].key == key
  }

  function Submitted(jobs: seq<Job>, key: string, valid: bool, at: int): seq<Job> {
    if HasKey(jobs, key) || !valid then jobs else jobs + [Job(key, Queued, 0, false, at, 0)]
  }

  function CancelledJob(job: Job): Job {
    if Terminal(job.status) then job
    else job.(cancelRequested := true, status := if job.status.Queued? then Cancelled else job.status)
  }

  /** `j` is a queued job and none was queued before it. */
  predicate Oldest(jobs: seq<Job>, j: nat) {
    && j < |jobs| && jobs[j].status.Queued?
    && forall k :: 0 <= k < |jobs| && jobs[k].status.Queued? ==> jobs[j].queuedAt <= jobs[k].queuedAt
  }

  function ClaimedJob(job: Job): Job {
    if job.cancelRequested then job.(status := Cancelled) else job.(status := Running, attempts := job.attempts + 1)
  }

  /** The last transaction of a run; `ok` when storing the result does not raise. None when it does. */
  function StoredJob(job: Job, ok: bool): Option<Job> {
    if job.cancelRequested then Some(job.(status := Cancelled))
    else if ok && job.runs == 0 then Some(job.(status := Completed, runs := 1))
    else None
  }

  function EndedJob(job: Job, status: Status): Job {
    if Terminal(job.status) then job else job.(status := status)
  }

  function RequeuedJob(job: Job, maxAttempts: int): Job {
    if !job.status.Running? then job
    else if job.attempts >= maxAttempts then job.(status := Failed)
    else job.(status := Queued)
  }

  function RequeuedAll(jobs: seq<Job>, maxAttempts: int): (after: seq<Job>)
    ensures |after| == |jobs| && forall j :: 0 <= j < |jobs| ==> after[j] == RequeuedJob(jobs[j], maxAttempts)
  {
    seq(|jobs|, j requires 0 <= j < |jobs| => RequeuedJob(jobs[j], maxAttempts))
  }

  /** How many of the first `n` jobs go back to the queue. */
  function BackCount(jobs: seq<Job>, maxAttempts: int, n: nat): nat
    requires n <= |jobs|
  {
    if n == 0 then 0
    else BackCount(jobs, maxAttempts, n - 1) + if jobs[n - 1].status.Running? && jobs[n - 1].attempts < maxAttempts then 1 else 0
  }

  lemma {:induction false} BackCountExactly(jobs: seq<Job>, maxAttempts: int, n: nat)
    requires n <= |jobs|
    ensures BackCount(jobs, maxAttempts, n) == |set j | 0 <= j < n && jobs[j].status == Running && jobs[j].attempts < maxAttempts|
    decreases n
  {
    var back := set j | 0 <= j < n && jobs[j].status == Running && jobs[j].attempts < maxAttempts;
    if n > 0 {
      BackCountExactly(jobs, maxAttempts, n - 1);
      var before := set j | 0 <= j < n - 1 && jobs[j].status == Running && jobs[j].attempts < maxAttempts;
      assert back == before + if jobs[n - 1].status == Running && jobs[n - 1].attempts < maxAttempts then {n - 1} else {};
    }
  }

  // ----- steps -----

  predicate Enabled(s: Sys, e: Event) {
    match e
    case Submit(_, _, _) => true
    case Cancel(j) => j < |s.jobs|
    case Start => true
    case Claim(w, j) => w < |s.workers| && s.workers[w].Idle? && Oldest(s.jobs, j)
    case Load(w, _) => w < |s.workers| && s.workers[w].Claimed? && s.workers[w].job < |s.jobs|
    case StopCancelled(w, _) => w < |s.workers| && s.workers[w].Loaded? && s.workers[w].cancelled && s.workers[w].job < |s.jobs|
    case Execute(w, _) => w < |s.workers| && s.workers[w].Loaded? && !s.workers[w].cancelled
    case Store(w, _) => w < |s.workers| && s.workers[w].Executed? && s.workers[w].job < |s.jobs|
    case RecordFailure(w, _) => w < |s.workers| && s.workers[w].Failing? && s.workers[w].job < |s.jobs|
    case Die(w) => w < |s.workers|
    case Requeue => true
  }

  function Moved(s: Sys, w: nat, to: Worker): Sys
    requires w < |s.workers|
  {
    s.(workers := s.workers[w := to])
  }

  function Wrote(s: Sys, j: nat, job: Job, w: nat, to: Worker): Sys
    requires w < |s.workers| && j < |s.jobs|
  {
    Sys(s.jobs[j := job], s.workers[w := to])
  }

  /** The state after an event. `maxAttempts` is the deployment's setting. */
  function Next(s: Sys, e: Event, maxAttempts: int): Sys {
    if !Enabled(s, e) then s
    else
      match e
      case Submit(key, valid, at) => s.(jobs := Submitted(s.jobs, key, valid, at))
      case Cancel(j) => s.(jobs := s.jobs[j := CancelledJob(s.jobs[j])])
      case Start => s.(workers := s.workers + [Idle])
      case Claim(w, j) => Wrote(s, j, ClaimedJob(s.jobs[j]), w, if s.jobs[j].cancelRequested then Idle else Claimed(j))
      case Load(w, ok) =>
        var j := s.workers[w].job;
        Moved(s, w, if ok then Loaded(j, s.jobs[j].cancelRequested) else Failing(j))
      case StopCancelled(w, ok) =>
        var j := s.workers[w].job;
        if ok then Wrote(s, j, EndedJob(s.jobs[j], Cancelled), w, Idle) else Moved(s, w, Failing(j))
      case Execute(w, ok) => Moved(s, w, if ok then Executed(s.workers[w].job) else Failing(s.workers[w].job))
      case Store(w, ok) =>
        var j := s.workers[w].job;
        var stored := StoredJob(s.jobs[j], ok);
        if stored.Some? then Wrote(s, j, stored.value, w, Idle) else Moved(s, w, Failing(j))
      case RecordFailure(w, ok) =>
        var j := s.workers[w].job;
        if ok then Wrote(s, j, EndedJob(s.jobs[j], Failed), w, Idle) else Moved(s, w, Idle)
      case Die(w) => Moved(s, w, Gone)
      case Requeue => s.(jobs := RequeuedAll(s.jobs, maxAttempts))
  }

  function After(es: seq<Event>, n: nat, maxAttempts: int): Sys
    requires n <= |es|
  {
    if n == 0 then EMPTY else Next(After(es, n - 1, maxAttempts), es[n - 1], maxAttempts)
  }

  // ----- what every run keeps -----

  function Limit(maxAttempts: int): nat {
    if maxAttempts > 1 then maxAttempts else 1
  }

  /** A completed job has exactly one result and was not asked to stop; any other has none; and no job
      was claimed, or can still be, more often than the limit. */
  ghost predicate SoundJob(job: Job, maxAttempts: int) {
    && job.runs == (if job.status.Completed? then 1 else 0)
    && (job.status.Completed? ==> !job.cancelRequested)
    && job.attempts <= Limit(maxAttempts) && (job.status.Queued? ==> job.attempts < Limit(maxAttempts))
  }

  ghost predicate SoundJobs(jobs: seq<Job>, maxAttempts: int) {
    forall j :: 0 <= j < |jobs| ==> SoundJob(jobs[j], maxAttempts)
  }

  /** A job in some worker's hands is running, and in one worker's hands only. */
  ghost predicate SoundWorkers(s: Sys) {
    && (forall w :: 0 <= w < |s.workers| && Busy(s.workers[w]) ==>
          s.workers[w].job < |s.jobs| && s.jobs[s.workers[w].job].status.Running?)
    && (forall v, w :: 0 <= v < w < |s.workers| && Busy(s.workers[v]) && Busy(s.workers[w]) ==> s.workers[v].job != s.workers[w].job)
  }

  ghost predicate NoneBusy(s: Sys) {
    forall w :: 0 <= w < |s.workers| ==> !Busy(s.workers[w])
  }

  ghost predicate OrphansAt(es: seq<Event>, i: nat, maxAttempts: int)
    requires i < |es|
  {
    es[i].Requeue? ==> NoneBusy(After(es, i, maxAttempts))
  }

  /** Orphans are put back only while no worker has a job in hand: at start, before the pool's threads. */
  ghost predicate OrphansOnly(es: seq<Event>, maxAttempts: int) {
    forall i :: 0 <= i < |es| ==> OrphansAt(es, i, maxAttempts)
  }

  lemma SubmitSound(jobs: seq<Job>, key: string, valid: bool, at: int, maxAttempts: int)
    requires SoundJobs(jobs, maxAttempts)
    ensures SoundJobs(Submitted(jobs, key, valid, at), maxAttempts)
  {
  }

  lemma StepSoundJobs(s: Sys, e: Event, maxAttempts: int)
    requires SoundJobs(s.jobs, maxAttempts) && SoundWorkers(s)
    ensures SoundJobs(Next(s, e, maxAttempts).jobs, maxAttempts)
  {
    match e {
      case Submit(key, valid, at) => SubmitSound(s.jobs, key, valid, at, maxAttempts);
      case Store(w, ok) =>
        assert Enabled(s, e) ==> Busy(s.workers[w]);
      case _ =>
    }
  }

  lemma WroteSound(s: Sys, j: nat, job: Job, w: nat, to: Worker)
    requires SoundWorkers(s) && w < |s.workers| && j < |s.jobs|
    requires to.Idle? || (Busy(to) && to.job == j && job.status.Running?)
    requires (Busy(s.workers[w]) && s.workers[w].job == j) || !s.jobs[j].status.Running?
    ensures SoundWorkers(Wrote(s, j, job, w, to))
  {
    forall v | 0 <= v < |s.workers| && v != w && Busy(s.workers[v]) ensures s.workers[v].job != j {
      assert v < w || w < v;
    }
  }

  /** A worker that keeps its job, or puts it down, changes nothing about who holds what. */
  lemma MovedSound(s: Sys, w: nat, to: Worker)
    requires SoundWorkers(s) && w < |s.workers|
    requires !Busy(to) || (Busy(s.workers[w]) && s.workers[w].job == to.job)
    ensures SoundWorkers(Moved(s, w, to))
  {
  }

  lemma JobsSound(s: Sys, jobs: seq<Job>)
    requires SoundWorkers(s) && |jobs| >= |s.jobs|
    requires forall j :: 0 <= j < |s.jobs| && s.jobs[j].status.Running? ==> jobs[j].status.Running?
    ensures SoundWorkers(s.(jobs := jobs))
  {
  }

  lemma StepSoundWorkers(s: Sys, e: Event, maxAttempts: int)
    requires SoundWorkers(s) && (e.Requeue? ==> NoneBusy(s))
    ensures SoundWorkers(Next(s, e, maxAttempts))
  {
    if Enabled(s, e) {
      match e {
        case Submit(key, valid, at) => JobsSound(s, Submitted(s.jobs, key, valid, at));
        case Cancel(j) => JobsSound(s, s.jobs[j := CancelledJob(s.jobs[j])]);
        case Start =>
        case Claim(w, j) =>
          WroteSound(s, j, ClaimedJob(s.jobs[j]), w, if s.jobs[j].cancelRequested then Idle else Claimed(j));
        case Load(w, ok) =>
          MovedSound(s, w, if ok then Loaded(s.workers[w].job, s.jobs[s.workers[w].job].cancelRequested) else Failing(s.workers[w].job));
        case StopCancelled(w, ok) =>
          if ok {
            WroteSound(s, s.workers[w].job, EndedJob(s.jobs[s.workers[w].job], Cancelled), w, Idle);
          } else {
            MovedSound(s, w, Failing(s.workers[w].job));
          }
        case Execute(w, ok) => MovedSound(s, w, if ok then Executed(s.workers[w].job) else Failing(s.workers[w].job));
        case Store(w, ok) =>
          var stored := StoredJob(s.jobs[s.workers[w].job], ok);
          if stored.Some? {
            WroteSound(s, s.workers[w].job, stored.value, w, Idle);
          } else {
            MovedSound(s, w, Failing(s.workers[w].job));
          }
        case RecordFailure(w, ok) =>
          if ok {
            WroteSound(s, s.workers[w].job, EndedJob(s.jobs[s.workers[w].job], Failed), w, Idle);
          } else {
            MovedSound(s, w, Idle);
          }
        case Die(w) => MovedSound(s, w, Gone);
        case Requeue =>
      }
    }
  }

  /** Every run in which orphans are put back only while no worker has a job in hand: a completed job has
      exactly one result and no cancellation request, every other job has no result, a job in hand is
      running and in one worker's hands, and none is claimed more than max(1, max attempts) times. */
  lemma {:induction false} EveryRunSound(es: seq<Event>, n: nat, maxAttempts: int)
    requires n <= |es| && OrphansOnly(es, maxAttempts)
    ensures SoundJobs(After(es, n, maxAttempts).jobs, maxAttempts) && SoundWorkers(After(es, n, maxAttempts))
    decreases n
  {
    if n > 0 {
      EveryRunSound(es, n - 1, maxAttempts);
      assert OrphansAt(es, n - 1, maxAttempts);
      var s := After(es, n - 1, maxAttempts);
      StepSoundJobs(s, es[n - 1], maxAttempts);
      StepSoundWorkers(s, es[n - 1], maxAttempts);
    }
  }

  // ----- terminal states -----

  /** What every row says of itself, in any run at all. */
  predicate Coherent(job: Job) {
    && job.runs == (if job.status.Completed? then 1 else 0)
    && (job.status.Completed? ==> !job.cancelRequested) && (job.status.Cancelled? ==> job.cancelRequested)
  }

  /** A worker holds a job there is, and has seen a cancellation only where there is one. */
  predicate Truthful(w: Worker, jobs: seq<Job>) {
    Busy(w) ==> w.job < |jobs| && (w.Loaded? && w.cancelled ==> jobs[w.job].cancelRequested)
  }

  ghost predicate Consistent(s: Sys) {
    && (forall j :: 0 <= j < |s.jobs| ==> Coherent(s.jobs[j]))
    && (forall w :: 0 <= w < |s.workers| ==> Truthful(s.workers[w], s.jobs))
  }

  /** Rows are never dropped, and a cancellation request is never taken back. */
  predicate Grown(jobs: seq<Job>, after: seq<Job>) {
    |jobs| <= |after| && forall j :: 0 <= j < |jobs| && jobs[j].cancelRequested ==> after[j].cancelRequested
  }

  lemma StepGrows(s: Sys, e: Event, maxAttempts: int)
    ensures Grown(s.jobs, Next(s, e, maxAttempts).jobs)
  {
  }

  lemma StepCoherent(s: Sys, e: Event, maxAttempts: int, j: nat)
    requires Consistent(s) && j < |Next(s, e, maxAttempts).jobs|
    ensures Coherent(Next(s, e, maxAttempts).jobs[j])
  {
    assert j < |s.jobs| ==> Coherent(s.jobs[j]);
    assert e.StopCancelled? && Enabled(s, e) ==> Truthful(s.workers[e.worker], s.jobs);
  }

  lemma StepTruthful(s: Sys, e: Event, maxAttempts: int, w: nat)
    requires Consistent(s) && w < |Next(s, e, maxAttempts).workers|
    ensures Truthful(Next(s, e, maxAttempts).workers[w], Next(s, e, maxAttempts).jobs)
  {
    StepGrows(s, e, maxAttempts);
    assert w < |s.workers| ==> Truthful(s.workers[w], s.jobs);
  }

  lemma {:induction false} EveryRunConsistent(es: seq<Event>, n: nat, maxAttempts: int)
    requires n <= |es|
    ensures Consistent(After(es, n, maxAttempts))
    decreases n
  {
    if n > 0 {
      EveryRunConsistent(es, n - 1, maxAttempts);
      var s := After(es, n - 1, maxAttempts);
      forall j | 0 <= j < |After(es, n, maxAttempts).jobs| ensures Coherent(After(es, n, maxAttempts).jobs[j]) {
        StepCoherent(s, es[n - 1], maxAttempts, j);
      }
      forall w | 0 <= w < |After(es, n, maxAttempts).workers|
        ensures Truthful(After(es, n, maxAttempts).workers[w], After(es, n, maxAttempts).jobs) {
        StepTruthful(s, es[n - 1], maxAttempts, w);
      }
    }
  }

  /** This worker is on its way to store a result for job `j`. */
  predicate Storing(w: Worker, j: nat, job: Job) {
    w == Executed(j) || w == Loaded(j, false) || (w == Claimed(j) && !job.cancelRequested)
  }

  /** Job `j` has failed while some worker is still on its way to store a result for it. */
  ghost predicate Revivable(s: Sys, j: nat)
    requires j < |s.jobs|
  {
    s.jobs[j].status.Failed? && exists w :: 0 <= w < |s.workers| && Storing(s.workers[w], j, s.jobs[j])
  }

  ghost predicate Settled(s: Sys, j: nat) {
    j < |s.jobs| && Terminal(s.jobs[j].status) && Coherent(s.jobs[j]) && !Revivable(s, j)
  }

  lemma StepKeepsTerminal(s: Sys, e: Event, maxAttempts: int, j: nat)
    requires Settled(s, j)
    ensures j < |Next(s, e, maxAttempts).jobs| && Next(s, e, maxAttempts).jobs[j] == s.jobs[j]
  {
    if e.Store? && Enabled(s, e) && s.workers[e.worker].job == j {
      assert s.jobs[j].status.Failed? ==> !Storing(s.workers[e.worker], j, s.jobs[j]);
    }
  }

  lemma StepKeepsSettled(s: Sys, e: Event, maxAttempts: int, j: nat)
    requires Settled(s, j)
    ensures Settled(Next(s, e, maxAttempts), j)
  {
    StepKeepsTerminal(s, e, maxAttempts, j);
    var after := Next(s, e, maxAttempts);
    if s.jobs[j].status.Failed? {
      forall w | 0 <= w < |after.workers| ensures !Storing(after.workers[w], j, s.jobs[j]) {
        assert w < |s.workers| ==> !Storing(s.workers[w], j, s.jobs[j]);
      }
    }
  }

  lemma {:induction false} SettledStands(es: seq<Event>, m: nat, n: nat, maxAttempts: int, j: nat)
    requires m <= n <= |es| && Settled(After(es, m, maxAttempts), j)
    ensures Settled(After(es, n, maxAttempts), j)
    ensures After(es, n, maxAttempts).jobs[j] == After(es, m, maxAttempts).jobs[j]
    decreases n
  {
    if m < n {
      SettledStands(es, m, n - 1, maxAttempts, j);
      StepKeepsTerminal(After(es, n - 1, maxAttempts), es[n - 1], maxAttempts, j);
      StepKeepsSettled(After(es, n - 1, maxAttempts), es[n - 1], maxAttempts, j);
    }
  }

  lemma {:induction false} AfterPrefix(es: seq<Event>, more: seq<Event>, n: nat, maxAttempts: int)
    requires n <= |es|
    ensures After(es + more, n, maxAttempts) == After(es, n, maxAttempts)
    decreases n
  {
    if n > 0 {
      AfterPrefix(es, more, n - 1, maxAttempts);
      assert (es + more)[n - 1] == es[n - 1];
    }
  }

  lemma AfterOneMore(es: seq<Event>, e: Event, maxAttempts: int)
    ensures After(es + [e], |es| + 1, maxAttempts) == Next(After(es, |es|, maxAttempts), e, maxAttempts)
  {
    AfterPrefix(es, [e], |es|, maxAttempts);
    assert (es + [e])[|es|] == e;
  }

  /** The status of job `j` is at the end of `more` what it was at the end of `es`. */
  ghost predicate Stood(es: seq<Event>, more: seq<Event>, maxAttempts: int, j: nat) {
    var was, now := After(es, |es|, maxAttempts), After(es + more, |es + more|, maxAttempts);
    j < |was.jobs| && j < |now.jobs| && now.jobs[j].status == was.jobs[j].status
  }

  lemma StoreRevives(s: Sys, w: nat, maxAttempts: int, j: nat)
    requires j < |s.jobs| && s.jobs[j].status.Failed? && s.jobs[j].runs == 0
    requires w < |s.workers| && s.workers[w] == Executed(j)
    ensures |Next(s, Store(w, true), maxAttempts).jobs| == |s.jobs|
    ensures !Next(s, Store(w, true), maxAttempts).jobs[j].status.Failed?
  {
  }

  /** What the worker has still to do before its result is stored, and what comes of it. */
  lemma Revives(es: seq<Event>, w: nat, maxAttempts: int, j: nat) returns (more: seq<Event>)
    requires var s := After(es, |es|, maxAttempts);
             && j < |s.jobs| && s.jobs[j].status.Failed? && s.jobs[j].runs == 0
             && w < |s.workers| && Storing(s.workers[w], j, s.jobs[j])
    ensures !Stood(es, more, maxAttempts, j)
    decreases match After(es, |es|, maxAttempts).workers[w] case Claimed(_) => 2 case Loaded(_, _) => 1 case _ => 0
  {
    var s := After(es, |es|, maxAttempts);
    var e := match s.workers[w] case Claimed(_) => Load(w, true) case Loaded(_, _) => Execute(w, true) case _ => Store(w, true);
    AfterOneMore(es, e, maxAttempts);
    if s.workers[w].Executed? {
      StoreRevives(s, w, maxAttempts, j);
      more := [e];
    } else {
      more := Revives(es + [e], w, maxAttempts, j);
      assert es + [e] + more == es + ([e] + more);
      more := [e] + more;
    }
  }

  /** In any run at all, with orphans put back at any time: a job that has ended keeps its status in every
      continuation if and only if it has not failed under a worker on its way to store a result. */
  lemma TerminalStandsExactly(es: seq<Event>, maxAttempts: int, j: nat)
    requires j < |After(es, |es|, maxAttempts).jobs| && Terminal(After(es, |es|, maxAttempts).jobs[j].status)
    ensures (forall more :: Stood(es, more, maxAttempts, j)) <==> !Revivable(After(es, |es|, maxAttempts), j)
  {
    var s := After(es, |es|, maxAttempts);
    EveryRunConsistent(es, |es|, maxAttempts);
    assert Coherent(s.jobs[j]);
    if Revivable(s, j) {
      var w :| 0 <= w < |s.workers| && Storing(s.workers[w], j, s.jobs[j]);
      var more := Revives(es, w, maxAttempts, j);
    } else {
      forall more ensures Stood(es, more, maxAttempts, j) {
        AfterPrefix(es, more, |es|, maxAttempts);
        SettledStands(es + more, |es|, |es + more|, maxAttempts, j);
      }
    }
  }

  /** So where orphans are put back only while no worker has a job in hand, the status always stands. */
  lemma TerminalStands(es: seq<Event>, m: nat, n: nat, maxAttempts: int, j: nat)
    requires m <= n <= |es| && OrphansOnly(es, maxAttempts)
    requires j < |After(es, m, maxAttempts).jobs| && Terminal(After(es, m, maxAttempts).jobs[j].status)
    ensures j < |After(es, n, maxAttempts).jobs|
    ensures After(es, n, maxAttempts).jobs[j].status == After(es, m, maxAttempts).jobs[j].status
  {
    EveryRunSound(es, m, maxAttempts);
    EveryRunConsistent(es, m, maxAttempts);
    var s := After(es, m, maxAttempts);
    assert Coherent(s.jobs[j]);
    forall w | 0 <= w < |s.workers| ensures !Storing(s.workers[w], j, s.jobs[j]) {
      assert Busy(s.workers[w]) ==> s.jobs[s.workers[w].job].status.Running?;
    }
    SettledStands(es, m, n, maxAttempts, j);
  }

  const EARLY := [Submit("k", true, 0), Start, Claim(0, 0), Load(0, true), Requeue, Execute(0, true), Store(0, true)]

  lemma EarlyLoaded()
    ensures After(EARLY, 4, 1) == Sys([Job("k", Running, 1, false, 0, 0)], [Loaded(0, false)])
  {
    var job := Job("k", Queued, 0, false, 0, 0);
    assert After(EARLY, 1, 1) == Sys([job], []);
    assert After(EARLY, 2, 1) == Sys([job], [Idle]);
    assert Oldest([job], 0);
    assert After(EARLY, 3, 1) == Sys([job.(status := Running, attempts := 1)], [Claimed(0)]);
  }

  /** The proviso is needed: requeueing while a worker is alive fails its job, and the worker then
      completes it all the same. */
  lemma RequeueUnderAWorker()
    ensures After(EARLY, 5, 1).jobs == [Job("k", Failed, 1, false, 0, 0)]
    ensures After(EARLY, 7, 1).jobs == [Job("k", Completed, 1, false, 0, 1)]
  {
    EarlyLoaded();
    var job := Job("k", Failed, 1, false, 0, 0);
    assert After(EARLY, 5, 1) == Sys([job], [Loaded(0, false)]);
    assert After(EARLY, 6, 1) == Sys([job], [Executed(0)]);
  }

  // ----- claims -----

  /** This step puts job `j` into a worker's hands. */
  predicate Takes(s: Sys, e: Event, j: nat) {
    e.Claim? && e.job == j && Enabled(s, e) && !s.jobs[j].cancelRequested
  }

  function Claims(es: seq<Event>, n: nat, maxAttempts: int, j: nat): nat
    requires n <= |es|
  {
    if n == 0 then 0
    else Claims(es, n - 1, maxAttempts, j) + if Takes(After(es, n - 1, maxAttempts), es[n - 1], j) then 1 else 0
  }

  /** The attempts column counts the claims. */
  lemma {:induction false} AttemptsAreClaims(es: seq<Event>, n: nat, maxAttempts: int, j: nat)
    requires n <= |es|
    ensures var jobs := After(es, n, maxAttempts).jobs;
            Claims(es, n, maxAttempts, j) == if j < |jobs| then jobs[j].attempts else 0
    decreases n
  {
    if n > 0 {
      AttemptsAreClaims(es, n - 1, maxAttempts, j);
    }
  }

  /** No job is claimed more than max(1, max attempts) times, in any run. */
  lemma ClaimsAreBounded(es: seq<Event>, maxAttempts: int, j: nat)
    requires OrphansOnly(es, maxAttempts)
    ensures Claims(es, |es|, maxAttempts, j) <= Limit(maxAttempts)
  {
    AttemptsAreClaims(es, |es|, maxAttempts, j);
    EveryRunSound(es, |es|, maxAttempts);
  }

  // ----- cancellation and submission -----

  /** A cancellation is kept: once asked for, a job can end only as cancelled or failed. */
  lemma {:induction false} CancelledNeverCompletes(es: seq<Event>, m: nat, n: nat, maxAttempts: int, j: nat)
    requires m <= n <= |es|
    requires j < |After(es, m, maxAttempts).jobs| && After(es, m, maxAttempts).jobs[j].cancelRequested
    requires !After(es, m, maxAttempts).jobs[j].status.Completed?
    ensures j < |After(es, n, maxAttempts).jobs|
    ensures After(es, n, maxAttempts).jobs[j].cancelRequested && !After(es, n, maxAttempts).jobs[j].status.Completed?
    decreases n
  {
    if m < n {
      CancelledNeverCompletes(es, m, n - 1, maxAttempts, j);
    }
  }

  ghost predicate KeysDistinct(jobs: seq<Job>) {
    forall i, j :: 0 <= i < j < |jobs| ==> jobs[i].key != jobs[j].key
  }

  /** However often a request is repeated, its key has one job, and keeps it. */
  lemma {:induction false} OneJobPerKey(es: seq<Event>, n: nat, maxAttempts: int)
    requires n <= |es|
    ensures KeysDistinct(After(es, n, maxAttempts).jobs)
    decreases n
  {
    if n > 0 {
      OneJobPerKey(es, n - 1, maxAttempts);
      KeysKept(After(es, n - 1, maxAttempts), es[n - 1], maxAttempts);
    }
  }

  lemma KeysKept(s: Sys, e: Event, maxAttempts: int)
    requires KeysDistinct(s.jobs)
    ensures KeysDistinct(Next(s, e, maxAttempts).jobs) && |s.jobs| <= |Next(s, e, maxAttempts).jobs|
    ensures forall j :: 0 <= j < |s.jobs| ==> Next(s, e, maxAttempts).jobs[j].key == s.jobs[j].key
  {
  }

  // ----- the code's own form -----

  lemma StepSound(s: Sys, e: Event, maxAttempts: int)
    requires SoundJobs(s.jobs, maxAttempts) && SoundWorkers(s) && (e.Requeue? ==> NoneBusy(s))
    ensures SoundJobs(Next(s, e, maxAttempts).jobs, maxAttempts) && SoundWorkers(Next(s, e, maxAttempts))
  {
    StepSoundJobs(s, e, maxAttempts);
    StepSoundWorkers(s, e, maxAttempts);
  }

  /** The job rows and the workers, changed in place one transaction at a time. */
  class Deployment {
    var jobs: seq<Job>
    var workers: seq<Worker>
    const maxAttempts: int

    function State(): Sys
      reads this
    {
      Sys(jobs, workers)
    }

    ghost predicate Sound()
      reads this
    {
      SoundJobs(jobs, maxAttempts) && SoundWorkers(State())
    }

    constructor (maxAttempts: int)
      ensures State() == EMPTY && this.maxAttempts == maxAttempts && Sound()
    {
      this.maxAttempts, jobs, workers := maxAttempts, [], [];
    }

    /** `submit`: the job of this key, and whether it is new. None when the request is refused. */
    method SubmitJob(key: string, valid: bool, at: int) returns (job: Option<nat>, created: bool)
      modifies this
      ensures State() == Next(old(State()), Submit(key, valid, at), maxAttempts)
      ensures job.Some? <==> HasKey(old(jobs), key) || valid
      ensures job.Some? ==> job.value < |jobs| && jobs[job.value].key == key
      ensures created <==> valid && forall i :: 0 <= i < |old(jobs)| ==> old(jobs)[i].key != key
      ensures jobs == (if created then old(jobs) + [Job(key, Queued, 0, false, at, 0)] else old(jobs)) && workers == old(workers)
    {
      for j := 0 to |jobs|
        invariant forall i :: 0 <= i < j ==> jobs[i].key != key
      {
        if jobs[j].key == key {
          return Some(j), false;
        }
      }
      if !valid {
        return None, false;
      }
      jobs := jobs + [Job(key, Queued, 0, false, at, 0)];
      return Some(|jobs| - 1), true;
    }

    /** `cancel`; false when the job has already ended. */
    method CancelJob(j: nat) returns (accepted: bool)
      requires j < |jobs|
      modifies this
      ensures State() == Next(old(State()), Cancel(j), maxAttempts) && workers == old(workers)
      ensures accepted <==> old(jobs)[j].status in {Queued, Running}
      ensures jobs == match old(jobs)[j].status
                      case Queued => old(jobs)[j := old(jobs)[j].(cancelRequested := true, status := Cancelled)]
                      case Running => old(jobs)[j := old(jobs)[j].(cancelRequested := true)]
                      case _ => old(jobs)
    {
      if Terminal(jobs[j].status) {
        return false;
      }
      jobs := jobs[j := jobs[j].(cancelRequested := true)];
      if jobs[j].status.Queued? {
        jobs := jobs[j := jobs[j].(status := Cancelled)];
      }
      return true;
    }

    /** The query of `claim_next`. */
    method OldestQueued() returns (oldest: Option<nat>)
      ensures oldest.None? ==> forall k :: 0 <= k < |jobs| ==> !jobs[k].status.Queued?
      ensures oldest.Some? ==> Oldest(jobs, oldest.value)
    {
      oldest := None;
      for j := 0 to |jobs|
        invariant oldest.None? ==> forall k :: 0 <= k < j ==> !jobs[k].status.Queued?
        invariant oldest.Some? ==>
                    && oldest.value < j && jobs[oldest.value].status.Queued?
                    && forall k :: 0 <= k < j && jobs[k].status.Queued? ==> jobs[oldest.value].queuedAt <= jobs[k].queuedAt
      {
        if jobs[j].status.Queued? && (oldest.None? || jobs[j].queuedAt < jobs[oldest.value].queuedAt) {
          oldest := Some(j);
        }
      }
    }

    /** `claim_next`: the oldest queued job, now running; None also when it turned out cancelled. */
    method ClaimNext(w: nat) returns (job: Option<nat>, ghost found: Option<nat>)
      requires w < |workers| && workers[w].Idle?
      modifies this
      ensures found.None? ==> State() == old(State()) && job.None? && forall k :: 0 <= k < |jobs| ==> !jobs[k].status.Queued?
      ensures found.Some? ==>
                && Oldest(old(jobs), found.value) && State() == Next(old(State()), Claim(w, found.value), maxAttempts)
                && job == (if old(jobs)[found.value].cancelRequested then None else found)
      ensures found.Some? ==>
                var j := found.value;
                var was := old(jobs)[j];
                && was.status == Queued && (forall k :: 0 <= k < |old(jobs)| && old(jobs)[k].status == Queued ==> was.queuedAt <= old(jobs)[k].queuedAt)
                && (if was.cancelRequested then jobs == old(jobs)[j := was.(status := Cancelled)] && workers == old(workers)
                    else jobs == old(jobs)[j := was.(status := Running, attempts := was.attempts + 1)]
                         && workers == old(workers)[w := Claimed(j)])
    {
      job := OldestQueued();
      found := job;
      if job.None? {
        return;
      }
      var j := job.value;
      if jobs[j].cancelRequested {
        jobs := jobs[j := jobs[j].(status := Cancelled)];
        workers := workers[w := Idle];
        return None, found;
      }
      jobs := jobs[j := jobs[j].(status := Running, attempts := jobs[j].attempts + 1)];
      workers := workers[w := Claimed(j)];
    }

    method LoadJob(w: nat, j: nat, ok: bool) returns (cancelled: bool)
      requires w < |workers| && workers[w] == Claimed(j) && j < |jobs|
      modifies this
      ensures State() == Next(old(State()), Load(w, ok), maxAttempts) && cancelled == jobs[j].cancelRequested
      ensures jobs == old(jobs) && workers == old(workers)[w := if ok then Loaded(j, jobs[j].cancelRequested) else Failing(j)]
    {
      cancelled := jobs[j].cancelRequested;
      workers := workers[w := if ok then Loaded(j, cancelled) else Failing(j)];
    }

    method EndCancelled(w: nat, j: nat, ok: bool)
      requires w < |workers| && workers[w] == Loaded(j, true) && j < |jobs|
      modifies this
      ensures State() == Next(old(State()), StopCancelled(w, ok), maxAttempts)
      ensures jobs == if ok && old(jobs)[j].status in {Queued, Running} then old(jobs)[j := old(jobs)[j].(status := Cancelled)] else old(jobs)
      ensures workers == old(workers)[w := if ok then Idle else Failing(j)]
    {
      if !ok {
        workers := workers[w := Failing(j)];
        return;
      }
      if !Terminal(jobs[j].status) {
        jobs := jobs[j := jobs[j].(status := Cancelled)];
      }
      workers := workers[w := Idle];
    }

    method RunEngine(w: nat, j: nat, ok: bool)
      requires w < |workers| && workers[w] == Loaded(j, false)
      modifies this
      ensures State() == Next(old(State()), Execute(w, ok), maxAttempts)
      ensures jobs == old(jobs) && workers == old(workers)[w := if ok then Executed(j) else Failing(j)]
    {
      workers := workers[w := if ok then Executed(j) else Failing(j)];
    }

    /** The result is stored, or dropped if the job was cancelled meanwhile; false when storing raised. */
    method StoreResult(w: nat, j: nat, ok: bool) returns (done: bool)
      requires w < |workers| && workers[w] == Executed(j) && j < |jobs|
      modifies this
      ensures State() == Next(old(State()), Store(w, ok), maxAttempts)
      ensures var was := old(jobs)[j];
              if was.cancelRequested then done && jobs == old(jobs)[j := was.(status := Cancelled)]
              else if ok && was.runs == 0 then done && jobs == old(jobs)[j := was.(status := Completed, runs := 1)]
              else !done && jobs == old(jobs)
      ensures workers == old(workers)[w := if done then Idle else Failing(j)]
    {
      var job := jobs[j];
      if job.cancelRequested {
        jobs := jobs[j := job.(status := Cancelled)];
      } else {
        if !ok || job.runs > 0 {
          workers := workers[w := Failing(j)];
          return false;
        }
        jobs := jobs[j := job.(runs := job.runs + 1, status := Completed)];
      }
      workers := workers[w := Idle];
      return true;
    }

    /** The exception handler. */
    method HandleFailure(w: nat, j: nat, ok: bool)
      requires w < |workers| && workers[w] == Failing(j) && j < |jobs|
      modifies this
      ensures State() == Next(old(State()), RecordFailure(w, ok), maxAttempts)
      ensures jobs == if ok && old(jobs)[j].status in {Queued, Running} then old(jobs)[j := old(jobs)[j].(status := Failed)] else old(jobs)
      ensures workers == old(workers)[w := Idle]
    {
      if ok && !Terminal(jobs[j].status) {
        jobs := jobs[j := jobs[j].(status := Failed)];
      }
      workers := workers[w := Idle];
    }

    /** `requeue_orphans`; how many went back to the queue. */
    method RequeueOrphans() returns (requeued: nat)
      modifies this
      ensures State() == Next(old(State()), Requeue, maxAttempts)
      ensures requeued == BackCount(old(jobs), maxAttempts, |old(jobs)|)
      ensures |jobs| == |old(jobs)| && workers == old(workers)
      ensures forall j :: 0 <= j < |jobs| ==>
                var was := old(jobs)[j];
                jobs[j] == if was.status != Running then was
                           else if was.attempts < maxAttempts then was.(status := Queued) else was.(status := Failed)
      ensures requeued == |set j | 0 <= j < |old(jobs)| && old(jobs)[j].status == Running && old(jobs)[j].attempts < maxAttempts|
    {
      BackCountExactly(jobs, maxAttempts, |jobs|);
      requeued := 0;
      for j := 0 to |jobs|
        invariant |jobs| == |old(jobs)| && workers == old(workers)
        invariant forall k :: 0 <= k < |jobs| ==> jobs[k] == if k < j then RequeuedJob(old(jobs)[k], maxAttempts) else old(jobs)[k]
        invariant requeued == BackCount(old(jobs), maxAttempts, j)
      {
        var job := jobs[j];
        if job.status.Running? {
          if job.attempts >= maxAttempts {
            jobs := jobs[j := job.(status := Failed)];
          } else {
            jobs := jobs[j := job.(status := Queued)];
            requeued := requeued + 1;
          }
        }
      }
    }

    /** What users and other workers do between two transactions of worker `w`: anything, except that
        orphans are not put back. */
    method Others(w: nat)
      requires Sound() && w < |workers|
      modifies this
      ensures Sound() && w < |workers| && workers[w] == old(workers)[w]
    {
      var budget: nat := *;
      while budget > 0
        invariant Sound() && w < |workers| && workers[w] == old(workers)[w]
      {
        var e: Event := *;
        if Foreign(e, w) {
          StepSound(State(), e, maxAttempts);
          ForeignKeeps(State(), e, w, maxAttempts);
          var s := Next(State(), e, maxAttempts);
          jobs, workers := s.jobs, s.workers;
        }
        budget := budget - 1;
      }
    }

    ghost predicate At(w: nat, at: Worker)
      reads this
    {
      Sound() && w < |workers| && workers[w] == at
    }

    ghost predicate Ended(j: nat)
      reads this
    {
      j < |jobs| && Terminal(jobs[j].status)
    }

    // Each transaction of a worker: the rest of the deployment acts first, and it may raise.

    method TryClaim(w: nat) returns (job: Option<nat>)
      requires At(w, Idle)
      modifies this
      ensures At(w, if job.Some? then Claimed(job.value) else Idle)
    {
      Others(w);
      ghost var s := State();
      var taken, found := ClaimNext(w);
      if found.Some? {
        StepSound(s, Claim(w, found.value), maxAttempts);
      }
      return taken;
    }

    method TryLoad(w: nat, j: nat) returns (ok: bool, cancelled: bool)
      requires At(w, Claimed(j))
      modifies this
      ensures At(w, if ok then Loaded(j, cancelled) else Failing(j))
    {
      Others(w);
      ok := *;
      StepSound(State(), Load(w, ok), maxAttempts);
      cancelled := LoadJob(w, j, ok);
    }

    method TryEndCancelled(w: nat, j: nat) returns (ok: bool)
      requires At(w, Loaded(j, true))
      modifies this
      ensures At(w, if ok then Idle else Failing(j)) && (ok ==> Ended(j))
    {
      Others(w);
      ok := *;
      StepSound(State(), StopCancelled(w, ok), maxAttempts);
      EndCancelled(w, j, ok);
    }

    method TryRun(w: nat, j: nat) returns (ok: bool)
      requires At(w, Loaded(j, false))
      modifies this
      ensures At(w, if ok then Executed(j) else Failing(j))
    {
      Others(w);
      ok := *;
      StepSound(State(), Execute(w, ok), maxAttempts);
      RunEngine(w, j, ok);
    }

    method TryStore(w: nat, j: nat) returns (done: bool)
      requires At(w, Executed(j))
      modifies this
      ensures At(w, if done then Idle else Failing(j)) && (done ==> Ended(j))
    {
      Others(w);
      var ok: bool := *;
      StepSound(State(), Store(w, ok), maxAttempts);
      done := StoreResult(w, j, ok);
    }

    method TryHandle(w: nat, j: nat) returns (ok: bool)
      requires At(w, Failing(j))
      modifies this
      ensures At(w, Idle) && (ok ==> Ended(j))
    {
      Others(w);
      ok := *;
      StepSound(State(), RecordFailure(w, ok), maxAttempts);
      HandleFailure(w, j, ok);
    }

    /** `process_one`. The worker always ends up free, and a job it claimed has ended, one way or the
        other, unless the handler itself raised. */
    method ProcessOne(w: nat) returns (claimed: bool, j: nat, handlerRaised: bool)
      requires At(w, Idle)
      modifies this
      ensures At(w, Idle) && (claimed ==> handlerRaised || Ended(j))
    {
      handlerRaised, j := false, 0;
      var taken := TryClaim(w);
      if taken.None? {
        return false, 0, false;
      }
      claimed, j := true, taken.value;
      var done := false;
      var ok, cancelled := TryLoad(w, j);
      if ok {
        if cancelled {
          done := TryEndCancelled(w, j);
        } else {
          ok := TryRun(w, j);
          if ok {
            done := TryStore(w, j);
          }
        }
      }
      if !done {
        var handled := TryHandle(w, j);
        handlerRaised := !handled;
      }
    }
  }

  /** Not a step of worker `w`, and not the requeueing of orphans. */
  predicate Foreign(e: Event, w: nat) {
    match e
    case Submit(_, _, _) => true
    case Cancel(_) => true
    case Start => true
    case Requeue => false
    case _ => e.worker != w
  }

  lemma ForeignKeeps(s: Sys, e: Event, w: nat, maxAttempts: int)
    requires Foreign(e, w) && w < |s.workers|
    ensures w < |Next(s, e, maxAttempts).workers| && Next(s, e, maxAttempts).workers[w] == s.workers[w]
  {
  }
}
