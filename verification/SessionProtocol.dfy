/**
 The trading-session protocol: what users (trading/sessions.py) and runner threads
 (trading/runner.py) do to one row of `trading_sessions`.

 Every database transaction is one atomic step, and any number of users and runner threads
 interleave. `Next` is one step of the whole system, `Run` a whole interleaving. The code's own
 imperative form is in `SessionRunner`, proved to take exactly these steps.
 */
module SessionProtocol {

  datatype Status = Created | Starting | Running | Paused | Stopping | Stopped | Failed | Halted

  /** What a runner's last write may set. */
  type Outcome = s: Status | s in {Paused, Stopped, Failed, Halted} witness Stopped

  /** The two columns the protocol reads and writes. */
  datatype Row = Row(status: Status, killed: bool)

  datatype UserOp = Start | Pause | Resume | Stop | Kill

  /** The states each user action is allowed from; the kill switch is allowed from every state. */
  predicate Allowed(row: Row, op: UserOp) {
    match op
    case Start => row.status == Created
    case Pause => row.status == Running
    case Resume => row.status == Paused && !row.killed
    case Stop => row.status in {Created, Starting, Running, Paused}
    case Kill => true
  }

  /** The row after a user action commits; a refused action leaves the row alone. */
  function UserStep(row: Row, op: UserOp): Row {
    if !Allowed(row, op) then row
    else match op
      case Start => row.(status := Starting)
      case Pause => row.(status := Paused)
      case Resume => row.(status := Starting)
      case Stop => row.(status := Stopping)
      case Kill => Row(Halted, true)
  }

  /** Where one call of `run_session` is. `total` is the number of records it will replay. */
  datatype Thread =
    | Launched(total: nat)                // loading its inputs; has not claimed the session
    | Looping(next: nat, total: nat)      // at the top of the record loop
    | Polled(next: nat, total: nat)       // its poll read RUNNING: it will advance one record
    | Finishing(terminal: Outcome)        // out of the loop, its last transaction not committed
    | Raised(claimed: bool)               // an exception is on its way to the handler
    | Ended
  {
    /** Between its claim and its last write. */
    predicate Active() {
      Looping? || Polled? || Finishing? || (Raised? && claimed)
    }
  }

  datatype Act =
    | Claim                               // the conditional UPDATE ... WHERE status = STARTING
    | Poll                                // _should_continue, or the end of the data
    | Advance(strategyFailed: bool)       // one record through the engine
    | Finish                              // the final transaction
    | Raise                               // any transaction or engine call raises
    | Handle                              // SessionRunner's handler writes FAILED
    | Unhandled                           // a synchronous caller: nobody writes anything

  datatype Event = User(op: UserOp) | Spawn(id: nat, records: nat) | Step(id: nat, act: Act)

  /** The whole system. `starts`, `resumes` and `claims` count the steps that took effect. */
  datatype Sys = Sys(row: Row, threads: map<nat, Thread>, starts: nat, resumes: nat, claims: nat)

  const INITIAL := Sys(Row(Created, false), map[], 0, 0, 0)

  /** How the record loop leaves when its poll reads something other than RUNNING. */
  function TerminalFor(status: Status): Outcome {
    if status == Paused then Paused else if status == Halted then Halted else Stopped
  }

  /** The final write: everything but HALTED is overwritten. */
  function FinishStatus(status: Status, terminal: Outcome): Status {
    if status != Halted then terminal else status
  }

  /** One step of one thread: the thread and the status after it. */
  function ThreadStep(status: Status, t: Thread, act: Act): (Thread, Status) {
    match (t, act)
    case (Launched(n), Claim) => if status == Starting then (Looping(0, n), Running) else (Ended, status)
    case (Looping(i, n), Poll) =>
      if i >= n then (Finishing(Stopped), status)
      else if status == Running then (Polled(i, n), status)
      else (Finishing(TerminalFor(status)), status)
    case (Polled(i, n), Advance(failed)) => (if failed then Finishing(Failed) else Looping(i + 1, n), status)
    case (Finishing(terminal), Finish) => (Ended, FinishStatus(status, terminal))
    case (Launched(_), Raise) => (Raised(false), status)
    case (Looping(_, _), Raise) => (Raised(true), status)
    case (Polled(_, _), Raise) => (Raised(true), status)
    case (Finishing(_), Raise) => (Raised(true), status)
    case (Raised(_), Handle) => (Ended, Failed)
    case (Raised(_), Unhandled) => (Ended, status)
    case _ => (t, status)
  }

  /** One step of the system. A step that does not apply changes nothing. */
  function Next(s: Sys, e: Event): Sys {
    match e
    case User(op) =>
      s.(row := UserStep(s.row, op),
         starts := s.starts + (if op == Start && Allowed(s.row, op) then 1 else 0),
         resumes := s.resumes + (if op == Resume && Allowed(s.row, op) then 1 else 0))
    case Spawn(r, n) =>
      if r in s.threads then s else s.(threads := s.threads[r := Launched(n)])
    case Step(r, act) =>
      if r !in s.threads then s
      else
        var (t, status) := ThreadStep(s.row.status, s.threads[r], act);
        s.(row := s.row.(status := status),
           threads := s.threads[r := t],
           claims := s.claims + (if s.threads[r].Launched? && t.Looping? then 1 else 0))
  }

  /** A whole interleaving. */
  function Run(s: Sys, es: seq<Event>): Sys
    decreases es
  {
    if es == [] then s else Run(Next(s, es[0]), es[1..])
  }

  lemma {:induction false} RunAppend(s: Sys, es: seq<Event>, fs: seq<Event>)
    ensures Run(s, es + fs) == Run(Run(s, es), fs)
    decreases es
  {
    if es == [] {
      assert es + fs == fs;
    } else {
      assert (es + fs)[0] == es[0] && (es + fs)[1..] == es[1..] + fs;
      RunAppend(Next(s, es[0]), es[1..], fs);
    }
  }

  // ----- claims -----

  function Pending(s: Sys): nat {
    if s.row.status == Starting then 1 else 0
  }

  ghost predicate Accounted(s: Sys) {
    && s.starts <= 1
    && (s.row.status == Created ==> s.starts == 0)
    && s.claims + Pending(s) <= s.starts + s.resumes
  }

  lemma {:induction false} AccountedAlways(s: Sys, es: seq<Event>)
    requires Accounted(s)
    ensures Accounted(Run(s, es))
    decreases es
  {
    if es != [] {
      AccountedAlways(Next(s, es[0]), es[1..]);
    }
  }

  /** In every interleaving `start` succeeds at most once, and no claim is made that a successful
      start or resume did not pay for. */
  lemma ClaimsArePaidFor(es: seq<Event>)
    ensures var s := Run(INITIAL, es); s.starts <= 1 && s.claims <= s.starts + s.resumes
  {
    AccountedAlways(INITIAL, es);
  }

  // ----- exclusion -----

  /** The threads between their claim and their last write. */
  ghost function ActiveThreads(s: Sys): set<nat> {
    set r | r in s.threads && s.threads[r].Active()
  }

  /** At most one runner owns the session or may come to own it. */
  ghost predicate Exclusive(s: Sys) {
    |ActiveThreads(s)| + Pending(s) <= 1
  }

  ghost predicate AlwaysExclusive(s: Sys, es: seq<Event>)
    decreases es
  {
    Exclusive(s) && (es != [] ==> AlwaysExclusive(Next(s, es[0]), es[1..]))
  }

  /** Every resume that takes effect does so when no runner is between claim and finish. */
  ghost predicate ResumesWhenIdle(s: Sys, es: seq<Event>)
    decreases es
  {
    es != [] ==>
      && (es[0] == User(Resume) && Allowed(s.row, Resume) ==> ActiveThreads(s) == {})
      && ResumesWhenIdle(Next(s, es[0]), es[1..])
  }

  ghost predicate Owned(s: Sys) {
    Exclusive(s) && (s.row.status == Created ==> ActiveThreads(s) == {})
  }

  /** A thread step never adds an active thread, except a claim, which uses up STARTING. */
  lemma StepKeepsOwnership(s: Sys, r: nat, act: Act)
    requires Owned(s) && r in s.threads
    ensures Owned(Next(s, Step(r, act)))
  {
    var s' := Next(s, Step(r, act));
    var before, after := ActiveThreads(s), ActiveThreads(s');
    assert after <= before + {r};
    if s'.threads[r].Active() && !s.threads[r].Active() {
      assert s.row.status == Starting && |before| == 0;
      assert after == {r};
    } else {
      assert after <= before;
      SubsetSize(after, before);
    }
  }

  lemma SubsetSize(a: set<nat>, b: set<nat>)
    requires a <= b
    ensures |a| <= |b|
  {
    assert b == a + (b - a);
  }

  lemma NextKeepsOwnership(s: Sys, e: Event)
    requires Owned(s)
    requires e == User(Resume) && Allowed(s.row, Resume) ==> ActiveThreads(s) == {}
    ensures Owned(Next(s, e))
  {
    match e
    case User(op) => assert ActiveThreads(Next(s, e)) == ActiveThreads(s);
    case Spawn(r, n) => assert ActiveThreads(Next(s, e)) == ActiveThreads(s);
    case Step(r, act) => if r in s.threads { StepKeepsOwnership(s, r, act); }
  }

  lemma {:induction false} ExclusionFrom(s: Sys, es: seq<Event>)
    requires Owned(s)
    ensures AlwaysExclusive(s, es) <==> ResumesWhenIdle(s, es)
    decreases es
  {
    if es != [] {
      var s' := Next(s, es[0]);
      if es[0] == User(Resume) && Allowed(s.row, Resume) && ActiveThreads(s) != {} {
        assert ActiveThreads(s') == ActiveThreads(s);
        assert !Exclusive(s');
      } else {
        NextKeepsOwnership(s, es[0]);
        ExclusionFrom(s', es[1..]);
      }
    }
  }

  /** The exclusion the conditional claim is there for, and exactly what it rests on: in any
      interleaving at most one runner ever owns (or may come to own) the session if and only if no
      resume takes effect while the paused runner has not finished. */
  lemma ExclusionExactly(es: seq<Event>)
    ensures AlwaysExclusive(INITIAL, es) <==> ResumesWhenIdle(INITIAL, es)
  {
    assert ActiveThreads(INITIAL) == {};
    ExclusionFrom(INITIAL, es);
  }

  const EARLY_RESUME := [User(Start), Spawn(0, 9), Step(0, Claim)] + [Step(0, Poll), User(Pause), User(Resume)]

  lemma ResumedEarly()
    ensures Run(INITIAL, EARLY_RESUME) == Sys(Row(Starting, false), map[0 := Polled(0, 9)], 1, 1, 1)
  {
    RunThree(INITIAL, User(Start), Spawn(0, 9), Step(0, Claim));
    var s := Run(INITIAL, [User(Start), Spawn(0, 9), Step(0, Claim)]);
    assert s == Sys(Row(Running, false), map[0 := Looping(0, 9)], 1, 0, 1);
    RunThree(s, Step(0, Poll), User(Pause), User(Resume));
    RunAppend(INITIAL, [User(Start), Spawn(0, 9), Step(0, Claim)], [Step(0, Poll), User(Pause), User(Resume)]);
  }

  /** The failing half, concretely: a resume before the paused runner's last write lets a second
      runner claim, and both are then inside the record loop at once. The second is of another process
      or called directly: within one process `SessionLauncher.OneRunnerAlive` holds. */
  lemma TwoRunnersAfterEarlyResume()
    ensures var s := Run(INITIAL, EARLY_RESUME + [Spawn(1, 9), Step(1, Claim), Step(1, Poll)]);
            s.threads == map[0 := Polled(0, 9), 1 := Polled(0, 9)] && !Exclusive(s)
  {
    ResumedEarly();
    var was := Sys(Row(Starting, false), map[0 := Polled(0, 9)], 1, 1, 1);
    RunThree(was, Spawn(1, 9), Step(1, Claim), Step(1, Poll));
    RunAppend(INITIAL, EARLY_RESUME, [Spawn(1, 9), Step(1, Claim), Step(1, Poll)]);
    TwoIsNotExclusive(Run(was, [Spawn(1, 9), Step(1, Claim), Step(1, Poll)]));
  }

  lemma TwoIsNotExclusive(s: Sys)
    requires s.threads == map[0 := Polled(0, 9), 1 := Polled(0, 9)]
    ensures !Exclusive(s)
  {
    assert ActiveThreads(s) == {0, 1};
  }

  lemma RunThree(s: Sys, a: Event, b: Event, c: Event)
    ensures Run(s, [a, b, c]) == Next(Next(Next(s, a), b), c)
  {
    assert [a, b, c][1..] == [b, c] && [b, c][1..] == [c] && [c][1..] == [];
    assert Run(s, [a, b, c]) == Run(Next(s, a), [b, c]);
    assert Run(Next(s, a), [b, c]) == Run(Next(Next(s, a), b), [c]);
  }

  // ----- the kill switch -----

  ghost predicate Dead(s: Sys) {
    s.row.killed && s.row.status !in {Created, Starting, Running}
  }

  lemma {:induction false} DeadForever(s: Sys, es: seq<Event>)
    requires Dead(s)
    ensures Dead(Run(s, es))
    ensures Run(s, es).starts == s.starts && Run(s, es).resumes == s.resumes && Run(s, es).claims == s.claims
    decreases es
  {
    if es != [] {
      DeadForever(Next(s, es[0]), es[1..]);
    }
  }

  /** Once the kill switch commits, nothing any user, runner, pending final write or exception
      handler does ever puts the session in STARTING or RUNNING again: it is never started, resumed
      or claimed, whatever state it was killed in. */
  lemma KillIsFinal(s: Sys, es: seq<Event>)
    ensures var k := Next(s, User(Kill)); var s' := Run(k, es);
            && s'.row.killed && s'.row.status !in {Created, Starting, Running}
            && s'.starts == s.starts && s'.resumes == s.resumes && s'.claims == s.claims
  {
    DeadForever(Next(s, User(Kill)), es);
  }

  /** The exception handler's own write: it reads no status and asks no question. */
  predicate HandlerWrites(s: Sys, e: Event) {
    e.Step? && e.act == Handle && e.id in s.threads && s.threads[e.id].Raised?
  }

  ghost predicate NoHandlerWrites(s: Sys, es: seq<Event>)
    decreases es
  {
    es != [] ==> !HandlerWrites(s, es[0]) && NoHandlerWrites(Next(s, es[0]), es[1..])
  }

  ghost predicate AlwaysHalted(s: Sys, es: seq<Event>)
    decreases es
  {
    s.row.status == Halted && (es != [] ==> AlwaysHalted(Next(s, es[0]), es[1..]))
  }

  lemma HaltedOneStep(s: Sys, e: Event)
    requires s.row == Row(Halted, true)
    ensures Next(s, e).row == if HandlerWrites(s, e) then Row(Failed, true) else Row(Halted, true)
  {
  }

  lemma {:induction false} HaltedFrom(s: Sys, es: seq<Event>)
    requires s.row == Row(Halted, true)
    ensures AlwaysHalted(s, es) <==> NoHandlerWrites(s, es)
    decreases es
  {
    if es != [] {
      HaltedOneStep(s, es[0]);
      if !HandlerWrites(s, es[0]) {
        HaltedFrom(Next(s, es[0]), es[1..]);
      }
    }
  }

  /** A killed session reads HALTED at every later moment if and only if no exception handler writes. */
  lemma HaltedExactly(s: Sys, es: seq<Event>)
    ensures var k := Next(s, User(Kill)); AlwaysHalted(k, es) <==> NoHandlerWrites(k, es)
  {
    HaltedFrom(Next(s, User(Kill)), es);
  }

  lemma PausedAndLaunched()
    ensures Run(INITIAL, [User(Start), Spawn(0, 9), Step(0, Claim)] + [User(Pause), Step(0, Poll), Spawn(1, 9)])
         == Sys(Row(Paused, false), map[0 := Finishing(Paused), 1 := Launched(9)], 1, 0, 1)
  {
    RunThree(INITIAL, User(Start), Spawn(0, 9), Step(0, Claim));
    var s := Run(INITIAL, [User(Start), Spawn(0, 9), Step(0, Claim)]);
    assert s == Sys(Row(Running, false), map[0 := Looping(0, 9)], 1, 0, 1);
    RunThree(s, User(Pause), Step(0, Poll), Spawn(1, 9));
    RunAppend(INITIAL, [User(Start), Spawn(0, 9), Step(0, Claim)], [User(Pause), Step(0, Poll), Spawn(1, 9)]);
  }

  /** The kill switch commits after a second runner has raised and before its handler has written. */
  const KILLED := [User(Start), Spawn(0, 9), Step(0, Claim)] + [User(Pause), Step(0, Poll), Spawn(1, 9)]
                  + [Step(1, Raise), User(Kill), Step(1, Handle)]

  lemma KilledThenFailed()
    ensures Run(INITIAL, KILLED) == Sys(Row(Failed, true), map[0 := Finishing(Paused), 1 := Ended], 1, 0, 1)
  {
    PausedAndLaunched();
    var s := Sys(Row(Paused, false), map[0 := Finishing(Paused), 1 := Launched(9)], 1, 0, 1);
    RunThree(s, Step(1, Raise), User(Kill), Step(1, Handle));
    RunAppend(INITIAL, [User(Start), Spawn(0, 9), Step(0, Claim)] + [User(Pause), Step(0, Poll), Spawn(1, 9)],
              [Step(1, Raise), User(Kill), Step(1, Handle)]);
  }

  /** And through it HALTED is left: a second runner whose inputs did not load writes FAILED over it,
      after which the first runner's pending final write makes the row read PAUSED. Only the
      kill-switch column refuses the resume. */
  lemma HaltedIsNotAbsorbing()
    ensures Run(INITIAL, KILLED).row == Row(Failed, true)
    ensures var s := Run(INITIAL, KILLED + [Step(0, Finish), User(Resume), User(Start)]);
            s.row == Row(Paused, true) && s.resumes == 0
  {
    KilledThenFailed();
    RunThree(Run(INITIAL, KILLED), Step(0, Finish), User(Resume), User(Start));
    RunAppend(INITIAL, KILLED, [Step(0, Finish), User(Resume), User(Start)]);
  }

  // ----- how soon a pause, a stop or a kill is honoured -----

  /** How many records thread `r` advances in a run. */
  ghost function Advances(s: Sys, es: seq<Event>, r: nat): nat
    decreases es
  {
    if es == [] then 0
    else
      (if es[0].Step? && es[0].id == r && es[0].act.Advance? && r in s.threads && s.threads[r].Polled? then 1 else 0)
      + Advances(Next(s, es[0]), es[1..], r)
  }

  /** No resume takes effect. */
  ghost predicate NoResume(s: Sys, es: seq<Event>)
    decreases es
  {
    es != [] ==> !(es[0] == User(Resume) && Allowed(s.row, Resume)) && NoResume(Next(s, es[0]), es[1..])
  }

  /** When the status is neither RUNNING nor on its way there, and until a resume takes effect, a
      runner advances the one record it had already polled for and no other. */
  lemma {:induction false} AtMostOneMoreRecord(s: Sys, es: seq<Event>, r: nat)
    requires s.row.status !in {Created, Starting, Running}
    requires NoResume(s, es)
    ensures Advances(s, es, r) <= if r in s.threads && s.threads[r].Polled? then 1 else 0
    decreases es
  {
    if es != [] {
      AtMostOneMoreRecord(Next(s, es[0]), es[1..], r);
    }
  }

  lemma {:induction false} DeadNeverResumes(s: Sys, es: seq<Event>)
    requires Dead(s)
    ensures NoResume(s, es)
    decreases es
  {
    if es != [] {
      DeadNeverResumes(Next(s, es[0]), es[1..]);
    }
  }

  /** After the kill switch, every runner, in every interleaving, advances at most one more record. */
  lemma KillStopsRecords(s: Sys, es: seq<Event>, r: nat)
    ensures Advances(Next(s, User(Kill)), es, r) <= 1
  {
    DeadNeverResumes(Next(s, User(Kill)), es);
    AtMostOneMoreRecord(Next(s, User(Kill)), es, r);
  }

  /** A pause or a stop that takes effect is honoured within one record, until somebody resumes. */
  lemma PauseOrStopHonoured(s: Sys, op: UserOp, es: seq<Event>, r: nat)
    requires op in {Pause, Stop} && Allowed(s.row, op)
    requires NoResume(Next(s, User(op)), es)
    ensures Advances(Next(s, User(op)), es, r) <= 1
  {
    AtMostOneMoreRecord(Next(s, User(op)), es, r);
  }

  // ----- which requests survive the runner's last write -----

  const DOWN: set<Status> := {Stopping, Stopped, Failed, Halted}

  ghost predicate NoPauseInFlight(s: Sys) {
    forall r :: r in s.threads ==> s.threads[r] != Finishing(Paused)
  }

  lemma {:induction false} StaysDown(s: Sys, es: seq<Event>)
    requires s.row.status in DOWN && NoPauseInFlight(s)
    ensures Run(s, es).row.status in DOWN
    decreases es
  {
    if es != [] {
      StaysDown(Next(s, es[0]), es[1..]);
    }
  }

  /** A runner that carries PAUSED to its last write puts the session up again. */
  lemma PauseInFlightRevives(s: Sys, r: nat)
    requires s.row.status == Stopping && r in s.threads && s.threads[r] == Finishing(Paused)
    ensures Run(s, [Step(r, Finish)]).row.status == Paused
  {
    var es := [Step(r, Finish)];
    assert es[1..] == [];
    assert Run(s, es) == Run(Next(s, es[0]), es[1..]);
  }

  /** The session is down at the end of every continuation. */
  ghost predicate DownForGood(s: Sys) {
    forall es :: Run(s, es).row.status in DOWN
  }

  lemma StopHonouredFrom(s: Sys)
    requires s.row.status == Stopping
    ensures DownForGood(s) <==> NoPauseInFlight(s)
  {
    if NoPauseInFlight(s) {
      forall es ensures Run(s, es).row.status in DOWN {
        StaysDown(s, es);
      }
    } else {
      var r :| r in s.threads && s.threads[r] == Finishing(Paused);
      PauseInFlightRevives(s, r);
    }
  }

  /** A stop request that takes effect keeps the session down for good, in every continuation, if and
      only if no runner was already carrying PAUSED to its last write. (That write ignores the
      request: the session ends PAUSED and can be resumed.) */
  lemma StopHonouredExactly(history: seq<Event>)
    requires Allowed(Run(INITIAL, history).row, Stop)
    ensures var s := Run(INITIAL, history);
            DownForGood(Next(s, User(Stop))) <==> NoPauseInFlight(s)
  {
    var s := Run(INITIAL, history);
    StopHonouredFrom(Next(s, User(Stop)));
    assert Next(s, User(Stop)).threads == s.threads;
  }
}
