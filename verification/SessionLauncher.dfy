/**
 The one process the container runs by default, whose `SessionRunner` launches a runner thread for a
 session only when the last one it launched is no longer alive (trading/runner.py). Its runs are runs of
 `SessionProtocol`; what that guard adds, and what it costs.
 */
module SessionLauncher {
  import opened SessionProtocol

  ghost predicate NoneAlive(s: Sys) {
    forall r :: r in s.threads ==> s.threads[r].Ended?
  }

  /** `launch`: a new thread appears only while none is alive. */
  ghost predicate Launches(s: Sys, e: Event) {
    e.Spawn? ==> NoneAlive(s)
  }

  ghost predicate OneProcess(s: Sys, es: seq<Event>)
    decreases es
  {
    es != [] ==> Launches(s, es[0]) && OneProcess(Next(s, es[0]), es[1..])
  }

  // ----- exclusion -----

  /** At most one thread is alive. */
  ghost predicate Alone(s: Sys) {
    forall q, r :: q in s.threads && r in s.threads && q != r ==> s.threads[q].Ended? || s.threads[r].Ended?
  }

  ghost predicate AlwaysAlone(s: Sys, es: seq<Event>)
    decreases es
  {
    Alone(s) && (es != [] ==> AlwaysAlone(Next(s, es[0]), es[1..]))
  }

  lemma AloneNext(s: Sys, e: Event)
    requires Alone(s) && Launches(s, e)
    ensures Alone(Next(s, e))
  {
    var t := Next(s, e);
    forall q, r | q in t.threads && r in t.threads && q != r ensures t.threads[q].Ended? || t.threads[r].Ended? {
      assert q in s.threads && r in s.threads ==> s.threads[q].Ended? || s.threads[r].Ended?;
    }
  }

  lemma {:induction false} AloneFrom(s: Sys, es: seq<Event>)
    requires Alone(s) && OneProcess(s, es)
    ensures AlwaysAlone(s, es) && Alone(Run(s, es))
    decreases es
  {
    if es != [] {
      AloneNext(s, es[0]);
      AloneFrom(Next(s, es[0]), es[1..]);
    }
  }

  /** Within one process exclusion holds without any proviso: in every interleaving, at every moment, at
      most one runner is alive, whenever anybody resumes. */
  lemma OneRunnerAlive(es: seq<Event>)
    requires OneProcess(INITIAL, es)
    ensures AlwaysAlone(INITIAL, es)
  {
    AloneFrom(INITIAL, es);
  }

  // ----- what the guard costs -----

  /** Thread `r` is the only one alive, is between its claim and its last write, and is not to go on. */
  ghost predicate LastOfItsKind(s: Sys, r: nat) {
    && r in s.threads && s.threads[r].Active() && s.row.status !in {Created, Running}
    && forall q :: q in s.threads && q != r ==> s.threads[q].Ended?
  }

  /** Nothing is on its way to RUNNING any more. */
  ghost predicate Over(s: Sys, r: nat) {
    r in s.threads && s.threads[r].Ended? && s.row.status !in {Created, Starting, Running}
  }

  /** A resume that takes effect. */
  predicate Resumes(s: Sys, e: Event) {
    e == User(Resume) && Allowed(s.row, Resume)
  }

  lemma WaitingNext(s: Sys, e: Event, r: nat)
    requires LastOfItsKind(s, r) && Launches(s, e) && e != Step(r, Unhandled)
    ensures LastOfItsKind(Next(s, e), r) || Over(Next(s, e), r)
    ensures Next(s, e).claims == s.claims
    ensures Next(s, e).threads[r].Polled? ==> s.threads[r].Polled? && !(e.Step? && e.id == r && e.act.Advance?)
  {
  }

  lemma OverNext(s: Sys, e: Event, r: nat)
    requires Over(s, r) && !Resumes(s, e)
    ensures Over(Next(s, e), r) && Next(s, e).claims == s.claims
  {
  }

  lemma {:induction false} OverForGood(s: Sys, es: seq<Event>, r: nat)
    requires Over(s, r) && NoResume(s, es)
    ensures Over(Run(s, es), r) && Run(s, es).claims == s.claims && Advances(s, es, r) == 0
    decreases es
  {
    if es != [] {
      OverNext(s, es[0], r);
      OverForGood(Next(s, es[0]), es[1..], r);
    }
  }

  lemma {:induction false} NobodyTakesOver(s: Sys, es: seq<Event>, r: nat)
    requires LastOfItsKind(s, r) && OneProcess(s, es) && NoResume(s, es)
    requires forall e <- es :: e != Step(r, Unhandled)
    ensures LastOfItsKind(Run(s, es), r) || Over(Run(s, es), r)
    ensures Run(s, es).claims == s.claims
    ensures Advances(s, es, r) <= if s.threads[r].Polled? then 1 else 0
    decreases es
  {
    if es != [] {
      var t := Next(s, es[0]);
      assert es[0] in es && forall e <- es[1..] :: e in es;
      WaitingNext(s, es[0], r);
      if Over(t, r) {
        OverForGood(t, es[1..], r);
      } else {
        NobodyTakesOver(t, es[1..], r);
      }
    }
  }

  /** The price: a resume that commits while the paused runner has not made its last write is lost. Until
      somebody resumes again no runner ever claims the session, the old one advances at most the one record
      it had polled for, and once it has ended the session is no longer STARTING. (Its handler is taken to
      write when it raises.) */
  lemma EarlyResumeIsLost(history: seq<Event>, es: seq<Event>, r: nat)
    requires OneProcess(INITIAL, history)
    requires var s := Run(INITIAL, history); Allowed(s.row, Resume) && r in s.threads && s.threads[r].Active()
    requires var t := Next(Run(INITIAL, history), User(Resume)); OneProcess(t, es) && NoResume(t, es)
    requires forall e <- es :: e != Step(r, Unhandled)
    ensures var t := Next(Run(INITIAL, history), User(Resume));
            var u := Run(t, es);
            && u.claims == t.claims && u.row.status !in {Created, Running} && Advances(t, es, r) <= 1
            && r in u.threads && (u.threads[r].Ended? ==> u.row.status != Starting)
  {
    AloneFrom(INITIAL, history);
    NobodyTakesOver(Next(Run(INITIAL, history), User(Resume)), es, r);
  }

  /** Nor is it carrying PAUSED, and the row does not read it. */
  ghost predicate CarriesNoPause(s: Sys, r: nat) {
    LastOfItsKind(s, r) && s.row.status != Paused && s.threads[r] != Finishing(Paused)
  }

  lemma NeverPausedNext(s: Sys, e: Event, r: nat)
    requires CarriesNoPause(s, r) && Launches(s, e) && e != Step(r, Unhandled)
    ensures CarriesNoPause(Next(s, e), r) || (Next(s, e).row.status in DOWN && NoPauseInFlight(Next(s, e)))
  {
  }

  lemma {:induction false} NeverPausedAgain(s: Sys, es: seq<Event>, r: nat)
    requires CarriesNoPause(s, r) && OneProcess(s, es)
    requires forall e <- es :: e != Step(r, Unhandled)
    ensures Run(s, es).row.status in DOWN + {Starting}
    decreases es
  {
    if es != [] {
      var t := Next(s, es[0]);
      assert es[0] in es && forall e <- es[1..] :: e in es;
      NeverPausedNext(s, es[0], r);
      if CarriesNoPause(t, r) {
        NeverPausedAgain(t, es[1..], r);
      } else {
        StaysDown(t, es[1..]);
      }
    }
  }

  /** Unless the old runner was already carrying PAUSED to its last write, the session cannot be resumed
      again either: the runner polls STARTING, which is not RUNNING, and stops the session for good. */
  lemma EarlyResumeStopsTheSession(history: seq<Event>, es: seq<Event>, r: nat)
    requires OneProcess(INITIAL, history)
    requires var s := Run(INITIAL, history);
             Allowed(s.row, Resume) && r in s.threads && s.threads[r].Active() && s.threads[r] != Finishing(Paused)
    requires OneProcess(Next(Run(INITIAL, history), User(Resume)), es) && forall e <- es :: e != Step(r, Unhandled)
    ensures var u := Run(Next(Run(INITIAL, history), User(Resume)), es);
            u.row.status in DOWN + {Starting} && !Allowed(u.row, Resume)
  {
    AloneFrom(INITIAL, history);
    NeverPausedAgain(Next(Run(INITIAL, history), User(Resume)), es, r);
  }
}
