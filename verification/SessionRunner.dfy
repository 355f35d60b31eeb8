/**
 The session protocol in the code's own form: one row and the runner threads of a deployment, changed
 in place by the methods of trading/sessions.py and by the record loop of trading/runner.py. Every
 method is proved to be exactly the steps of `SessionProtocol`, so what is proved of every
 interleaving there holds of these methods.
 */
module SessionRunner {
  import opened SessionProtocol

  /** A run of other users and threads: nothing in it is a step of thread `r`. */
  ghost predicate Foreign(es: seq<Event>, r: nat) {
    forall e <- es :: !(e.Step? && e.id == r)
  }

  lemma {:induction false} ForeignKeepsThread(s: Sys, es: seq<Event>, r: nat)
    requires r in s.threads && Foreign(es, r)
    ensures r in Run(s, es).threads && Run(s, es).threads[r] == s.threads[r]
    ensures Advances(s, es, r) == 0
    decreases es
  {
    if es != [] {
      assert es[0] in es;
      ForeignKeepsThread(Next(s, es[0]), es[1..], r);
    }
  }

  lemma {:induction false} AdvancesAppend(s: Sys, es: seq<Event>, fs: seq<Event>, r: nat)
    ensures Advances(s, es + fs, r) == Advances(s, es, r) + Advances(Run(s, es), fs, r)
    decreases es
  {
    if es == [] {
      assert es + fs == fs;
    } else {
      assert (es + fs)[0] == es[0] && (es + fs)[1..] == es[1..] + fs;
      AdvancesAppend(Next(s, es[0]), es[1..], fs, r);
    }
  }

  /** `log` leads from the start to `sys`, and `r` has advanced `n` records since position `from`. */
  ghost predicate Reached(log: seq<Event>, sys: Sys, from: nat, r: nat, n: nat) {
    from <= |log| && sys == Run(INITIAL, log) && Advances(Run(INITIAL, log[..from]), log[from..], r) == n
  }

  lemma Reach(log: seq<Event>, more: seq<Event>, from: nat, r: nat, n: nat)
    requires Reached(log, Run(INITIAL, log), from, r, n)
    ensures Reached(log + more, Run(Run(INITIAL, log), more), from, r, n + Advances(Run(INITIAL, log), more, r))
  {
    assert log == log[..from] + log[from..];
    assert (log + more)[..from] == log[..from] && (log + more)[from..] == log[from..] + more;
    RunAppend(INITIAL, log, more);
    RunAppend(INITIAL, log[..from], log[from..]);
    AdvancesAppend(Run(INITIAL, log[..from]), log[from..], more, r);
  }

  lemma RunOne(s: Sys, e: Event, r: nat)
    ensures Run(s, [e]) == Next(s, e)
    ensures Advances(s, [e], r)
            == if e.Step? && e.id == r && e.act.Advance? && r in s.threads && s.threads[r].Polled? then 1 else 0
  {
    assert [e][1..] == [];
    assert Run(s, [e]) == Run(Next(s, e), [e][1..]);
    assert Advances(Next(s, e), [e][1..], r) == 0;
  }

  /**
   One row of `trading_sessions` and the runner threads of the deployment, changed in place. `log` is
   everything that has happened; `Valid` says the row and the threads are where the log leads.
   */
  class TradingSession {
    var status: Status
    var killSwitchEngaged: bool
    var threads: map<nat, Thread>
    ghost var sys: Sys
    ghost var log: seq<Event>

    ghost predicate Valid()
      reads this
    {
      && sys == Run(INITIAL, log)
      && sys.row == Row(status, killSwitchEngaged)
      && sys.threads == threads
    }

    constructor ()
      ensures Valid() && sys == INITIAL && log == []
    {
      status, killSwitchEngaged, threads := Created, false, map[];
      sys, log := INITIAL, [];
    }

    /** Record that the transaction just written was event `e`. */
    ghost method Commit(e: Event)
      requires sys == Run(INITIAL, log)
      modifies this`sys, this`log
      ensures sys == Next(old(sys), e) && log == old(log) + [e] && sys == Run(INITIAL, log)
    {
      RunAppend(INITIAL, log, [e]);
      RunOne(sys, e, 0);
      sys := Next(sys, e);
      log := log + [e];
    }

    /** The conditional UPDATE: the status is part of the WHERE clause. */
    method Transition(allowedFrom: set<Status>, to: Status) returns (claimed: bool)
      modifies this`status
      ensures claimed == (old(status) in allowedFrom)
      ensures status == if claimed then to else old(status)
    {
      claimed := status in allowedFrom;
      if claimed {
        status := to;
      }
    }

    /** The five user actions. `ok` is false where the source raises SessionError. */
    method Request(op: UserOp) returns (ok: bool)
      requires Valid()
      modifies this
      ensures Valid() && sys == Next(old(sys), User(op)) && log == old(log) + [User(op)]
      ensures ok == Allowed(old(sys).row, op)
      ensures op == Stop ==> ok == (old(status) !in DOWN) && status == if ok then Stopping else old(status)
      ensures op == Pause ==> status == if old(status) == Running then Paused else old(status)
      ensures op == Kill ==> ok && status == Halted && killSwitchEngaged
      ensures op in {Start, Resume} ==>
                && ok == ((op == Start && old(status) == Created) || (op == Resume && old(status) == Paused && !old(killSwitchEngaged)))
                && status == if ok then Starting else old(status)
    {
      match op {
        case Start =>
          ok := Transition({Created}, Starting);
        case Pause =>
          ok := Transition({Running}, Paused);
        case Resume =>
          ok := false;
          if !killSwitchEngaged {
            ok := Transition({Paused}, Starting);
          }
        case Stop =>
          ok := Transition({Created, Starting, Running, Paused}, Stopping);
        case Kill =>
          killSwitchEngaged := true;
          status := Halted;
          ok := true;
      }
      Commit(User(op));
    }

    /** A call of `run_session`, not yet at its claim. */
    method Launch(r: nat, records: nat)
      requires Valid()
      modifies this
      ensures Valid() && sys == Next(old(sys), Spawn(r, records)) && log == old(log) + [Spawn(r, records)]
    {
      if r !in threads {
        threads := threads[r := Launched(records)];
      }
      Commit(Spawn(r, records));
    }

    /** Whatever one thread does next, as one transaction or one engine call. */
    method StepThread(r: nat, act: Act)
      requires Valid()
      modifies this
      ensures Valid() && sys == Next(old(sys), Step(r, act)) && log == old(log) + [Step(r, act)]
    {
      if r in threads {
        var (t, written) := ThreadStep(status, threads[r], act);
        threads := threads[r := t];
        status := written;
      }
      Commit(Step(r, act));
    }

    /** What other users and threads do between two transactions of thread `r`: anything. */
    method Others(r: nat)
      requires Valid() && r in threads
      modifies this
      ensures Valid() && r in threads && threads[r] == old(threads[r])
      ensures exists es :: Foreign(es, r) && log == old(log) + es && sys == Run(old(sys), es)
    {
      ghost var es: seq<Event> := [];
      var budget: nat := *;
      while budget > 0
        invariant Valid() && Foreign(es, r) && log == old(log) + es && sys == Run(old(sys), es)
      {
        var e: Event := *;
        if !(e.Step? && e.id == r) {
          RunAppend(old(sys), es, [e]);
          RunOne(sys, e, r);
          match e {
            case User(op) => var _ := Request(op);
            case Spawn(id, n) => Launch(id, n);
            case Step(id, act) => StepThread(id, act);
          }
          es := es + [e];
        }
        budget := budget - 1;
      }
      ForeignKeepsThread(old(sys), es, r);
    }

    /** Thread `r` is at `t`, and has advanced `n` records since position `from` of the log. */
    ghost predicate At(r: nat, t: Thread, from: nat, n: nat)
      reads this
    {
      Valid() && r in threads && threads[r] == t && Reached(log, sys, from, r, n)
    }

    /** The rest of the deployment acts; thread `r` stays where it is. */
    method Interleave(r: nat, ghost t: Thread, ghost from: nat, ghost n: nat)
      requires At(r, t, from, n)
      modifies this
      ensures At(r, t, from, n) && old(log) <= log
    {
      Others(r);
      ghost var es :| Foreign(es, r) && log == old(log) + es && sys == Run(old(sys), es);
      Reach(old(log), es, from, r, n);
      ForeignKeepsThread(old(sys), es, r);
    }

    /** Record that what thread `r` just wrote was its step `act`. */
    ghost method CommitOwn(r: nat, act: Act, from: nat, n: nat)
      requires Reached(log, sys, from, r, n) && r in sys.threads
      modifies this`sys, this`log
      ensures sys == Next(old(sys), Step(r, act)) && log == old(log) + [Step(r, act)]
      ensures Reached(log, sys, from, r, n + if act.Advance? && old(sys).threads[r].Polled? then 1 else 0)
    {
      Reach(log, [Step(r, act)], from, r, n);
      RunOne(sys, Step(r, act), r);
      sys := Next(sys, Step(r, act));
      log := log + [Step(r, act)];
    }

    method TryClaim(r: nat, records: nat, ghost from: nat) returns (claimed: bool)
      requires At(r, Launched(records), from, 0)
      modifies this
      ensures At(r, if claimed then Looping(0, records) else Ended, from, 0) && old(log) <= log
      ensures claimed ==> status == Running
    {
      Interleave(r, Launched(records), from, 0);
      claimed := Transition({Starting}, Running);
      threads := threads[r := if claimed then Looping(0, records) else Ended];
      CommitOwn(r, Claim, from, 0);
    }

    /** The one place a pause, a stop or a kill is noticed. */
    method ShouldContinue(r: nat, i: nat, records: nat, ghost from: nat) returns (keepGoing: bool, seen: Status)
      requires At(r, Looping(i, records), from, i) && i < records
      modifies this
      ensures At(r, if keepGoing then Polled(i, records) else Finishing(TerminalFor(seen)), from, i)
      ensures old(log) <= log && seen == status && keepGoing == (seen == Running)
    {
      Interleave(r, Looping(i, records), from, i);
      keepGoing, seen := status == Running, status;
      threads := threads[r := if keepGoing then Polled(i, records) else Finishing(TerminalFor(seen))];
      CommitOwn(r, Poll, from, i);
    }

    /** The data ran out: the loop ends without a poll. */
    method EndOfData(r: nat, records: nat, ghost from: nat)
      requires At(r, Looping(records, records), from, records)
      modifies this
      ensures At(r, Finishing(Stopped), from, records) && log == old(log) + [Step(r, Poll)]
    {
      threads := threads[r := Finishing(Stopped)];
      CommitOwn(r, Poll, from, records);
    }

    /** One record through the engine, which reports whether the strategy failed on it. */
    method AdvanceRecord(r: nat, i: nat, records: nat, ghost from: nat) returns (strategyFailed: bool)
      requires At(r, Polled(i, records), from, i)
      modifies this
      ensures At(r, if strategyFailed then Finishing(Failed) else Looping(i + 1, records), from, i + 1)
      ensures old(log) <= log
    {
      Interleave(r, Polled(i, records), from, i);
      strategyFailed := *;
      threads := threads[r := if strategyFailed then Finishing(Failed) else Looping(i + 1, records)];
      CommitOwn(r, Advance(strategyFailed), from, i);
    }

    /** The last transaction of a run that did not raise. */
    method FinishSession(r: nat, terminal: Outcome, ghost from: nat, ghost n: nat)
      requires At(r, Finishing(terminal), from, n)
      modifies this
      ensures At(r, Ended, from, n) && old(log) <= log
      ensures status == terminal || status == Halted
    {
      Interleave(r, Finishing(terminal), from, n);
      if status != Halted {
        status := terminal;
      }
      threads := threads[r := Ended];
      CommitOwn(r, Finish, from, n);
    }

    method Throw(r: nat, ghost t: Thread, ghost from: nat, ghost n: nat)
      requires At(r, t, from, n) && (t.Launched? || t.Looping? || t.Polled? || t.Finishing?)
      modifies this
      ensures At(r, Raised(!t.Launched?), from, n) && old(log) <= log
    {
      threads := threads[r := Raised(!threads[r].Launched?)];
      CommitOwn(r, Raise, from, n);
    }

    method Unwind(r: nat, handled: bool, ghost claimed: bool, ghost from: nat, ghost n: nat)
      requires At(r, Raised(claimed), from, n)
      modifies this
      ensures At(r, Ended, from, n) && old(log) <= log
      ensures handled ==> status == Failed
    {
      threads := threads[r := Ended];
      if handled {
        status := Failed;
      }
      CommitOwn(r, if handled then Handle else Unhandled, from, n);
    }

    /** An exception leaves `run_session`: the background runner's handler writes FAILED over whatever
        the row says; a synchronous caller writes nothing. */
    method Fail(r: nat, handled: bool, ghost t: Thread, ghost from: nat, ghost n: nat)
      requires At(r, t, from, n) && (t.Launched? || t.Looping? || t.Polled? || t.Finishing?)
      modifies this
      ensures At(r, Ended, from, n) && old(log) <= log
      ensures handled ==> status == Failed
    {
      Throw(r, t, from, n);
      Interleave(r, Raised(!t.Launched?), from, n);
      Unwind(r, handled, !t.Launched?, from, n);
    }

    /**
     `run_session` as thread `r` runs it, with the rest of the deployment acting before each of its
     transactions and an exception possible at any of them. Its local variables and the machine agree
     throughout: whatever happens it ends having advanced exactly `processed` records of its log.
     */
    method RunSession(r: nat, records: nat, handled: bool) returns (processed: nat, result: Status)
      requires Valid() && r in threads && threads[r] == Launched(records)
      modifies this
      ensures At(r, Ended, |old(log)|, processed) && processed <= records
      ensures old(log) <= log && status == result
    {
      ghost var from := |log|;
      assert log[from..] == [];
      processed := 0;
      if * {
        Fail(r, handled, Launched(records), from, 0);
        return 0, status;
      }
      var claimed := TryClaim(r, records, from);
      if !claimed {
        return 0, status;
      }
      var terminal: Outcome := Stopped;
      var leaving := false;
      while !leaving && processed < records
        invariant processed <= records && old(log) <= log
        invariant At(r, if leaving then Finishing(terminal) else Looping(processed, records), from, processed)
        invariant !leaving ==> terminal == Stopped
        decreases !leaving, records - processed
      {
        if * {
          Fail(r, handled, Looping(processed, records), from, processed);
          return processed, status;
        }
        var keepGoing, seen := ShouldContinue(r, processed, records, from);
        if !keepGoing {
          terminal := if seen == Paused then Paused else if seen == Halted then Halted else Stopped;
          leaving := true;
        } else {
          if * {
            Fail(r, handled, Polled(processed, records), from, processed);
            return processed, status;
          }
          var strategyFailed := AdvanceRecord(r, processed, records, from);
          processed := processed + 1;
          if strategyFailed {
            terminal := Failed;
            leaving := true;
          }
        }
      }
      if !leaving {
        EndOfData(r, records, from);
      }
      if * {
        Fail(r, handled, Finishing(terminal), from, processed);
      } else {
        FinishSession(r, terminal, from, processed);
      }
      result := status;
    }
  }
}
