/**
 What becomes of a session's requests and of its runs, said of the row alone: which requests take, where a
 run parks, and that an undisturbed run replays all its records (trading/sessions.py, trading/runner.py).
 */
module SessionOutcomes {
  import opened SessionProtocol

  // ----- requests -----

  /** A stop asked of any session leaves it on its way down: one that had not ended is STOPPING. */
  lemma StopTakes(s: Sys)
    ensures var row := Next(s, User(Stop)).row;
            row.killed == s.row.killed && row.status == if s.row.status in DOWN then s.row.status else Stopping
  {
  }

  /** And it stays down in every continuation, unless a runner was already carrying PAUSED to its last
      write, which brings up every session but a halted one. */
  lemma StopStaysDownExactly(s: Sys)
    ensures NoPauseInFlight(s) ==> DownForGood(Next(s, User(Stop)))
    ensures s.row.status != Halted ==> (DownForGood(Next(s, User(Stop))) <==> NoPauseInFlight(s))
  {
    var stopped := Next(s, User(Stop));
    StopTakes(s);
    assert stopped.threads == s.threads;
    if NoPauseInFlight(s) {
      forall es ensures Run(stopped, es).row.status in DOWN {
        StaysDown(stopped, es);
      }
    } else if s.row.status != Halted {
      var r :| r in s.threads && s.threads[r] == Finishing(Paused);
      RunSingle(stopped, Step(r, Finish));
      assert Run(stopped, [Step(r, Finish)]).row.status == Paused;
    }
  }

  lemma RunSingle(s: Sys, e: Event)
    ensures Run(s, [e]) == Next(s, e)
  {
    assert [e][1..] == [];
    assert Run(s, [e]) == Run(Next(s, e), [e][1..]);
  }

  /** After a pause no row reads RUNNING: a running session is PAUSED, any other left as it was. Its runner,
      and every other, advances at most one more record until somebody resumes, unless the session had
      yet to start running. */
  lemma PauseTakes(s: Sys, es: seq<Event>, r: nat)
    ensures var t := Next(s, User(Pause));
            && t.row == s.row.(status := if s.row.status == Running then Paused else s.row.status)
            && (s.row.status !in {Created, Starting} && NoResume(t, es) ==> Advances(t, es, r) <= 1)
  {
    var t := Next(s, User(Pause));
    if s.row.status !in {Created, Starting} && NoResume(t, es) {
      AtMostOneMoreRecord(t, es, r);
    }
  }

  /** The kill switch takes on every session, and its column refuses every resume from then on. */
  lemma KillTakes(s: Sys, es: seq<Event>)
    ensures Next(s, User(Kill)).row == Row(Halted, true)
    ensures Next(Run(Next(s, User(Kill)), es), User(Resume)) == Run(Next(s, User(Kill)), es)
  {
    KillIsFinal(s, es);
  }

  /** A session can be set going: started when new, resumed when paused and not killed, in no other state. */
  predicate CanGo(row: Row, op: UserOp) {
    (op == Start && row.status == Created) || (op == Resume && row.status == Paused && !row.killed)
  }

  /** Set going, a session runs: a thread launched then claims it and enters its loop at the first record.
      Anywhere else the two requests change nothing at all. */
  lemma GoesExactly(s: Sys, op: UserOp, r: nat, n: nat)
    requires op in {Start, Resume} && r !in s.threads
    ensures !CanGo(s.row, op) ==> Next(s, User(op)) == s
    ensures CanGo(s.row, op) ==>
              var t := Run(s, [User(op), Spawn(r, n), Step(r, Claim)]);
              && t.row == s.row.(status := Running) && t.threads == s.threads[r := Looping(0, n)]
              && t.claims == s.claims + 1
  {
    RunThree(s, User(op), Spawn(r, n), Step(r, Claim));
  }

  // ----- where a run ends -----

  /** A runner in its loop that polls and then makes its last write parks the session as it found it asked:
      paused sessions can be resumed, stopping ones are stopped, halted ones stay halted, and one whose data
      has run out is stopped (unless it was halted). */
  lemma ParksAsAsked(s: Sys, r: nat)
    requires r in s.threads && s.threads[r].Looping?
    ensures var more, status := s.threads[r].next < s.threads[r].total, s.row.status;
            var t := Next(Next(s, Step(r, Poll)), Step(r, Finish));
            && (more && status == Running ==> t.row == s.row && t.threads[r] == Polled(s.threads[r].next, s.threads[r].total))
            && (!(more && status == Running) ==>
                  && t.threads[r] == Ended && t.row.killed == s.row.killed
                  && t.row.status == (if status == Halted then Halted else if more && status == Paused then Paused else Stopped))
  {
  }

  /** A strategy that fails on a record ends the session FAILED, and so does an exception that is handled;
      only HALTED outlasts the former, and nothing the latter. */
  lemma FailuresShow(s: Sys, r: nat)
    requires r in s.threads
    ensures s.threads[r].Polled? ==>
              var t := Next(Next(s, Step(r, Advance(true))), Step(r, Finish));
              t.threads[r] == Ended && t.row.status == if s.row.status == Halted then Halted else Failed
    ensures s.threads[r].Launched? || s.threads[r].Looping? || s.threads[r].Polled? || s.threads[r].Finishing? ==>
              var t := Next(Next(s, Step(r, Raise)), Step(r, Handle));
              t.threads[r] == Ended && t.row.status == Failed
  {
  }

  /** The rest of a run from record `i`: a poll and an advance for each record. */
  function Rounds(r: nat, i: nat, n: nat): seq<Event>
    requires i <= n
    decreases n - i
  {
    if i == n then [] else [Step(r, Poll), Step(r, Advance(false))] + Rounds(r, i + 1, n)
  }

  lemma {:induction false} RoundsRun(s: Sys, r: nat, i: nat, n: nat)
    requires i <= n && s.row.status == Running && r in s.threads && s.threads[r] == Looping(i, n)
    ensures Run(s, Rounds(r, i, n)) == s.(threads := s.threads[r := Looping(n, n)])
    ensures Advances(s, Rounds(r, i, n), r) == n - i
    decreases n - i
  {
    if i < n {
      var es := Rounds(r, i, n);
      var t := Next(s, es[0]);
      var u := Next(t, es[1]);
      assert es[0] == Step(r, Poll) && es[1] == Step(r, Advance(false)) && es[1..][1..] == Rounds(r, i + 1, n);
      assert es[1..][0] == es[1];
      assert t.threads[r] == Polled(i, n) && u == s.(threads := s.threads[r := Looping(i + 1, n)]);
      RoundsRun(u, r, i + 1, n);
    } else {
      assert s.threads[r := Looping(n, n)] == s.threads;
    }
  }

  lemma RunTwo(s: Sys, a: Event, b: Event)
    ensures Run(s, [a, b]) == Next(Next(s, a), b)
  {
    assert [a, b][1..] == [b];
    assert Run(s, [a, b]) == Run(Next(s, a), [b]);
    RunSingle(Next(s, a), b);
  }

  /** Left alone, a session that is started replays every record, once, and ends STOPPED. */
  lemma RunsToTheEnd(r: nat, n: nat)
    ensures var running := Run(INITIAL, [User(Start), Spawn(r, n), Step(r, Claim)]);
            && Advances(running, Rounds(r, 0, n), r) == n
            && Run(Run(running, Rounds(r, 0, n)), [Step(r, Poll), Step(r, Finish)])
               == Sys(Row(Stopped, false), map[r := Ended], 1, 0, 1)
  {
    GoesExactly(INITIAL, Start, r, n);
    RunThree(INITIAL, User(Start), Spawn(r, n), Step(r, Claim));
    var running := Run(INITIAL, [User(Start), Spawn(r, n), Step(r, Claim)]);
    RoundsRun(running, r, 0, n);
    RunTwo(Run(running, Rounds(r, 0, n)), Step(r, Poll), Step(r, Finish));
  }
}
