/**
 Row cleaning (data/cleaning.py), last part: what is logged. Every rejection and every change of a file,
 in order, with its line and its reason, said of the file and not of the loop's tables.
 */
module CleaningLogs {
  import opened Ordering
  import opened RowExamination
  import opened DuplicatesAndOrder
  import opened CleaningFile

  // ----- the duplicate and order step -----

  /** Bar `i` is rejected as a repetition of one kept before it, or for coming too late, or not at all. */
  ghost function RejectionAt(bars: seq<Bar>, p: Policy, i: nat): seq<Rejection>
    requires i < |bars|
  {
    if p.duplicates == KeepFirst && exists j :: 0 <= j < i && Took(bars, p, j, KeyOf(bars[i])) then
      [Rejection(bars[i].line, Duplicate)]
    else if p.dropOutOfOrder && !InOrder(bars, i) then [Rejection(bars[i].line, OutOfOrder)]
    else []
  }

  /** Bar `j` has its key's row when bar `i`, of the same key, is read. */
  ghost predicate Seated(bars: seq<Bar>, p: Policy, i: nat, j: nat)
    requires i < |bars|
  {
    j < i && KeyOf(bars[j]) == KeyOf(bars[i]) && Survives(bars, p, i, j)
  }

  /** Under KEEP_LAST bar `i` displaces the row of its key, which is logged under that row's line. */
  ghost function DropAt(bars: seq<Bar>, p: Policy, i: nat): seq<Change>
    requires i < |bars|
  {
    if p.duplicates == KeepLast && exists j: nat :: Seated(bars, p, i, j) then
      var j: nat :| Seated(bars, p, i, j);
      [Change(bars[j].line, DroppedDuplicate)]
    else []
  }

  ghost function Rejections(bars: seq<Bar>, p: Policy, n: nat): seq<Rejection>
    requires n <= |bars|
  {
    if n == 0 then [] else Rejections(bars, p, n - 1) + RejectionAt(bars, p, n - 1)
  }

  ghost function Drops(bars: seq<Bar>, p: Policy, n: nat): seq<Change>
    requires n <= |bars|
  {
    if n == 0 then [] else Drops(bars, p, n - 1) + DropAt(bars, p, n - 1)
  }

  /** What one bar adds to the two logs, from the tables. */
  function Rejects(a: Acc, b: Bar, p: Policy): seq<Rejection> {
    if KeyOf(b) in a.seen && p.duplicates == KeepFirst then [Rejection(b.line, Duplicate)]
    else if b.symbol in a.last && b.timestamp < a.last[b.symbol] && p.dropOutOfOrder then [Rejection(b.line, OutOfOrder)]
    else []
  }

  function Displaces(a: Acc, b: Bar, p: Policy): seq<Change> {
    if KeyOf(b) in a.seen && p.duplicates == KeepLast && |PopKey(a.rows, KeyOf(b))| < |a.rows|
    then [Change(a.seen[KeyOf(b)], DroppedDuplicate)] else []
  }

  lemma AdmitLogs(a: Acc, b: Bar, p: Policy)
    ensures var a' := Admit(a, b, p); !a'.fatal ==>
              a'.rejections == a.rejections + Rejects(a, b, p) && a'.changes == a.changes + Displaces(a, b, p)
  {
    assert a.rejections + [] == a.rejections && a.changes + [] == a.changes;
  }

  lemma RejectsExactly(a: Acc, bars: seq<Bar>, p: Policy, n: nat)
    requires n < |bars| && !Admit(a, bars[n], p).fatal && SeenAgrees(a, bars, p, n) && LastAgrees(a, bars, n)
    ensures Rejects(a, bars[n], p) == RejectionAt(bars, p, n)
  {
    LateExactly(a, bars, n);
  }

  /** Bar `j` is the latest of its key that its order did not reject. */
  ghost predicate LastTook(bars: seq<Bar>, p: Policy, n: nat, k: Key, j: nat)
    requires n <= |bars|
  {
    j < n && Took(bars, p, j, k) && forall i :: j < i < n ==> !Took(bars, p, i, k)
  }

  ghost predicate SeenAt(bars: seq<Bar>, p: Policy, n: nat, k: Key, line: nat)
    requires n <= |bars|
  {
    exists j: nat :: LastTook(bars, p, n, k, j) && bars[j].line == line
  }

  /** Under KEEP_LAST the table of seen keys holds the line of the latest bar of each. */
  ghost predicate SeenLines(a: Acc, bars: seq<Bar>, p: Policy, n: nat)
    requires n <= |bars|
  {
    forall k :: k in a.seen ==> SeenAt(bars, p, n, k, a.seen[k])
  }

  lemma AdmitSeenLine(a: Acc, b: Bar, p: Policy)
    requires p.duplicates == KeepLast
    ensures Admit(a, b, p).seen
         == if b.symbol in a.last && b.timestamp < a.last[b.symbol] && p.dropOutOfOrder then a.seen else a.seen[KeyOf(b) := b.line]
  {
  }

  lemma SeenLinesAfter(a: Acc, bars: seq<Bar>, p: Policy, n: nat)
    requires n < |bars| && p.duplicates == KeepLast && SeenLines(a, bars, p, n) && LastAgrees(a, bars, n)
    ensures SeenLines(Admit(a, bars[n], p), bars, p, n + 1)
  {
    var b, seen := bars[n], Admit(a, bars[n], p).seen;
    AdmitSeenLine(a, b, p);
    LateExactly(a, bars, n);
    forall k | k in seen ensures SeenAt(bars, p, n + 1, k, seen[k]) {
      if Took(bars, p, n, k) {
        assert LastTook(bars, p, n + 1, k, n);
      } else {
        assert k in a.seen && seen[k] == a.seen[k];
        var j: nat :| LastTook(bars, p, n, k, j) && bars[j].line == a.seen[k];
        assert LastTook(bars, p, n + 1, k, j);
      }
    }
  }

  lemma SeatedIsLast(bars: seq<Bar>, p: Policy, n: nat, j: nat, i: nat)
    requires n < |bars| && p.duplicates == KeepLast && Seated(bars, p, n, j) && LastTook(bars, p, n, KeyOf(bars[n]), i)
    ensures i == j
  {
    assert Took(bars, p, j, KeyOf(bars[n]));
  }

  lemma RowIsSeated(a: Acc, bars: seq<Bar>, p: Policy, n: nat)
    requires n < |bars| && RowsAgree(a) && a.rows == Survivors(bars, p, n, n)
    ensures |PopKey(a.rows, KeyOf(bars[n]))| < |a.rows| <==> exists j: nat :: Seated(bars, p, n, j)
  {
    PopKeyRemoves(a.rows, KeyOf(bars[n]));
    SurvivorsMembers(bars, p, n, n, KeyOf(bars[n]));
    if HasKey(a.rows, KeyOf(bars[n])) {
      var j :| 0 <= j < n && KeyOf(bars[j]) == KeyOf(bars[n]) && Survives(bars, p, n, j);
      assert Seated(bars, p, n, j);
    }
  }

  /** The line of the row displaced is the one the table of seen keys holds. */
  lemma SeatedLine(a: Acc, bars: seq<Bar>, p: Policy, n: nat, j: nat)
    requires n < |bars| && p.duplicates == KeepLast && SeenAgrees(a, bars, p, n) && SeenLines(a, bars, p, n)
    requires Seated(bars, p, n, j)
    ensures KeyOf(bars[n]) in a.seen && a.seen[KeyOf(bars[n])] == bars[j].line
  {
    var k := KeyOf(bars[n]);
    assert Took(bars, p, j, k);
    assert k in a.seen && SeenAt(bars, p, n, k, a.seen[k]);
    var i: nat :| LastTook(bars, p, n, k, i) && bars[i].line == a.seen[k];
    SeatedIsLast(bars, p, n, j, i);
  }

  lemma DisplacesExactly(a: Acc, bars: seq<Bar>, p: Policy, n: nat)
    requires n < |bars| && p.duplicates == KeepLast
    requires SeenAgrees(a, bars, p, n) && SeenLines(a, bars, p, n) && RowsAgree(a) && a.rows == Survivors(bars, p, n, n)
    ensures Displaces(a, bars[n], p) == DropAt(bars, p, n)
  {
    RowIsSeated(a, bars, p, n);
    forall j: nat | Seated(bars, p, n, j) ensures KeyOf(bars[n]) in a.seen && a.seen[KeyOf(bars[n])] == bars[j].line {
      SeatedLine(a, bars, p, n, j);
    }
  }

  ghost predicate LogsAgree(a: Acc, bars: seq<Bar>, p: Policy, n: nat)
    requires n <= |bars|
  {
    && a.rejections == Rejections(bars, p, n) && a.changes == Drops(bars, p, n)
    && (p.duplicates == KeepLast ==> SeenLines(a, bars, p, n))
  }

  lemma LogsAfter(a: Acc, bars: seq<Bar>, p: Policy, n: nat, next: Acc)
    requires n < |bars| && !a.fatal && Correct(a, bars, p, n) && LogsAgree(a, bars, p, n)
    requires next == Admit(a, bars[n], p) && !next.fatal
    ensures LogsAgree(next, bars, p, n + 1)
  {
    AdmitLogs(a, bars[n], p);
    RejectsExactly(a, bars, p, n);
    if p.duplicates == KeepLast {
      DisplacesExactly(a, bars, p, n);
      SeenLinesAfter(a, bars, p, n);
    }
  }

  lemma {:induction false} NeverFatalBefore(bars: seq<Bar>, p: Policy, n: nat)
    requires 0 < n <= |bars| && !Admitted(bars, p, n).fatal
    ensures !Admitted(bars, p, n - 1).fatal && Admitted(bars, p, n) == Admit(Admitted(bars, p, n - 1), bars[n - 1], p)
  {
  }

  lemma NoLogsYet(bars: seq<Bar>, p: Policy)
    ensures LogsAgree(Admitted(bars, p, 0), bars, p, 0)
  {
  }

  lemma LogsAdmit(a: Acc, bars: seq<Bar>, p: Policy, n: nat, next: Acc)
    requires n < |bars| && a == Admitted(bars, p, n) && !a.fatal && LogsAgree(a, bars, p, n)
    requires next == Admit(a, bars[n], p) && !next.fatal
    ensures LogsAgree(next, bars, p, n + 1)
  {
    AdmittedExactly(bars, p, n);
    LogsAfter(a, bars, p, n, next);
  }

  lemma LogsNext(bars: seq<Bar>, p: Policy, n: nat, a: Acc, next: Acc)
    requires 0 < n <= |bars| && a == Admitted(bars, p, n - 1) && next == Admitted(bars, p, n)
    requires !a.fatal ==> LogsAgree(a, bars, p, n - 1)
    ensures !next.fatal ==> LogsAgree(next, bars, p, n)
  {
    if !next.fatal {
      NeverFatalBefore(bars, p, n);
      LogsAdmit(a, bars, p, n - 1, next);
    }
  }

  /** Every rejection and every displaced row of the step, in order, with its line and its reason. */
  lemma {:induction false} StepLogsExactly(bars: seq<Bar>, p: Policy, n: nat)
    requires n <= |bars|
    ensures !Admitted(bars, p, n).fatal ==> LogsAgree(Admitted(bars, p, n), bars, p, n)
    decreases n
  {
    if n == 0 {
      NoLogsYet(bars, p);
    } else {
      StepLogsExactly(bars, p, n - 1);
      LogsNext(bars, p, n, Admitted(bars, p, n - 1), Admitted(bars, p, n));
    }
  }

  // ----- the file -----

  /** What line `i` (counted from 0) adds to the rejections, given the valid bars before it. */
  ghost function LineRejections(file: seq<Line>, p: Policy, i: nat): seq<Rejection>
    requires i < |file|
  {
    match file[i]
    case Skip => []
    case Row(Refuse(reason), _) => [Rejection(i + 1, reason)]
    case Row(Accept(bar), _) => RejectionAt(ValidBars(file, i) + [bar], p, |ValidBars(file, i)|)
  }

  /** And to the changes: what was done to the row itself, then the row it displaces. */
  ghost function LineChanges(file: seq<Line>, p: Policy, i: nat): seq<Change>
    requires i < |file|
  {
    match file[i]
    case Skip => []
    case Row(Refuse(_), log) => log
    case Row(Accept(bar), log) => log + DropAt(ValidBars(file, i) + [bar], p, |ValidBars(file, i)|)
  }

  ghost function FileRejections(file: seq<Line>, p: Policy, n: nat): seq<Rejection>
    requires n <= |file|
  {
    if n == 0 then [] else FileRejections(file, p, n - 1) + LineRejections(file, p, n - 1)
  }

  ghost function FileChanges(file: seq<Line>, p: Policy, n: nat): seq<Change>
    requires n <= |file|
  {
    if n == 0 then [] else FileChanges(file, p, n - 1) + LineChanges(file, p, n - 1)
  }

  /** The loop over the file and the step on its valid bars are at the same point. */
  ghost predicate InStep(a: Acc, b: Acc) {
    !a.fatal && !b.fatal && a.rows == b.rows && a.seen == b.seen && a.last == b.last
  }

  lemma AdmitInStep(a: Acc, b: Acc, bar: Bar, p: Policy)
    requires InStep(a, b) && !Admit(a, bar, p).fatal
    ensures InStep(Admit(a, bar, p), Admit(b, bar, p))
    ensures Rejects(a, bar, p) == Rejects(b, bar, p) && Displaces(a, bar, p) == Displaces(b, bar, p)
  {
  }

  /** One accepted bar, seen from the step on the valid bars. */
  lemma AcceptedLogs(a: Acc, b: Acc, bars: seq<Bar>, bar: Bar, p: Policy)
    requires InStep(a, b) && b == Admitted(bars, p, |bars|) && !Admit(a, bar, p).fatal
    ensures var more, a' := bars + [bar], Admit(a, bar, p);
            && InStep(a', Admitted(more, p, |more|))
            && a'.rejections == a.rejections + RejectionAt(more, p, |bars|)
            && a'.changes == a.changes + DropAt(more, p, |bars|)
  {
    var more := bars + [bar];
    AdmitInStep(a, b, bar, p);
    AdmittedPrefix(bars, [bar], p, |bars|);
    AdmittedOneMore(bars, bar, p);
    AdmitLogs(a, bar, p);
    AdmittedExactly(more, p, |bars|);
    StepLogsExactly(more, p, |bars|);
    RejectsExactly(b, more, p, |bars|);
    if p.duplicates == KeepLast {
      DisplacesExactly(b, more, p, |bars|);
    }
  }

  ghost predicate FileLogsAgree(file: seq<Line>, p: Policy, n: nat, a: Acc)
    requires n <= |file|
  {
    && InStep(a, Admitted(ValidBars(file, n), p, |ValidBars(file, n)|))
    && a.rejections == FileRejections(file, p, n) && a.changes == FileChanges(file, p, n)
  }

  lemma AcceptedLineLogs(file: seq<Line>, p: Policy, n: nat, a: Acc)
    requires 0 < n <= |file| && FileLogsAgree(file, p, n - 1, a) && !CleanLine(a, p, n, file[n - 1]).fatal
    requires file[n - 1].Row? && file[n - 1].verdict.Accept?
    ensures FileLogsAgree(file, p, n, CleanLine(a, p, n, file[n - 1]))
  {
    var bars, bar, log := ValidBars(file, n - 1), file[n - 1].verdict.bar, file[n - 1].log;
    AcceptedLogs(Counted(a, log), Admitted(bars, p, |bars|), bars, bar, p);
    assert (a.changes + log) + DropAt(bars + [bar], p, |bars|) == a.changes + (log + DropAt(bars + [bar], p, |bars|));
  }

  lemma LineLogs(file: seq<Line>, p: Policy, n: nat, a: Acc)
    requires 0 < n <= |file| && FileLogsAgree(file, p, n - 1, a) && !CleanLine(a, p, n, file[n - 1]).fatal
    ensures FileLogsAgree(file, p, n, CleanLine(a, p, n, file[n - 1]))
  {
    var bars, read := ValidBars(file, n - 1), file[n - 1];
    if read.Row? && read.verdict.Accept? {
      AcceptedLineLogs(file, p, n, a);
    } else {
      assert bars + [] == bars && a.rejections + [] == a.rejections && a.changes + [] == a.changes;
    }
  }

  lemma NotFatalBefore(file: seq<Line>, p: Policy, n: nat)
    requires 0 < n <= |file| && !Cleaned(file, p, n).fatal
    ensures !Cleaned(file, p, n - 1).fatal && Cleaned(file, p, n) == CleanLine(Cleaned(file, p, n - 1), p, n, file[n - 1])
  {
  }

  lemma {:induction false} FileLogs(file: seq<Line>, p: Policy, n: nat)
    requires n <= |file| && !Cleaned(file, p, n).fatal
    ensures FileLogsAgree(file, p, n, Cleaned(file, p, n))
    decreases n
  {
    if n > 0 {
      NotFatalBefore(file, p, n);
      FileLogs(file, p, n - 1);
      LineLogs(file, p, n, Cleaned(file, p, n - 1));
    }
  }

  /** The complete logs of a file that is not refused. Each refused row is rejected under its line for its
      own reason, each repeated or late one as such; each change made to a row is there, each displaced row
      under its line; and at the end, if and only if the rows were not in order, that they were sorted. */
  lemma FileLogsExactly(rd: Reader, schema: Schema, p: Policy, lines: seq<seq<string>>)
    requires !CleanedFile(rd, schema, p, lines).fatal
    ensures var file, out := ReadFile(rd, schema, p, lines), CleanedFile(rd, schema, p, lines);
            && out.inputs == RowLines(rd, schema, lines, |lines|)
            && out.rejections == FileRejections(file, p, |lines|)
            && out.changes == FileChanges(file, p, |lines|)
                              + (if StrictlyOrdered(Cleaned(file, p, |lines|).rows) then [] else [Change(0, Reordered)])
  {
    var file := ReadFile(rd, schema, p, lines);
    FilesAreWellRead(rd, schema, p, lines);
    FileLogs(file, p, |lines|);
    InputsAreRows(rd, schema, p, lines, |lines|);
    SortedExactly(file, p);
    assert FileChanges(file, p, |lines|) + [] == FileChanges(file, p, |lines|);
  }

  /** The lines among the first `n` that hold a row: neither the header nor blank. */
  function RowLines(rd: Reader, schema: Schema, lines: seq<seq<string>>, n: nat): nat
    requires n <= |lines|
  {
    if n == 0 then 0
    else RowLines(rd, schema, lines, n - 1) + if (n == 1 && schema.hasHeader) || BlankRow(rd, lines[n - 1]) then 0 else 1
  }

  lemma {:induction false} InputsAreRows(rd: Reader, schema: Schema, p: Policy, lines: seq<seq<string>>, n: nat)
    requires n <= |lines| && !Cleaned(ReadFile(rd, schema, p, lines), p, n).fatal
    ensures Cleaned(ReadFile(rd, schema, p, lines), p, n).inputs == RowLines(rd, schema, lines, n)
    decreases n
  {
    if n > 0 {
      NotFatalBefore(ReadFile(rd, schema, p, lines), p, n);
      InputsAreRows(rd, schema, p, lines, n - 1);
      LineInputs(Cleaned(ReadFile(rd, schema, p, lines), p, n - 1), p, n, ReadFile(rd, schema, p, lines)[n - 1]);
    }
  }

  lemma LineInputs(a: Acc, p: Policy, line: nat, read: Line)
    ensures CleanLine(a, p, line, read).inputs == a.inputs + if read.Skip? then 0 else 1
  {
  }

  /** Sorting says so exactly when it moved something. */
  lemma SortedExactly(file: seq<Line>, p: Policy)
    requires WellRead(file) && !Cleaned(file, p, |file|).fatal
    ensures var a := Cleaned(file, p, |file|);
            Finished(a).changes == a.changes + if StrictlyOrdered(a.rows) then [] else [Change(0, Reordered)]
  {
    var a := Cleaned(file, p, |file|);
    FileRowsExactly(file, p);
    SortSorts(a.rows);
    CleanedAscends(file, p, |file|);
    if StrictlyOrdered(a.rows) {
      SortKeepsOrdered(a.rows);
      assert a.changes + [] == a.changes;
    } else if SourceLines(SortBars(a.rows)) == SourceLines(a.rows) {
      SameLinesSameRows(a.rows, SortBars(a.rows), |file|);
    }
  }
}
