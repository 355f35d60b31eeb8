/**
 Row cleaning (data/cleaning.py), third part: the whole file. Conservation of rows, the sorted output,
 idempotence, and the loop in its own form over a `CleaningResult` it updates in place.
 */
module CleaningFile {
  import opened Ordering
  import opened RowExamination
  import opened RowReading
  import opened DuplicatesAndOrder

  /** A line of the file as validation reads it. */
  datatype Line = Skip | Row(verdict: Verdict, log: seq<Change>)

  /** The header and blank rows are skipped; every other line is one input row. */
  function ReadLine(rd: Reader, schema: Schema, p: Policy, line: nat, cells: seq<string>): Line {
    if (line == 1 && schema.hasHeader) || BlankRow(rd, cells) then Skip
    else
      var (verdict, log) := Examine(rd, schema, p, line, cells);
      Row(verdict, log)
  }

  /** Lines are numbered from 1. */
  function ReadFile(rd: Reader, schema: Schema, p: Policy, lines: seq<seq<string>>): (file: seq<Line>)
    ensures |file| == |lines|
    ensures forall i :: 0 <= i < |file| ==> file[i] == ReadLine(rd, schema, p, i + 1, lines[i])
  {
    seq(|lines|, i requires 0 <= i < |lines| => ReadLine(rd, schema, p, i + 1, lines[i]))
  }

  ghost predicate WellRead(file: seq<Line>) {
    forall i :: 0 <= i < |file| && file[i].Row? ==>
      LoggedFor(file[i].log, i + 1) && (file[i].verdict.Accept? ==> file[i].verdict.bar.line == i + 1)
  }

  lemma FilesAreWellRead(rd: Reader, schema: Schema, p: Policy, lines: seq<seq<string>>)
    ensures WellRead(ReadFile(rd, schema, p, lines))
  {
    forall i | 0 <= i < |lines| {
      ExamineSound(rd, schema, p, i + 1, lines[i]);
    }
  }

  function Counted(a: Acc, log: seq<Change>): Acc {
    a.(inputs := a.inputs + 1, changes := a.changes + log)
  }

  function CleanLine(a: Acc, p: Policy, line: nat, read: Line): Acc {
    match read
    case Skip => a
    case Row(verdict, log) =>
      var a' := Counted(a, log);
      match verdict
      case Refuse(reason) => a'.(rejections := a'.rejections + [Rejection(line, reason)])
      case Accept(bar) => Admit(a', bar, p)
  }

  /** The loop after its first `n` lines; a refused dataset ends it. */
  function Cleaned(file: seq<Line>, p: Policy, n: nat): Acc
    requires n <= |file|
  {
    if n == 0 then EMPTY
    else
      var a := Cleaned(file, p, n - 1);
      if a.fatal then a else CleanLine(a, p, n, file[n - 1])
  }

  function Dropped(changes: seq<Change>): nat {
    if changes == [] then 0
    else Dropped(changes[..|changes| - 1]) + if changes[|changes| - 1].kind == DroppedDuplicate then 1 else 0
  }

  lemma {:induction false} DroppedAppend(a: seq<Change>, b: seq<Change>)
    ensures Dropped(a + b) == Dropped(a) + Dropped(b)
    decreases |b|
  {
    if b == [] {
      assert a + b == a;
    } else {
      assert (a + b)[..|a + b| - 1] == a + b[..|b| - 1];
      DroppedAppend(a, b[..|b| - 1]);
    }
  }

  lemma {:induction false} RowLogDropsNothing(log: seq<Change>, line: nat)
    requires LoggedFor(log, line)
    ensures Dropped(log) == 0
    decreases |log|
  {
    if log != [] {
      RowLogDropsNothing(log[..|log| - 1], line);
    }
  }

  lemma {:induction false} PopKeyTakesOne(rows: seq<Bar>, key: Key)
    ensures |rows| - 1 <= |PopKey(rows, key)| <= |rows|
    ensures |PopKey(rows, key)| == |rows| ==> PopKey(rows, key) == rows
    decreases |rows|
  {
    if rows != [] {
      PopKeyTakesOne(rows[1..], key);
    }
  }

  /** Nothing disappears: for every policy and every file not refused, each input row is an accepted
      row, a rejection, or a duplicate recorded as dropped. */
  lemma {:induction false} Conserved(file: seq<Line>, p: Policy, n: nat)
    requires n <= |file| && WellRead(file)
    ensures var a := Cleaned(file, p, n); !a.fatal ==> a.inputs == |a.rows| + |a.rejections| + Dropped(a.changes)
  {
    if n > 0 {
      Conserved(file, p, n - 1);
      var a := Cleaned(file, p, n - 1);
      if !a.fatal && file[n - 1].Row? {
        var verdict, log := file[n - 1].verdict, file[n - 1].log;
        RowLogDropsNothing(log, n);
        DroppedAppend(a.changes, log);
        if verdict.Accept? {
          AdmitConserves(Counted(a, log), verdict.bar, p);
        }
      }
    }
  }

  lemma AdmitConserves(a: Acc, b: Bar, p: Policy)
    ensures var a' := Admit(a, b, p); !a'.fatal ==>
              |a'.rows| + |a'.rejections| + Dropped(a'.changes) == |a.rows| + |a.rejections| + Dropped(a.changes) + 1
  {
    PopKeyTakesOne(a.rows, KeyOf(b));
    if KeyOf(b) in a.seen {
      var change := Change(a.seen[KeyOf(b)], DroppedDuplicate);
      assert (a.changes + [change])[..|a.changes|] == a.changes;
    }
  }

  /** The rows of the first `n` lines that pass validation. */
  function ValidBars(file: seq<Line>, n: nat): seq<Bar>
    requires n <= |file|
  {
    if n == 0 then []
    else ValidBars(file, n - 1)
         + BarOf(file[n - 1])
  }

  /** The row a line gives, if it passes validation. */
  function BarOf(read: Line): seq<Bar> {
    if read.Row? && read.verdict.Accept? then [read.verdict.bar] else []
  }

  lemma AdmittedLast(bars: seq<Bar>, p: Policy, n: nat, a: Acc, b: Bar)
    requires 0 < n <= |bars| && b == bars[n - 1] && a == Admitted(bars, p, n - 1)
    ensures Admitted(bars, p, n) == if a.fatal then a else Admit(a, b, p)
  {
  }

  lemma {:induction false} AdmittedAgree(bars: seq<Bar>, other: seq<Bar>, p: Policy, n: nat)
    requires n <= |bars| && n <= |other| && forall i :: 0 <= i < n ==> bars[i] == other[i]
    ensures Admitted(other, p, n) == Admitted(bars, p, n)
    decreases n
  {
    if n > 0 {
      AdmittedAgree(bars, other, p, n - 1);
      var a, b := Admitted(bars, p, n - 1), bars[n - 1];
      assert other[n - 1] == b && Admitted(other, p, n - 1) == a;
      AdmittedLast(bars, p, n, a, b);
      AdmittedLast(other, p, n, a, b);
    }
  }

  lemma AdmittedPrefix(bars: seq<Bar>, more: seq<Bar>, p: Policy, n: nat)
    requires n <= |bars|
    ensures Admitted(bars + more, p, n) == Admitted(bars, p, n)
  {
    AdmittedAgree(bars, bars + more, p, n);
  }

  ghost predicate SameTables(a: Acc, b: Acc) {
    a.fatal == b.fatal && a.rows == b.rows && (!a.fatal ==> a.seen.Keys == b.seen.Keys && a.last == b.last)
  }

  lemma AdmitSameTables(a: Acc, b: Acc, bar: Bar, p: Policy)
    requires SameTables(a, b) && !a.fatal
    ensures SameTables(Admit(a, bar, p), Admit(b, bar, p))
  {
    assert KeyOf(bar) in a.seen <==> KeyOf(bar) in b.seen.Keys;
  }

  lemma AdmittedOneMore(bars: seq<Bar>, bar: Bar, p: Policy)
    ensures var a := Admitted(bars, p, |bars|);
            Admitted(bars + [bar], p, |bars + [bar]|) == if a.fatal then a else Admit(a, bar, p)
  {
    AdmittedPrefix(bars, [bar], p, |bars|);
  }

  lemma LineSameTables(a: Acc, b: Acc, bars: seq<Bar>, p: Policy, line: nat, read: Line)
    requires SameTables(a, b) && b == Admitted(bars, p, |bars|) && !a.fatal
    ensures var more := bars + BarOf(read); SameTables(CleanLine(a, p, line, read), Admitted(more, p, |more|))
  {
    if read.Row? && read.verdict.Accept? {
      AdmittedOneMore(bars, read.verdict.bar, p);
      AcceptedSameTables(a, b, p, line, read);
    } else {
      RefusedSameTables(a, b, p, line, read);
      assert bars + [] == bars;
    }
  }

  lemma AcceptedSameTables(a: Acc, b: Acc, p: Policy, line: nat, read: Line)
    requires SameTables(a, b) && !a.fatal && read.Row? && read.verdict.Accept?
    ensures SameTables(CleanLine(a, p, line, read), Admit(b, read.verdict.bar, p))
  {
    AdmitSameTables(Counted(a, read.log), b, read.verdict.bar, p);
  }

  lemma RefusedSameTables(a: Acc, b: Acc, p: Policy, line: nat, read: Line)
    requires SameTables(a, b) && BarOf(read) == []
    ensures SameTables(CleanLine(a, p, line, read), b)
  {
  }

  lemma FatalSameTables(a: Acc, b: Acc, bars: seq<Bar>, p: Policy, more: seq<Bar>)
    requires SameTables(a, b) && b == Admitted(bars, p, |bars|) && a.fatal && |more| <= 1
    ensures SameTables(a, Admitted(bars + more, p, |bars + more|))
  {
    AdmittedPrefix(bars, more, p, |bars|);
    assert more == [] ==> bars + more == bars;
  }

  /** Validation and the duplicate step do not interfere: the file's rows are what the duplicate step
      makes of the valid bars alone. */
  lemma {:induction false} CleanedIsAdmitted(file: seq<Line>, p: Policy, n: nat)
    requires n <= |file|
    ensures SameTables(Cleaned(file, p, n), Admitted(ValidBars(file, n), p, |ValidBars(file, n)|))
  {
    if n > 0 {
      CleanedIsAdmitted(file, p, n - 1);
      var a, bars := Cleaned(file, p, n - 1), ValidBars(file, n - 1);
      var b := Admitted(bars, p, |bars|);
      if a.fatal {
        FatalSameTables(a, b, bars, p, BarOf(file[n - 1]));
      } else {
        LineSameTables(a, b, bars, p, n, file[n - 1]);
      }
    }
  }

  /** The rows a file is cleaned to, before sorting, and when it is refused. */
  lemma FileRowsExactly(file: seq<Line>, p: Policy)
    ensures var a, bars := Cleaned(file, p, |file|), ValidBars(file, |file|);
            && (a.fatal <==> p.duplicates == RejectDataset && KeptTwice(bars, p, |bars|))
            && (a.fatal ==> a.rows == [])
            && (!a.fatal ==> a.rows == Survivors(bars, p, |bars|, |bars|) && DistinctKeys(a.rows))
  {
    CleanedIsAdmitted(file, p, |file|);
    var bars := ValidBars(file, |file|);
    AdmittedExactly(bars, p, |bars|);
    FatalIsEmpty(bars, p, |bars|);
  }

  lemma {:induction false} FatalIsEmpty(bars: seq<Bar>, p: Policy, n: nat)
    requires n <= |bars|
    ensures Admitted(bars, p, n).fatal ==> Admitted(bars, p, n).rows == []
  {
    if n > 0 {
      FatalIsEmpty(bars, p, n - 1);
    }
  }

  // ----- sorting -----

  /** By timestamp, then symbol. */
  predicate Before(a: Bar, b: Bar) {
    a.timestamp < b.timestamp || (a.timestamp == b.timestamp && Less(a.symbol, b.symbol))
  }

  lemma BeforeIsTotal(a: Bar, b: Bar, c: Bar)
    ensures KeyOf(a) != KeyOf(b) ==> Before(a, b) || Before(b, a)
    ensures !(Before(a, b) && Before(b, a))
    ensures Before(a, b) && Before(b, c) ==> Before(a, c)
  {
    Trichotomy(a.symbol, b.symbol);
    if Less(a.symbol, b.symbol) && Less(b.symbol, c.symbol) {
      Transitive(a.symbol, b.symbol, c.symbol);
    }
  }

  ghost predicate StrictlyOrdered(rows: seq<Bar>) {
    forall i, j :: 0 <= i < j < |rows| ==> Before(rows[i], rows[j])
  }

  function InsertBar(sorted: seq<Bar>, b: Bar): seq<Bar> {
    if sorted == [] || Before(b, sorted[0]) then [b] + sorted else [sorted[0]] + InsertBar(sorted[1..], b)
  }

  /** `sorted(rows, key=(timestamp, symbol))`. */
  function SortBars(rows: seq<Bar>): seq<Bar> {
    if rows == [] then [] else InsertBar(SortBars(rows[..|rows| - 1]), rows[|rows| - 1])
  }

  lemma {:induction false} InsertPermutes(sorted: seq<Bar>, b: Bar)
    ensures multiset(InsertBar(sorted, b)) == multiset(sorted) + multiset{b}
    ensures forall x :: x in InsertBar(sorted, b) ==> x == b || x in sorted
    decreases |sorted|
  {
    if sorted != [] {
      assert sorted == [sorted[0]] + sorted[1..];
      InsertPermutes(sorted[1..], b);
    }
  }

  lemma {:induction false} InsertSorts(sorted: seq<Bar>, b: Bar)
    requires StrictlyOrdered(sorted) && !HasKey(sorted, KeyOf(b))
    ensures StrictlyOrdered(InsertBar(sorted, b))
    decreases |sorted|
  {
    if sorted != [] {
      var first, rest := sorted[0], sorted[1..];
      assert KeyOf(first) != KeyOf(b);
      BeforeIsTotal(b, first, b);
      assert forall i :: 0 <= i < |rest| ==> rest[i] == sorted[i + 1];
      if Before(b, first) {
        forall i | 0 <= i < |rest| ensures Before(b, rest[i]) {
          BeforeIsTotal(b, first, rest[i]);
        }
      } else {
        InsertSorts(rest, b);
        InsertPermutes(rest, b);
        var tail := InsertBar(rest, b);
        forall i | 0 <= i < |tail| ensures Before(first, tail[i]) {
          assert tail[i] in tail;
        }
      }
    }
  }

  lemma {:induction false} SortSorts(rows: seq<Bar>)
    requires DistinctKeys(rows)
    ensures StrictlyOrdered(SortBars(rows)) && multiset(SortBars(rows)) == multiset(rows)
    decreases |rows|
  {
    if rows != [] {
      var init, b := rows[..|rows| - 1], rows[|rows| - 1];
      assert rows == init + [b];
      SortSorts(init);
      forall i | 0 <= i < |SortBars(init)| ensures KeyOf(SortBars(init)[i]) != KeyOf(b) {
        assert SortBars(init)[i] in multiset(init);
        assert SortBars(init)[i] in init;
      }
      InsertSorts(SortBars(init), b);
      InsertPermutes(SortBars(init), b);
    }
  }

  lemma {:induction false} InsertLast(sorted: seq<Bar>, b: Bar)
    requires forall i :: 0 <= i < |sorted| ==> Before(sorted[i], b)
    ensures InsertBar(sorted, b) == sorted + [b]
    decreases |sorted|
  {
    if sorted != [] {
      BeforeIsTotal(sorted[0], b, b);
      InsertLast(sorted[1..], b);
    }
  }

  lemma {:induction false} SortKeepsOrdered(rows: seq<Bar>)
    requires StrictlyOrdered(rows)
    ensures SortBars(rows) == rows
    decreases |rows|
  {
    if rows != [] {
      SortKeepsOrdered(rows[..|rows| - 1]);
      InsertLast(rows[..|rows| - 1], rows[|rows| - 1]);
    }
  }

  function SourceLines(rows: seq<Bar>): (ls: seq<nat>)
    ensures |ls| == |rows| && forall i :: 0 <= i < |rows| ==> ls[i] == rows[i].line
  {
    if rows == [] then [] else SourceLines(rows[..|rows| - 1]) + [rows[|rows| - 1].line]
  }

  /** The end of `clean`: sort, and say so if that moved anything. */
  function Finished(a: Acc): Acc {
    var ordered := SortBars(a.rows);
    if a.rows == [] || SourceLines(ordered) == SourceLines(a.rows) then a
    else a.(rows := ordered, changes := a.changes + [Change(0, Reordered)])
  }

  ghost predicate LinesAscend(rows: seq<Bar>, n: nat) {
    && (forall i, j :: 0 <= i < j < |rows| ==> rows[i].line < rows[j].line)
    && (forall i :: 0 <= i < |rows| ==> rows[i].line <= n)
  }

  lemma {:induction false} PopKeyAscends(rows: seq<Bar>, key: Key, n: nat)
    requires LinesAscend(rows, n)
    ensures LinesAscend(PopKey(rows, key), n)
    ensures forall r :: r in PopKey(rows, key) ==> r in rows
    decreases |rows|
  {
    if rows != [] {
      assert forall i :: 0 <= i < |rows[1..]| ==> rows[1..][i] == rows[i + 1];
      PopKeyAscends(rows[1..], key, n);
      var tail := PopKey(rows[1..], key);
      forall i | 0 <= i < |tail| ensures tail[i].line > rows[0].line {
        assert tail[i] in rows[1..];
      }
    }
  }

  lemma AdmitAscends(a: Acc, b: Bar, p: Policy, n: nat)
    requires LinesAscend(a.rows, n) && b.line == n + 1 && !a.fatal
    ensures LinesAscend(Admit(a, b, p).rows, n + 1)
  {
    PopKeyAscends(a.rows, KeyOf(b), n);
    AdmitParts(a, b, p);
    AscendOneMore(Kept(a, b, p), b, n);
    AdmitFatal(a, b, p);
  }

  lemma AscendOneMore(rows: seq<Bar>, b: Bar, n: nat)
    requires LinesAscend(rows, n) && b.line == n + 1
    ensures LinesAscend(rows + [b], n + 1) && LinesAscend(rows + [], n + 1)
  {
  }

  lemma AdmitFatal(a: Acc, b: Bar, p: Policy)
    requires !a.fatal
    ensures Admit(a, b, p).fatal ==> Admit(a, b, p).rows == []
  {
  }

  lemma LineAscends(a: Acc, p: Policy, n: nat, read: Line)
    requires LinesAscend(a.rows, n) && !a.fatal && (read.Row? && read.verdict.Accept? ==> read.verdict.bar.line == n + 1)
    ensures LinesAscend(CleanLine(a, p, n + 1, read).rows, n + 1)
  {
    if read.Row? && read.verdict.Accept? {
      AdmitAscends(Counted(a, read.log), read.verdict.bar, p, n);
    }
  }

  lemma {:induction false} CleanedAscends(file: seq<Line>, p: Policy, n: nat)
    requires n <= |file| && WellRead(file)
    ensures LinesAscend(Cleaned(file, p, n).rows, n)
  {
    if n > 0 {
      CleanedAscends(file, p, n - 1);
      if !Cleaned(file, p, n - 1).fatal {
        LineAscends(Cleaned(file, p, n - 1), p, n - 1, file[n - 1]);
      }
    }
  }

  lemma SameLinesSameRows(rows: seq<Bar>, other: seq<Bar>, n: nat)
    requires LinesAscend(rows, n) && multiset(other) == multiset(rows) && SourceLines(other) == SourceLines(rows)
    ensures other == rows
  {
    var ls := SourceLines(rows);
    assert |other| == |SourceLines(other)|;
    forall i | 0 <= i < |rows| ensures other[i] == rows[i] {
      assert other[i].line == ls[i] == rows[i].line;
      assert other[i] in multiset(rows);
      LineIdentifies(rows, i, other[i], n);
    }
  }

  lemma LineIdentifies(rows: seq<Bar>, i: nat, b: Bar, n: nat)
    requires LinesAscend(rows, n) && i < |rows| && b in rows && b.line == rows[i].line
    ensures b == rows[i]
  {
    var j :| 0 <= j < |rows| && rows[j] == b;
  }

  /** What the importer receives: for every policy and every file not refused, the rows that survive,
      each once, in strict (timestamp, symbol) order, so no two share a key. */
  lemma OutputExactly(file: seq<Line>, p: Policy)
    requires WellRead(file) && !Cleaned(file, p, |file|).fatal
    ensures var bars := ValidBars(file, |file|);
            var out := Finished(Cleaned(file, p, |file|)).rows;
            && multiset(out) == multiset(Survivors(bars, p, |bars|, |bars|))
            && StrictlyOrdered(out) && DistinctKeys(out)
  {
    FileRowsExactly(file, p);
    var a := Cleaned(file, p, |file|);
    SortSorts(a.rows);
    CleanedAscends(file, p, |file|);
    if SourceLines(SortBars(a.rows)) == SourceLines(a.rows) {
      SameLinesSameRows(a.rows, SortBars(a.rows), |file|);
    }
    var out := Finished(a).rows;
    forall i, j | 0 <= i < j < |out| ensures KeyOf(out[i]) != KeyOf(out[j]) {
      Trichotomy(out[i].symbol, out[j].symbol);
    }
  }

  /** What `clean` ends with for the lines it was given. */
  function CleanedFile(rd: Reader, schema: Schema, p: Policy, lines: seq<seq<string>>): Acc {
    var a := Cleaned(ReadFile(rd, schema, p, lines), p, |lines|);
    if a.fatal then a else Finished(a)
  }

  /** Every input row of the file is in the output, rejected, or dropped as a duplicate; and the output is
      the rows that survive, each once, in strict order. */
  lemma CleanedFileExactly(rd: Reader, schema: Schema, p: Policy, lines: seq<seq<string>>)
    ensures var bars, a := ValidBars(ReadFile(rd, schema, p, lines), |lines|), CleanedFile(rd, schema, p, lines);
            && (a.fatal ==> a.rows == [])
            && (!a.fatal ==> a.inputs == |a.rows| + |a.rejections| + Dropped(a.changes))
            && (!a.fatal ==> multiset(a.rows) == multiset(Survivors(bars, p, |bars|, |bars|)))
            && StrictlyOrdered(a.rows) && DistinctKeys(a.rows)
  {
    var file := ReadFile(rd, schema, p, lines);
    FilesAreWellRead(rd, schema, p, lines);
    FileRowsExactly(file, p);
    Conserved(file, p, |file|);
    if !Cleaned(file, p, |file|).fatal {
      OutputExactly(file, p);
      FinishedConserves(Cleaned(file, p, |file|));
    }
  }

  /** The bar is what line `b.line` of the file says, which is a row that may be accepted. */
  predicate ReadFrom(rd: Reader, schema: Schema, p: Policy, lines: seq<seq<string>>, b: Bar) {
    && 1 <= b.line <= |lines| && !((b.line == 1 && schema.hasHeader) || BlankRow(rd, lines[b.line - 1]))
    && Acceptable(rd, schema, p, lines[b.line - 1]) && CarriesCells(rd, schema, p, lines[b.line - 1], b)
  }

  lemma ReadLineGives(rd: Reader, schema: Schema, p: Policy, line: nat, cells: seq<string>, v: Verdict)
    requires v == Examine(rd, schema, p, line, cells).0
    ensures BarOf(ReadLine(rd, schema, p, line, cells))
         == if ((line == 1 && schema.hasHeader) || BlankRow(rd, cells)) || v.Refuse? then [] else [v.bar]
  {
  }

  /** A line gives a bar exactly when it is neither the header nor blank and may be accepted. */
  lemma LineGivesBar(rd: Reader, schema: Schema, p: Policy, lines: seq<seq<string>>, i: nat)
    requires i < |lines|
    ensures var bars := BarOf(ReadLine(rd, schema, p, i + 1, lines[i]));
            && |bars| == (if !(i == 0 && schema.hasHeader) && !BlankRow(rd, lines[i]) && Acceptable(rd, schema, p, lines[i]) then 1 else 0)
            && (bars != [] ==> bars[0].line == i + 1 && ReadFrom(rd, schema, p, lines, bars[0]))
  {
    var v := Examine(rd, schema, p, i + 1, lines[i]).0;
    ExamineExactly(rd, schema, p, i + 1, lines[i]);
    ReadLineGives(rd, schema, p, i + 1, lines[i], v);
    if v.Accept? {
      GivenIsRead(rd, schema, p, lines, i, v);
    }
  }

  lemma GivenIsRead(rd: Reader, schema: Schema, p: Policy, lines: seq<seq<string>>, i: nat, v: Verdict)
    requires i < |lines| && v.Accept? && Acceptable(rd, schema, p, lines[i])
    requires CarriesCells(rd, schema, p, lines[i], v.bar) && v.bar.line == i + 1
    ensures !((i == 0 && schema.hasHeader) || BlankRow(rd, lines[i])) ==> ReadFrom(rd, schema, p, lines, v.bar)
  {
  }

  ghost predicate AllReadFrom(rd: Reader, schema: Schema, p: Policy, lines: seq<seq<string>>, bars: seq<Bar>) {
    forall b <- bars :: ReadFrom(rd, schema, p, lines, b)
  }

  lemma {:induction false} ValidBarsRead(rd: Reader, schema: Schema, p: Policy, lines: seq<seq<string>>, file: seq<Line>, n: nat)
    requires n <= |lines| == |file|
    requires forall i :: 0 <= i < |file| ==> AllReadFrom(rd, schema, p, lines, BarOf(file[i]))
    ensures AllReadFrom(rd, schema, p, lines, ValidBars(file, n))
    decreases n
  {
    if n > 0 {
      ValidBarsRead(rd, schema, p, lines, file, n - 1);
      assert AllReadFrom(rd, schema, p, lines, BarOf(file[n - 1]));
    }
  }

  lemma LineReads(rd: Reader, schema: Schema, p: Policy, lines: seq<seq<string>>, i: nat)
    requires i < |lines|
    ensures AllReadFrom(rd, schema, p, lines, BarOf(ReadFile(rd, schema, p, lines)[i]))
  {
    LineGivesBar(rd, schema, p, lines, i);
  }

  /** Every row of a cleaned file is what its line says. */
  lemma CleanedFileReads(rd: Reader, schema: Schema, p: Policy, lines: seq<seq<string>>)
    ensures AllReadFrom(rd, schema, p, lines, CleanedFile(rd, schema, p, lines).rows)
  {
    var file, a := ReadFile(rd, schema, p, lines), CleanedFile(rd, schema, p, lines);
    var bars := ValidBars(file, |lines|);
    forall i | 0 <= i < |file| ensures AllReadFrom(rd, schema, p, lines, BarOf(file[i])) {
      LineReads(rd, schema, p, lines, i);
    }
    ValidBarsRead(rd, schema, p, lines, file, |lines|);
    CleanedFileExactly(rd, schema, p, lines);
    SurvivorsAreBars(bars, p, |bars|, |bars|);
    forall b | b in a.rows ensures ReadFrom(rd, schema, p, lines, b) {
      assert b in multiset(a.rows) && b in multiset(Survivors(bars, p, |bars|, |bars|));
      assert b in bars;
    }
  }

  lemma FinishedConserves(a: Acc)
    ensures var out := Finished(a);
            |out.rows| == |a.rows| && out.inputs == a.inputs && out.rejections == a.rejections && Dropped(out.changes) == Dropped(a.changes)
  {
    SortKeepsLength(a.rows);
    DroppedAppend(a.changes, [Change(0, Reordered)]);
  }

  lemma {:induction false} SortKeepsLength(rows: seq<Bar>)
    ensures |SortBars(rows)| == |rows|
    decreases |rows|
  {
    if rows != [] {
      SortKeepsLength(rows[..|rows| - 1]);
      InsertPermutes(SortBars(rows[..|rows| - 1]), rows[|rows| - 1]);
      assert |multiset(SortBars(rows))| == |rows|;
    }
  }

  lemma {:induction false} OrderedAllSurvive(bars: seq<Bar>, p: Policy, n: nat, m: nat)
    requires m <= n <= |bars| && StrictlyOrdered(bars)
    ensures Survivors(bars, p, n, m) == bars[..m]
    decreases m
  {
    if m > 0 {
      OrderedAllSurvive(bars, p, n, m - 1);
      var i := m - 1;
      forall j | 0 <= j < n && j != i ensures KeyOf(bars[j]) != KeyOf(bars[i]) {
        Trichotomy(bars[i].symbol, bars[j].symbol);
        assert Before(bars[if i < j then i else j], bars[if i < j then j else i]);
      }
      assert InOrder(bars, i);
      assert bars[..m] == bars[..i] + [bars[i]];
    }
  }

  /** Cleaning is idempotent, under every policy: fed its own output, the duplicate step and the sort
      keep every row, reject nothing, drop nothing and move nothing. */
  lemma CleaningAgainKeepsAll(bars: seq<Bar>, p: Policy)
    requires StrictlyOrdered(bars)
    ensures var a := Finished(Admitted(bars, p, |bars|));
            !a.fatal && a.rows == bars && a.rejections == [] && a.changes == []
  {
    AdmittedExactly(bars, p, |bars|);
    OrderedAllSurvive(bars, p, |bars|, |bars|);
    assert bars[..|bars|] == bars;
    SortKeepsOrdered(bars);
    if KeptTwice(bars, p, |bars|) {
      var i, j :| 0 <= j < i < |bars| && Took(bars, p, j, KeyOf(bars[i]));
      assert Before(bars[j], bars[i]);
      Trichotomy(bars[i].symbol, bars[j].symbol);
    }
  }

  // ----- the code's own form -----

  const MAX_LOGGED := 500

  function Head<T>(s: seq<T>): seq<T> {
    if |s| <= MAX_LOGGED then s else s[..MAX_LOGGED]
  }

  function Reasons(rs: seq<Rejection>): multiset<Reason> {
    if rs == [] then multiset{} else Reasons(rs[..|rs| - 1]) + multiset{rs[|rs| - 1].reason}
  }

  function Kinds(cs: seq<Change>): multiset<Kind> {
    if cs == [] then multiset{} else Kinds(cs[..|cs| - 1]) + multiset{cs[|cs| - 1].kind}
  }

  lemma {:induction false} CountsAreExact(rs: seq<Rejection>, cs: seq<Change>)
    ensures |Reasons(rs)| == |rs| && |Kinds(cs)| == |cs| && Kinds(cs)[DroppedDuplicate] == Dropped(cs)
    decreases |rs| + |cs|
  {
    if rs != [] {
      CountsAreExact(rs[..|rs| - 1], cs);
    } else if cs != [] {
      CountsAreExact(rs, cs[..|cs| - 1]);
    }
  }

  lemma ReasonsOneMore(rs: seq<Rejection>, r: Rejection)
    ensures Reasons(rs + [r]) == Reasons(rs) + multiset{r.reason}
  {
    assert (rs + [r])[..|rs|] == rs;
  }

  lemma KindsOneMore(cs: seq<Change>, c: Change)
    ensures Kinds(cs + [c]) == Kinds(cs) + multiset{c.kind}
  {
    assert (cs + [c])[..|cs|] == cs;
  }

  lemma HeadOneMore<T>(s: seq<T>, x: T)
    ensures Head(s + [x]) == if |Head(s)| < MAX_LOGGED then Head(s) + [x] else Head(s)
  {
  }

  /** With the first `n` entries of a row's log. */
  function WithLog(a: Acc, log: seq<Change>, n: nat): Acc
    requires n <= |log|
  {
    a.(changes := a.changes + log[..n])
  }

  lemma WithLogNext(a: Acc, log: seq<Change>, n: nat)
    requires n < |log|
    ensures WithLog(a, log, n + 1) == WithLog(a, log, n).(changes := WithLog(a, log, n).changes + [log[n]])
  {
    assert log[..n + 1] == log[..n] + [log[n]];
    assert a.changes + (log[..n] + [log[n]]) == (a.changes + log[..n]) + [log[n]];
  }

  lemma WithLogEnds(a: Acc, log: seq<Change>)
    ensures WithLog(a, log, 0) == a && WithLog(a, log, |log|) == a.(changes := a.changes + log)
  {
    assert a.changes + log[..0] == a.changes && log[..|log|] == log;
  }

  class CleaningResult {
    var rows: seq<Bar>
    var rejected: seq<Rejection>
    var transformations: seq<Change>
    var rejectionCounts: multiset<Reason>
    var transformationCounts: multiset<Kind>
    var totalInputRows: nat
    var fatal: bool

    /** The result records `a`: its rows, the first 500 entries of each log, and exact counts of all. */
    ghost predicate Shows(a: Acc)
      reads this
    {
      && rows == a.rows && totalInputRows == a.inputs && fatal == a.fatal
      && rejected == Head(a.rejections) && rejectionCounts == Reasons(a.rejections)
      && transformations == Head(a.changes) && transformationCounts == Kinds(a.changes)
    }

    constructor ()
      ensures Shows(EMPTY)
    {
      rows, rejected, transformations := [], [], [];
      rejectionCounts, transformationCounts := multiset{}, multiset{};
      totalInputRows, fatal := 0, false;
    }

    method Reject(row: Rejection, ghost a: Acc)
      requires Shows(a)
      modifies this`rejected, this`rejectionCounts
      ensures Shows(a.(rejections := a.rejections + [row]))
    {
      ReasonsOneMore(a.rejections, row);
      HeadOneMore(a.rejections, row);
      rejectionCounts := rejectionCounts[row.reason := rejectionCounts[row.reason] + 1];
      if |rejected| < MAX_LOGGED {
        rejected := rejected + [row];
      }
    }

    method Transform(change: Change, ghost a: Acc)
      requires Shows(a)
      modifies this`transformations, this`transformationCounts
      ensures Shows(a.(changes := a.changes + [change]))
    {
      KindsOneMore(a.changes, change);
      HeadOneMore(a.changes, change);
      transformationCounts := transformationCounts[change.kind := transformationCounts[change.kind] + 1];
      if |transformations| < MAX_LOGGED {
        transformations := transformations + [change];
      }
    }

    method TransformAll(log: seq<Change>, ghost a: Acc, ghost a': Acc)
      requires Shows(a) && a' == a.(changes := a.changes + log)
      modifies this`transformations, this`transformationCounts
      ensures Shows(a')
    {
      WithLogEnds(a, log);
      for i := 0 to |log|
        invariant Shows(WithLog(a, log, i))
      {
        WithLogNext(a, log, i);
        Transform(log[i], WithLog(a, log, i));
      }
    }

    /** `for position, existing in enumerate(rows): ... rows.pop(position); break`. */
    method PopFirst(key: Key) returns (popped: bool)
      modifies this`rows
      ensures rows == PopKey(old(rows), key) && popped == (|rows| < |old(rows)|)
    {
      for position := 0 to |rows|
        invariant rows == old(rows) && forall i :: 0 <= i < position ==> KeyOf(rows[i]) != key
      {
        if KeyOf(rows[position]) == key {
          PopAt(rows, position, key);
          rows := rows[..position] + rows[position + 1..];
          return true;
        }
      }
      PopAt(rows, |rows|, key);
      return false;
    }
  }

  lemma {:induction false} PopAt(rows: seq<Bar>, n: nat, key: Key)
    requires n <= |rows| && forall i :: 0 <= i < n ==> KeyOf(rows[i]) != key
    requires n < |rows| ==> KeyOf(rows[n]) == key
    ensures PopKey(rows, key) == if n < |rows| then rows[..n] + rows[n + 1..] else rows
    decreases n
  {
    if n > 0 {
      assert forall i :: 0 <= i < |rows[1..]| ==> rows[1..][i] == rows[i + 1];
      PopAt(rows[1..], n - 1, key);
      RestWithout(rows, n);
    }
  }

  lemma RestWithout(rows: seq<Bar>, n: nat)
    requires 0 < n <= |rows|
    ensures rows == [rows[0]] + rows[1..]
    ensures n < |rows| ==> rows[..n] + rows[n + 1..] == [rows[0]] + (rows[1..][..n - 1] + rows[1..][n..])
  {
  }

  /** `clean`: the loop over the lines, then the sort. */
  method Clean(rd: Reader, schema: Schema, p: Policy, lines: seq<seq<string>>) returns (result: CleaningResult)
    ensures fresh(result)
    ensures schema.refused ==> result.Shows(EMPTY.(fatal := true))
    ensures !schema.refused ==> result.Shows(CleanedFile(rd, schema, p, lines))
    ensures !result.fatal ==>
              && result.totalInputRows
                 == |result.rows| + |result.rejectionCounts| + result.transformationCounts[DroppedDuplicate]
              && StrictlyOrdered(result.rows) && DistinctKeys(result.rows)
              && var bars := ValidBars(ReadFile(rd, schema, p, lines), |lines|);
                 multiset(result.rows) == multiset(Survivors(bars, p, |bars|, |bars|))
    ensures AllReadFrom(rd, schema, p, lines, result.rows) && (result.fatal ==> result.rows == [])
  {
    result := CleanLines(rd, schema, p, lines);
    CleanedFileReads(rd, schema, p, lines);
    CleanedFileExactly(rd, schema, p, lines);
    if !result.fatal {
      ghost var a := CleanedFile(rd, schema, p, lines);
      CountsAreExact(a.rejections, a.changes);
    }
  }

  method CleanLines(rd: Reader, schema: Schema, p: Policy, lines: seq<seq<string>>) returns (result: CleaningResult)
    ensures fresh(result)
    ensures result.Shows(if schema.refused then EMPTY.(fatal := true) else CleanedFile(rd, schema, p, lines))
  {
    result := new CleaningResult();
    if schema.refused {
      result.fatal := true;
      return;
    }
    var seen: map<Key, nat> := map[];
    var lastTimestamp: map<string, int> := map[];
    ghost var file := ReadFile(rd, schema, p, lines);
    ghost var a := EMPTY;
    for i := 0 to |lines|
      invariant a == Cleaned(file, p, i) && !a.fatal && fresh(result)
      invariant result.Shows(a) && seen == a.seen && lastTimestamp == a.last
    {
      var read := ReadLine(rd, schema, p, i + 1, lines[i]);
      assert read == file[i];
      if read.Row? {
        seen, lastTimestamp, a := CleanRow(result, p, i + 1, read, seen, lastTimestamp, a);
        if result.fatal {
          FatalStays(file, p, i + 1, |lines|);
          return;
        }
      }
    }
    if result.rows != [] {
      var ordered := SortBars(result.rows);
      if SourceLines(ordered) != SourceLines(result.rows) {
        result.Transform(Change(0, Reordered), a);
        result.rows := ordered;
      }
    }
  }

  lemma {:induction false} FatalStays(file: seq<Line>, p: Policy, m: nat, n: nat)
    requires m <= n <= |file| && Cleaned(file, p, m).fatal
    ensures Cleaned(file, p, n) == Cleaned(file, p, m)
    decreases n - m
  {
    if m < n {
      FatalStays(file, p, m, n - 1);
    }
  }

  /** The loop body for a line that is neither the header nor blank. */
  method CleanRow(result: CleaningResult, p: Policy, line: nat, read: Line,
                  seen: map<Key, nat>, lastTimestamp: map<string, int>, ghost a: Acc)
    returns (seen': map<Key, nat>, lastTimestamp': map<string, int>, ghost a': Acc)
    requires read.Row? && result.Shows(a) && !a.fatal && seen == a.seen && lastTimestamp == a.last
    modifies result
    ensures a' == CleanLine(a, p, line, read)
    ensures result.Shows(a') && seen' == a'.seen && lastTimestamp' == a'.last
  {
    result.totalInputRows := result.totalInputRows + 1;
    ghost var counted := Counted(a, read.log);
    result.TransformAll(read.log, a.(inputs := a.inputs + 1), counted);
    match read.verdict {
      case Refuse(reason) =>
        result.Reject(Rejection(line, reason), counted);
        seen', lastTimestamp' := seen, lastTimestamp;
        a' := counted.(rejections := counted.rejections + [Rejection(line, reason)]);
      case Accept(bar) =>
        seen', lastTimestamp', a' := AdmitBar(result, bar, p, seen, lastTimestamp, counted);
    }
  }

  /** The duplicate and order part of the loop body, on the result and the loop's two tables. */
  method AdmitBar(result: CleaningResult, bar: Bar, p: Policy, seen: map<Key, nat>, lastTimestamp: map<string, int>,
                  ghost a: Acc)
    returns (seen': map<Key, nat>, lastTimestamp': map<string, int>, ghost a': Acc)
    requires result.Shows(a) && !a.fatal && seen == a.seen && lastTimestamp == a.last
    modifies result
    ensures a' == Admit(a, bar, p) && result.Shows(a') && seen' == a'.seen && lastTimestamp' == a'.last
  {
    seen', lastTimestamp', a' := seen, lastTimestamp, a;
    var key := KeyOf(bar);
    if key in seen {
      if p.duplicates == RejectDataset {
        result.fatal := true;
        result.rows := [];
        a' := a.(fatal := true, rows := []);
        return;
      }
      if p.duplicates == KeepFirst {
        result.Reject(Rejection(bar.line, Duplicate), a);
        a' := a.(rejections := a.rejections + [Rejection(bar.line, Duplicate)]);
        return;
      }
      PopKeyTakesOne(result.rows, key);
      var popped := result.PopFirst(key);
      a' := a'.(rows := PopKey(a.rows, key));
      if popped {
        result.Transform(Change(seen[key], DroppedDuplicate), a');
        a' := a'.(changes := a.changes + [Change(seen[key], DroppedDuplicate)]);
      }
    }
    var known := bar.symbol in lastTimestamp;
    if known && bar.timestamp < lastTimestamp[bar.symbol] && p.dropOutOfOrder {
      result.Reject(Rejection(bar.line, OutOfOrder), a');
      a' := a'.(rejections := a'.rejections + [Rejection(bar.line, OutOfOrder)]);
      return;
    }
    seen' := seen[key := bar.line];
    lastTimestamp' := lastTimestamp[bar.symbol :=
      if known && bar.timestamp < lastTimestamp[bar.symbol] then lastTimestamp[bar.symbol] else bar.timestamp];
    result.rows := result.rows + [bar];
    a' := a'.(rows := a'.rows + [bar], seen := seen', last := lastTimestamp');
  }
}
