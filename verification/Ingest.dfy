/**
 The part of an import that follows cleaning (data/ingest.py): check the declared interval against each
 instrument's bars, then move start-stamped bars to the end of their interval.
 */
module Ingest {
  import opened Wrappers
  import opened Ordering
  import opened RowExamination
  import opened DuplicatesAndOrder
  import opened CleaningFile
  import S = Spacing

  // ----- grouping the rows by instrument -----

  /** `stamps.setdefault(row.symbol, []).append(row.timestamp)` over the first `n` rows. */
  function Grouped(rows: seq<Bar>, n: nat): S.Stamps
    requires n <= |rows|
  {
    if n == 0 then map[]
    else
      var stamps, row := Grouped(rows, n - 1), rows[n - 1];
      stamps[row.symbol := (if row.symbol in stamps then stamps[row.symbol] else []) + [row.timestamp]]
  }

  lemma {:induction false} GroupedHas(rows: seq<Bar>, n: nat, i: nat)
    requires i < n <= |rows|
    ensures rows[i].symbol in Grouped(rows, n) && rows[i].timestamp in Grouped(rows, n)[rows[i].symbol]
    decreases n
  {
    if i < n - 1 {
      GroupedHas(rows, n - 1, i);
    }
  }

  /** Every bar's label was one that can be placed, as those that are read are. */
  ghost predicate PlacedRows(rows: seq<Bar>, r: S.Reading) {
    r.WallClock? ==> forall i :: 0 <= i < |rows| ==> S.Placeable(r.zone, rows[i].timestamp)
  }

  lemma {:induction false} GroupedPlaced(rows: seq<Bar>, r: S.Reading, n: nat)
    requires n <= |rows| && PlacedRows(rows, r)
    ensures forall k <- Grouped(rows, n) :: S.Placed(r, Grouped(rows, n)[k])
    decreases n
  {
    if n > 0 {
      GroupedPlaced(rows, r, n - 1);
    }
  }

  // ----- moving the bars -----

  function Length(interval: S.Interval): int {
    if interval.Fixed? then interval.unit else 0
  }

  function MovedBar(b: Bar, unit: int): Bar {
    b.(timestamp := b.timestamp + unit)
  }

  function MovedBars(rows: seq<Bar>, n: nat, unit: int): (moved: seq<Bar>)
    requires n <= |rows|
    ensures |moved| == n && forall i :: 0 <= i < n ==> moved[i] == MovedBar(rows[i], unit)
  {
    if n == 0 then [] else MovedBars(rows, n - 1, unit) + [MovedBar(rows[n - 1], unit)]
  }

  function MoveLog(rows: seq<Bar>, n: nat): seq<Change>
    requires n <= |rows|
  {
    if n == 0 then [] else MoveLog(rows, n - 1) + [Change(rows[n - 1].line, MovedToIntervalEnd)]
  }

  /** A bar of this interval cannot be moved: the interval has no fixed length, or the engine's own
      normalization refuses the bar. */
  predicate Unmovable(interval: S.Interval, refuses: Bar -> bool, b: Bar) {
    interval.Months? || refuses(b)
  }

  /** The first bar from `n` on that cannot be moved, or the end. */
  function FirstUnmovable(rows: seq<Bar>, interval: S.Interval, refuses: Bar -> bool, n: nat): (k: nat)
    requires n <= |rows|
    ensures n <= k <= |rows| && (k < |rows| ==> Unmovable(interval, refuses, rows[k]))
    ensures forall i :: n <= i < k ==> !Unmovable(interval, refuses, rows[i])
    decreases |rows| - n
  {
    if n == |rows| || Unmovable(interval, refuses, rows[n]) then n else FirstUnmovable(rows, interval, refuses, n + 1)
  }

  predicate Moves(a: Acc, d: Option<S.Declaration>) {
    d.Some? && d.value.convention == S.IntervalStart && !a.fatal && a.rows != []
  }

  /** The first `n` bars have been moved, as far as the log shows it. */
  function Logged(a: Acc, n: nat): Acc
    requires n <= |a.rows|
  {
    a.(changes := a.changes + MoveLog(a.rows, n))
  }

  lemma LoggedNext(a: Acc, n: nat)
    requires n < |a.rows|
    ensures Logged(a, n + 1) == Logged(a, n).(changes := Logged(a, n).changes + [Change(a.rows[n].line, MovedToIntervalEnd)])
  {
    assert a.changes + MoveLog(a.rows, n + 1) == (a.changes + MoveLog(a.rows, n)) + [Change(a.rows[n].line, MovedToIntervalEnd)];
  }

  lemma LoggedNone(a: Acc)
    ensures Logged(a, 0) == a
  {
    assert a.changes + [] == a.changes;
  }

  /** The result after the move: every bar moved and logged, or, at the first that cannot be, none kept. */
  function Moved(a: Acc, d: Option<S.Declaration>, refuses: Bar -> bool): Acc {
    if !Moves(a, d) then a
    else
      var k := FirstUnmovable(a.rows, d.value.interval, refuses, 0);
      var logged := Logged(a, k);
      if k < |a.rows| then logged.(rows := [], fatal := true)
      else logged.(rows := MovedBars(a.rows, k, Length(d.value.interval)))
  }

  lemma GroupedTimes(rows: seq<Bar>, d: S.Declaration, r: S.Reading, i: nat, j: nat)
    requires S.Validated(d, r) && d.interval.Fixed? && d.convention == S.IntervalStart && !r.Dates?
    requires i < |rows| && j < |rows| && rows[i].symbol == rows[j].symbol && rows[i].timestamp < rows[j].timestamp
    requires PlacedRows(rows, r) && S.Steady(r, d.interval.unit)
    ensures S.Checked(Grouped(rows, |rows|), d, r, true).Ok? ==> rows[i].timestamp + d.interval.unit <= rows[j].timestamp
  {
    var stamps, k := Grouped(rows, |rows|), rows[i].symbol;
    GroupedHas(rows, |rows|, i);
    GroupedHas(rows, |rows|, j);
    GroupedPlaced(rows, r, |rows|);
    S.AcceptedMeasured(stamps, d, r, true, k);
    if S.Measured(k, stamps[k], d, r).Ok? {
      S.MeasuredTimes(k, stamps[k], d, r, rows[i].timestamp, rows[j].timestamp);
    }
  }

  ghost predicate OnlyTimesMove(rows: seq<Bar>, out: seq<Bar>, unit: int) {
    |out| == |rows| && forall i :: 0 <= i < |rows| ==> out[i] == rows[i].(timestamp := rows[i].timestamp + unit)
  }

  /** No bar of an instrument is known before the next one of that instrument has begun. */
  ghost predicate EndBeforeNextStarts(starts: seq<Bar>, ends: seq<Bar>)
    requires |ends| == |starts|
  {
    forall i, j :: 0 <= i < j < |starts| && starts[i].symbol == starts[j].symbol ==> ends[i].timestamp <= starts[j].timestamp
  }

  lemma MovedEnds(rows: seq<Bar>, d: S.Declaration, r: S.Reading)
    requires S.Validated(d, r) && d.convention == S.IntervalStart && d.interval.Fixed? && !r.Dates?
    requires StrictlyOrdered(rows) && PlacedRows(rows, r) && S.Steady(r, d.interval.unit)
    ensures S.Checked(Grouped(rows, |rows|), d, r, true).Ok? ==>
              EndBeforeNextStarts(rows, MovedBars(rows, |rows|, d.interval.unit))
  {
    if S.Checked(Grouped(rows, |rows|), d, r, true).Ok? {
      forall i, j | 0 <= i < j < |rows| && rows[i].symbol == rows[j].symbol
        ensures rows[i].timestamp + d.interval.unit <= rows[j].timestamp
      {
        Trichotomy(rows[i].symbol, rows[j].symbol);
        assert Before(rows[i], rows[j]);
        GroupedTimes(rows, d, r, i, j);
      }
    }
  }

  /** What a checked and moved dataset is: each bar is the cleaned bar at its interval's end and nothing
      else about it changed; it is still in strict (timestamp, symbol) order, so no two bars share a key;
      and no bar ends after the next bar of its instrument starts, for absolute instants and for every
      zone whose clock does not jump ahead by more than one interval and back within it. */
  lemma MovedDataset(a: Acc, d: S.Declaration, r: S.Reading, refuses: Bar -> bool)
    requires S.Validated(d, r) && d.convention == S.IntervalStart && d.interval.Fixed? && !r.Dates?
    requires StrictlyOrdered(a.rows) && a.rows != [] && !Moved(a, Some(d), refuses).fatal
    ensures var out := Moved(a, Some(d), refuses).rows;
            && OnlyTimesMove(a.rows, out, d.interval.unit)
            && StrictlyOrdered(out) && DistinctKeys(out)
            && (S.Checked(Grouped(a.rows, |a.rows|), d, r, true).Ok? && PlacedRows(a.rows, r) && S.Steady(r, d.interval.unit) ==>
                  EndBeforeNextStarts(a.rows, out))
  {
    var rows, out, unit := a.rows, Moved(a, Some(d), refuses).rows, d.interval.unit;
    assert out == MovedBars(rows, |rows|, unit);
    MovedInOrder(rows, out, unit);
    if PlacedRows(rows, r) && S.Steady(r, unit) {
      MovedEnds(rows, d, r);
    }
  }

  /** Every bar's move is logged under its own line. */
  lemma {:induction false} MoveLogExactly(rows: seq<Bar>, n: nat)
    requires n <= |rows|
    ensures |MoveLog(rows, n)| == n && forall i :: 0 <= i < n ==> MoveLog(rows, n)[i] == Change(rows[i].line, MovedToIntervalEnd)
    decreases n
  {
    if n > 0 {
      MoveLogExactly(rows, n - 1);
    }
  }

  /** Whose bars are moved at all, and what becomes of them: those of a start-stamped declaration, each by
      the interval and each logged; where the interval has no fixed length or the engine refuses a bar, the
      version fails and keeps none. Every other version is left as it is. */
  lemma MovedExactly(a: Acc, d: Option<S.Declaration>, refuses: Bar -> bool)
    ensures var out := Moved(a, d, refuses);
            if d == None || d.value.convention != S.IntervalStart || a.fatal || a.rows == [] then out == a
            else if d.value.interval.Months? || exists i :: 0 <= i < |a.rows| && refuses(a.rows[i]) then
              out.fatal && out.rows == [] && out.rejections == a.rejections
            else
              && !out.fatal && OnlyTimesMove(a.rows, out.rows, d.value.interval.unit)
              && out.rejections == a.rejections && out.changes == a.changes + MoveLog(a.rows, |a.rows|)
  {
    if Moves(a, d) {
      var k := FirstUnmovable(a.rows, d.value.interval, refuses, 0);
      if k < |a.rows| {
        assert Unmovable(d.value.interval, refuses, a.rows[k]);
      }
    }
  }

  lemma MovedInOrder(rows: seq<Bar>, out: seq<Bar>, unit: int)
    requires StrictlyOrdered(rows) && OnlyTimesMove(rows, out, unit)
    ensures StrictlyOrdered(out) && DistinctKeys(out)
  {
    forall i, j | 0 <= i < j < |out| ensures Before(out[i], out[j]) && KeyOf(out[i]) != KeyOf(out[j]) {
      assert Before(rows[i], rows[j]);
      Trichotomy(rows[i].symbol, rows[j].symbol);
    }
  }

  // ----- from the file to the dataset -----

  /** Only labels that name a single instant are read, as `label_instant` refuses the others. */
  ghost predicate PlacesLabels(rd: Reader, r: S.Reading) {
    r.WallClock? ==> forall text :: rd.parseTimestamp(text).Some? ==> S.Placeable(r.zone, rd.parseTimestamp(text).value)
  }

  lemma BarPlaced(rd: Reader, schema: Schema, p: Policy, line: nat, cells: seq<string>, r: S.Reading, read: Line)
    requires PlacesLabels(rd, r) && read == ReadLine(rd, schema, p, line, cells)
    ensures PlacedRows(BarOf(read), r)
  {
    BarTime(rd, schema, p, line, cells);
  }

  ghost predicate LinesPlaced(file: seq<Line>, r: S.Reading) {
    forall i :: 0 <= i < |file| ==> PlacedRows(BarOf(file[i]), r)
  }

  lemma {:induction false} ValidBarsPlaced(file: seq<Line>, r: S.Reading, n: nat)
    requires LinesPlaced(file, r) && n <= |file|
    ensures PlacedRows(ValidBars(file, n), r)
    decreases n
  {
    if n > 0 {
      ValidBarsPlaced(file, r, n - 1);
      assert PlacedRows(BarOf(file[n - 1]), r);
      PlacedAppend(ValidBars(file, n - 1), BarOf(file[n - 1]), r);
    }
  }

  lemma PlacedAppend(rows: seq<Bar>, more: seq<Bar>, r: S.Reading)
    requires PlacedRows(rows, r) && PlacedRows(more, r)
    ensures PlacedRows(rows + more, r)
  {
  }

  lemma LinePlaced(rd: Reader, schema: Schema, p: Policy, lines: seq<seq<string>>, r: S.Reading, i: nat)
    requires PlacesLabels(rd, r) && i < |lines|
    ensures PlacedRows(BarOf(ReadFile(rd, schema, p, lines)[i]), r)
  {
    BarPlaced(rd, schema, p, i + 1, lines[i], r, ReadFile(rd, schema, p, lines)[i]);
  }

  lemma FilePlaced(rd: Reader, schema: Schema, p: Policy, lines: seq<seq<string>>, r: S.Reading)
    requires PlacesLabels(rd, r)
    ensures LinesPlaced(ReadFile(rd, schema, p, lines), r)
  {
    forall i | 0 <= i < |lines| ensures PlacedRows(BarOf(ReadFile(rd, schema, p, lines)[i]), r) {
      LinePlaced(rd, schema, p, lines, r, i);
    }
  }

  lemma CleanedFilePlaced(rd: Reader, schema: Schema, p: Policy, lines: seq<seq<string>>, r: S.Reading)
    requires PlacesLabels(rd, r)
    ensures PlacedRows(CleanedFile(rd, schema, p, lines).rows, r)
  {
    var bars, a := ValidBars(ReadFile(rd, schema, p, lines), |lines|), CleanedFile(rd, schema, p, lines);
    CleanedFileExactly(rd, schema, p, lines);
    FilePlaced(rd, schema, p, lines, r);
    ValidBarsPlaced(ReadFile(rd, schema, p, lines), r, |lines|);
    SurvivorsAreBars(bars, p, |bars|, |bars|);
    forall i | 0 <= i < |a.rows| && r.WallClock? ensures S.Placeable(r.zone, a.rows[i].timestamp) {
      assert a.rows[i] in multiset(Survivors(bars, p, |bars|, |bars|));
      assert a.rows[i] in bars;
    }
  }

  /** The whole way from a file of start-stamped bars to its dataset: cleaned, accepted by the interval
      check and moved, the bars are those of the file in strict order, one for each key, at the ends of
      their intervals, and no bar is known before the next one of its instrument has begun. */
  lemma ImportedFile(rd: Reader, schema: Schema, p: Policy, lines: seq<seq<string>>, d: S.Declaration, r: S.Reading,
                     refuses: Bar -> bool)
    requires S.Validated(d, r) && d.convention == S.IntervalStart && d.interval.Fixed? && !r.Dates?
    requires PlacesLabels(rd, r) && S.Steady(r, d.interval.unit)
    requires var a := CleanedFile(rd, schema, p, lines);
             && a.rows != [] && S.Checked(Grouped(a.rows, |a.rows|), d, r, true).Ok? && !Moved(a, Some(d), refuses).fatal
    ensures var a := CleanedFile(rd, schema, p, lines);
            var out := Moved(a, Some(d), refuses).rows;
            && OnlyTimesMove(a.rows, out, d.interval.unit) && EndBeforeNextStarts(a.rows, out)
            && StrictlyOrdered(out) && DistinctKeys(out)
  {
    CleanedFileExactly(rd, schema, p, lines);
    CleanedFilePlaced(rd, schema, p, lines, r);
    MovedDataset(CleanedFile(rd, schema, p, lines), d, r, refuses);
  }

  // ----- the code's own form -----

  /** `_check_spacing`: a refusal fails the version and empties it; acceptance changes nothing. */
  method CheckSpacing(result: CleaningResult, declaration: Option<S.Declaration>, r: S.Reading) returns (report: Option<S.Report>)
    requires declaration.Some? ==> S.Validated(declaration.value, r)
    modifies result`rows, result`fatal
    ensures declaration.None? || old(result.fatal) || old(result.rows) == [] ==>
              report == None && result.rows == old(result.rows) && result.fatal == old(result.fatal)
    ensures declaration.Some? && !old(result.fatal) && old(result.rows) != [] ==>
              match S.Checked(Grouped(old(result.rows), |old(result.rows)|), declaration.value, r, true)
              case Ok(accepted) => report == Some(accepted) && result.rows == old(result.rows) && !result.fatal
              case Err(_) => report == None && result.rows == [] && result.fatal
  {
    if declaration.None? || result.fatal || result.rows == [] {
      return None;
    }
    var stamps: S.Stamps := map[];
    for i := 0 to |result.rows|
      invariant stamps == Grouped(result.rows, i)
    {
      var row := result.rows[i];
      stamps := stamps[row.symbol := (if row.symbol in stamps then stamps[row.symbol] else []) + [row.timestamp]];
    }
    var checked := S.CheckSpacing(stamps, declaration.value, r, true);
    match checked {
      case Ok(accepted) => return Some(accepted);
      case Err(_) =>
        result.fatal := true;
        result.rows := [];
        return None;
    }
  }

  /** Move one bar and log it; None where it cannot be moved. */
  method MoveOne(result: CleaningResult, i: nat, interval: S.Interval, refuses: Bar -> bool, ghost a: Acc, ghost now: Acc)
    returns (moved: Option<Bar>, ghost next: Acc)
    requires i < |a.rows| && now == Logged(a, i) && result.Shows(now)
    modifies result`transformations, result`transformationCounts
    ensures moved == if Unmovable(interval, refuses, a.rows[i]) then None else Some(MovedBar(a.rows[i], Length(interval)))
    ensures next == Logged(a, if moved.Some? then i + 1 else i) && result.Shows(next)
  {
    next := now;
    var row := result.rows[i];
    if interval.Months? || refuses(row) {
      return None, next;
    }
    LoggedNext(a, i);
    result.Transform(Change(row.line, MovedToIntervalEnd), now);
    next := Logged(a, i + 1);
    moved := Some(row.(timestamp := row.timestamp + interval.unit));
  }

  ghost predicate StopsAt(rows: seq<Bar>, interval: S.Interval, refuses: Bar -> bool, k: nat) {
    && k <= |rows| && (k < |rows| ==> Unmovable(interval, refuses, rows[k]))
    && forall i :: 0 <= i < k ==> !Unmovable(interval, refuses, rows[i])
  }

  lemma NotPast(rows: seq<Bar>, interval: S.Interval, refuses: Bar -> bool, k: nat, i: nat)
    requires StopsAt(rows, interval, refuses, k) && i <= k && i < |rows|
    ensures Unmovable(interval, refuses, rows[i]) <==> i == k
  {
  }

  /** The loop of `_to_interval_end`, up to the first bar, at `k`, that cannot be moved. */
  method MoveEach(result: CleaningResult, interval: S.Interval, refuses: Bar -> bool, ghost a: Acc, ghost k: nat) returns (moved: seq<Bar>)
    requires result.Shows(a) && StopsAt(a.rows, interval, refuses, k)
    modifies result`transformations, result`transformationCounts
    ensures result.Shows(Logged(a, k)) && moved == MovedBars(a.rows, k, Length(interval))
  {
    moved := [];
    LoggedNone(a);
    ghost var now := a;
    for i := 0 to |result.rows|
      invariant i <= k && moved == MovedBars(a.rows, i, Length(interval))
      invariant now == Logged(a, i) && result.Shows(now)
    {
      NotPast(a.rows, interval, refuses, k, i);
      var bar;
      bar, now := MoveOne(result, i, interval, refuses, a, now);
      if bar.None? {
        break;
      }
      moved := moved + [bar.value];
    }
  }

  /** `_to_interval_end`. */
  method ToIntervalEnd(result: CleaningResult, declaration: Option<S.Declaration>, refuses: Bar -> bool, ghost a: Acc)
    returns (count: nat)
    requires result.Shows(a)
    modifies result`rows, result`fatal, result`transformations, result`transformationCounts
    ensures result.Shows(Moved(a, declaration, refuses))
    ensures count == if Moves(a, declaration) then |result.rows| else 0
  {
    if declaration.None? || declaration.value.convention != S.IntervalStart || result.fatal || result.rows == [] {
      return 0;
    }
    var moved := MoveEach(result, declaration.value.interval, refuses, a, FirstUnmovable(a.rows, declaration.value.interval, refuses, 0));
    if |moved| < |result.rows| {
      result.fatal := true;
      result.rows := [];
      return 0;
    }
    result.rows := moved;
    return |moved|;
  }
}
