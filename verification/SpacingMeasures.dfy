/**
 The bar-interval check (data/temporal.py), said of the labels themselves: which gap is measured under
 which reading, when an instrument's bars are accepted and with what counts, and what each refusal means.
 */
module SpacingMeasures {
  import opened Wrappers
  import opened Ordering
  import opened Spacing

  // ----- fixed intervals -----

  /** The gap between two labels: as the zone's clock shows them for dates and wall-clock times, whatever
      its offset does in between, and as it is for absolute instants. */
  function LabelGap(r: Reading, a: int, b: int): int {
    match r
    case Dates(z) => (b + z.offset(b)) - (a + z.offset(a))
    case WallClock(z) => (b + z.offset(b)) - (a + z.offset(a))
    case Instants => b - a
  }

  /** How many of the first `n` gaps are exactly one unit. */
  function UnitGaps(r: Reading, ts: seq<int>, unit: int, n: nat): nat
    requires n < |ts|
  {
    if n == 0 then 0 else UnitGaps(r, ts, unit, n - 1) + if LabelGap(r, ts[n - 1], ts[n]) == unit then 1 else 0
  }

  ghost predicate WholeGaps(r: Reading, ts: seq<int>, unit: int)
    requires unit > 0
  {
    forall i :: 0 <= i < |ts| - 1 ==> WholeGapAt(r, ts, unit, i)
  }

  predicate WholeGapAt(r: Reading, ts: seq<int>, unit: int, i: nat)
    requires unit > 0 && i < |ts| - 1
  {
    LabelGap(r, ts[i], ts[i + 1]) >= unit && LabelGap(r, ts[i], ts[i + 1]) % unit == 0
  }

  /** No start-stamped wall-clock bar lasts across a change of the zone's offset. */
  ghost predicate NoneSpans(d: Declaration, r: Reading, ts: seq<int>, unit: int) {
    r.WallClock? && d.convention == IntervalStart ==>
      forall i :: 0 <= i < |ts| ==> r.zone.offset(ts[i] + unit) == r.zone.offset(ts[i])
  }

  lemma GapsAreLabelGaps(r: Reading, ts: seq<int>, i: nat)
    requires i < |ts| - 1
    ensures |Gaps(Positions(r, ts))| == |ts| - 1 && Gaps(Positions(r, ts))[i] == LabelGap(r, ts[i], ts[i + 1])
  {
  }

  lemma SpacedIsWhole(r: Reading, ts: seq<int>, unit: int)
    requires unit > 0
    ensures Spaced(Positions(r, ts), unit) <==> WholeGaps(r, ts, unit)
  {
    forall i | 0 <= i < |ts| - 1
      ensures i < |Gaps(Positions(r, ts))| && (Whole(Gaps(Positions(r, ts))[i], unit) <==> WholeGapAt(r, ts, unit, i)) {
      GapsAreLabelGaps(r, ts, i);
      WholeExactly(LabelGap(r, ts[i], ts[i + 1]), unit);
    }
  }

  lemma CountOneMore(gaps: seq<int>, n: nat, unit: int)
    requires 0 < n <= |gaps|
    ensures multiset(gaps[..n])[unit] == multiset(gaps[..n - 1])[unit] + if gaps[n - 1] == unit then 1 else 0
  {
    assert gaps[..n] == gaps[..n - 1] + [gaps[n - 1]];
  }

  ghost predicate IsLabelGap(gaps: seq<int>, r: Reading, ts: seq<int>, i: nat) {
    i < |gaps| && i < |ts| - 1 && gaps[i] == LabelGap(r, ts[i], ts[i + 1])
  }

  ghost predicate AreLabelGaps(gaps: seq<int>, r: Reading, ts: seq<int>) {
    |gaps| == |ts| - 1 && forall i :: 0 <= i < |ts| - 1 ==> IsLabelGap(gaps, r, ts, i)
  }

  lemma {:induction false} UnitGapsCounted(r: Reading, ts: seq<int>, gaps: seq<int>, unit: int, n: nat)
    requires n < |ts| && AreLabelGaps(gaps, r, ts)
    ensures UnitGaps(r, ts, unit, n) == multiset(gaps[..n])[unit]
    decreases n
  {
    if n > 0 {
      UnitGapsCounted(r, ts, gaps, unit, n - 1);
      CountOneMore(gaps, n, unit);
      assert IsLabelGap(gaps, r, ts, n - 1);
    }
  }

  lemma UnitGapsWhole(r: Reading, ts: seq<int>, gaps: seq<int>, unit: int)
    requires ts != [] && |gaps| == |ts| - 1 && AreLabelGaps(gaps, r, ts)
    ensures UnitGaps(r, ts, unit, |ts| - 1) == multiset(gaps)[unit]
  {
    UnitGapsCounted(r, ts, gaps, unit, |ts| - 1);
    assert gaps[..|ts| - 1] == gaps;
  }

  lemma UnitGapsAll(r: Reading, ts: seq<int>, unit: int)
    requires ts != []
    ensures UnitGaps(r, ts, unit, |ts| - 1) == multiset(Gaps(Positions(r, ts)))[unit]
  {
    var gaps := Gaps(Positions(r, ts));
    forall i | 0 <= i < |ts| - 1 ensures IsLabelGap(gaps, r, ts, i) {
      GapsAreLabelGaps(r, ts, i);
    }
    UnitGapsWhole(r, ts, gaps, unit);
  }

  lemma FixedMeasured(symbol: string, stamps: seq<int>, d: Declaration, r: Reading)
    requires Validated(d, r) && d.interval.Fixed?
    ensures var ts, unit, own := SortTimes(stamps), d.interval.unit, Measured(symbol, stamps, d, r);
            var counted := StepsOver(Positions(r, ts), unit, symbol);
            && (own.Ok? <==> counted.Ok? && NoneSpans(d, r, ts, unit)) && (own.Ok? ==> own == counted)
  {
    SpansSomewhere(d, r, SortTimes(stamps), d.interval.unit);
  }

  /** An instrument's bars of a fixed interval are accepted exactly when every gap between consecutive
      labels is one or more whole intervals, and no start-stamped wall-clock bar spans a change of offset. */
  lemma FixedExactly(symbol: string, stamps: seq<int>, d: Declaration, r: Reading)
    requires Validated(d, r) && d.interval.Fixed?
    ensures var ts, unit := SortTimes(stamps), d.interval.unit;
            Measured(symbol, stamps, d, r).Ok? <==> WholeGaps(r, ts, unit) && NoneSpans(d, r, ts, unit)
  {
    var ts, unit := SortTimes(stamps), d.interval.unit;
    FixedMeasured(symbol, stamps, d, r);
    StepsOverExactly(Positions(r, ts), unit, symbol);
    SpacedIsWhole(r, ts, unit);
  }

  /** Accepted, the gaps of exactly one interval are counted, and all others as longer. */
  lemma FixedCounts(symbol: string, stamps: seq<int>, d: Declaration, r: Reading)
    requires Validated(d, r) && d.interval.Fixed? && stamps != []
    ensures var ts, unit, own := SortTimes(stamps), d.interval.unit, Measured(symbol, stamps, d, r);
            && |ts| == |stamps|
            && (own.Ok? ==> own.value.exact == UnitGaps(r, ts, unit, |ts| - 1) && own.value.exact + own.value.longer == |ts| - 1)
  {
    var ts, unit := SortTimes(stamps), d.interval.unit;
    SortTimesSorts(stamps);
    FixedMeasured(symbol, stamps, d, r);
    StepsOverExactly(Positions(r, ts), unit, symbol);
    UnitGapsAll(r, ts, unit);
  }

  lemma SpansSomewhere(d: Declaration, r: Reading, ts: seq<int>, unit: int)
    ensures !NoneSpans(d, r, ts, unit) <==>
              r.WallClock? && d.convention == IntervalStart && exists i :: 0 <= i < |ts| && Spans(r.zone, unit, ts[i])
  {
    if r.WallClock? && d.convention == IntervalStart && !NoneSpans(d, r, ts, unit) {
      var i :| 0 <= i < |ts| && r.zone.offset(ts[i] + unit) != r.zone.offset(ts[i]);
      assert Spans(r.zone, unit, ts[i]);
    }
  }

  /** Across a change of the clock a day is still a day: two labels one interval apart on the zone's clock
      are counted exact, be they dates or wall-clock times (unless start-stamped), whatever lies between
      them in absolute time. */
  lemma ClockDecides(symbol: string, a: int, b: int, d: Declaration, z: Zone)
    requires Validated(d, Dates(z)) && Validated(d, WallClock(z)) && d.interval.Fixed? && a < b
    requires (b + z.offset(b)) - (a + z.offset(a)) == d.interval.unit
    ensures Measured(symbol, [a, b], d, Dates(z)) == Ok(Counts(1, 0))
    ensures d.convention != IntervalStart ==> Measured(symbol, [a, b], d, WallClock(z)) == Ok(Counts(1, 0))
  {
    SortTwo(a, b);
    FixedExactly(symbol, [a, b], d, Dates(z));
    FixedExactly(symbol, [a, b], d, WallClock(z));
    FixedCounts(symbol, [a, b], d, Dates(z));
    FixedCounts(symbol, [a, b], d, WallClock(z));
    OneUnitIsWhole(d.interval.unit);
    assert UnitGaps(Dates(z), [a, b], d.interval.unit, 0) == 0 && UnitGaps(WallClock(z), [a, b], d.interval.unit, 0) == 0;
  }

  lemma OneUnitIsWhole(unit: int)
    requires unit > 0
    ensures unit % unit == 0
  {
    Remainder(unit, unit, 1, 0);
  }

  // ----- refusals of one instrument -----

  /** The first gap that is not whole decides what is said: shorter than the interval, or irregular. */
  lemma FixedRefusal(symbol: string, stamps: seq<int>, d: Declaration, r: Reading, k: nat)
    requires Validated(d, r) && d.interval.Fixed? && k < |SortTimes(stamps)| - 1
    requires var ts, unit := SortTimes(stamps), d.interval.unit;
             !WholeGapAt(r, ts, unit, k) && forall i :: 0 <= i < k ==> WholeGapAt(r, ts, unit, i)
    ensures var ts, unit := SortTimes(stamps), d.interval.unit;
            Measured(symbol, stamps, d, r)
            == Err(if LabelGap(r, ts[k], ts[k + 1]) < unit then TooShort(symbol) else Irregular(symbol))
  {
    var ts, unit := SortTimes(stamps), d.interval.unit;
    var ps := Positions(r, ts);
    ClassifyExactly(unit);
    forall i | 0 <= i <= k ensures i < |Gaps(ps)| && (Whole(Gaps(ps)[i], unit) <==> WholeGapAt(r, ts, unit, i)) {
      GapsAreLabelGaps(r, ts, i);
      WholeExactly(LabelGap(r, ts[i], ts[i + 1]), unit);
    }
    FirstBadGapNamed(ps, Classify(unit), unit, symbol, k);
    GapsAreLabelGaps(r, ts, k);
  }

  /** Where all gaps are whole only a spanned change is left to refuse. */
  lemma SpanRefusal(symbol: string, stamps: seq<int>, d: Declaration, r: Reading)
    requires Validated(d, r) && d.interval.Fixed?
    requires WholeGaps(r, SortTimes(stamps), d.interval.unit) && !NoneSpans(d, r, SortTimes(stamps), d.interval.unit)
    ensures Measured(symbol, stamps, d, r) == Err(SpansChange(symbol))
  {
    var ts, unit := SortTimes(stamps), d.interval.unit;
    StepsOverExactly(Positions(r, ts), unit, symbol);
    SpacedIsWhole(r, ts, unit);
    SpansSomewhere(d, r, ts, unit);
  }

  // ----- months -----

  /** The civil time a label shows. */
  function Shows(z: Zone, t: int): Civil {
    z.civil(t + z.offset(t))
  }

  function MonthGap(z: Zone, a: int, b: int): int {
    (Shows(z, b).year - Shows(z, a).year) * 12 + (Shows(z, b).month - Shows(z, a).month)
  }

  /** All at one time of day, and all on one day of the month or all on the last of theirs. */
  ghost predicate Labelled(z: Zone, ts: seq<int>) {
    && (forall i, j :: 0 <= i < |ts| && 0 <= j < |ts| ==> Shows(z, ts[i]).time == Shows(z, ts[j]).time)
    && ((forall i, j :: 0 <= i < |ts| && 0 <= j < |ts| ==> Shows(z, ts[i]).day == Shows(z, ts[j]).day)
        || (forall i :: 0 <= i < |ts| ==> MonthEnd(Shows(z, ts[i]))))
  }

  predicate WholeMonthsAt(z: Zone, ts: seq<int>, count: int, i: nat)
    requires count > 0 && i < |ts| - 1
  {
    MonthGap(z, ts[i], ts[i + 1]) >= count && MonthGap(z, ts[i], ts[i + 1]) % count == 0
  }

  function UnitMonths(z: Zone, ts: seq<int>, count: int, n: nat): nat
    requires n < |ts|
  {
    if n == 0 then 0 else UnitMonths(z, ts, count, n - 1) + if MonthGap(z, ts[n - 1], ts[n]) == count then 1 else 0
  }

  lemma LabelledExactly(z: Zone, ts: seq<int>)
    requires ts != []
    ensures SameLabel(Walls(z, ts)) <==> Labelled(z, ts)
  {
    var walls := Walls(z, ts);
    assert forall i :: 0 <= i < |ts| ==> walls[i] == Shows(z, ts[i]);
  }

  lemma MonthGaps(z: Zone, ts: seq<int>, i: nat)
    requires i < |ts| - 1
    ensures var gaps := Gaps(MonthNumbers(Walls(z, ts))); |gaps| == |ts| - 1 && gaps[i] == MonthGap(z, ts[i], ts[i + 1])
  {
  }

  ghost predicate IsMonthGap(gaps: seq<int>, z: Zone, ts: seq<int>, i: nat) {
    i < |gaps| && i < |ts| - 1 && gaps[i] == MonthGap(z, ts[i], ts[i + 1])
  }

  ghost predicate AreMonthGaps(gaps: seq<int>, z: Zone, ts: seq<int>) {
    |gaps| == |ts| - 1 && forall i :: 0 <= i < |ts| - 1 ==> IsMonthGap(gaps, z, ts, i)
  }

  lemma {:induction false} UnitMonthsCounted(z: Zone, ts: seq<int>, gaps: seq<int>, count: int, n: nat)
    requires n < |ts| && AreMonthGaps(gaps, z, ts)
    ensures UnitMonths(z, ts, count, n) == multiset(gaps[..n])[count]
    decreases n
  {
    if n > 0 {
      UnitMonthsCounted(z, ts, gaps, count, n - 1);
      CountOneMore(gaps, n, count);
      assert IsMonthGap(gaps, z, ts, n - 1);
    }
  }

  lemma UnitMonthsWhole(z: Zone, ts: seq<int>, gaps: seq<int>, count: int)
    requires ts != [] && |gaps| == |ts| - 1 && AreMonthGaps(gaps, z, ts)
    ensures UnitMonths(z, ts, count, |ts| - 1) == multiset(gaps)[count]
  {
    UnitMonthsCounted(z, ts, gaps, count, |ts| - 1);
    assert gaps[..|ts| - 1] == gaps;
  }

  lemma UnitMonthsAll(z: Zone, ts: seq<int>, count: int)
    requires ts != []
    ensures UnitMonths(z, ts, count, |ts| - 1) == multiset(Gaps(MonthNumbers(Walls(z, ts))))[count]
  {
    var gaps := Gaps(MonthNumbers(Walls(z, ts)));
    forall i | 0 <= i < |ts| - 1 ensures IsMonthGap(gaps, z, ts, i) {
      MonthGaps(z, ts, i);
    }
    UnitMonthsWhole(z, ts, gaps, count);
  }

  lemma MonthsSpacedExactly(z: Zone, ts: seq<int>, count: int)
    requires count > 0
    ensures Spaced(MonthNumbers(Walls(z, ts)), count) <==> forall i :: 0 <= i < |ts| - 1 ==> WholeMonthsAt(z, ts, count, i)
  {
    var gaps := Gaps(MonthNumbers(Walls(z, ts)));
    forall i | 0 <= i < |ts| - 1 ensures i < |gaps| && (Whole(gaps[i], count) <==> WholeMonthsAt(z, ts, count, i)) {
      MonthGaps(z, ts, i);
      WholeExactly(MonthGap(z, ts[i], ts[i + 1]), count);
    }
  }

  /** Monthly bars are accepted exactly when they are consistently labelled and every gap is one or more
      whole intervals of calendar months; inconsistent labels are refused before any gap is looked at. */
  lemma MonthsExactly(symbol: string, stamps: seq<int>, d: Declaration, r: Reading)
    requires Validated(d, r) && d.interval.Months? && stamps != []
    ensures var ts, z, count, own := SortTimes(stamps), r.zone, d.interval.count, Measured(symbol, stamps, d, r);
            && |ts| == |stamps|
            && (own.Ok? <==> Labelled(z, ts) && forall i :: 0 <= i < |ts| - 1 ==> WholeMonthsAt(z, ts, count, i))
            && (!Labelled(z, ts) ==> own == Err(Unlabelled(symbol)))
            && (own.Ok? ==> own.value.exact == UnitMonths(z, ts, count, |ts| - 1)
                            && own.value.exact + own.value.longer == |ts| - 1)
  {
    var ts, z, count := SortTimes(stamps), r.zone, d.interval.count;
    SortTimesSorts(stamps);
    LabelledExactly(z, ts);
    MonthsSpacedExactly(z, ts, count);
    var ps := MonthNumbers(Walls(z, ts));
    StepsOverExactly(ps, count, symbol);
    UnitMonthsAll(z, ts, count);
  }

  /** The calendar behind "the last of its month". */
  lemma MonthLengths(year: int, month: int)
    requires month != 2
    ensures DaysIn(year, month) == if month == 4 || month == 6 || month == 9 || month == 11 then 30 else 31
  {
  }

  lemma FebruaryLength(year: int)
    ensures DaysIn(year, 2) == if year % 4 == 0 && (year % 100 == 0 ==> year % 400 == 0) then 29 else 28
  {
  }

  // ----- the report and the confirmation -----

  /** What an accepted file's report says of each instrument, and which it lists as ambiguous. */
  lemma ReportSays(stamps: Stamps, d: Declaration, r: Reading, enforce: bool, k: string)
    requires Validated(d, r) && k in stamps && Checked(stamps, d, r, enforce).Ok?
    ensures var report, own := Checked(stamps, d, r, enforce).value, Measured(k, stamps[k], d, r);
            && own.Ok? && report.instruments.Keys == stamps.Keys && Ascending(report.ambiguous)
            && report.instruments[k].bars == |stamps[k]|
            && report.instruments[k].exact == own.value.exact && report.instruments[k].longer == own.value.longer
            && (k in report.ambiguous <==> own.value.exact == 0)
            && (report.instruments[k].onConfirmation <==> own.value.exact == 0 && k in d.confirmed)
            && (enforce ==> (k in d.confirmed <==> own.value.exact == 0))
  {
    AcceptedExactly(stamps, d, r, enforce);
    ReportedAre(Checked(stamps, d, r, enforce).value, stamps, Results(stamps, d, r), d, k);
  }

  /** An instrument of the file whose own bars never show the interval. */
  predicate NeverShows(stamps: Stamps, d: Declaration, r: Reading, k: string)
    requires Validated(d, r)
  {
    k in stamps && Measured(k, stamps[k], d, r).Ok? && Measured(k, stamps[k], d, r).value.exact == 0
  }

  lemma EnforcedConcludes(stamps: Stamps, own: map<string, Result<Counts, Refusal>>, d: Declaration, report: Report)
    requires own.Keys == stamps.Keys && Concluded(stamps, own, d, false) == Ok(report)
    ensures var refused := Confirmation(stamps.Keys, (set k | k in report.ambiguous), d.confirmed);
            Concluded(stamps, own, d, true) == if refused.Some? then Err(refused.value) else Ok(report)
  {
  }

  lemma ListedNeverShows(stamps: Stamps, d: Declaration, r: Reading, report: Report, k: string)
    requires Validated(d, r) && Reports(report, stamps, Results(stamps, d, r), d, stamps.Keys)
    requires k in stamps ==> Measured(k, stamps[k], d, r).Ok?
    ensures k in report.ambiguous <==> NeverShows(stamps, d, r, k)
  {
    assert k in stamps ==> Results(stamps, d, r)[k] == Measured(k, stamps[k], d, r);
  }

  lemma AmbiguousNeverShow(stamps: Stamps, d: Declaration, r: Reading) returns (report: Report)
    requires Validated(d, r) && forall k :: k in stamps ==> Measured(k, stamps[k], d, r).Ok?
    ensures Checked(stamps, d, r, false) == Ok(report)
    ensures forall k :: k in report.ambiguous <==> NeverShows(stamps, d, r, k)
    ensures var refused := Confirmation(stamps.Keys, (set k | k in report.ambiguous), d.confirmed);
            Checked(stamps, d, r, true) == if refused.Some? then Err(refused.value) else Ok(report)
  {
    AcceptedExactly(stamps, d, r, false);
    report := Checked(stamps, d, r, false).value;
    EnforcedConcludes(stamps, Results(stamps, d, r), d, report);
    forall k ensures k in report.ambiguous <==> NeverShows(stamps, d, r, k) {
      ListedNeverShows(stamps, d, r, report, k);
    }
  }

  /** Where every instrument's own bars are accepted, a confirmation is refused for naming an instrument
      that is not there, else for naming one whose bars show the interval, else for leaving one out. */
  lemma ConfirmationRefusal(stamps: Stamps, d: Declaration, r: Reading)
    requires Validated(d, r) && forall k :: k in stamps ==> Measured(k, stamps[k], d, r).Ok?
    ensures Checked(stamps, d, r, true) ==
              if exists k :: k in d.confirmed && k !in stamps then Err(Unknown)
              else if exists k :: k in d.confirmed && !NeverShows(stamps, d, r, k) then Err(Unneeded)
              else if exists k :: NeverShows(stamps, d, r, k) && k !in d.confirmed then Err(Unconfirmed)
              else Checked(stamps, d, r, false)
  {
    var report := AmbiguousNeverShow(stamps, d, r);
    var named := set k | k in report.ambiguous;
    assert forall k :: k in named <==> NeverShows(stamps, d, r, k);
    ConfirmationNamed(stamps.Keys, named, d.confirmed);
  }

  lemma ConfirmationNamed(present: set<string>, ambiguous: set<string>, confirmed: set<string>)
    requires ambiguous <= present
    ensures Confirmation(present, ambiguous, confirmed) ==
              if exists k :: k in confirmed && k !in present then Some(Unknown)
              else if exists k :: k in confirmed && k !in ambiguous then Some(Unneeded)
              else if exists k :: k in ambiguous && k !in confirmed then Some(Unconfirmed) else None
  {
    assert forall k :: k in confirmed - present <==> k in confirmed && k !in present;
    assert forall k :: k in confirmed - ambiguous <==> k in confirmed && k !in ambiguous;
    assert forall k :: k in ambiguous - confirmed <==> k in ambiguous && k !in confirmed;
  }
}
