/**
 The bar-interval check (data/temporal.py). A declared interval is measured against each instrument's
 bar times: on the declared zone's wall clock, in absolute time, or in calendar months.

 Instants and lengths are exact integers of microseconds. A zone is its offset at every instant and
 the civil date and time its clock shows; both come from the zone database.
 */
module Spacing {
  import opened Wrappers
  import opened Ordering

  datatype Civil = Civil(year: int, month: int, day: int, time: int)

  datatype Zone = Zone(offset: int -> int, civil: int -> Civil)

  /** How the file writes its times. A zone is present exactly for dates and wall-clock times. */
  datatype Reading = Dates(zone: Zone) | WallClock(zone: Zone) | Instants

  datatype Interval = Fixed(unit: int) | Months(count: int)

  datatype Convention = SessionDate | IntervalStart | IntervalEnd

  datatype Declaration = Declaration(convention: Convention, interval: Interval, confirmed: set<string>)

  datatype Refusal =
    | TooShort(symbol: string) | Irregular(symbol: string) | Unlabelled(symbol: string) | SpansChange(symbol: string)
    | Unknown | Unneeded | Unconfirmed

  datatype Counts = Counts(exact: nat, longer: nat)

  datatype Instrument = Instrument(bars: nat, exact: nat, longer: nat, onConfirmation: bool)

  datatype Report = Report(instruments: map<string, Instrument>, ambiguous: seq<string>)

  /** What `validate` has already established of a declaration when the spacing is checked. */
  predicate Validated(d: Declaration, r: Reading) {
    && (d.interval.Fixed? ==> d.interval.unit > 0)
    && (d.interval.Months? ==> d.interval.count > 0 && !r.Instants? && d.convention != IntervalStart)
  }

  // ----- sorting the times -----

  function InsertTime(ts: seq<int>, t: int): seq<int> {
    if ts == [] || t < ts[0] then [t] + ts else [ts[0]] + InsertTime(ts[1..], t)
  }

  /** `sorted(stamps)`. */
  function SortTimes(ts: seq<int>): seq<int> {
    if ts == [] then [] else InsertTime(SortTimes(ts[..|ts| - 1]), ts[|ts| - 1])
  }

  predicate NonDecreasing(ts: seq<int>) {
    forall i, j :: 0 <= i < j < |ts| ==> ts[i] <= ts[j]
  }

  lemma {:induction false} InsertTimePermutes(ts: seq<int>, t: int)
    ensures multiset(InsertTime(ts, t)) == multiset(ts) + multiset{t} && |InsertTime(ts, t)| == |ts| + 1
    decreases ts
  {
    if ts != [] && t >= ts[0] {
      InsertTimePermutes(ts[1..], t);
      assert ts == [ts[0]] + ts[1..];
    }
  }

  lemma {:induction false} InsertTimeSorts(ts: seq<int>, t: int)
    requires NonDecreasing(ts)
    ensures NonDecreasing(InsertTime(ts, t))
    decreases ts
  {
    if ts != [] && t >= ts[0] {
      InsertTimeSorts(ts[1..], t);
      InsertTimePermutes(ts[1..], t);
      var rest := InsertTime(ts[1..], t);
      forall j | 0 <= j < |rest| ensures ts[0] <= rest[j] {
        assert rest[j] in multiset(rest);
        if rest[j] != t {
          assert rest[j] in ts[1..];
        }
      }
    }
  }

  lemma {:induction false} SortTimesSorts(ts: seq<int>)
    ensures NonDecreasing(SortTimes(ts)) && multiset(SortTimes(ts)) == multiset(ts) && |SortTimes(ts)| == |ts|
    decreases |ts|
  {
    if ts != [] {
      SortTimesSorts(ts[..|ts| - 1]);
      InsertTimeSorts(SortTimes(ts[..|ts| - 1]), ts[|ts| - 1]);
      InsertTimePermutes(SortTimes(ts[..|ts| - 1]), ts[|ts| - 1]);
      assert ts == ts[..|ts| - 1] + [ts[|ts| - 1]];
    }
  }

  // ----- steps between consecutive positions -----

  datatype Step = Short | Uneven | One | More

  type Classifier = int -> Step

  /** `gap` is `unit` taken one or more times. */
  predicate Whole(gap: int, unit: int)
    requires unit > 0
    decreases gap
  {
    gap == unit || (gap > unit && Whole(gap - unit, unit))
  }

  /** A gap shorter than the unit, or no whole number of units, is refused. */
  function Classify(unit: int): Classifier
    requires unit > 0
  {
    gap => if gap < unit then Short else if !Whole(gap, unit) then Uneven else if gap == unit then One else More
  }

  /** `current - previous` for each `pairwise(positions)`. */
  function Gaps(ps: seq<int>): (gaps: seq<int>)
    ensures |gaps| == if ps == [] then 0 else |ps| - 1
    ensures forall i :: 0 <= i < |gaps| ==> gaps[i] == ps[i + 1] - ps[i]
  {
    seq(if ps == [] then 0 else |ps| - 1, i requires 0 <= i < |ps| - 1 => ps[i + 1] - ps[i])
  }

  ghost predicate AreGaps(gaps: seq<int>, ps: seq<int>) {
    && |gaps| == (if ps == [] then 0 else |ps| - 1)
    && forall i :: 0 <= i < |gaps| ==> gaps[i] == ps[i + 1] - ps[i]
  }

  /** The loop over the first `n` gaps. */
  function Steps(gaps: seq<int>, n: nat, step: Classifier, symbol: string): Result<Counts, Refusal>
    requires n <= |gaps|
  {
    if n == 0 then Ok(Counts(0, 0))
    else
      match Steps(gaps, n - 1, step, symbol)
      case Err(e) => Err(e)
      case Ok(c) =>
        match step(gaps[n - 1])
        case Short => Err(TooShort(symbol))
        case Uneven => Err(Irregular(symbol))
        case One => Ok(c.(exact := c.exact + 1))
        case More => Ok(c.(longer := c.longer + 1))
  }

  predicate Fine(step: Classifier, gap: int) {
    step(gap).One? || step(gap).More?
  }

  ghost predicate AllFine(gaps: seq<int>, n: nat, step: Classifier)
    requires n <= |gaps|
  {
    forall i :: 0 <= i < n ==> Fine(step, gaps[i])
  }

  lemma {:induction false} StepsCount(gaps: seq<int>, n: nat, step: Classifier, unit: int, symbol: string)
    requires n <= |gaps| && forall g :: step(g).One? <==> g == unit
    ensures Steps(gaps, n, step, symbol).Ok? <==> AllFine(gaps, n, step)
    ensures Steps(gaps, n, step, symbol).Ok? ==>
              var c := Steps(gaps, n, step, symbol).value;
              c.exact == multiset(gaps[..n])[unit] && c.exact + c.longer == n
    decreases n
  {
    if n > 0 {
      StepsCount(gaps, n - 1, step, unit, symbol);
      assert gaps[..n] == gaps[..n - 1] + [gaps[n - 1]];
      assert AllFine(gaps, n, step) <==> AllFine(gaps, n - 1, step) && Fine(step, gaps[n - 1]);
    }
  }

  lemma {:induction false} StepsAllFine(gaps: seq<int>, n: nat, step: Classifier, symbol: string)
    requires n <= |gaps| && AllFine(gaps, n, step)
    ensures Steps(gaps, n, step, symbol).Ok?
    decreases n
  {
    if n > 0 {
      StepsAllFine(gaps, n - 1, step, symbol);
      assert Fine(step, gaps[n - 1]);
    }
  }

  lemma {:induction false} RefusedStays(gaps: seq<int>, m: nat, n: nat, step: Classifier, symbol: string)
    requires m <= n <= |gaps| && Steps(gaps, m, step, symbol).Err?
    ensures Steps(gaps, n, step, symbol) == Steps(gaps, m, step, symbol)
    decreases n
  {
    if m < n {
      RefusedStays(gaps, m, n - 1, step, symbol);
    }
  }

  /** Consecutive positions are one or more whole units apart. */
  ghost predicate Spaced(ps: seq<int>, unit: int)
    requires unit > 0
  {
    forall i :: 0 <= i < |Gaps(ps)| ==> Whole(Gaps(ps)[i], unit)
  }

  ghost predicate Classifies(step: Classifier, unit: int)
    requires unit > 0
  {
    forall g :: (step(g).One? <==> g == unit) && (Fine(step, g) <==> Whole(g, unit)) && (step(g).Short? <==> g < unit)
  }

  /** The counting loop, exactly: it accepts when every gap is one or more whole units, and counts the
      pairs one unit apart and, as longer, all others. */
  lemma StepsExactly(ps: seq<int>, step: Classifier, unit: int, symbol: string)
    requires unit > 0 && Classifies(step, unit)
    ensures var r := Steps(Gaps(ps), |Gaps(ps)|, step, symbol);
            && (r.Ok? <==> Spaced(ps, unit))
            && (r.Ok? ==> r.value.exact == multiset(Gaps(ps))[unit] && r.value.exact + r.value.longer == |Gaps(ps)|)
  {
    StepsCount(Gaps(ps), |Gaps(ps)|, step, unit, symbol);
    assert Gaps(ps)[..|Gaps(ps)|] == Gaps(ps);
  }

  /** Else it refuses at the first bad gap, and says whether that is too short or irregular. */
  lemma FirstBadGapNamed(ps: seq<int>, step: Classifier, unit: int, symbol: string, k: nat)
    requires unit > 0 && Classifies(step, unit)
    requires k < |Gaps(ps)| && !Whole(Gaps(ps)[k], unit) && forall i :: 0 <= i < k ==> Whole(Gaps(ps)[i], unit)
    ensures Steps(Gaps(ps), |Gaps(ps)|, step, symbol) == Err(if Gaps(ps)[k] < unit then TooShort(symbol) else Irregular(symbol))
  {
    StepsAllFine(Gaps(ps), k, step, symbol);
    RefusedStays(Gaps(ps), k + 1, |Gaps(ps)|, step, symbol);
  }

  lemma ClassifyExactly(unit: int)
    requires unit > 0
    ensures Classifies(Classify(unit), unit)
  {
    forall g ensures Whole(g, unit) ==> unit <= g {
    }
  }

  /** The remainder test of the source. */
  lemma {:induction false} WholeExactly(gap: int, unit: int)
    requires unit > 0
    ensures Whole(gap, unit) <==> unit <= gap && gap % unit == 0
    decreases gap
  {
    if gap == unit {
      Remainder(gap, unit, 1, 0);
    } else if gap > unit {
      WholeExactly(gap - unit, unit);
      var q, r := (gap - unit) / unit, (gap - unit) % unit;
      assert (q + 1) * unit == q * unit + unit;
      Remainder(gap, unit, q + 1, r);
      if r == 0 && gap - unit < unit {
        Remainder(gap - unit, unit, 0, gap - unit);
      }
    }
  }

  lemma AtLeastOnce(m: int, k: int)
    requires m > 0 && k >= 1
    ensures k * m >= m
  {
    assert k * m == (k - 1) * m + m;
  }

  lemma Remainder(a: int, m: int, q: int, r: int)
    requires m > 0 && a == q * m + r && 0 <= r < m
    ensures a / m == q && a % m == r
  {
    var p, s := a / m, a % m;
    assert (p - q) * m == r - s;
    if p > q {
      AtLeastOnce(m, p - q);
    } else if p < q {
      assert (q - p) * m == -((p - q) * m);
      AtLeastOnce(m, q - p);
    }
  }

  /** Regular steps add up: any two positions are a positive whole number of units apart. */
  lemma {:induction false} SpacedApart(ps: seq<int>, unit: int, i: nat, j: nat)
    requires unit > 0 && Spaced(ps, unit) && i < j < |ps|
    ensures Whole(ps[j] - ps[i], unit)
    decreases j - i
  {
    assert Whole(Gaps(ps)[j - 1], unit);
    if i < j - 1 {
      SpacedApart(ps, unit, i, j - 1);
      WholeAdds(ps[j - 1] - ps[i], ps[j] - ps[j - 1], unit);
    }
  }

  lemma {:induction false} WholeAdds(a: int, b: int, unit: int)
    requires unit > 0 && Whole(a, unit) && Whole(b, unit)
    ensures Whole(a + b, unit)
    decreases a
  {
    if a != unit {
      WholeAdds(a - unit, b, unit);
    }
  }

  // ----- one instrument -----

  /** Where an instant stands in the measure the reading calls for. */
  function Position(r: Reading, t: int): int {
    if r.Instants? then t else t + r.zone.offset(t)
  }

  function Positions(r: Reading, ts: seq<int>): (ps: seq<int>)
    ensures |ps| == |ts| && forall i :: 0 <= i < |ts| ==> ps[i] == Position(r, ts[i])
  {
    seq(|ts|, i requires 0 <= i < |ts| => Position(r, ts[i]))
  }

  function StepsOver(ps: seq<int>, unit: int, symbol: string): Result<Counts, Refusal>
    requires unit > 0
  {
    Steps(Gaps(ps), |Gaps(ps)|, Classify(unit), symbol)
  }

  lemma StepsOverExactly(ps: seq<int>, unit: int, symbol: string)
    requires unit > 0
    ensures var r := StepsOver(ps, unit, symbol);
            && (r.Ok? <==> Spaced(ps, unit))
            && (r.Ok? ==> r.value.exact == multiset(Gaps(ps))[unit] && r.value.exact + r.value.longer == |Gaps(ps)|)
  {
    ClassifyExactly(unit);
    StepsExactly(ps, Classify(unit), unit, symbol);
  }

  predicate Leap(year: int) {
    year % 4 == 0 && (year % 100 != 0 || year % 400 == 0)
  }

  /** `calendar.monthrange(year, month)[1]`. */
  function DaysIn(year: int, month: int): int {
    if month == 2 then (if Leap(year) then 29 else 28)
    else if month in {4, 6, 9, 11} then 30 else 31
  }

  predicate MonthEnd(w: Civil) {
    w.day == DaysIn(w.year, w.month)
  }

  /** One time of day, and one day of the month or always the month's last. */
  predicate SameLabel(walls: seq<Civil>) {
    && (forall i :: 0 <= i < |walls| ==> walls[i].time == walls[0].time)
    && ((forall i :: 0 <= i < |walls| ==> MonthEnd(walls[i])) || (forall i :: 0 <= i < |walls| ==> walls[i].day == walls[0].day))
  }

  function Walls(z: Zone, ts: seq<int>): (ws: seq<Civil>)
    ensures |ws| == |ts| && forall i :: 0 <= i < |ts| ==> ws[i] == z.civil(ts[i] + z.offset(ts[i]))
  {
    seq(|ts|, i requires 0 <= i < |ts| => z.civil(ts[i] + z.offset(ts[i])))
  }

  function MonthNumbers(walls: seq<Civil>): (ps: seq<int>)
    ensures |ps| == |walls| && forall i :: 0 <= i < |walls| ==> ps[i] == walls[i].year * 12 + walls[i].month
  {
    seq(|walls|, i requires 0 <= i < |walls| => walls[i].year * 12 + walls[i].month)
  }

  function MonthCounts(symbol: string, walls: seq<Civil>, count: int): Result<Counts, Refusal>
    requires count > 0
  {
    if walls == [] then Ok(Counts(0, 0))
    else if !SameLabel(walls) then Err(Unlabelled(symbol))
    else StepsOver(MonthNumbers(walls), count, symbol)
  }

  /** The bar starting at `t` crosses a change of the zone's offset. */
  predicate Spans(z: Zone, unit: int, t: int) {
    z.offset(t) != z.offset(t + unit)
  }

  /** What one instrument's own bars give: its counts, or the refusal they bring. */
  function Measured(symbol: string, stamps: seq<int>, d: Declaration, r: Reading): Result<Counts, Refusal>
    requires Validated(d, r)
  {
    var ordered := SortTimes(stamps);
    match d.interval
    case Months(count) => MonthCounts(symbol, Walls(r.zone, ordered), count)
    case Fixed(unit) =>
      var counted := StepsOver(Positions(r, ordered), unit, symbol);
      if counted.Ok? && r.WallClock? && d.convention == IntervalStart
         && exists i :: 0 <= i < |ordered| && Spans(r.zone, unit, ordered[i])
      then Err(SpansChange(symbol)) else counted
  }

  function InstrumentOf(stamps: seq<int>, c: Counts, symbol: string, d: Declaration): Instrument {
    Instrument(|stamps|, c.exact, c.longer, c.exact == 0 && symbol in d.confirmed)
  }

  // ----- the file -----

  type Stamps = map<string, seq<int>>

  /** Every instrument's own result. */
  function Results(stamps: Stamps, d: Declaration, r: Reading): (rs: map<string, Result<Counts, Refusal>>)
    requires Validated(d, r)
    ensures rs.Keys == stamps.Keys
  {
    map k | k in stamps :: Measured(k, stamps[k], d, r)
  }

  /** The loop over the first `n` instruments, in name order. */
  function Surveyed(keys: seq<string>, n: nat, stamps: Stamps, results: map<string, Result<Counts, Refusal>>, d: Declaration)
    : Result<Report, Refusal>
    requires n <= |keys| && forall k :: k in keys ==> k in stamps && k in results
  {
    if n == 0 then Ok(Report(map[], []))
    else
      var k := keys[n - 1];
      match Surveyed(keys, n - 1, stamps, results, d)
      case Err(e) => Err(e)
      case Ok(report) =>
        match results[k]
        case Err(e) => Err(e)
        case Ok(c) => Ok(OneMore(report, k, InstrumentOf(stamps[k], c, k, d)))
  }

  function OneMore(report: Report, k: string, instrument: Instrument): Report {
    Report(report.instruments[k := instrument], if instrument.exact == 0 then report.ambiguous + [k] else report.ambiguous)
  }

  function Confirmation(present: set<string>, ambiguous: set<string>, confirmed: set<string>): Option<Refusal> {
    if confirmed - present != {} then Some(Unknown)
    else if confirmed - ambiguous != {} then Some(Unneeded)
    else if ambiguous - confirmed != {} then Some(Unconfirmed)
    else None
  }

  function Concluded(stamps: Stamps, results: map<string, Result<Counts, Refusal>>, d: Declaration, enforce: bool)
    : Result<Report, Refusal>
    requires results.Keys == stamps.Keys
  {
    var keys := Sorted(stamps.Keys);
    match Surveyed(keys, |keys|, stamps, results, d)
    case Err(e) => Err(e)
    case Ok(report) =>
      var refused := Confirmation(stamps.Keys, (set k | k in report.ambiguous), d.confirmed);
      if enforce && refused.Some? then Err(refused.value) else Ok(report)
  }

  function Checked(stamps: Stamps, d: Declaration, r: Reading, enforce: bool): Result<Report, Refusal>
    requires Validated(d, r)
  {
    Concluded(stamps, Results(stamps, d, r), d, enforce)
  }

  /** The instruments whose own bars never show the interval. */
  function Unshown(results: map<string, Result<Counts, Refusal>>): set<string> {
    set k | k in results && results[k].Ok? && results[k].value.exact == 0
  }

  ghost predicate AllOk(keys: seq<string>, n: nat, results: map<string, Result<Counts, Refusal>>)
    requires n <= |keys|
  {
    forall i :: 0 <= i < n ==> keys[i] in results && results[keys[i]].Ok?
  }

  ghost predicate InstrumentsAre(instruments: map<string, Instrument>, stamps: Stamps, results: map<string, Result<Counts, Refusal>>,
                                 d: Declaration, keys: set<string>) {
    && keys <= stamps.Keys && keys <= results.Keys
    && (forall k :: k in keys ==> results[k].Ok?)
    && instruments == (map k | k in keys :: InstrumentOf(stamps[k], results[k].value, k, d))
  }

  ghost predicate AmbiguousAre(ambiguous: seq<string>, results: map<string, Result<Counts, Refusal>>, keys: set<string>) {
    && (forall k :: k in ambiguous <==> k in keys && k in results && results[k].Ok? && results[k].value.exact == 0)
    && Ascending(ambiguous)
  }

  /** The report says of each of these instruments what its own bars give, and lists the ambiguous ones. */
  ghost predicate Reports(report: Report, stamps: Stamps, results: map<string, Result<Counts, Refusal>>, d: Declaration, keys: set<string>) {
    InstrumentsAre(report.instruments, stamps, results, d, keys) && AmbiguousAre(report.ambiguous, results, keys)
  }

  lemma {:induction false} SurveyedOk(keys: seq<string>, n: nat, stamps: Stamps, results: map<string, Result<Counts, Refusal>>, d: Declaration)
    requires n <= |keys| && forall k :: k in keys ==> k in stamps && k in results
    ensures Surveyed(keys, n, stamps, results, d).Ok? <==> AllOk(keys, n, results)
    decreases n
  {
    if n > 0 {
      SurveyedOk(keys, n - 1, stamps, results, d);
      assert AllOk(keys, n, results) <==> AllOk(keys, n - 1, results) && results[keys[n - 1]].Ok?;
    }
  }

  function First(keys: seq<string>, n: nat): set<string>
    requires n <= |keys|
  {
    set i | 0 <= i < n :: keys[i]
  }

  lemma {:induction false} SurveyedReports(keys: seq<string>, n: nat, stamps: Stamps, results: map<string, Result<Counts, Refusal>>, d: Declaration)
    requires n <= |keys| && forall k :: k in keys ==> k in stamps && k in results
    requires Ascending(keys) && Surveyed(keys, n, stamps, results, d).Ok?
    ensures Reports(Surveyed(keys, n, stamps, results, d).value, stamps, results, d, First(keys, n))
    decreases n
  {
    if n > 0 {
      var before, k := First(keys, n - 1), keys[n - 1];
      SurveyedReports(keys, n - 1, stamps, results, d);
      forall j | j in before ensures Less(j, k) && j != k {
        Trichotomy(j, k);
      }
      ReportsOneMore(Surveyed(keys, n - 1, stamps, results, d).value, stamps, results, d, before, k);
      assert First(keys, n) == before + {k};
    }
  }

  lemma InstrumentsOneMore(instruments: map<string, Instrument>, stamps: Stamps, results: map<string, Result<Counts, Refusal>>,
                           d: Declaration, done: set<string>, k: string)
    requires InstrumentsAre(instruments, stamps, results, d, done) && k in stamps && k in results && results[k].Ok?
    ensures InstrumentsAre(instruments[k := InstrumentOf(stamps[k], results[k].value, k, d)], stamps, results, d, done + {k})
  {
    var more := instruments[k := InstrumentOf(stamps[k], results[k].value, k, d)];
    assert more == (map j | j in done + {k} :: InstrumentOf(stamps[j], results[j].value, j, d));
  }

  lemma AmbiguousOneMore(ambiguous: seq<string>, results: map<string, Result<Counts, Refusal>>, done: set<string>, k: string)
    requires AmbiguousAre(ambiguous, results, done) && k in results && results[k].Ok?
    requires forall j :: j in done ==> Less(j, k) && j != k
    ensures AmbiguousAre(if results[k].value.exact == 0 then ambiguous + [k] else ambiguous, results, done + {k})
  {
    forall i | 0 <= i < |ambiguous| ensures Less(ambiguous[i], k) {
      assert ambiguous[i] in done;
    }
  }

  lemma ReportsOneMore(report: Report, stamps: Stamps, results: map<string, Result<Counts, Refusal>>, d: Declaration,
                       done: set<string>, k: string)
    requires Reports(report, stamps, results, d, done) && k in stamps && k in results && results[k].Ok?
    requires forall j :: j in done ==> Less(j, k) && j != k
    ensures Reports(OneMore(report, k, InstrumentOf(stamps[k], results[k].value, k, d)), stamps, results, d, done + {k})
  {
    InstrumentsOneMore(report.instruments, stamps, results, d, done, k);
    AmbiguousOneMore(report.ambiguous, results, done, k);
  }

  lemma {:induction false} SurveyRefuses(keys: seq<string>, n: nat, stamps: Stamps, results: map<string, Result<Counts, Refusal>>,
                                         d: Declaration, i: nat)
    requires i < n <= |keys| && forall k :: k in keys ==> k in stamps && k in results
    requires results[keys[i]].Err? && AllOk(keys, i, results)
    ensures Surveyed(keys, n, stamps, results, d) == Err(results[keys[i]].error)
    decreases n
  {
    if i < n - 1 {
      SurveyRefuses(keys, n - 1, stamps, results, d, i);
    } else {
      SurveyedOk(keys, i, stamps, results, d);
    }
  }

  lemma ConcludedExactly(stamps: Stamps, results: map<string, Result<Counts, Refusal>>, d: Declaration, enforce: bool)
    requires results.Keys == stamps.Keys
    ensures Concluded(stamps, results, d, enforce).Ok? <==>
              (forall k :: k in results ==> results[k].Ok?) && (enforce ==> d.confirmed == Unshown(results))
    ensures Concluded(stamps, results, d, enforce).Ok? ==>
              Reports(Concluded(stamps, results, d, enforce).value, stamps, results, d, stamps.Keys)
  {
    SurveyConcluded(Sorted(stamps.Keys), stamps, results, d);
    var keys := Sorted(stamps.Keys);
    var surveyed := Surveyed(keys, |keys|, stamps, results, d);
    if surveyed.Ok? {
      var named := set k | k in surveyed.value.ambiguous;
      assert named == Unshown(results);
      ConfirmationExactly(stamps.Keys, named, d.confirmed);
    }
  }

  lemma SurveyConcluded(keys: seq<string>, stamps: Stamps, results: map<string, Result<Counts, Refusal>>, d: Declaration)
    requires results.Keys == stamps.Keys && Ascending(keys) && forall k :: k in keys <==> k in stamps
    ensures Surveyed(keys, |keys|, stamps, results, d).Ok? <==> forall k :: k in results ==> results[k].Ok?
    ensures Surveyed(keys, |keys|, stamps, results, d).Ok? ==>
              Reports(Surveyed(keys, |keys|, stamps, results, d).value, stamps, results, d, stamps.Keys)
  {
    SurveyedOk(keys, |keys|, stamps, results, d);
    if AllOk(keys, |keys|, results) {
      forall k | k in results ensures results[k].Ok? {
        assert k in keys;
      }
      SurveyedReports(keys, |keys|, stamps, results, d);
      assert First(keys, |keys|) == stamps.Keys;
    }
  }

  /** When the check accepts, and what it then reports. Each instrument answers for itself: the file is
      accepted exactly when every instrument's own bars are, and (unless the confirmation is not
      enforced) the confirmed instruments are exactly those whose bars never show the interval. */
  lemma AcceptedExactly(stamps: Stamps, d: Declaration, r: Reading, enforce: bool)
    requires Validated(d, r)
    ensures var own := Results(stamps, d, r);
            var checked := Checked(stamps, d, r, enforce);
            && (checked.Ok? <==> (forall k :: k in stamps ==> own[k].Ok?) && (enforce ==> d.confirmed == Unshown(own)))
            && (checked.Ok? ==> Reports(checked.value, stamps, own, d, stamps.Keys))
  {
    ConcludedExactly(stamps, Results(stamps, d, r), d, enforce);
  }

  lemma ConfirmationExactly(present: set<string>, ambiguous: set<string>, confirmed: set<string>)
    requires ambiguous <= present
    ensures Confirmation(present, ambiguous, confirmed).None? <==> confirmed == ambiguous
  {
    if Confirmation(present, ambiguous, confirmed).None? {
      assert forall x :: x in confirmed ==> x !in confirmed - ambiguous;
      assert forall x :: x in ambiguous ==> x !in ambiguous - confirmed;
    }
  }

  /** A file refused for its spacing is refused for the first instrument, in name order, whose own bars
      are refused; the confirmation is looked at only when there is none. */
  lemma FirstRefusalNamed(stamps: Stamps, d: Declaration, r: Reading, enforce: bool, k: string)
    requires Validated(d, r) && k in stamps && Measured(k, stamps[k], d, r).Err?
    requires forall j :: j in stamps && Less(j, k) ==> Results(stamps, d, r)[j].Ok?
    ensures Checked(stamps, d, r, enforce) == Err(Measured(k, stamps[k], d, r).error)
  {
    RefusalIsFirst(stamps, Results(stamps, d, r), d, k);
  }

  lemma RefusalIsFirst(stamps: Stamps, results: map<string, Result<Counts, Refusal>>, d: Declaration, k: string)
    requires results.Keys == stamps.Keys && k in results && results[k].Err?
    requires forall j :: j in results && Less(j, k) ==> results[j].Ok?
    ensures Surveyed(Sorted(stamps.Keys), |Sorted(stamps.Keys)|, stamps, results, d) == Err(results[k].error)
  {
    var keys := Sorted(stamps.Keys);
    assert k in keys;
    var i :| 0 <= i < |keys| && keys[i] == k;
    SurveyRefuses(keys, |keys|, stamps, results, d, i);
  }

  /** No instrument's result depends on another's bars: alone in a file, it is reported the same. */
  lemma NoInstrumentVouchesForAnother(stamps: Stamps, d: Declaration, r: Reading, k: string)
    requires Validated(d, r) && k in stamps
    ensures var alone, among := Checked(map[k := stamps[k]], d, r, false), Checked(stamps, d, r, false);
            among.Ok? ==>
              && alone.Ok? && k in alone.value.instruments && k in among.value.instruments
              && alone.value.instruments[k] == among.value.instruments[k]
              && (k in alone.value.ambiguous <==> k in among.value.ambiguous)
  {
    AcceptedExactly(stamps, d, r, false);
    AcceptedExactly(map[k := stamps[k]], d, r, false);
    AloneTheSame(stamps, d, r, k);
  }

  lemma AloneTheSame(stamps: Stamps, d: Declaration, r: Reading, k: string)
    requires Validated(d, r) && k in stamps
    ensures Results(map[k := stamps[k]], d, r)[k] == Results(stamps, d, r)[k]
  {
  }

  // ----- what acceptance means for the bars -----

  lemma ReportedAre(report: Report, stamps: Stamps, results: map<string, Result<Counts, Refusal>>, d: Declaration, k: string)
    requires Reports(report, stamps, results, d, stamps.Keys) && k in stamps
    ensures results[k].Ok? && k in report.instruments
    ensures report.instruments[k] == InstrumentOf(stamps[k], results[k].value, k, d)
  {
  }

  lemma MeasuredSpaced(symbol: string, stamps: seq<int>, d: Declaration, r: Reading)
    requires Validated(d, r) && d.interval.Fixed? && Measured(symbol, stamps, d, r).Ok?
    ensures var ps := Positions(r, SortTimes(stamps));
            && Spaced(ps, d.interval.unit) && Measured(symbol, stamps, d, r).value.exact == multiset(Gaps(ps))[d.interval.unit]
            && (stamps != [] ==> Measured(symbol, stamps, d, r).value.exact + Measured(symbol, stamps, d, r).value.longer == |stamps| - 1)
  {
    SortTimesSorts(stamps);
    StepsOverExactly(Positions(r, SortTimes(stamps)), d.interval.unit, symbol);
  }

  /** Each time is later than the one before, and any two positions are a whole number of units apart. */
  ghost predicate Series(ts: seq<int>, ps: seq<int>, unit: int)
    requires unit > 0 && |ts| == |ps|
  {
    forall i, j :: 0 <= i < j < |ps| ==> ts[i] < ts[j] && Whole(ps[j] - ps[i], unit)
  }

  ghost predicate Counted(report: Report, k: string, bars: nat, ps: seq<int>, unit: int) {
    && k in report.instruments
    && report.instruments[k].bars == bars && report.instruments[k].exact == multiset(Gaps(ps))[unit]
    && (bars > 0 ==> report.instruments[k].exact + report.instruments[k].longer == bars - 1)
  }

  /** Accepted bars of a fixed interval: every label is later than the one before, any two are a whole
      number of intervals apart in the measure used, and the counts cover every consecutive pair. */
  lemma AcceptedSeries(stamps: Stamps, d: Declaration, r: Reading, enforce: bool, k: string)
    requires Validated(d, r) && d.interval.Fixed? && k in stamps
    ensures var ps, checked := Positions(r, SortTimes(stamps[k])), Checked(stamps, d, r, enforce);
            checked.Ok? ==>
              Series(SortTimes(stamps[k]), ps, d.interval.unit) && Counted(checked.value, k, |stamps[k]|, ps, d.interval.unit)
  {
    AcceptedExactly(stamps, d, r, enforce);
    if Checked(stamps, d, r, enforce).Ok? {
      ReportedAre(Checked(stamps, d, r, enforce).value, stamps, Results(stamps, d, r), d, k);
      MeasuredSpaced(k, stamps[k], d, r);
      MeasuredSeries(k, stamps[k], d, r);
    }
  }

  lemma SpacedSeries(ts: seq<int>, ps: seq<int>, unit: int)
    requires unit > 0 && |ts| == |ps| && NonDecreasing(ts) && Spaced(ps, unit)
    requires forall i, j :: 0 <= i < j < |ts| && ts[i] == ts[j] ==> ps[i] == ps[j]
    ensures Series(ts, ps, unit)
  {
    forall i, j | 0 <= i < j < |ps| ensures ts[i] < ts[j] && Whole(ps[j] - ps[i], unit) {
      SpacedApart(ps, unit, i, j);
      assert ts[i] <= ts[j];
    }
  }

  /** Accepted monthly bars: all at one time of day, on one day of the month or always on its last;
      each label later than the one before, and a whole number of intervals of months apart. */
  lemma AcceptedMonths(stamps: Stamps, d: Declaration, r: Reading, enforce: bool, k: string)
    requires Validated(d, r) && d.interval.Months? && k in stamps && stamps[k] != []
    ensures var ts, checked := SortTimes(stamps[k]), Checked(stamps, d, r, enforce);
            var months := MonthNumbers(Walls(r.zone, ts));
            checked.Ok? ==>
              && SameLabel(Walls(r.zone, ts)) && Series(ts, months, d.interval.count)
              && Counted(checked.value, k, |stamps[k]|, months, d.interval.count)
  {
    AcceptedExactly(stamps, d, r, enforce);
    if Checked(stamps, d, r, enforce).Ok? {
      ReportedAre(Checked(stamps, d, r, enforce).value, stamps, Results(stamps, d, r), d, k);
      MonthsSpaced(k, stamps[k], d, r);
    }
  }

  lemma MonthsSpaced(symbol: string, stamps: seq<int>, d: Declaration, r: Reading)
    requires Validated(d, r) && d.interval.Months? && stamps != [] && Measured(symbol, stamps, d, r).Ok?
    ensures var ts := SortTimes(stamps);
            var months := MonthNumbers(Walls(r.zone, ts));
            && SameLabel(Walls(r.zone, ts)) && |ts| == |stamps| && |months| == |ts| && Series(ts, months, d.interval.count)
            && Measured(symbol, stamps, d, r).value.exact == multiset(Gaps(months))[d.interval.count]
            && Measured(symbol, stamps, d, r).value.exact + Measured(symbol, stamps, d, r).value.longer == |stamps| - 1
  {
    SortTimesSorts(stamps);
    MonthsSeries(symbol, SortTimes(stamps), r.zone, d.interval.count);
  }

  lemma MonthsSeries(symbol: string, ts: seq<int>, z: Zone, count: int)
    requires count > 0 && ts != [] && NonDecreasing(ts) && MonthCounts(symbol, Walls(z, ts), count).Ok?
    ensures var months := MonthNumbers(Walls(z, ts));
            && SameLabel(Walls(z, ts)) && |months| == |ts| && Series(ts, months, count)
            && var c := MonthCounts(symbol, Walls(z, ts), count).value;
            && c.exact == multiset(Gaps(months))[count] && c.exact + c.longer == |ts| - 1
  {
    var months := MonthNumbers(Walls(z, ts));
    StepsOverExactly(months, count, symbol);
    SameTimeSameMonth(ts, z);
    SpacedSeries(ts, months, count);
  }

  lemma SameTimeSameMonth(ts: seq<int>, z: Zone)
    ensures var months := MonthNumbers(Walls(z, ts));
            forall i, j :: 0 <= i < j < |ts| && ts[i] == ts[j] ==> months[i] == months[j]
  {
  }

  lemma OneApartDecides(ps: seq<int>, u: int, v: int)
    requires u > 0 && v > 0 && u in multiset(Gaps(ps)) && Spaced(ps, v)
    ensures v <= u
  {
    var i :| 0 <= i < |Gaps(ps)| && Gaps(ps)[i] == u;
    assert Whole(Gaps(ps)[i], v);
  }

  /** The file is accepted and no instrument in it is ambiguous. */
  ghost predicate Shown(stamps: Stamps, d: Declaration, r: Reading, enforce: bool)
    requires Validated(d, r)
  {
    Checked(stamps, d, r, enforce).Ok? && Checked(stamps, d, r, enforce).value.ambiguous == []
  }

  lemma ShownBySeries(stamps: Stamps, d: Declaration, r: Reading, enforce: bool, k: string)
    requires Validated(d, r) && d.interval.Fixed? && k in stamps
    ensures var ps := Positions(r, SortTimes(stamps[k]));
            Shown(stamps, d, r, enforce) ==> Spaced(ps, d.interval.unit) && d.interval.unit in multiset(Gaps(ps))
  {
    AcceptedExactly(stamps, d, r, enforce);
    if Shown(stamps, d, r, enforce) {
      ReportedAre(Checked(stamps, d, r, enforce).value, stamps, Results(stamps, d, r), d, k);
      MeasuredSpaced(k, stamps[k], d, r);
    }
  }

  /** The interval is not a free choice: of all fixed intervals, at most one is accepted for a file
      with bars and no ambiguous instrument. */
  lemma IntervalIsDetermined(stamps: Stamps, d: Declaration, e: Declaration, r: Reading, m: bool, n: bool)
    requires Validated(d, r) && Validated(e, r) && d.interval.Fixed? && e.interval.Fixed? && stamps != map[]
    ensures Shown(stamps, d, r, m) && Shown(stamps, e, r, n) ==> d.interval == e.interval
  {
    var k :| k in stamps;
    ShownBySeries(stamps, d, r, m, k);
    ShownBySeries(stamps, e, r, n, k);
    if Shown(stamps, d, r, m) && Shown(stamps, e, r, n) {
      var ps := Positions(r, SortTimes(stamps[k]));
      OneApartDecides(ps, d.interval.unit, e.interval.unit);
      OneApartDecides(ps, e.interval.unit, d.interval.unit);
    }
  }

  // ----- moving start-stamped bars to their end -----

  /** The wall-clock time that the zone shows at `t` names `t` alone: it is shown at no other instant. A
      label that is not so is refused when it is read. */
  ghost predicate Placeable(z: Zone, t: int) {
    forall u :: u + z.offset(u) == t + z.offset(t) ==> u == t
  }

  ghost predicate Placed(r: Reading, ts: seq<int>) {
    r.WallClock? ==> forall i :: 0 <= i < |ts| ==> Placeable(r.zone, ts[i])
  }

  /** Between two instants one interval apart at which it has the same offset, the clock is never ahead by
      more than one interval. */
  ghost predicate JumpsAreShort(z: Zone, unit: int) {
    forall a, b :: a < b < a + unit && z.offset(a) == z.offset(a + unit) ==> z.offset(b) <= z.offset(a) + unit
  }

  ghost predicate Steady(r: Reading, unit: int) {
    r.WallClock? ==> JumpsAreShort(r.zone, unit)
  }

  /** Inside one interval the zone changes its offset at most once. */
  ghost predicate OneChangeAtMost(z: Zone, unit: int) {
    forall a, b, c :: a <= b <= c <= a + unit ==> z.offset(b) == z.offset(a) || z.offset(b) == z.offset(c)
  }

  /** As every zone whose changes are further apart than the interval is long. */
  lemma OneChangeIsShort(z: Zone, unit: int)
    requires unit > 0 && OneChangeAtMost(z, unit)
    ensures JumpsAreShort(z, unit)
  {
    forall a, b | a < b < a + unit && z.offset(a) == z.offset(a + unit) ensures z.offset(b) <= z.offset(a) + unit {
      assert z.offset(b) == z.offset(a) || z.offset(b) == z.offset(a + unit);
    }
  }

  lemma WholeReaches(gap: int, unit: int)
    requires unit > 0 && Whole(gap, unit)
    ensures unit <= gap
  {
  }

  lemma WholeIsOneOrMore(gap: int, unit: int)
    requires unit > 0 && Whole(gap, unit)
    ensures gap == unit || gap >= 2 * unit
  {
    if gap != unit {
      WholeReaches(gap - unit, unit);
    }
  }

  /** Two placeable starts, read a whole number of intervals apart, of bars that span no change: the first
      bar ends before the second starts. */
  lemma WallPairEnds(z: Zone, unit: int, a: int, b: int)
    requires unit > 0 && a < b && Whole(b + z.offset(b) - (a + z.offset(a)), unit)
    requires !Spans(z, unit, a) && Placeable(z, b) && JumpsAreShort(z, unit)
    ensures a + unit <= b
  {
    WholeIsOneOrMore(b + z.offset(b) - (a + z.offset(a)), unit);
    assert a + unit + z.offset(a + unit) == b + z.offset(b) ==> a + unit == b;
  }

  lemma PairEnds(r: Reading, unit: int, a: int, b: int)
    requires unit > 0 && a < b && Whole(Position(r, b) - Position(r, a), unit) && !r.Dates?
    requires r.WallClock? ==> !Spans(r.zone, unit, a) && Placeable(r.zone, b)
    requires Steady(r, unit)
    ensures a + unit <= b
  {
    if r.Instants? {
      WholeReaches(b - a, unit);
    } else {
      WallPairEnds(r.zone, unit, a, b);
    }
  }

  lemma SeriesEnds(ts: seq<int>, r: Reading, unit: int, i: nat, j: nat)
    requires unit > 0 && i < j < |ts| && Series(ts, Positions(r, ts), unit) && !r.Dates?
    requires r.WallClock? ==> forall m :: 0 <= m < |ts| ==> !Spans(r.zone, unit, ts[m])
    requires Placed(r, ts) && Steady(r, unit)
    ensures ts[i] + unit <= ts[j]
  {
    var ps := Positions(r, ts);
    assert ps[i] == Position(r, ts[i]) && ps[j] == Position(r, ts[j]);
    PairEnds(r, unit, ts[i], ts[j]);
  }

  lemma SortedPlaced(r: Reading, stamps: seq<int>)
    requires Placed(r, stamps)
    ensures Placed(r, SortTimes(stamps))
  {
    var ts := SortTimes(stamps);
    SortTimesSorts(stamps);
    forall i | 0 <= i < |ts| && r.WallClock? ensures Placeable(r.zone, ts[i]) {
      assert ts[i] in multiset(stamps);
    }
  }

  lemma MeasuredNeverSpans(symbol: string, stamps: seq<int>, d: Declaration, z: Zone)
    requires Validated(d, WallClock(z)) && d.interval.Fixed? && d.convention == IntervalStart
    requires Measured(symbol, stamps, d, WallClock(z)).Ok?
    ensures forall m :: 0 <= m < |SortTimes(stamps)| ==> !Spans(z, d.interval.unit, SortTimes(stamps)[m])
  {
  }

  lemma MeasuredSeries(symbol: string, stamps: seq<int>, d: Declaration, r: Reading)
    requires Validated(d, r) && d.interval.Fixed? && Measured(symbol, stamps, d, r).Ok?
    ensures Series(SortTimes(stamps), Positions(r, SortTimes(stamps)), d.interval.unit)
  {
    MeasuredSpaced(symbol, stamps, d, r);
    SortTimesSorts(stamps);
    SpacedSeries(SortTimes(stamps), Positions(r, SortTimes(stamps)), d.interval.unit);
  }

  lemma MeasuredEnds(symbol: string, stamps: seq<int>, d: Declaration, r: Reading, i: nat, j: nat)
    requires Validated(d, r) && d.interval.Fixed? && d.convention == IntervalStart && !r.Dates?
    requires Measured(symbol, stamps, d, r).Ok? && i < j < |SortTimes(stamps)|
    requires Placed(r, stamps) && Steady(r, d.interval.unit)
    ensures SortTimes(stamps)[i] + d.interval.unit <= SortTimes(stamps)[j]
  {
    MeasuredSeries(symbol, stamps, d, r);
    if r.WallClock? {
      MeasuredNeverSpans(symbol, stamps, d, r.zone);
    }
    SortedPlaced(r, stamps);
    SeriesEnds(SortTimes(stamps), r, d.interval.unit, i, j);
  }

  lemma AcceptedMeasured(stamps: Stamps, d: Declaration, r: Reading, enforce: bool, k: string)
    requires Validated(d, r) && k in stamps
    ensures Checked(stamps, d, r, enforce).Ok? ==> Measured(k, stamps[k], d, r).Ok?
  {
    AcceptedExactly(stamps, d, r, enforce);
    assert Results(stamps, d, r)[k] == Measured(k, stamps[k], d, r);
  }

  /** Moved to their ends, accepted start-stamped bars of one instrument do not overlap: each ends no
      later than the next one starts. */
  lemma EndsBeforeNextStart(stamps: Stamps, d: Declaration, r: Reading, enforce: bool, k: string, i: nat, j: nat)
    requires Validated(d, r) && d.interval.Fixed? && d.convention == IntervalStart && !r.Dates?
    requires k in stamps && i < j < |SortTimes(stamps[k])|
    requires Placed(r, stamps[k]) && Steady(r, d.interval.unit)
    ensures Checked(stamps, d, r, enforce).Ok? ==> SortTimes(stamps[k])[i] + d.interval.unit <= SortTimes(stamps[k])[j]
  {
    AcceptedMeasured(stamps, d, r, enforce, k);
    if Measured(k, stamps[k], d, r).Ok? {
      MeasuredEnds(k, stamps[k], d, r, i, j);
    }
  }

  /** So it is in every zone that changes its offset at most once inside one interval. */
  lemma EndsInOrdinaryZone(stamps: Stamps, d: Declaration, z: Zone, enforce: bool, k: string, i: nat, j: nat)
    requires Validated(d, WallClock(z)) && d.interval.Fixed? && d.convention == IntervalStart
    requires k in stamps && i < j < |SortTimes(stamps[k])|
    requires Placed(WallClock(z), stamps[k]) && OneChangeAtMost(z, d.interval.unit)
    ensures Checked(stamps, d, WallClock(z), enforce).Ok? ==> SortTimes(stamps[k])[i] + d.interval.unit <= SortTimes(stamps[k])[j]
  {
    OneChangeIsShort(z, d.interval.unit);
    EndsBeforeNextStart(stamps, d, WallClock(z), enforce, k, i, j);
  }

  lemma MeasuredTimes(symbol: string, stamps: seq<int>, d: Declaration, r: Reading, a: int, b: int)
    requires Validated(d, r) && d.interval.Fixed? && d.convention == IntervalStart && !r.Dates?
    requires Measured(symbol, stamps, d, r).Ok? && a in stamps && b in stamps && a < b
    requires Placed(r, stamps) && Steady(r, d.interval.unit)
    ensures a + d.interval.unit <= b
  {
    var i := PlaceOf(stamps, a);
    var j := PlaceOf(stamps, b);
    SortTimesSorts(stamps);
    MeasuredEnds(symbol, stamps, d, r, i, j);
  }

  /** A time keeps a place when the times are sorted. */
  lemma PlaceOf(ts: seq<int>, t: int) returns (i: nat)
    requires t in ts
    ensures i < |SortTimes(ts)| && SortTimes(ts)[i] == t
  {
    SortTimesSorts(ts);
    assert t in multiset(SortTimes(ts));
    i :| i < |SortTimes(ts)| && SortTimes(ts)[i] == t;
  }

  lemma SortTwo(a: int, b: int)
    requires a < b
    ensures SortTimes([a, b]) == [a, b]
  {
    assert [a, b][..1] == [a] && [a][..0] == [];
    assert SortTimes([a]) == InsertTime(SortTimes([]), a) == [a];
    assert [a][1..] == [];
    assert InsertTime([a], b) == [a] + InsertTime([], b) == [a, b];
  }

  lemma StepsOverTwo(ps: seq<int>, unit: int, k: string)
    requires unit > 0 && |ps| == 2 && Whole(ps[1] - ps[0], unit)
    ensures StepsOver(ps, unit, k) == Ok(if ps[1] - ps[0] == unit then Counts(1, 0) else Counts(0, 1))
  {
    var gaps := Gaps(ps);
    ClassifyExactly(unit);
    assert Fine(Classify(unit), gaps[0]);
    assert Steps(gaps, 0, Classify(unit), k) == Ok(Counts(0, 0));
  }

  lemma TwoAccepted(z: Zone, unit: int, a: int, b: int, k: string)
    requires unit > 0 && a < b && !Spans(z, unit, a) && !Spans(z, unit, b)
    requires b + z.offset(b) - (a + z.offset(a)) == 2 * unit
    ensures Checked(map[k := [a, b]], Declaration(IntervalStart, Fixed(unit), {k}), WallClock(z), true).Ok?
  {
    var d, stamps: Stamps, r := Declaration(IntervalStart, Fixed(unit), {k}), map[k := [a, b]], WallClock(z);
    SortTwo(a, b);
    assert Whole(2 * unit, unit) && Whole(unit, unit);
    StepsOverTwo(Positions(r, [a, b]), unit, k);
    assert Measured(k, [a, b], d, r) == Ok(Counts(0, 1));
    AcceptedExactly(stamps, d, r, true);
    assert Unshown(Results(stamps, d, r)) == {k};
  }

  /** A clock that is ahead by one and a half intervals for half of one, and for good from then on. */
  const LEAPING := Zone(t => if t == 2 || t == 3 || t >= 6 then 6 else 0, t => Civil(1970, 1, 1, t))

  /** The bound on the jumps cannot be dropped: under this clock two placeable starts are accepted although
      the second comes before the first one's bar is over. */
  lemma LongJumpsOverlap()
    ensures Placeable(LEAPING, 0) && Placeable(LEAPING, 2) && !JumpsAreShort(LEAPING, 4)
    ensures Checked(map["A" := [0, 2]], Declaration(IntervalStart, Fixed(4), {"A"}), WallClock(LEAPING), true).Ok? && 2 < 0 + 4
  {
    assert LEAPING.offset(2) > LEAPING.offset(0) + 4 && LEAPING.offset(0) == LEAPING.offset(0 + 4);
    TwoAccepted(LEAPING, 4, 0, 2, "A");
  }

  // ----- the code's own form -----

  /** `round`, to the nearest and from halfway to the even one. */
  function Round(gap: int, unit: int): int
    requires unit > 0
  {
    var q, rest := gap / unit, gap % unit;
    if 2 * rest < unit || (2 * rest == unit && q % 2 == 0) then q else q + 1
  }

  lemma RoundExactly(gap: int, unit: int)
    requires unit > 0
    ensures gap - Round(gap, unit) * unit == 0 <==> gap % unit == 0
    ensures gap % unit == 0 ==> (Round(gap, unit) == 1 <==> gap == unit)
  {
    var q, rest := gap / unit, gap % unit;
    assert gap == q * unit + rest;
    assert (q + 1) * unit == q * unit + unit;
    if gap == unit {
      Remainder(gap, unit, 1, 0);
    }
  }

  /** The nearest whole number of units, and how far the gap is off it. */
  method Nearest(gap: int, unit: int) returns (whole: int, off: int)
    requires unit > 0 && gap >= unit
    ensures off == 0 <==> Whole(gap, unit)
    ensures off == 0 ==> (whole == 1 <==> gap == unit)
  {
    whole := Round(gap, unit);
    off := gap - whole * unit;
    RoundExactly(gap, unit);
    WholeExactly(gap, unit);
  }

  method FixedSteps(symbol: string, positions: seq<int>, unit: int, ghost gaps: seq<int>, ghost step: Classifier)
    returns (counts: Result<Counts, Refusal>)
    requires unit > 0 && Classifies(step, unit) && AreGaps(gaps, positions)
    ensures counts == Steps(gaps, |gaps|, step, symbol)
  {
    var exact: nat, longer: nat := 0, 0;
    if positions == [] {
      return Ok(Counts(0, 0));
    }
    for i := 0 to |positions| - 1
      invariant Steps(gaps, i, step, symbol) == Ok(Counts(exact, longer))
    {
      var gap := positions[i + 1] - positions[i];
      assert gap == gaps[i] && (Fine(step, gap) <==> Whole(gap, unit));
      if gap < unit {
        RefusedStays(gaps, i + 1, |gaps|, step, symbol);
        return Err(TooShort(symbol));
      }
      var whole, off := Nearest(gap, unit);
      if off != 0 {
        RefusedStays(gaps, i + 1, |gaps|, step, symbol);
        return Err(Irregular(symbol));
      }
      if whole == 1 {
        exact := exact + 1;
      } else {
        longer := longer + 1;
      }
    }
    return Ok(Counts(exact, longer));
  }

  lemma OneValue<T>(s: seq<T>)
    requires s != []
    ensures |set x | x in s| == 1 <==> forall i :: 0 <= i < |s| ==> s[i] == s[0]
  {
    var values := set x | x in s;
    assert s[0] in values;
    if forall i :: 0 <= i < |s| ==> s[i] == s[0] {
      assert values == {s[0]};
    } else {
      var i :| 0 <= i < |s| && s[i] != s[0];
      assert {s[0], s[i]} <= values;
      SubsetSmaller({s[0], s[i]}, values);
    }
  }

  lemma {:induction false} SubsetSmaller<T>(a: set<T>, b: set<T>)
    requires a <= b
    ensures |a| <= |b|
    decreases |a|
  {
    if a != {} {
      var x :| x in a;
      SubsetSmaller(a - {x}, b - {x});
    }
  }

  method MonthSteps(symbol: string, walls: seq<Civil>, count: int) returns (counts: Result<Counts, Refusal>)
    requires count > 0
    ensures counts == MonthCounts(symbol, walls, count)
  {
    if walls == [] {
      return Ok(Counts(0, 0));
    }
    var times, days := seq(|walls|, i requires 0 <= i < |walls| => walls[i].time), seq(|walls|, i requires 0 <= i < |walls| => walls[i].day);
    var monthEnds := forall i :: 0 <= i < |walls| ==> MonthEnd(walls[i]);
    OneValue(times);
    OneValue(days);
    var distinctTimes, distinctDays := (set t | t in times), (set x | x in days);
    assert |distinctTimes| == 1 <==> forall i :: 0 <= i < |walls| ==> walls[i].time == walls[0].time by {
      assert forall i :: 0 <= i < |walls| ==> times[i] == walls[i].time;
    }
    assert |distinctDays| == 1 <==> forall i :: 0 <= i < |walls| ==> walls[i].day == walls[0].day by {
      assert forall i :: 0 <= i < |walls| ==> days[i] == walls[i].day;
    }
    if |distinctTimes| != 1 || !(monthEnds || |distinctDays| == 1) {
      return Err(Unlabelled(symbol));
    }
    ClassifyExactly(count);
    counts := CountMonths(symbol, walls, count, Gaps(MonthNumbers(walls)), Classify(count));
  }

  /** `months % count`. */
  method Rest(months: int, count: int) returns (rest: int)
    requires count > 0 && months >= count
    ensures rest == 0 <==> Whole(months, count)
  {
    WholeExactly(months, count);
    return months % count;
  }

  method CountMonths(symbol: string, walls: seq<Civil>, count: int, ghost gaps: seq<int>, ghost step: Classifier)
    returns (counts: Result<Counts, Refusal>)
    requires count > 0 && Classifies(step, count) && |gaps| == |walls| - 1
    requires forall i :: 0 <= i < |gaps| ==>
               gaps[i] == (walls[i + 1].year * 12 + walls[i + 1].month) - (walls[i].year * 12 + walls[i].month)
    ensures counts == Steps(gaps, |gaps|, step, symbol)
  {
    var exact: nat, longer: nat := 0, 0;
    for i := 0 to |walls| - 1
      invariant Steps(gaps, i, step, symbol) == Ok(Counts(exact, longer))
    {
      var previous, current := walls[i], walls[i + 1];
      var months := (current.year - previous.year) * 12 + (current.month - previous.month);
      assert months == gaps[i] && (Fine(step, months) <==> Whole(months, count));
      if months < count {
        RefusedStays(gaps, i + 1, |gaps|, step, symbol);
        return Err(TooShort(symbol));
      }
      var rest := Rest(months, count);
      if rest != 0 {
        RefusedStays(gaps, i + 1, |gaps|, step, symbol);
        return Err(Irregular(symbol));
      }
      if months == count {
        exact := exact + 1;
      } else {
        longer := longer + 1;
      }
    }
    return Ok(Counts(exact, longer));
  }

  /** `_refuse_bars_spanning_an_offset_change`. */
  method FindSpanning(starts: seq<int>, unit: int, zone: Zone) returns (found: bool)
    ensures found <==> exists i :: 0 <= i < |starts| && Spans(zone, unit, starts[i])
  {
    for i := 0 to |starts|
      invariant forall j :: 0 <= j < i ==> !Spans(zone, unit, starts[j])
    {
      if zone.offset(starts[i]) != zone.offset(starts[i] + unit) {
        assert Spans(zone, unit, starts[i]);
        return true;
      }
    }
    return false;
  }

  method Measure(symbol: string, stamps: seq<int>, d: Declaration, r: Reading) returns (counts: Result<Counts, Refusal>)
    requires Validated(d, r)
    ensures counts == Measured(symbol, stamps, d, r)
  {
    var ordered := SortTimes(stamps);
    match d.interval {
      case Months(count) =>
        counts := MonthSteps(symbol, Walls(r.zone, ordered), count);
      case Fixed(unit) =>
        ClassifyExactly(unit);
        counts := FixedSteps(symbol, Positions(r, ordered), unit, Gaps(Positions(r, ordered)), Classify(unit));
        if counts.Ok? && r.WallClock? && d.convention == IntervalStart {
          var spanning := FindSpanning(ordered, unit, r.zone);
          if spanning {
            counts := Err(SpansChange(symbol));
          }
        }
    }
  }

  lemma {:induction false} SurveyRefusedStays(keys: seq<string>, m: nat, n: nat, stamps: Stamps,
                                              results: map<string, Result<Counts, Refusal>>, d: Declaration)
    requires m <= n <= |keys| && forall k :: k in keys ==> k in stamps && k in results
    requires Surveyed(keys, m, stamps, results, d).Err?
    ensures Surveyed(keys, n, stamps, results, d) == Surveyed(keys, m, stamps, results, d)
    decreases n
  {
    if m < n {
      SurveyRefusedStays(keys, m, n - 1, stamps, results, d);
    }
  }

  ghost predicate AreResults(results: map<string, Result<Counts, Refusal>>, stamps: Stamps, d: Declaration, r: Reading)
    requires Validated(d, r)
  {
    forall k {:trigger Measured(k, stamps[k], d, r)} :: k in stamps && k in results ==> results[k] == Measured(k, stamps[k], d, r)
  }

  method MeasureOne(symbol: string, stamps: Stamps, d: Declaration, r: Reading, ghost results: map<string, Result<Counts, Refusal>>)
    returns (counts: Result<Counts, Refusal>)
    requires Validated(d, r) && symbol in stamps && symbol in results && AreResults(results, stamps, d, r)
    ensures counts == results[symbol]
  {
    counts := Measure(symbol, stamps[symbol], d, r);
  }

  /** The loop of `check_spacing`. */
  method Survey(keys: seq<string>, stamps: Stamps, d: Declaration, r: Reading, ghost results: map<string, Result<Counts, Refusal>>)
    returns (report: Result<Report, Refusal>)
    requires Validated(d, r) && forall k :: k in keys ==> k in stamps && k in results
    requires AreResults(results, stamps, d, r)
    ensures report == Surveyed(keys, |keys|, stamps, results, d)
  {
    var instruments: map<string, Instrument> := map[];
    var ambiguous := [];
    for i := 0 to |keys|
      invariant Surveyed(keys, i, stamps, results, d) == Ok(Report(instruments, ambiguous))
    {
      var symbol := keys[i];
      var counted := MeasureOne(symbol, stamps, d, r, results);
      if counted.Err? {
        SurveyRefusedStays(keys, i + 1, |keys|, stamps, results, d);
        return Err(counted.error);
      }
      var unshown := counted.value.exact == 0;
      if unshown {
        ambiguous := ambiguous + [symbol];
      }
      instruments := instruments[symbol := Instrument(|stamps[symbol]|, counted.value.exact, counted.value.longer,
                                                      unshown && symbol in d.confirmed)];
    }
    return Ok(Report(instruments, ambiguous));
  }

  method CheckSpacing(stamps: Stamps, d: Declaration, r: Reading, enforce: bool) returns (report: Result<Report, Refusal>)
    requires Validated(d, r)
    ensures report == Checked(stamps, d, r, enforce)
  {
    report := Survey(Sorted(stamps.Keys), stamps, d, r, Results(stamps, d, r));
    if report.Ok? && enforce {
      var refused := Confirmation(stamps.Keys, (set k | k in report.value.ambiguous), d.confirmed);
      if refused.Some? {
        return Err(refused.value);
      }
    }
  }
}
