/**
 Row cleaning (data/cleaning.py): what a row must say to be accepted, column by column, and that the bar
 carries what its cells say. Stated of the cells, with no reference to the order of the checks.
 */
module RowReading {
  import opened Wrappers
  import opened RowExamination

  // ----- what the cells say -----

  function CellOf(schema: Schema, cells: seq<string>, role: Role): string {
    Cell(cells, schema.index(role))
  }

  predicate Blank(rd: Reader, schema: Schema, cells: seq<string>, role: Role) {
    Strip(rd, CellOf(schema, cells, role)) == ""
  }

  /** The number in a column, commas dropped; None when it is blank or no number. */
  function NumberOf(rd: Reader, schema: Schema, cells: seq<string>, role: Role): Option<real> {
    Decimal(rd, CellOf(schema, cells, role))
  }

  lemma BlankIsNoNumber(rd: Reader, schema: Schema, cells: seq<string>, role: Role)
    ensures Blank(rd, schema, cells, role) ==> NumberOf(rd, schema, cells, role).None?
  {
  }

  /** The row does not reach as far as the column. */
  predicate CutOff(schema: Schema, cells: seq<string>, role: Role) {
    |cells| < schema.width && schema.index(role).Some? && schema.index(role).value >= |cells|
  }

  // ----- when a row is accepted -----

  predicate TimeReads(rd: Reader, schema: Schema, cells: seq<string>) {
    !Blank(rd, schema, cells, TimestampRole) && rd.parseTimestamp(CellOf(schema, cells, TimestampRole)).Some?
  }

  /** An open, high or low is given, or blank and to be filled from the close. */
  predicate PriceReads(rd: Reader, schema: Schema, p: Policy, cells: seq<string>, role: Role) {
    NumberOf(rd, schema, cells, role).Some? || (Blank(rd, schema, cells, role) && p.fillOhlc)
  }

  predicate VolumeReads(rd: Reader, schema: Schema, p: Policy, cells: seq<string>) {
    match NumberOf(rd, schema, cells, VolumeRole)
    case Some(volume) => volume >= 0.0
    case None => Blank(rd, schema, cells, VolumeRole) && p.defaultVolume
  }

  /** The price of a column, or the close where the column gives none. */
  function PriceOf(rd: Reader, schema: Schema, cells: seq<string>, role: Role, close: real): real {
    match NumberOf(rd, schema, cells, role)
    case Some(price) => price
    case None => close
  }

  predicate PricesStand(p: Policy, open: real, high: real, low: real, close: real) {
    && (p.requirePositive ==> open > 0.0 && high > 0.0 && low > 0.0 && close > 0.0)
    && (p.enforceOhlc ==> low <= open <= high && low <= close <= high)
  }

  /** Everything a row must satisfy. */
  predicate Acceptable(rd: Reader, schema: Schema, p: Policy, cells: seq<string>) {
    && !CutOff(schema, cells, TimestampRole) && !CutOff(schema, cells, CloseRole)
    && TimeReads(rd, schema, cells)
    && NumberOf(rd, schema, cells, CloseRole).Some?
    && PriceReads(rd, schema, p, cells, OpenRole) && PriceReads(rd, schema, p, cells, HighRole)
    && PriceReads(rd, schema, p, cells, LowRole) && VolumeReads(rd, schema, p, cells)
    && var close := NumberOf(rd, schema, cells, CloseRole).value;
       PricesStand(p, PriceOf(rd, schema, cells, OpenRole, close), PriceOf(rd, schema, cells, HighRole, close),
                   PriceOf(rd, schema, cells, LowRole, close), close)
  }

  // ----- what the bar carries -----

  predicate SymbolIs(rd: Reader, schema: Schema, p: Policy, cells: seq<string>, b: Bar) {
    if !Blank(rd, schema, cells, SymbolRole) then b.symbol == Strip(rd, CellOf(schema, cells, SymbolRole))
    else if schema.headerSymbol != "" then b.symbol == schema.headerSymbol
    else b.symbol == p.defaultSymbol
  }

  /** The average price is kept when it lies within the bar, and dropped otherwise. */
  predicate VwapIs(rd: Reader, schema: Schema, cells: seq<string>, b: Bar) {
    var v := NumberOf(rd, schema, cells, VwapRole);
    if v.Some? && b.low <= v.value <= b.high then b.vwap == v else b.vwap == None
  }

  /** The number of trades is kept when it is a whole number and not negative. */
  predicate TradesAre(rd: Reader, schema: Schema, cells: seq<string>, b: Bar) {
    var t := NumberOf(rd, schema, cells, TradesRole);
    if t.Some? && t.value >= 0.0 && t.value == t.value.Floor as real then b.trades.Some? && b.trades.value as real == t.value
    else b.trades == None
  }

  /** Each column of the bar is its own cell's, or the default for a blank one. */
  predicate CarriesCells(rd: Reader, schema: Schema, p: Policy, cells: seq<string>, b: Bar) {
    && rd.parseTimestamp(CellOf(schema, cells, TimestampRole)) == Some(b.timestamp)
    && NumberOf(rd, schema, cells, CloseRole) == Some(b.close)
    && b.open == PriceOf(rd, schema, cells, OpenRole, b.close)
    && b.high == PriceOf(rd, schema, cells, HighRole, b.close)
    && b.low == PriceOf(rd, schema, cells, LowRole, b.close)
    && b.volume == (match NumberOf(rd, schema, cells, VolumeRole) case Some(v) => v case None => 0.0)
    && SymbolIs(rd, schema, p, cells, b) && VwapIs(rd, schema, cells, b) && TradesAre(rd, schema, cells, b)
  }

  // ----- the prices -----

  lemma ExtrasExactly(rd: Reader, schema: Schema, line: nat, cells: seq<string>, bar: Bar, log: seq<Change>)
    ensures var v := ExamineExtras(rd, schema, line, cells, bar, log).0;
            && v.Accept? && v.bar == bar.(vwap := v.bar.vwap, trades := v.bar.trades)
            && VwapIs(rd, schema, cells, v.bar) && TradesAre(rd, schema, cells, v.bar)
  {
  }

  lemma OhlcExactly(rd: Reader, schema: Schema, p: Policy, cells: seq<string>, role: Role, close: real)
    ensures var price := OhlcPrice(rd, CellOf(schema, cells, role), p);
            && (!price.Bad? <==> PriceReads(rd, schema, p, cells, role))
            && (!price.Bad? ==> PriceOr(price, close) == PriceOf(rd, schema, cells, role, close))
            && (price.Bad? ==> price.reason == if Blank(rd, schema, cells, role) then MissingPrice else InvalidPrice)
  {
    BlankIsNoNumber(rd, schema, cells, role);
  }

  predicate PricesAcceptable(rd: Reader, schema: Schema, p: Policy, cells: seq<string>, close: real) {
    && PriceReads(rd, schema, p, cells, OpenRole) && PriceReads(rd, schema, p, cells, HighRole)
    && PriceReads(rd, schema, p, cells, LowRole) && VolumeReads(rd, schema, p, cells)
    && PricesStand(p, PriceOf(rd, schema, cells, OpenRole, close), PriceOf(rd, schema, cells, HighRole, close),
                   PriceOf(rd, schema, cells, LowRole, close), close)
  }

  predicate PricesAre(rd: Reader, schema: Schema, cells: seq<string>, close: real, b: Bar) {
    && b.close == close
    && b.open == PriceOf(rd, schema, cells, OpenRole, close)
    && b.high == PriceOf(rd, schema, cells, HighRole, close)
    && b.low == PriceOf(rd, schema, cells, LowRole, close)
    && b.volume == (match NumberOf(rd, schema, cells, VolumeRole) case Some(v) => v case None => 0.0)
    && VwapIs(rd, schema, cells, b) && TradesAre(rd, schema, cells, b)
  }

  lemma PricesExactly(rd: Reader, schema: Schema, p: Policy, line: nat, cells: seq<string>,
                      symbol: string, timestamp: int, close: real, log: seq<Change>)
    ensures var v := ExaminePrices(rd, schema, p, line, cells, symbol, timestamp, close, log).0;
            && (v.Accept? <==> PricesAcceptable(rd, schema, p, cells, close))
            && (v.Accept? ==> PricesAre(rd, schema, cells, close, v.bar)
                              && v.bar.symbol == symbol && v.bar.timestamp == timestamp && v.bar.line == line)
  {
    OhlcExactly(rd, schema, p, cells, OpenRole, close);
    OhlcExactly(rd, schema, p, cells, HighRole, close);
    OhlcExactly(rd, schema, p, cells, LowRole, close);
    BlankIsNoNumber(rd, schema, cells, VolumeRole);
    var o := OhlcPrice(rd, CellOf(schema, cells, OpenRole), p);
    var h := OhlcPrice(rd, CellOf(schema, cells, HighRole), p);
    var l := OhlcPrice(rd, CellOf(schema, cells, LowRole), p);
    if !o.Bad? && !h.Bad? && !l.Bad? {
      var volume := NumberOf(rd, schema, cells, VolumeRole);
      var bar := Bar(symbol, timestamp, PriceOr(o, close), PriceOr(h, close), PriceOr(l, close), close,
                     if volume.None? then 0.0 else volume.value, None, None, line);
      ExtrasExactly(rd, schema, line, cells, bar,
                    log + FilledLog(o, h, l, line) + if volume.None? then [Change(line, DefaultedVolume)] else []);
    }
  }

  // ----- the row -----

  /** Exactly which rows are accepted, and that each column of the bar is its own cell's. */
  lemma ExamineExactly(rd: Reader, schema: Schema, p: Policy, line: nat, cells: seq<string>)
    ensures var v := Examine(rd, schema, p, line, cells).0;
            && (v.Accept? <==> Acceptable(rd, schema, p, cells))
            && (v.Accept? ==> CarriesCells(rd, schema, p, cells, v.bar) && v.bar.line == line)
  {
    var rawTime := CellOf(schema, cells, TimestampRole);
    var time, close := rd.parseTimestamp(rawTime), NumberOf(rd, schema, cells, CloseRole);
    if time.Some? && close.Some? {
      var trimmed := if rawTime != Strip(rd, rawTime) then [Change(line, TrimmedWhitespace)] else [];
      var named := Strip(rd, CellOf(schema, cells, SymbolRole));
      var symbol := if named != "" then named else if schema.headerSymbol != "" then schema.headerSymbol else p.defaultSymbol;
      var log := trimmed + if named != "" then [] else [Change(line, DefaultedSymbol)];
      PricesExactly(rd, schema, p, line, cells, symbol, time.value, close.value, log);
    }
  }

  /** What a reason says of the row it is given for. */
  predicate Applies(reason: Reason, rd: Reader, schema: Schema, p: Policy, cells: seq<string>) {
    match reason
    case MalformedRow => CutOff(schema, cells, TimestampRole) || CutOff(schema, cells, CloseRole)
    case MissingTimestamp => Blank(rd, schema, cells, TimestampRole)
    case InvalidTimestamp =>
      !Blank(rd, schema, cells, TimestampRole) && rd.parseTimestamp(CellOf(schema, cells, TimestampRole)).None?
    case MissingPrice =>
      || Blank(rd, schema, cells, CloseRole) || (Blank(rd, schema, cells, VolumeRole) && !p.defaultVolume)
      || (!p.fillOhlc && (Blank(rd, schema, cells, OpenRole) || Blank(rd, schema, cells, HighRole) || Blank(rd, schema, cells, LowRole)))
    case InvalidPrice =>
      exists role <- {CloseRole, OpenRole, HighRole, LowRole, VolumeRole} ::
        !Blank(rd, schema, cells, role) && NumberOf(rd, schema, cells, role).None?
    case NonPositivePrice =>
      && p.requirePositive && NumberOf(rd, schema, cells, CloseRole).Some?
      && var close := NumberOf(rd, schema, cells, CloseRole).value;
         exists role <- {CloseRole, OpenRole, HighRole, LowRole} :: PriceOf(rd, schema, cells, role, close) <= 0.0
    case InconsistentOhlc =>
      && p.enforceOhlc && NumberOf(rd, schema, cells, CloseRole).Some?
      && var close := NumberOf(rd, schema, cells, CloseRole).value;
         var open, high := PriceOf(rd, schema, cells, OpenRole, close), PriceOf(rd, schema, cells, HighRole, close);
         var low := PriceOf(rd, schema, cells, LowRole, close);
         !(low <= open <= high && low <= close <= high)
    case NegativeVolume => NumberOf(rd, schema, cells, VolumeRole).Some? && NumberOf(rd, schema, cells, VolumeRole).value < 0.0
    case Duplicate => false
    case OutOfOrder => false
  }

  lemma PricesReason(rd: Reader, schema: Schema, p: Policy, line: nat, cells: seq<string>,
                     symbol: string, timestamp: int, close: real, log: seq<Change>)
    requires NumberOf(rd, schema, cells, CloseRole) == Some(close)
    ensures var v := ExaminePrices(rd, schema, p, line, cells, symbol, timestamp, close, log).0;
            v.Refuse? ==> Applies(v.reason, rd, schema, p, cells)
  {
    OhlcExactly(rd, schema, p, cells, OpenRole, close);
    OhlcExactly(rd, schema, p, cells, HighRole, close);
    OhlcExactly(rd, schema, p, cells, LowRole, close);
    var v := ExaminePrices(rd, schema, p, line, cells, symbol, timestamp, close, log).0;
    if v.Refuse? && v.reason == NonPositivePrice {
      assert PriceOf(rd, schema, cells, CloseRole, close) == close;
    }
  }

  /** A refused row is refused for something that is so. */
  lemma ReasonIsTrue(rd: Reader, schema: Schema, p: Policy, line: nat, cells: seq<string>)
    ensures var v := Examine(rd, schema, p, line, cells).0;
            v.Refuse? ==> Applies(v.reason, rd, schema, p, cells)
  {
    var rawTime := CellOf(schema, cells, TimestampRole);
    var time, close := rd.parseTimestamp(rawTime), NumberOf(rd, schema, cells, CloseRole);
    if time.Some? && close.Some? {
      var trimmed := if rawTime != Strip(rd, rawTime) then [Change(line, TrimmedWhitespace)] else [];
      var named := Strip(rd, CellOf(schema, cells, SymbolRole));
      var symbol := if named != "" then named else if schema.headerSymbol != "" then schema.headerSymbol else p.defaultSymbol;
      var log := trimmed + if named != "" then [] else [Change(line, DefaultedSymbol)];
      PricesReason(rd, schema, p, line, cells, symbol, time.value, close.value, log);
    }
  }

  // ----- what is logged -----

  /** How often a kind of change is logged for an accepted row. */
  function Times(rd: Reader, schema: Schema, cells: seq<string>, b: Bar, kind: Kind): nat {
    match kind
    case TrimmedWhitespace =>
      if CellOf(schema, cells, TimestampRole) != Strip(rd, CellOf(schema, cells, TimestampRole)) then 1 else 0
    case DefaultedSymbol => if Blank(rd, schema, cells, SymbolRole) then 1 else 0
    case FilledOhlcFromClose =>
      (if NumberOf(rd, schema, cells, OpenRole).None? then 1 else 0) + (if NumberOf(rd, schema, cells, HighRole).None? then 1 else 0)
      + (if NumberOf(rd, schema, cells, LowRole).None? then 1 else 0)
    case DefaultedVolume => if NumberOf(rd, schema, cells, VolumeRole).None? then 1 else 0
    case DiscardedVwap => if !Blank(rd, schema, cells, VwapRole) && b.vwap.None? then 1 else 0
    case DiscardedTrades => if !Blank(rd, schema, cells, TradesRole) && b.trades.None? then 1 else 0
    case _ => 0
  }

  /** Up to the symbol; the prices; the extras. */
  function HeadLog(rd: Reader, schema: Schema, line: nat, cells: seq<string>): seq<Change> {
    (if CellOf(schema, cells, TimestampRole) != Strip(rd, CellOf(schema, cells, TimestampRole))
     then [Change(line, TrimmedWhitespace)] else [])
    + (if Blank(rd, schema, cells, SymbolRole) then [Change(line, DefaultedSymbol)] else [])
  }

  function Repeated(n: nat, change: Change): (log: seq<Change>)
    ensures |log| == n && forall i :: 0 <= i < n ==> log[i] == change
  {
    if n == 0 then [] else Repeated(n - 1, change) + [change]
  }

  lemma FilledIsRepeated(o: Price, h: Price, l: Price, line: nat)
    ensures var n := (if o.Filled? then 1 else 0) + (if h.Filled? then 1 else 0) + (if l.Filled? then 1 else 0);
            FilledLog(o, h, l, line) == Repeated(n, Change(line, FilledOhlcFromClose))
  {
  }

  /** The whole log of an accepted row, in order. */
  function LogOf(rd: Reader, schema: Schema, line: nat, cells: seq<string>, b: Bar): seq<Change> {
    HeadLog(rd, schema, line, cells)
    + Repeated(Times(rd, schema, cells, b, FilledOhlcFromClose), Change(line, FilledOhlcFromClose))
    + Repeated(Times(rd, schema, cells, b, DefaultedVolume), Change(line, DefaultedVolume))
    + Repeated(Times(rd, schema, cells, b, DiscardedVwap), Change(line, DiscardedVwap))
    + Repeated(Times(rd, schema, cells, b, DiscardedTrades), Change(line, DiscardedTrades))
  }

  lemma ExtrasLog(rd: Reader, schema: Schema, line: nat, cells: seq<string>, bar: Bar, log: seq<Change>)
    ensures var (v, changes) := ExamineExtras(rd, schema, line, cells, bar, log);
            v.Accept? && changes == log + Repeated(Times(rd, schema, cells, v.bar, DiscardedVwap), Change(line, DiscardedVwap))
                                    + Repeated(Times(rd, schema, cells, v.bar, DiscardedTrades), Change(line, DiscardedTrades))
  {
    assert forall c: Change :: Repeated(1, c) == [c] && Repeated(0, c) == [];
  }

  lemma PricesLog(rd: Reader, schema: Schema, p: Policy, line: nat, cells: seq<string>,
                  symbol: string, timestamp: int, close: real, log: seq<Change>)
    ensures var (v, changes) := ExaminePrices(rd, schema, p, line, cells, symbol, timestamp, close, log);
            v.Accept? ==>
              changes == log + Repeated(Times(rd, schema, cells, v.bar, FilledOhlcFromClose), Change(line, FilledOhlcFromClose))
                         + Repeated(Times(rd, schema, cells, v.bar, DefaultedVolume), Change(line, DefaultedVolume))
                         + Repeated(Times(rd, schema, cells, v.bar, DiscardedVwap), Change(line, DiscardedVwap))
                         + Repeated(Times(rd, schema, cells, v.bar, DiscardedTrades), Change(line, DiscardedTrades))
  {
    var o := OhlcPrice(rd, CellOf(schema, cells, OpenRole), p);
    var h := OhlcPrice(rd, CellOf(schema, cells, HighRole), p);
    var l := OhlcPrice(rd, CellOf(schema, cells, LowRole), p);
    if !o.Bad? && !h.Bad? && !l.Bad? {
      var volume := NumberOf(rd, schema, cells, VolumeRole);
      var bar := Bar(symbol, timestamp, PriceOr(o, close), PriceOr(h, close), PriceOr(l, close), close,
                     if volume.None? then 0.0 else volume.value, None, None, line);
      FilledIsRepeated(o, h, l, line);
      var n := if volume.None? then 1 else 0;
      assert Repeated(n, Change(line, DefaultedVolume)) == if volume.None? then [Change(line, DefaultedVolume)] else [];
      ExtrasLog(rd, schema, line, cells, bar,
                log + FilledLog(o, h, l, line) + if volume.None? then [Change(line, DefaultedVolume)] else []);
    }
  }

  /** An accepted row logs exactly what was done to it, in order, and nothing else. */
  lemma LogExactly(rd: Reader, schema: Schema, p: Policy, line: nat, cells: seq<string>)
    ensures var (v, log) := Examine(rd, schema, p, line, cells); v.Accept? ==> log == LogOf(rd, schema, line, cells, v.bar)
  {
    var rawTime := CellOf(schema, cells, TimestampRole);
    var time, close := rd.parseTimestamp(rawTime), NumberOf(rd, schema, cells, CloseRole);
    if time.Some? && close.Some? {
      var named := Strip(rd, CellOf(schema, cells, SymbolRole));
      var symbol := if named != "" then named else if schema.headerSymbol != "" then schema.headerSymbol else p.defaultSymbol;
      PricesLog(rd, schema, p, line, cells, symbol, time.value, close.value, HeadLog(rd, schema, line, cells));
    }
  }

  // ----- white space and commas -----

  predicate AllSpace(rd: Reader, s: string) {
    forall i :: 0 <= i < |s| ==> rd.isSpace(s[i])
  }

  /** No white space at either end. */
  predicate Trimmed(rd: Reader, s: string) {
    s != "" ==> !rd.isSpace(s[0]) && !rd.isSpace(s[|s| - 1])
  }

  lemma {:induction false} StripEnd(rd: Reader, text: string, b: string)
    requires AllSpace(rd, b) && Trimmed(rd, text) && text != ""
    ensures Strip(rd, text + b) == text
    decreases |b|
  {
    if b == "" {
      assert text + b == text;
    } else {
      var s, shorter := text + b, b[..|b| - 1];
      assert s[0] == text[0] && s[|s| - 1] == b[|b| - 1] && s[..|s| - 1] == text + shorter;
      StripEnd(rd, text, shorter);
    }
  }

  lemma {:induction false} StripBlank(rd: Reader, b: string)
    requires AllSpace(rd, b)
    ensures Strip(rd, b) == ""
    decreases |b|
  {
    if b != "" {
      StripBlank(rd, b[1..]);
    }
  }

  lemma {:induction false} StripExactly(rd: Reader, a: string, text: string, b: string)
    requires AllSpace(rd, a) && AllSpace(rd, b) && Trimmed(rd, text)
    ensures Strip(rd, a + text + b) == text
    decreases |a|
  {
    if a != "" {
      assert (a + text + b)[0] == a[0] && (a + text + b)[1..] == a[1..] + text + b;
      StripExactly(rd, a[1..], text, b);
    } else if text == "" {
      assert a + text + b == b;
      StripBlank(rd, b);
    } else {
      assert a + text + b == text + b;
      StripEnd(rd, text, b);
    }
  }

  /** Commas go and everything else stays. */
  lemma {:induction false} WithoutCommasExactly(s: string)
    ensures ',' !in WithoutCommas(s)
    ensures forall c :: c != ',' ==> multiset(WithoutCommas(s))[c] == multiset(s)[c]
    ensures ',' !in s ==> WithoutCommas(s) == s
    decreases |s|
  {
    if s != "" {
      assert s == [s[0]] + s[1..];
      WithoutCommasExactly(s[1..]);
    }
  }

  /** So a number may be padded, and grouped by commas anywhere: only what is left decides. */
  lemma NumberReads(rd: Reader, a: string, text: string, b: string)
    requires AllSpace(rd, a) && AllSpace(rd, b) && Trimmed(rd, text)
    ensures Decimal(rd, a + text + b) == if WithoutCommas(text) == "" then None else rd.parseDecimal(WithoutCommas(text))
  {
    StripExactly(rd, a, text, b);
  }
}
