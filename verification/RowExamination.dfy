/**
 Row cleaning (data/cleaning.py), first part: what is decided about one row on its own. It becomes a
 canonical bar or is refused for a reason, and every change made on the way is logged.

 How a timestamp and a number are read, and what counts as white space, are parameters (`Reader`);
 instants are exact integers and prices exact rationals.
 */
module RowExamination {
  import opened Wrappers

  datatype Reader = Reader(
    isSpace: char -> bool,
    parseTimestamp: string -> Option<int>,   // None where the source rejects the value
    parseDecimal: string -> Option<real>)    // a finite number, or None

  datatype Role = TimestampRole | SymbolRole | OpenRole | HighRole | LowRole | CloseRole | VolumeRole | VwapRole | TradesRole

  datatype Schema = Schema(
    refused: bool,                           // a required column is missing, or a column is ambiguous
    hasHeader: bool, width: nat, index: Role -> Option<nat>, headerSymbol: string)

  datatype DuplicatePolicy = KeepFirst | KeepLast | RejectDataset

  datatype Policy = Policy(
    duplicates: DuplicatePolicy, dropOutOfOrder: bool, fillOhlc: bool, defaultVolume: bool,
    enforceOhlc: bool, requirePositive: bool, defaultSymbol: string)

  datatype Reason =
    | MalformedRow | MissingTimestamp | InvalidTimestamp | MissingPrice | InvalidPrice | NonPositivePrice
    | NegativeVolume | InconsistentOhlc | Duplicate | OutOfOrder

  datatype Kind =
    | TrimmedWhitespace | FilledOhlcFromClose | DefaultedVolume | DiscardedVwap | DiscardedTrades
    | DefaultedSymbol | Reordered | DroppedDuplicate | MovedToIntervalEnd

  datatype Bar = Bar(
    symbol: string, timestamp: int, open: real, high: real, low: real, close: real, volume: real,
    vwap: Option<real>, trades: Option<int>, line: nat)

  datatype Rejection = Rejection(line: nat, reason: Reason)

  datatype Change = Change(line: nat, kind: Kind)

  type Key = (string, int)

  function KeyOf(b: Bar): Key {
    (b.symbol, b.timestamp)
  }

  // ----- one row -----

  function Strip(rd: Reader, s: string): string {
    if s == "" then ""
    else if rd.isSpace(s[0]) then Strip(rd, s[1..])
    else if rd.isSpace(s[|s| - 1]) then Strip(rd, s[..|s| - 1])
    else s
  }

  function WithoutCommas(s: string): string {
    if s == "" then "" else (if s[0] == ',' then [] else [s[0]]) + WithoutCommas(s[1..])
  }

  function Decimal(rd: Reader, raw: string): Option<real> {
    var text := WithoutCommas(Strip(rd, raw));
    if text == "" then None else rd.parseDecimal(text)
  }

  function Cell(cells: seq<string>, index: Option<nat>): string {
    if index.None? || index.value >= |cells| then "" else cells[index.value]
  }

  predicate BlankRow(rd: Reader, cells: seq<string>) {
    forall i :: 0 <= i < |cells| ==> Strip(rd, cells[i]) == ""
  }

  datatype Price = Given(value: real) | Filled | Bad(reason: Reason)

  function OhlcPrice(rd: Reader, raw: string, p: Policy): Price {
    match Decimal(rd, raw)
    case Some(v) => Given(v)
    case None =>
      if Strip(rd, raw) != "" then Bad(InvalidPrice)
      else if !p.fillOhlc then Bad(MissingPrice)
      else Filled
  }

  function PriceOr(price: Price, close: real): real {
    if price.Given? then price.value else close
  }

  function Missing(short: bool, cells: seq<string>, index: Option<nat>): bool {
    short && index.Some? && index.value >= |cells|
  }

  datatype Verdict = Accept(bar: Bar) | Refuse(reason: Reason)

  /** Everything `clean` decides about one row before duplicates and order: the bar or the reason it
      is refused for, and the changes logged on the way to either. */
  function Examine(rd: Reader, schema: Schema, p: Policy, line: nat, cells: seq<string>): (Verdict, seq<Change>) {
    var short := |cells| < schema.width;
    if Missing(short, cells, schema.index(TimestampRole)) || Missing(short, cells, schema.index(CloseRole)) then
      (Refuse(MalformedRow), [])
    else
      var rawTime := Cell(cells, schema.index(TimestampRole));
      if Strip(rd, rawTime) == "" then (Refuse(MissingTimestamp), [])
      else
        var trimmed := if rawTime != Strip(rd, rawTime) then [Change(line, TrimmedWhitespace)] else [];
        match rd.parseTimestamp(rawTime)
        case None => (Refuse(InvalidTimestamp), trimmed)
        case Some(timestamp) =>
          var named := Strip(rd, Cell(cells, schema.index(SymbolRole)));
          var symbol := if named != "" then named
                        else if schema.headerSymbol != "" then schema.headerSymbol else p.defaultSymbol;
          var log := trimmed + if named != "" then [] else [Change(line, DefaultedSymbol)];
          var rawClose := Cell(cells, schema.index(CloseRole));
          match Decimal(rd, rawClose)
          case None => (Refuse(if Strip(rd, rawClose) == "" then MissingPrice else InvalidPrice), log)
          case Some(close) => ExaminePrices(rd, schema, p, line, cells, symbol, timestamp, close, log)
  }

  function FilledLog(o: Price, h: Price, l: Price, line: nat): (log: seq<Change>)
    ensures forall i :: 0 <= i < |log| ==> log[i] == Change(line, FilledOhlcFromClose)
    ensures |log| == (if o.Filled? then 1 else 0) + (if h.Filled? then 1 else 0) + (if l.Filled? then 1 else 0)
  {
    var change := [Change(line, FilledOhlcFromClose)];
    (if o.Filled? then change else []) + (if h.Filled? then change else []) + (if l.Filled? then change else [])
  }

  function ExaminePrices(rd: Reader, schema: Schema, p: Policy, line: nat, cells: seq<string>,
                         symbol: string, timestamp: int, close: real, log: seq<Change>): (Verdict, seq<Change>)
  {
    var o := OhlcPrice(rd, Cell(cells, schema.index(OpenRole)), p);
    var h := OhlcPrice(rd, Cell(cells, schema.index(HighRole)), p);
    var l := OhlcPrice(rd, Cell(cells, schema.index(LowRole)), p);
    if o.Bad? then (Refuse(o.reason), log)
    else if h.Bad? then (Refuse(h.reason), log)
    else if l.Bad? then (Refuse(l.reason), log)
    else
      var filled := FilledLog(o, h, l, line);
      var open, high, low := PriceOr(o, close), PriceOr(h, close), PriceOr(l, close);
      if p.requirePositive && (close <= 0.0 || open <= 0.0 || high <= 0.0 || low <= 0.0) then
        (Refuse(NonPositivePrice), log + filled)
      else if p.enforceOhlc && (high < low || open > high || open < low || close > high || close < low) then
        (Refuse(InconsistentOhlc), log + filled)
      else
        var rawVolume := Cell(cells, schema.index(VolumeRole));
        var volume := Decimal(rd, rawVolume);
        if volume.None? && Strip(rd, rawVolume) != "" then (Refuse(InvalidPrice), log + filled)
        else if volume.None? && !p.defaultVolume then (Refuse(MissingPrice), log + filled)
        else if volume.Some? && volume.value < 0.0 then (Refuse(NegativeVolume), log + filled)
        else
          var bar := Bar(symbol, timestamp, open, high, low, close, if volume.None? then 0.0 else volume.value,
                         None, None, line);
          ExamineExtras(rd, schema, line, cells, bar,
                        log + filled + if volume.None? then [Change(line, DefaultedVolume)] else [])
  }

  function ExamineExtras(rd: Reader, schema: Schema, line: nat, cells: seq<string>, bar: Bar, log: seq<Change>)
    : (Verdict, seq<Change>)
  {
    var rawVwap := Cell(cells, schema.index(VwapRole));
    var vwap := match Decimal(rd, rawVwap)
                case Some(v) => if bar.low <= v <= bar.high then Some(v) else None
                case None => None;
    var rawTrades := Cell(cells, schema.index(TradesRole));
    var trades := match Decimal(rd, rawTrades)
                  case Some(t) => if t >= 0.0 && t == t.Floor as real then Some(t.Floor) else None
                  case None => None;
    (Accept(bar.(vwap := vwap, trades := trades)),
     log + (if vwap.None? && Strip(rd, rawVwap) != "" then [Change(line, DiscardedVwap)] else [])
         + (if trades.None? && Strip(rd, rawTrades) != "" then [Change(line, DiscardedTrades)] else []))
  }

  /** A sound bar: what the policy demands of its prices holds of the ones it carries. */
  ghost predicate Sound(b: Bar, p: Policy) {
    && (p.requirePositive ==> b.open > 0.0 && b.high > 0.0 && b.low > 0.0 && b.close > 0.0)
    && (p.enforceOhlc ==> b.low <= b.open <= b.high && b.low <= b.close <= b.high)
    && (b.vwap.Some? ==> b.low <= b.vwap.value <= b.high)
    && (b.trades.Some? ==> b.trades.value >= 0)
  }

  /** Everything logged for a row is under that row's line; only the duplicate step drops rows. */
  ghost predicate LoggedFor(log: seq<Change>, line: nat) {
    forall i :: 0 <= i < |log| ==> log[i].line == line && log[i].kind !in {DroppedDuplicate, Reordered}
  }

  lemma ExtrasSound(rd: Reader, schema: Schema, p: Policy, line: nat, cells: seq<string>, bar: Bar, log: seq<Change>)
    requires Sound(bar, p) && LoggedFor(log, line) && bar.line == line
    ensures var (v, changes) := ExamineExtras(rd, schema, line, cells, bar, log);
            v.Accept? && Sound(v.bar, p) && v.bar.line == line && LoggedFor(changes, line)
  {
  }

  lemma LogAppend(a: seq<Change>, b: seq<Change>, line: nat)
    requires LoggedFor(a, line) && LoggedFor(b, line)
    ensures LoggedFor(a + b, line)
  {
  }

  lemma PricesSound(rd: Reader, schema: Schema, p: Policy, line: nat, cells: seq<string>,
                    symbol: string, timestamp: int, close: real, log: seq<Change>)
    requires LoggedFor(log, line)
    ensures var (v, changes) := ExaminePrices(rd, schema, p, line, cells, symbol, timestamp, close, log);
            LoggedFor(changes, line) && (v.Accept? ==> Sound(v.bar, p) && v.bar.line == line)
  {
    var o := OhlcPrice(rd, Cell(cells, schema.index(OpenRole)), p);
    var h := OhlcPrice(rd, Cell(cells, schema.index(HighRole)), p);
    var l := OhlcPrice(rd, Cell(cells, schema.index(LowRole)), p);
    if !o.Bad? && !h.Bad? && !l.Bad? {
      var filled := FilledLog(o, h, l, line);
      LogAppend(log, filled, line);
      var volume := Decimal(rd, Cell(cells, schema.index(VolumeRole)));
      var defaulted := if volume.None? then [Change(line, DefaultedVolume)] else [];
      LogAppend(log + filled, defaulted, line);
      var bar := Bar(symbol, timestamp, PriceOr(o, close), PriceOr(h, close), PriceOr(l, close), close,
                     if volume.None? then 0.0 else volume.value, None, None, line);
      if Sound(bar, p) {
        ExtrasSound(rd, schema, p, line, cells, bar, log + filled + defaulted);
      }
    }
  }

  /** Whatever the row, an accepted bar meets the policy's own demands, and everything logged about
      the row is under its line. */
  lemma ExamineSound(rd: Reader, schema: Schema, p: Policy, line: nat, cells: seq<string>)
    ensures var (v, log) := Examine(rd, schema, p, line, cells);
            LoggedFor(log, line) && (v.Accept? ==> Sound(v.bar, p) && v.bar.line == line)
  {
    var rawTime := Cell(cells, schema.index(TimestampRole));
    var trimmed := if rawTime != Strip(rd, rawTime) then [Change(line, TrimmedWhitespace)] else [];
    var named := Strip(rd, Cell(cells, schema.index(SymbolRole)));
    var defaulted := if named != "" then [] else [Change(line, DefaultedSymbol)];
    LogAppend(trimmed, defaulted, line);
    var log := trimmed + defaulted;
    var symbol := if named != "" then named else if schema.headerSymbol != "" then schema.headerSymbol else p.defaultSymbol;
    var time, close := rd.parseTimestamp(rawTime), Decimal(rd, Cell(cells, schema.index(CloseRole)));
    if time.Some? && close.Some? {
      PricesSound(rd, schema, p, line, cells, symbol, time.value, close.value, log);
    }
  }

  /** A bar stands where its label was read. */
  lemma BarTime(rd: Reader, schema: Schema, p: Policy, line: nat, cells: seq<string>)
    ensures var v := Examine(rd, schema, p, line, cells).0;
            v.Accept? ==> rd.parseTimestamp(Cell(cells, schema.index(TimestampRole))) == Some(v.bar.timestamp)
  {
  }
}
