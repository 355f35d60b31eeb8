/**
 The session projection (trading/projection.py) and the schedule that drives it
 (trading/runner.py): tables rewritten at irregular records from an engine book that only grows.
 */
module Projection {
  import opened Wrappers

  // ----- the engine's book -----

  /** What of an order is fixed when it is created. */
  datatype OrderFixed = OrderFixed(id: string, instrument: string, side: string, orderType: string, createdAt: int)

  datatype EngineOrder = EngineOrder(
    fixed: OrderFixed, status: string, quantity: Option<string>, filled: Option<string>, average: Option<string>)

  datatype EngineFill = EngineFill(
    id: string, orderId: string, instrument: string, side: string,
    quantity: Option<string>, price: Option<string>, commission: Option<string>, filledAt: int)

  datatype EnginePosition = EnginePosition(
    instrument: string, quantity: Option<string>, average: Option<string>,
    market: Option<string>, unrealized: Option<string>, realized: Option<string>)

  datatype Summary = Summary(
    cash: Option<string>, equity: Option<string>, realized: Option<string>, unrealized: Option<string>,
    commission: Option<string>, recordsProcessed: nat)

  /** An order's or a fill's sequence is its index. */
  datatype Engine = Engine(
    orders: seq<EngineOrder>, fills: seq<EngineFill>, positions: seq<EnginePosition>, summary: Summary)

  // ----- the tables -----

  datatype OrderRow = OrderRow(
    fixed: OrderFixed, status: string, quantity: string, filled: string, average: Option<string>)

  datatype FillRow = FillRow(
    id: string, orderId: string, instrument: string, side: string,
    quantity: string, price: string, commission: string, filledAt: int)

  datatype PositionRow = PositionRow(
    instrument: string, quantity: string, average: string,
    market: Option<string>, unrealized: Option<string>, realized: Option<string>)

  /** Orders and fills are keyed by sequence. */
  datatype Tables = Tables(
    orders: map<nat, OrderRow>, fills: map<nat, FillRow>, positions: seq<PositionRow>, summary: Option<Summary>)

  const EMPTY := Tables(map[], map[], [], None)

  type Universe = string -> string

  /** `row[...] or "0"`. */
  function OrZero(o: Option<string>): string {
    if o.None? || o.value == "" then "0" else o.value
  }

  function NewOrder(symbol: Universe, o: EngineOrder): OrderRow {
    OrderRow(o.fixed.(instrument := symbol(o.fixed.instrument)),
             o.status, OrZero(o.quantity), OrZero(o.filled), o.average)
  }

  /** An order already written is brought to where it is now; what was fixed stays as written. */
  function UpdatedOrder(row: OrderRow, o: EngineOrder): OrderRow {
    row.(status := o.status, quantity := OrZero(o.quantity), filled := OrZero(o.filled), average := o.average)
  }

  function NewFill(symbol: Universe, f: EngineFill): FillRow {
    FillRow(f.id, f.orderId, symbol(f.instrument), f.side,
            OrZero(f.quantity), OrZero(f.price), OrZero(f.commission), f.filledAt)
  }

  function NewPosition(symbol: Universe, p: EnginePosition): PositionRow {
    PositionRow(symbol(p.instrument), OrZero(p.quantity), OrZero(p.average), p.market, p.unrealized, p.realized)
  }

  function Positions(symbol: Universe, ps: seq<EnginePosition>): (rows: seq<PositionRow>)
    ensures |rows| == |ps| && forall i :: 0 <= i < |ps| ==> rows[i] == NewPosition(symbol, ps[i])
  {
    seq(|ps|, i requires 0 <= i < |ps| => NewPosition(symbol, ps[i]))
  }

  // ----- one projection, said declaratively -----

  /** No stored row among the first `n` names another engine order, or another engine fill. */
  predicate OrdersMatch(rows: map<nat, OrderRow>, orders: seq<EngineOrder>, n: nat)
    requires n <= |orders|
  {
    forall k :: 0 <= k < n && k in rows ==> rows[k].fixed.id == orders[k].fixed.id
  }

  predicate FillsMatch(rows: map<nat, FillRow>, fills: seq<EngineFill>, n: nat)
    requires n <= |fills|
  {
    forall k :: 0 <= k < n && k in rows ==> rows[k].id == fills[k].id
  }

  /** The order table after the engine's first `n` orders are written over it. */
  function OrdersAfter(symbol: Universe, rows: map<nat, OrderRow>, orders: seq<EngineOrder>, n: nat): map<nat, OrderRow>
    requires n <= |orders|
  {
    rows + map k: nat | k < n :: k := if k in rows then UpdatedOrder(rows[k], orders[k]) else NewOrder(symbol, orders[k])
  }

  function FillsAfter(symbol: Universe, rows: map<nat, FillRow>, fills: seq<EngineFill>, n: nat): map<nat, FillRow>
    requires n <= |fills|
  {
    rows + map k: nat | k < n && k !in rows :: k := NewFill(symbol, fills[k])
  }

  /** The tables after projecting `e`; None when a stored id differs at its sequence. */
  function Projected(symbol: Universe, t: Tables, e: Engine): Option<Tables> {
    if !OrdersMatch(t.orders, e.orders, |e.orders|) || !FillsMatch(t.fills, e.fills, |e.fills|) then None
    else Some(Tables(OrdersAfter(symbol, t.orders, e.orders, |e.orders|), FillsAfter(symbol, t.fills, e.fills, |e.fills|),
                     Positions(symbol, e.positions), Some(e.summary)))
  }

  /** The order and fill rows of a book and nothing else. */
  function OrderBook(symbol: Universe, e: Engine): map<nat, OrderRow> {
    map k: nat | k < |e.orders| :: k := NewOrder(symbol, e.orders[k])
  }

  function FillBook(symbol: Universe, e: Engine): map<nat, FillRow> {
    map k: nat | k < |e.fills| :: k := NewFill(symbol, e.fills[k])
  }

  function Book(symbol: Universe, e: Engine): Tables {
    Tables(OrderBook(symbol, e), FillBook(symbol, e), Positions(symbol, e.positions), Some(e.summary))
  }

  lemma ProjectedOnEmpty(symbol: Universe, e: Engine)
    ensures Projected(symbol, EMPTY, e) == Some(Book(symbol, e))
  {
    assert OrdersAfter(symbol, map[], e.orders, |e.orders|) == OrderBook(symbol, e);
    assert FillsAfter(symbol, map[], e.fills, |e.fills|) == FillBook(symbol, e);
  }

  // ----- column by column -----

  /** A text column as stored: the engine's, or "0" where that is absent or empty. */
  predicate StoredAs(text: string, value: Option<string>) {
    if value.Some? && value.value != "" then text == value.value else text == "0"
  }

  /** What an order row holds: its progress from the engine, and what was fixed as first written. */
  predicate OrderColumns(symbol: Universe, o: EngineOrder, was: map<nat, OrderRow>, k: nat, row: OrderRow) {
    && row.status == o.status && row.average == o.average
    && StoredAs(row.quantity, o.quantity) && StoredAs(row.filled, o.filled)
    && if k in was then row.fixed == was[k].fixed && row.fixed.id == o.fixed.id
       else
         && row.fixed.id == o.fixed.id && row.fixed.instrument == symbol(o.fixed.instrument)
         && row.fixed.side == o.fixed.side && row.fixed.orderType == o.fixed.orderType && row.fixed.createdAt == o.fixed.createdAt
  }

  /** A fill is written once and then left alone. */
  predicate FillColumns(symbol: Universe, f: EngineFill, was: map<nat, FillRow>, k: nat, row: FillRow) {
    if k in was then row == was[k] && row.id == f.id
    else
      && row.id == f.id && row.orderId == f.orderId && row.instrument == symbol(f.instrument) && row.side == f.side
      && StoredAs(row.quantity, f.quantity) && StoredAs(row.price, f.price) && StoredAs(row.commission, f.commission)
      && row.filledAt == f.filledAt
  }

  predicate PositionColumns(symbol: Universe, p: EnginePosition, row: PositionRow) {
    && row.instrument == symbol(p.instrument)
    && StoredAs(row.quantity, p.quantity) && StoredAs(row.average, p.average)
    && row.market == p.market && row.unrealized == p.unrealized && row.realized == p.realized
  }

  ghost predicate OrdersHold(symbol: Universe, was: map<nat, OrderRow>, orders: seq<EngineOrder>, rows: map<nat, OrderRow>) {
    && (forall k: nat :: k in rows <==> k in was || k < |orders|)
    && (forall k: nat :: k < |orders| ==> k in rows && OrderColumns(symbol, orders[k], was, k, rows[k]))
    && (forall k: nat :: k in was && k >= |orders| ==> k in rows && rows[k] == was[k])
  }

  ghost predicate FillsHold(symbol: Universe, was: map<nat, FillRow>, fills: seq<EngineFill>, rows: map<nat, FillRow>) {
    && (forall k: nat :: k in rows <==> k in was || k < |fills|)
    && (forall k: nat :: k < |fills| ==> k in rows && FillColumns(symbol, fills[k], was, k, rows[k]))
    && (forall k: nat :: k in was && k >= |fills| ==> k in rows && rows[k] == was[k])
  }

  ghost predicate PositionsHold(symbol: Universe, ps: seq<EnginePosition>, rows: seq<PositionRow>) {
    |rows| == |ps| && forall i :: 0 <= i < |ps| ==> PositionColumns(symbol, ps[i], rows[i])
  }

  /** What the tables hold after `e` was projected over `was`, column by column. */
  ghost predicate Holds(symbol: Universe, was: Tables, e: Engine, t: Tables) {
    && OrdersHold(symbol, was.orders, e.orders, t.orders) && FillsHold(symbol, was.fills, e.fills, t.fills)
    && PositionsHold(symbol, e.positions, t.positions) && t.summary == Some(e.summary)
  }

  lemma OrdersHoldAfter(symbol: Universe, rows: map<nat, OrderRow>, orders: seq<EngineOrder>)
    requires OrdersMatch(rows, orders, |orders|)
    ensures OrdersHold(symbol, rows, orders, OrdersAfter(symbol, rows, orders, |orders|))
  {
  }

  lemma FillsHoldAfter(symbol: Universe, rows: map<nat, FillRow>, fills: seq<EngineFill>)
    requires FillsMatch(rows, fills, |fills|)
    ensures FillsHold(symbol, rows, fills, FillsAfter(symbol, rows, fills, |fills|))
  {
  }

  lemma PositionsHoldAfter(symbol: Universe, ps: seq<EnginePosition>)
    ensures PositionsHold(symbol, ps, Positions(symbol, ps))
  {
  }

  /** A projection that meets no mismatch writes every column of every row as the engine has it; a mismatch
      is a stored row whose id is not the engine's at its sequence. */
  lemma ProjectedHolds(symbol: Universe, t: Tables, e: Engine)
    ensures Projected(symbol, t, e).Some? ==> Holds(symbol, t, e, Projected(symbol, t, e).value)
    ensures Projected(symbol, t, e).None? <==>
              || (exists k: nat :: k < |e.orders| && k in t.orders && t.orders[k].fixed.id != e.orders[k].fixed.id)
              || (exists k: nat :: k < |e.fills| && k in t.fills && t.fills[k].id != e.fills[k].id)
  {
    PositionsHoldAfter(symbol, e.positions);
    if Projected(symbol, t, e).Some? {
      OrdersHoldAfter(symbol, t.orders, e.orders);
      FillsHoldAfter(symbol, t.fills, e.fills);
    }
  }

  // ----- histories -----

  /** `e` is an earlier moment of the run whose book is `last`: its orders and fills are the first of
      `last`'s, with the same ids and fixed fields, and its fills are final. */
  ghost predicate EarlierThan(e: Engine, last: Engine) {
    && |e.orders| <= |last.orders| && e.fills <= last.fills
    && forall k :: 0 <= k < |e.orders| ==> e.orders[k].fixed == last.orders[k].fixed
  }

  /** The tables hold only rows of the run whose book is `last`; statuses may be out of date. */
  ghost predicate OfRun(symbol: Universe, t: Tables, last: Engine) {
    && (forall k :: k in t.orders ==> k < |last.orders| && t.orders[k].fixed == NewOrder(symbol, last.orders[k]).fixed)
    && (forall k :: k in t.fills ==> k < |last.fills| && t.fills[k] == NewFill(symbol, last.fills[k]))
  }

  /** Every row beside the book's own is of the same orders and fills. */
  ghost predicate Agrees(symbol: Universe, t: Tables, e: Engine) {
    && (forall k :: k in t.orders && k < |e.orders| ==> t.orders[k].fixed == NewOrder(symbol, e.orders[k]).fixed)
    && (forall k :: k in t.fills && k < |e.fills| ==> t.fills[k] == NewFill(symbol, e.fills[k]))
  }

  lemma OfRunAgrees(symbol: Universe, t: Tables, e: Engine, last: Engine)
    requires OfRun(symbol, t, last) && EarlierThan(e, last)
    ensures Agrees(symbol, t, e)
  {
    forall k | k in t.fills && k < |e.fills| ensures t.fills[k] == NewFill(symbol, e.fills[k]) {
      assert e.fills[k] == last.fills[k];
    }
  }

  lemma OrdersWritten(symbol: Universe, rows: map<nat, OrderRow>, e: Engine)
    requires forall k :: k in rows && k < |e.orders| ==> rows[k].fixed == NewOrder(symbol, e.orders[k]).fixed
    ensures OrdersMatch(rows, e.orders, |e.orders|)
    ensures OrdersAfter(symbol, rows, e.orders, |e.orders|) == rows + OrderBook(symbol, e)
  {
    var after, book := OrdersAfter(symbol, rows, e.orders, |e.orders|), rows + OrderBook(symbol, e);
    assert after.Keys == book.Keys;
    forall k | k in book ensures after[k] == book[k] {
      if k < |e.orders| && k in rows {
        assert UpdatedOrder(rows[k], e.orders[k]) == NewOrder(symbol, e.orders[k]);
      }
    }
  }

  lemma FillsWritten(symbol: Universe, rows: map<nat, FillRow>, e: Engine)
    requires forall k :: k in rows && k < |e.fills| ==> rows[k] == NewFill(symbol, e.fills[k])
    ensures FillsMatch(rows, e.fills, |e.fills|)
    ensures FillsAfter(symbol, rows, e.fills, |e.fills|) == rows + FillBook(symbol, e)
  {
    assert FillsAfter(symbol, rows, e.fills, |e.fills|).Keys == (rows + FillBook(symbol, e)).Keys;
  }

  /** Whatever rows of the run were there, projecting its book writes exactly the book, and leaves
      whatever rows lie beyond it. */
  lemma ProjectingWritesBook(symbol: Universe, t: Tables, e: Engine)
    requires Agrees(symbol, t, e)
    ensures Projected(symbol, t, e)
         == Some(Book(symbol, e).(orders := t.orders + OrderBook(symbol, e), fills := t.fills + FillBook(symbol, e)))
  {
    OrdersWritten(symbol, t.orders, e);
    FillsWritten(symbol, t.fills, e);
  }

  lemma BooksAreOfRun(symbol: Universe, t: Tables, e: Engine, last: Engine)
    requires OfRun(symbol, t, last) && EarlierThan(e, last)
    ensures OfRun(symbol, Book(symbol, e).(orders := t.orders + OrderBook(symbol, e), fills := t.fills + FillBook(symbol, e)), last)
  {
    forall k: nat | k < |e.fills| ensures e.fills[k] == last.fills[k] {
    }
  }

  /** Several projections one after another. */
  function ProjectedAll(symbol: Universe, t: Tables, es: seq<Engine>): Option<Tables>
    decreases |es|
  {
    if es == [] then Some(t)
    else match Projected(symbol, t, es[0])
      case None => None
      case Some(t') => ProjectedAll(symbol, t', es[1..])
  }

  lemma NothingBeyond<R>(rows: map<nat, R>, book: map<nat, R>, n: nat)
    requires forall k: nat :: k in book <==> k < n
    ensures rows + book == book <==> forall k :: k in rows ==> k < n
  {
    if rows + book == book {
      forall k | k in rows ensures k < n {
        assert k in rows + book;
      }
    }
  }

  lemma FinalProjection(symbol: Universe, t: Tables, last: Engine)
    requires OfRun(symbol, t, last)
    ensures Projected(symbol, t, last) == Some(Book(symbol, last))
  {
    ProjectingWritesBook(symbol, t, last);
    NothingBeyond(t.orders, OrderBook(symbol, last), |last.orders|);
    NothingBeyond(t.fills, FillBook(symbol, last), |last.fills|);
  }

  lemma {:induction false} ProjectingThenLast(symbol: Universe, t: Tables, es: seq<Engine>, last: Engine)
    requires OfRun(symbol, t, last)
    requires forall i :: 0 <= i < |es| ==> EarlierThan(es[i], last)
    ensures ProjectedAll(symbol, t, es + [last]) == Some(Book(symbol, last))
    decreases |es|
  {
    if es == [] {
      assert [] + [last] == [last] && [last][1..] == [];
      FinalProjection(symbol, t, last);
      assert ProjectedAll(symbol, Book(symbol, last), []) == Some(Book(symbol, last));
    } else {
      assert (es + [last])[0] == es[0] && (es + [last])[1..] == es[1..] + [last];
      OfRunAgrees(symbol, t, es[0], last);
      ProjectingWritesBook(symbol, t, es[0]);
      BooksAreOfRun(symbol, t, es[0], last);
      ProjectingThenLast(symbol, Projected(symbol, t, es[0]).value, es[1..], last);
    }
  }

  /** When the tables are rewritten does not matter: projecting any moments of a run, in any number and
      any order (a resumed session replays from its first record), and then its last, leaves exactly
      the tables of that one final projection. */
  lemma ScheduleDoesNotMatter(symbol: Universe, es: seq<Engine>, last: Engine)
    requires forall i :: 0 <= i < |es| ==> EarlierThan(es[i], last)
    ensures ProjectedAll(symbol, EMPTY, es + [last]) == Projected(symbol, EMPTY, last) == Some(Book(symbol, last))
  {
    ProjectingThenLast(symbol, EMPTY, es, last);
    ProjectedOnEmpty(symbol, last);
  }

  lemma OrderTwice(symbol: Universe, rows: map<nat, OrderRow>, orders: seq<EngineOrder>, k: nat)
    requires OrdersMatch(rows, orders, |orders|) && k < |orders|
    ensures var once := OrdersAfter(symbol, rows, orders, |orders|);
            k in once && once[k].fixed.id == orders[k].fixed.id && UpdatedOrder(once[k], orders[k]) == once[k]
  {
  }

  lemma OrdersTwice(symbol: Universe, rows: map<nat, OrderRow>, orders: seq<EngineOrder>)
    requires OrdersMatch(rows, orders, |orders|)
    ensures var once := OrdersAfter(symbol, rows, orders, |orders|);
            OrdersMatch(once, orders, |orders|) && OrdersAfter(symbol, once, orders, |orders|) == once
  {
    var once := OrdersAfter(symbol, rows, orders, |orders|);
    forall k | 0 <= k < |orders|
      ensures k in once && once[k].fixed.id == orders[k].fixed.id && UpdatedOrder(once[k], orders[k]) == once[k] {
      OrderTwice(symbol, rows, orders, k);
    }
    RewritingIsIdle(symbol, once, orders);
  }

  lemma RewritingIsIdle(symbol: Universe, rows: map<nat, OrderRow>, orders: seq<EngineOrder>)
    requires forall k :: 0 <= k < |orders| ==> k in rows && UpdatedOrder(rows[k], orders[k]) == rows[k]
    ensures OrdersAfter(symbol, rows, orders, |orders|) == rows
  {
  }

  lemma FillsTwice(symbol: Universe, rows: map<nat, FillRow>, fills: seq<EngineFill>)
    requires FillsMatch(rows, fills, |fills|)
    ensures var once := FillsAfter(symbol, rows, fills, |fills|);
            FillsMatch(once, fills, |fills|) && FillsAfter(symbol, once, fills, |fills|) == once
  {
  }

  /** Projecting the same book twice changes nothing, whatever the tables held. */
  lemma ProjectingTwice(symbol: Universe, t: Tables, e: Engine)
    requires Projected(symbol, t, e).Some?
    ensures Projected(symbol, Projected(symbol, t, e).value, e) == Projected(symbol, t, e)
  {
    OrdersTwice(symbol, t.orders, e.orders);
    FillsTwice(symbol, t.fills, e.fills);
  }

  /** A replay that ends earlier than the run before it leaves that run's later rows behind: its tables
      are those of its own final projection if and only if there were no later rows. */
  lemma ShorterReplayExactly(symbol: Universe, t: Tables, e: Engine, longer: Engine)
    requires OfRun(symbol, t, longer) && EarlierThan(e, longer)
    ensures Projected(symbol, t, e) == Projected(symbol, EMPTY, e)
       <==> (forall k :: k in t.orders ==> k < |e.orders|) && (forall k :: k in t.fills ==> k < |e.fills|)
  {
    OfRunAgrees(symbol, t, e, longer);
    ProjectingWritesBook(symbol, t, e);
    ProjectedOnEmpty(symbol, e);
    NothingBeyond(t.orders, OrderBook(symbol, e), |e.orders|);
    NothingBeyond(t.fills, FillBook(symbol, e), |e.fills|);
  }

  // ----- the schedule -----

  const PROJECTION_INTERVAL := 25

  ghost predicate History(h: seq<Engine>) {
    forall i, j :: 0 <= i <= j < |h| ==> EarlierThan(h[i], h[j])
  }

  /** The tables of one moment: empty before the first record, the book after the m-th record. */
  ghost function Moment(symbol: Universe, h: seq<Engine>, m: nat): Tables
    requires m <= |h|
  {
    if m == 0 then EMPTY else Book(symbol, h[m - 1])
  }

  function FillCount(h: seq<Engine>, m: nat): nat
    requires m <= |h|
  {
    if m == 0 then 0 else |h[m - 1].fills|
  }

  /** The tables and a moment no more than 24 records old that already has every current fill. */
  ghost predicate UpToDate(symbol: Universe, t: Tables, h: seq<Engine>, n: nat, m: nat)
    requires n <= |h|
  {
    m <= n < m + PROJECTION_INTERVAL && m / PROJECTION_INTERVAL == n / PROJECTION_INTERVAL
    && FillCount(h, m) == FillCount(h, n) && t == Moment(symbol, h, m)
  }

  lemma MomentAfterMoment(symbol: Universe, t: Tables, h: seq<Engine>, m: nat, n: nat)
    requires History(h) && m < n <= |h| && t == Moment(symbol, h, m)
    ensures Projected(symbol, t, h[n - 1]) == Some(Moment(symbol, h, n))
  {
    if m == 0 {
      ProjectedOnEmpty(symbol, h[n - 1]);
    } else {
      assert EarlierThan(h[m - 1], h[n - 1]);
      BookOfRun(symbol, h[m - 1], h[n - 1]);
      FinalProjection(symbol, t, h[n - 1]);
    }
  }

  lemma BookOfRun(symbol: Universe, e: Engine, last: Engine)
    requires EarlierThan(e, last)
    ensures OfRun(symbol, Book(symbol, e), last)
  {
    forall k: nat | k < |e.fills| ensures e.fills[k] == last.fills[k] {
    }
  }

  // ----- one row at a time -----

  function OrderAt(symbol: Universe, rows: map<nat, OrderRow>, orders: seq<EngineOrder>, n: nat, k: nat): OrderRow
    requires n <= |orders| && (k < n || k in rows)
  {
    if k >= n then rows[k] else if k in rows then UpdatedOrder(rows[k], orders[k]) else NewOrder(symbol, orders[k])
  }

  /** The first `n` orders have been written over the rows. */
  ghost predicate OrdersSoFar(symbol: Universe, rows: map<nat, OrderRow>, orders: seq<EngineOrder>, n: nat, written: map<nat, OrderRow>)
    requires n <= |orders|
  {
    forall k: nat :: (k in written <==> k < n || k in rows) && (k in written ==> written[k] == OrderAt(symbol, rows, orders, n, k))
  }

  lemma OneMoreOrder(symbol: Universe, rows: map<nat, OrderRow>, orders: seq<EngineOrder>, n: nat, written: map<nat, OrderRow>,
                     row: OrderRow)
    requires n < |orders| && OrdersSoFar(symbol, rows, orders, n, written)
    requires row == if n in rows then UpdatedOrder(rows[n], orders[n]) else NewOrder(symbol, orders[n])
    ensures OrdersSoFar(symbol, rows, orders, n + 1, written[n := row])
  {
  }

  lemma AllOrders(symbol: Universe, rows: map<nat, OrderRow>, orders: seq<EngineOrder>, written: map<nat, OrderRow>)
    requires OrdersSoFar(symbol, rows, orders, |orders|, written)
    ensures written == OrdersAfter(symbol, rows, orders, |orders|)
  {
  }

  function FillAt(symbol: Universe, rows: map<nat, FillRow>, fills: seq<EngineFill>, k: nat): FillRow
    requires k < |fills| || k in rows
  {
    if k in rows then rows[k] else NewFill(symbol, fills[k])
  }

  /** The first `n` fills have been written beside the rows. */
  ghost predicate FillsSoFar(symbol: Universe, rows: map<nat, FillRow>, fills: seq<EngineFill>, n: nat, written: map<nat, FillRow>)
    requires n <= |fills|
  {
    forall k: nat :: (k in written <==> k < n || k in rows) && (k in written ==> written[k] == FillAt(symbol, rows, fills, k))
  }

  lemma OneMoreFill(symbol: Universe, rows: map<nat, FillRow>, fills: seq<EngineFill>, n: nat, written: map<nat, FillRow>)
    requires n < |fills| && FillsSoFar(symbol, rows, fills, n, written)
    ensures FillsSoFar(symbol, rows, fills, n + 1, if n in rows then written else written[n := NewFill(symbol, fills[n])])
  {
  }

  lemma AllFills(symbol: Universe, rows: map<nat, FillRow>, fills: seq<EngineFill>, written: map<nat, FillRow>)
    requires FillsSoFar(symbol, rows, fills, |fills|, written)
    ensures written == FillsAfter(symbol, rows, fills, |fills|)
  {
  }

  // ----- the code's own form -----

  /** The projection tables of one session. */
  class SessionTables {
    var orders: map<nat, OrderRow>
    var fills: map<nat, FillRow>
    var positions: seq<PositionRow>
    var summary: Option<Summary>
    const symbol: Universe

    function View(): Tables
      reads this
    {
      Tables(orders, fills, positions, summary)
    }

    constructor (symbol: Universe)
      ensures View() == EMPTY && this.symbol == symbol
    {
      this.symbol := symbol;
      orders, fills, positions, summary := map[], map[], [], None;
    }

    /** The order rows this projection would write, or None at the first mismatch. */
    method PendingOrders(e: Engine) returns (pending: Option<map<nat, OrderRow>>)
      ensures pending.None? <==> !OrdersMatch(orders, e.orders, |e.orders|)
      ensures pending.Some? ==> pending.value == OrdersAfter(symbol, orders, e.orders, |e.orders|)
    {
      pending := WriteOrders(e.orders);
      if pending.Some? {
        AllOrders(symbol, orders, e.orders, pending.value);
      }
    }

    method WriteOrders(book: seq<EngineOrder>) returns (pending: Option<map<nat, OrderRow>>)
      ensures pending.None? <==> !OrdersMatch(orders, book, |book|)
      ensures pending.Some? ==> OrdersSoFar(symbol, orders, book, |book|, pending.value)
    {
      var written: map<nat, OrderRow> := orders;
      for k := 0 to |book|
        invariant OrdersSoFar(symbol, orders, book, k, written) && OrdersMatch(orders, book, k)
      {
        if k in orders {
          if orders[k].fixed.id != book[k].fixed.id {
            return None;
          }
          var row := orders[k].(status := book[k].status, quantity := OrZero(book[k].quantity),
                                filled := OrZero(book[k].filled), average := book[k].average);
          OneMoreOrder(symbol, orders, book, k, written, row);
          written := written[k := row];
        } else {
          OneMoreOrder(symbol, orders, book, k, written, NewOrder(symbol, book[k]));
          written := written[k := NewOrder(symbol, book[k])];
        }
      }
      return Some(written);
    }

    /** The fill rows, likewise: a fill already stored is left alone. */
    method PendingFills(e: Engine) returns (pending: Option<map<nat, FillRow>>)
      ensures pending.None? <==> !FillsMatch(fills, e.fills, |e.fills|)
      ensures pending.Some? ==> pending.value == FillsAfter(symbol, fills, e.fills, |e.fills|)
    {
      pending := WriteFills(e.fills);
      if pending.Some? {
        AllFills(symbol, fills, e.fills, pending.value);
      }
    }

    method WriteFills(book: seq<EngineFill>) returns (pending: Option<map<nat, FillRow>>)
      ensures pending.None? <==> !FillsMatch(fills, book, |book|)
      ensures pending.Some? ==> FillsSoFar(symbol, fills, book, |book|, pending.value)
    {
      var written: map<nat, FillRow> := fills;
      for k := 0 to |book|
        invariant FillsSoFar(symbol, fills, book, k, written) && FillsMatch(fills, book, k)
      {
        OneMoreFill(symbol, fills, book, k, written);
        if k in fills {
          if fills[k].id != book[k].id {
            return None;
          }
        } else {
          written := written[k := NewFill(symbol, book[k])];
        }
      }
      return Some(written);
    }

    /** Write one engine state, inside one transaction: a mismatch raises and rolls it back. */
    method Project(e: Engine) returns (ok: bool)
      modifies this
      ensures ok <==> Projected(symbol, old(View()), e).Some?
      ensures ok ==> View() == Projected(symbol, old(View()), e).value
      ensures ok ==> Holds(symbol, old(View()), e, View())
      ensures !ok ==> View() == old(View())
    {
      ProjectedHolds(symbol, View(), e);
      var pendingOrders := PendingOrders(e);
      if pendingOrders.None? {
        return false;
      }
      var pendingFills := PendingFills(e);
      if pendingFills.None? {
        return false;
      }
      orders, fills := pendingOrders.value, pendingFills.value;
      positions := Positions(symbol, e.positions);
      summary := Some(e.summary);
      return true;
    }

    /** The runner's record loop, seen from the tables: a projection every 25 records and whenever the
        fill count moved. `h[i]` is the engine after record i + 1. */
    method Replay(h: seq<Engine>) returns (ghost m: nat)
      requires History(h) && View() == EMPTY
      modifies this
      ensures m <= |h| && UpToDate(symbol, View(), h, |h|, m)
    {
      var fillsSeen := 0;
      m := 0;
      for index := 1 to |h| + 1
        invariant m < index && UpToDate(symbol, View(), h, index - 1, m) && fillsSeen == FillCount(h, index - 1)
      {
        var state := h[index - 1];
        var currentFills := |state.fills|;
        if index % PROJECTION_INTERVAL == 0 || currentFills != fillsSeen {
          fillsSeen := currentFills;
          MomentAfterMoment(symbol, View(), h, m, index);
          var ok := Project(state);
          m := index;
        }
      }
    }
  }
}
