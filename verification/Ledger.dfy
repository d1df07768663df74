/**
 * The threshold-free half of the evaluator. One event moves the ledger (`Core`) and yields the
 * moments at which rules must be judged; which pack thresholds apply is not known here.
 */
module Ledger {
  import opened Options
  import opened Events
  import opened Pack
  import opened State
  import opened Verdicts

  type CloseEvent = e: Event | e.TradeClosed?
    witness TradeClosed("", 0, 0, "", "", "", 0.0, None, None, None, None, None)

  datatype CoreDay = CoreDay(date: string, startEquity: real, traded: bool)

  datatype Core = Core(
    account: string, startBalance: real, book: Book, hwm: real, day: CoreDay, dayCounter: nat,
    newsWindows: seq<NewsWindowRec>, deferred: seq<CloseEvent>, seen: set<string>,
    seqApplied: nat, lastBrokerTs: Option<int>)

  /** An instant at which rules are judged, with the figures read at that instant. */
  datatype Moment =
    | Sample(o: Obs, ev: Event)
    | NewsHit(o: Obs, ev: Event, symbol: string, w: NewsWindowRec)
    | PrePositioned(o: Obs, ev: Event, symbol: string, w: NewsWindowRec, count: nat)
    | DayEnd(o: Obs, ev: Event, counter: nat)

  datatype CoreResult = CoreResult(core: Core, moments: seq<Moment>, alerts: seq<IntegrityAlert>, changed: bool)

  ghost function Observe(c: Core): Obs {
    Obs(c.account, c.startBalance, EquityOf(c.book), c.book.balance, c.hwm, c.dayCounter, c.day.date, c.day.startEquity)
  }

  function Max(a: int, b: int): int { if a < b then b else a }
  function RMax(a: real, b: real): real { if a < b then b else a }
  function RMin(a: real, b: real): real { if b < a then b else a }
  function Abs(x: real): real { if x < 0.0 then -x else x }

  /** The high-water mark moves only in trailing mode, and only up. */
  function Raise(mode: OverallMode, hwm: real, equity: real): real {
    if mode.Trailing? then RMax(hwm, equity) else hwm
  }

  function FreshCore(account: string, startBalance: real, initialDay: string): Core {
    Core(account, startBalance, Book(startBalance, map[], map[]), startBalance,
         CoreDay(initialDay, startBalance, false), 0, [], [], {}, 0, None)
  }

  // ----- closes ----------------------------------------------------------------------------------

  ghost function CloseCore(cfg: Settings, c: Core, ev: CloseEvent): CoreResult {
    if ev.exitPx.None? then
      CoreResult(c, [], [IntegrityAlert(ev.eventId, Some(ev.orderId), Malformed)], false)
    else if ev.orderId !in c.book.positions then
      CoreResult(c, [], [], false)
    else
      var pos := c.book.positions[ev.orderId];
      var pnl := Pnl(pos.side, pos.entryPx, ev.exitPx.value, pos.volume);
      var book := Book(c.book.balance + (pnl + ev.commission.GetOr(0.0) + ev.swap.GetOr(0.0)),
                       c.book.positions - {ev.orderId}, c.book.lastPx[ev.symbol := ev.exitPx.value]);
      var c1 := c.(book := book, day := c.day.(traded := true), hwm := Raise(cfg.overallMode, c.hwm, EquityOf(book)));
      CoreResult(c1, [Sample(Observe(c1), ev)], MismatchAlerts(cfg, pnl, ev), true)
  }

  function MismatchAlerts(cfg: Settings, pnl: real, ev: CloseEvent): seq<IntegrityAlert> {
    if ev.pnlReported.Some? && Abs(ev.pnlReported.value - pnl) > cfg.pnlTolerance
    then [IntegrityAlert(ev.eventId, Some(ev.orderId), PnlMismatch)] else []
  }

  /** The closes of one order among the first `k` of the buffer, applied one after the other. */
  ghost function DrainCore(cfg: Settings, c: Core, buffer: seq<CloseEvent>, k: nat, order: string): CoreResult
    requires k <= |buffer|
  {
    if k == 0 then CoreResult(c, [], [], false)
    else
      var init := DrainCore(cfg, c, buffer, k - 1, order);
      if buffer[k - 1].orderId != order then init
      else
        var last := CloseCore(cfg, init.core, buffer[k - 1]);
        CoreResult(last.core, init.moments + last.moments, init.alerts + last.alerts, init.changed || last.changed)
  }

  /** Among the first `k` buffered closes, those of every other order, in buffer order. */
  function OthersOf(buffer: seq<CloseEvent>, k: nat, order: string): seq<CloseEvent>
    requires k <= |buffer|
  {
    if k == 0 then []
    else if buffer[k - 1].orderId == order then OthersOf(buffer, k - 1, order)
    else OthersOf(buffer, k - 1, order) + [buffer[k - 1]]
  }

  // ----- one event -------------------------------------------------------------------------------

  /** Clock and sequence watchdogs: flagged, never fatal. */
  function WatchdogAlerts(c: Core, ev: Event): seq<IntegrityAlert> {
    (if c.lastBrokerTs.Some? && ev.brokerTs < c.lastBrokerTs.value
     then [IntegrityAlert(ev.eventId, None, BrokerTsRegression)] else []) +
    (if ev.seqNo < c.seqApplied then [IntegrityAlert(ev.eventId, None, SeqRegression)] else [])
  }

  /** The first recorded window the fill falls into. */
  function FindWindow(news: NewsCfg, windows: seq<NewsWindowRec>, symbol: string, ts: int): Option<NewsWindowRec> {
    if windows == [] then None
    else if windows[0].symbol == symbol && news.TierInScope(windows[0].tier) &&
            windows[0].windowStart <= ts <= windows[0].windowEnd then Some(windows[0])
    else FindWindow(news, windows[1..], symbol, ts)
  }

  ghost function NewsHits(cfg: Settings, c: Core, ev: Event): seq<Moment>
    requires ev.OrderFilled?
  {
    if !cfg.news.enabled || !cfg.news.SymbolInScope(ev.symbol) then []
    else
      match FindWindow(cfg.news, c.newsWindows, ev.symbol, ev.brokerTs)
      case None => []
      case Some(w) => [NewsHit(Observe(c), ev, ev.symbol, w)]
  }

  /** Orders opened on the symbol before the window starts. */
  function PrePositionedOrders(positions: map<string, Position>, symbol: string, windowStart: int): set<string> {
    set o <- positions | positions[o].symbol == symbol && positions[o].openedTs < windowStart :: positions[o].orderId
  }

  function PositionOf(ev: Event): Position
    requires ev.OrderFilled? && ev.fillPx.Some?
  {
    Position(ev.orderId, ev.symbol, ev.side, ev.volume, ev.fillPx.value, ev.brokerTs)
  }

  ghost function FillCore(cfg: Settings, c: Core, ev: Event): CoreResult
    requires ev.OrderFilled? && ev.fillPx.Some? && ev.orderId !in c.book.positions
  {
    var book := Book(c.book.balance + ev.commission.GetOr(0.0),
                     c.book.positions[ev.orderId := PositionOf(ev)],
                     c.book.lastPx[ev.symbol := ev.fillPx.value]);
    var filled := c.(book := book, deferred := OthersOf(c.deferred, |c.deferred|, ev.orderId));
    var drained := DrainCore(cfg, filled, c.deferred, |c.deferred|, ev.orderId);
    CoreResult(drained.core, drained.moments + [Sample(Observe(drained.core), ev)], drained.alerts, true)
  }

  ghost function RolloverCore(cfg: Settings, c: Core, ev: Event): CoreResult
    requires ev.Rollover?
  {
    var eq := EquityOf(c.book);
    var counter := if c.day.traded then c.dayCounter + 1 else c.dayCounter;
    CoreResult(c.(dayCounter := counter, hwm := Raise(cfg.overallMode, c.hwm, eq), day := CoreDay(ev.date, eq, false)),
               [DayEnd(Observe(c), ev, counter)], [], true)
  }

  /** Events that the source leaves early skip the final bookkeeping of sequence and clock. */
  predicate RunsToTheEnd(cfg: Settings, open: set<string>, ev: Event) {
    match ev
    case OrderFilled(_, _, _, orderId, _, _, _, _, fillPx, _) => fillPx.Some? && orderId !in open
    case TradeClosed(_, _, _, orderId, _, _, _, _, _, _, _, _) => orderId in open
    case BalanceAdjustment(_, _, _, _, amount, _) => amount.Some?
    case NewsWindow(_, _, _, symbol, tier, _, _) =>
      cfg.news.enabled && cfg.news.SymbolInScope(symbol) && cfg.news.TierInScope(tier)
    case _ => true
  }

  ghost function Transition(cfg: Settings, c: Core, ev: Event): CoreResult {
    match ev
    case Mark(_, _, _, symbol, px) =>
      if px.None? then CoreResult(c, [], [], false)
      else
        var c1 := c.(book := c.book.(lastPx := c.book.lastPx[symbol := px.value]));
        CoreResult(c1, [Sample(Observe(c1), ev)], [], true)
    case OrderFilled(eventId, _, _, orderId, _, _, _, _, fillPx, _) =>
      if fillPx.None? then CoreResult(c, [], [IntegrityAlert(eventId, Some(orderId), Malformed)], false)
      else
        var hits := NewsHits(cfg, c, ev);
        if orderId in c.book.positions then
          CoreResult(c, hits, [IntegrityAlert(eventId, Some(orderId), DuplicateFill)], false)
        else
          var r := FillCore(cfg, c, ev);
          r.(moments := hits + r.moments)
    case TradeClosed(eventId, _, _, orderId, _, _, _, _, _, _, _, _) =>
      if orderId !in c.book.positions then
        CoreResult(c.(deferred := c.deferred + [ev]), [], [IntegrityAlert(eventId, Some(orderId), CloseDeferred)], true)
      else CloseCore(cfg, c, ev)
    case BalanceAdjustment(eventId, _, _, _, amount, _) =>
      if amount.None? then CoreResult(c, [], [IntegrityAlert(eventId, None, Malformed)], false)
      else
        var book := c.book.(balance := c.book.balance + amount.value);
        var c1 := c.(book := book, hwm := Raise(cfg.overallMode, c.hwm, EquityOf(book)));
        CoreResult(c1, [Sample(Observe(c1), ev)], [], true)
    case AccountStateReport(eventId, _, _, reported, _) =>
      var drift := reported.Some? && Abs(reported.value - c.book.balance) > cfg.pnlTolerance;
      CoreResult(c, [], if drift then [IntegrityAlert(eventId, None, BalanceDrift)] else [], false)
    case NewsWindow(_, _, _, symbol, tier, windowStart, windowEnd) =>
      var w := NewsWindowRec(symbol, tier, windowStart, windowEnd);
      var c1 := c.(newsWindows := c.newsWindows + [w]);
      if !RunsToTheEnd(cfg, c.book.positions.Keys, ev) then CoreResult(c1, [], [], false)
      else
        var count := |PrePositionedOrders(c.book.positions, symbol, windowStart)|;
        CoreResult(c1, [PrePositioned(Observe(c), ev, symbol, w, count)], [], true)
    case Rollover(_, _, _, _) => RolloverCore(cfg, c, ev)
  }

  function Bookkeep(c: Core, ev: Event): Core {
    c.(seqApplied := Max(c.seqApplied, ev.seqNo),
       lastBrokerTs := Some(if c.lastBrokerTs.Some? then Max(c.lastBrokerTs.value, ev.brokerTs) else ev.brokerTs))
  }

  /** One event against the ledger; a key seen before changes nothing and yields nothing. */
  ghost function CoreStep(cfg: Settings, c: Core, ev: Event): CoreResult {
    if DedupKey(ev) in c.seen then CoreResult(c, [], [], false)
    else
      var c0 := c.(seen := c.seen + {DedupKey(ev)});
      var r := Transition(cfg, c0, ev);
      var after := if RunsToTheEnd(cfg, c0.book.positions.Keys, ev) then Bookkeep(r.core, ev) else r.core;
      CoreResult(after, r.moments, WatchdogAlerts(c, ev) + r.alerts, r.changed)
  }

  /** A whole stream against the ledger. */
  ghost function CoreRun(cfg: Settings, c: Core, evs: seq<Event>): CoreResult {
    if evs == [] then CoreResult(c, [], [], false)
    else
      var init := CoreRun(cfg, c, evs[..|evs| - 1]);
      var last := CoreStep(cfg, init.core, evs[|evs| - 1]);
      CoreResult(last.core, init.moments + last.moments, init.alerts + last.alerts, init.changed || last.changed)
  }
}
