/**
 * Which way a position earns (state.rs:115-140, eval.rs:440-460): a long by the rise of its price, a short by the
 * fall, in the sum over open positions as in the money a close brings.
 */
module Exposure {
  import opened Events
  import opened Pack
  import opened State
  import opened Ledger
  import opened Journal

  // ----- closing ------------------------------------------------------------------------------------

  /** A readable close of an open order, delivered for the first time. */
  predicate Closes(c: Core, ev: Event) {
    ev.TradeClosed? && ev.orderId in c.book.positions && ev.exitPx.Some? && DedupKey(ev) !in c.seen
  }

  /** A long earns what its price rose by, a short what it fell by, for each unit; costs are added. */
  lemma CloseRealises(cfg: Settings, c: Core, ev: Event)
    requires Closes(c, ev)
    ensures var pos, exit := c.book.positions[ev.orderId], ev.exitPx.value;
            var costs := ev.commission.GetOr(0.0) + ev.swap.GetOr(0.0);
            var gained := CoreStep(cfg, c, ev).core.book.balance - c.book.balance;
            && (pos.side == Buy ==> gained == (exit - pos.entryPx) * pos.volume + costs)
            && (pos.side == Sell ==> gained == (pos.entryPx - exit) * pos.volume + costs)
  {
    hide EquityOf, DedupKey, MismatchAlerts, Pnl;
    var pos := c.book.positions[ev.orderId];
    BroughtBy(pos.entryPx, ev.exitPx.value, pos.volume);
  }

  lemma BroughtBy(entry: real, exit: real, volume: real)
    ensures Pnl(Buy, entry, exit, volume) == (exit - entry) * volume
    ensures Pnl(Sell, entry, exit, volume) == (entry - exit) * volume
  {
  }

  /** What a close leaves behind: its position gone, all others as they were, its symbol at the exit price. */
  lemma CloseLeaves(cfg: Settings, c: Core, ev: Event)
    requires Closes(c, ev)
    ensures var book := CoreStep(cfg, c, ev).core.book;
            && book.positions == c.book.positions - {ev.orderId}
            && book.lastPx == c.book.lastPx[ev.symbol := ev.exitPx.value]
  {
    hide EquityOf, DedupKey, Pnl, MismatchAlerts;
  }

  // ----- equity, position by position ---------------------------------------------------------------

  /** The price a position is valued at: its symbol's last one, or its own where there is none yet. */
  function MarkOf(pos: Position, lastPx: map<string, real>): real {
    if pos.symbol in lastPx then lastPx[pos.symbol] else pos.entryPx
  }

  lemma NoPositionsNoExposure(b: Book)
    requires b.positions == map[]
    ensures EquityOf(b) == b.balance
  {
  }

  /** Equity is that of the book without a position, and what that position would bring at its mark. */
  lemma PositionWorth(b: Book, o: string)
    requires o in b.positions
    ensures var pos, rest := b.positions[o], EquityOf(b.(positions := b.positions - {o}));
            var mark := MarkOf(pos, b.lastPx);
            && (pos.side == Buy ==> EquityOf(b) == rest + (mark - pos.entryPx) * pos.volume)
            && (pos.side == Sell ==> EquityOf(b) == rest + (pos.entryPx - mark) * pos.volume)
  {
    var fewer := b.positions - {o};
    UnrealizedSumPick(b.positions.Keys, o, b.positions, b.lastPx);
    assert b.positions.Keys - {o} == fewer.Keys;
    SameSum(fewer.Keys, b.positions, fewer, b.lastPx);
  }

  lemma {:induction false} SameSum(orders: set<string>, p: map<string, Position>, q: map<string, Position>,
                                   lastPx: map<string, real>)
    requires orders <= p.Keys && orders <= q.Keys && forall o <- orders :: p[o] == q[o]
    ensures UnrealizedSum(orders, p, lastPx) == UnrealizedSum(orders, q, lastPx)
    decreases orders
  {
    if orders != {} {
      var o :| o in orders;
      UnrealizedSumPick(orders, o, p, lastPx);
      UnrealizedSumPick(orders, o, q, lastPx);
      SameSum(orders - {o}, p, q, lastPx);
    }
  }

  // ----- a price move ---------------------------------------------------------------------------------

  /** Units held in a symbol: long ones less short ones. */
  ghost function NetVolume(orders: set<string>, positions: map<string, Position>, symbol: string): real
    requires orders <= positions.Keys
  {
    if orders == {} then 0.0
    else
      var o :| o in orders;
      SignedVolume(positions[o], symbol) + NetVolume(orders - {o}, positions, symbol)
  }

  function SignedVolume(pos: Position, symbol: string): real {
    if pos.symbol != symbol then 0.0 else match pos.side case Buy => pos.volume case Sell => -pos.volume
  }

  lemma {:induction false} NetVolumePick(orders: set<string>, o: string, positions: map<string, Position>,
                                         symbol: string)
    requires orders <= positions.Keys && o in orders
    ensures NetVolume(orders, positions, symbol) ==
            SignedVolume(positions[o], symbol) + NetVolume(orders - {o}, positions, symbol)
    decreases orders
  {
    hide SignedVolume;
    var first :| first in orders && NetVolume(orders, positions, symbol) ==
      SignedVolume(positions[first], symbol) + NetVolume(orders - {first}, positions, symbol);
    if first != o {
      NetVolumePick(orders - {first}, o, positions, symbol);
      NetVolumePick(orders - {o}, first, positions, symbol);
      assert orders - {first} - {o} == orders - {o} - {first};
    }
  }

  lemma OneMoves(pos: Position, lastPx: map<string, real>, symbol: string, px: real)
    requires symbol in lastPx
    ensures Unrealized(pos, lastPx[symbol := px]) ==
            Unrealized(pos, lastPx) + SignedVolume(pos, symbol) * (px - lastPx[symbol])
  {
  }

  lemma Distribute(x: real, y: real, d: real)
    ensures (x + y) * d == x * d + y * d
  {
  }

  lemma {:induction false} SumMoves(orders: set<string>, positions: map<string, Position>, lastPx: map<string, real>,
                                    symbol: string, px: real)
    requires orders <= positions.Keys && symbol in lastPx
    ensures UnrealizedSum(orders, positions, lastPx[symbol := px]) ==
            UnrealizedSum(orders, positions, lastPx) + NetVolume(orders, positions, symbol) * (px - lastPx[symbol])
    decreases orders
  {
    hide SignedVolume, Unrealized;
    if orders != {} {
      var o :| o in orders;
      UnrealizedSumPick(orders, o, positions, lastPx);
      UnrealizedSumPick(orders, o, positions, lastPx[symbol := px]);
      NetVolumePick(orders, o, positions, symbol);
      OneMoves(positions[o], lastPx, symbol, px);
      SumMoves(orders - {o}, positions, lastPx, symbol, px);
      Distribute(SignedVolume(positions[o], symbol), NetVolume(orders - {o}, positions, symbol), px - lastPx[symbol]);
    }
  }

  /** Every open position's symbol has a price: its fill set one, and prices are replaced, never taken away. */
  predicate Priced(b: Book) {
    forall o <- b.positions :: b.positions[o].symbol in b.lastPx
  }

  lemma {:induction false} PostedIsPriced(mode: OverallMode, s: Sheet, j: seq<Event>)
    requires Priced(s.book) && PostAll(mode, s, j).Some?
    ensures Priced(PostAll(mode, s, j).value.book)
  {
    if j != [] {
      PostedIsPriced(mode, s, j[..|j| - 1]);
      PostKeepsPriced(mode, PostAll(mode, s, j[..|j| - 1]).value, j[|j| - 1]);
    }
    hide Post;
  }

  lemma PostKeepsPriced(mode: OverallMode, s: Sheet, ev: Event)
    requires Priced(s.book) && Post(mode, s, ev).Some?
    ensures Priced(Post(mode, s, ev).value.book)
  {
    hide EquityOf, Pnl, Raise;
  }

  lemma AlwaysPriced(cfg: Settings, c: Core, evs: seq<Event>)
    requires Priced(c.book)
    ensures Priced(CoreRun(cfg, c, evs).core.book)
  {
    hide PostAll, CoreRun;
    RunPostsItsJournal(cfg, c, evs);
    PostedIsPriced(cfg.overallMode, SheetOf(c), JournalOf(cfg, c, evs));
  }

  /**
   * A new mark moves equity by the move of the price for every unit held net: up with the price for longs, down
   * for shorts, not at all for a hedged symbol. Balance, positions and other prices stay.
   */
  lemma MarkMovesEquity(cfg: Settings, c: Core, ev: Event)
    requires ev.Mark? && ev.px.Some? && DedupKey(ev) !in c.seen && ev.symbol in c.book.lastPx
    ensures var next := CoreStep(cfg, c, ev).core;
            var net := NetVolume(c.book.positions.Keys, c.book.positions, ev.symbol);
            && EquityOf(next.book) == EquityOf(c.book) + net * (ev.px.value - c.book.lastPx[ev.symbol])
            && (net == 0.0 ==> EquityOf(next.book) == EquityOf(c.book))
            && next.book == c.book.(lastPx := c.book.lastPx[ev.symbol := ev.px.value])
  {
    hide DedupKey;
    SumMoves(c.book.positions.Keys, c.book.positions, c.book.lastPx, ev.symbol, ev.px.value);
  }

  /** The first price of a symbol moves nothing: no position can be open in it. */
  lemma FirstPriceMovesNothing(b: Book, symbol: string, px: real)
    requires Priced(b) && symbol !in b.lastPx
    ensures EquityOf(b.(lastPx := b.lastPx[symbol := px])) == EquityOf(b)
  {
    OthersUnmoved(b.positions.Keys, b.positions, b.lastPx, symbol, px);
  }

  lemma {:induction false} OthersUnmoved(orders: set<string>, positions: map<string, Position>,
                                         lastPx: map<string, real>, symbol: string, px: real)
    requires orders <= positions.Keys && forall o <- orders :: positions[o].symbol != symbol
    ensures UnrealizedSum(orders, positions, lastPx[symbol := px]) == UnrealizedSum(orders, positions, lastPx)
    decreases orders
  {
    if orders != {} {
      var o :| o in orders;
      UnrealizedSumPick(orders, o, positions, lastPx);
      UnrealizedSumPick(orders, o, positions, lastPx[symbol := px]);
      OthersUnmoved(orders - {o}, positions, lastPx, symbol, px);
    }
  }

  /** A long and a short of one size in one symbol are worth the same at every price. */
  lemma HedgedPair(b: Book, long: string, short: string, px: real)
    requires long != short && b.positions.Keys == {long, short} && b.positions[long].symbol == b.positions[short].symbol
    requires b.positions[long].side == Buy && b.positions[short].side == Sell
    requires b.positions[long].volume == b.positions[short].volume && b.positions[long].symbol in b.lastPx
    ensures EquityOf(b.(lastPx := b.lastPx[b.positions[long].symbol := px])) == EquityOf(b)
  {
    var keys, symbol := b.positions.Keys, b.positions[long].symbol;
    NetVolumePick(keys, long, b.positions, symbol);
    NetVolumePick(keys - {long}, short, b.positions, symbol);
    assert keys - {long} - {short} == {};
    SumMoves(keys, b.positions, b.lastPx, symbol, px);
  }

  // ----- opening --------------------------------------------------------------------------------------

  /** A fill that no close waits for adds its position and nothing else, and costs its commission. */
  lemma FillAdds(cfg: Settings, c: Core, ev: Event)
    requires FillAccepted(c, ev) && DedupKey(ev) !in c.seen && forall e <- c.deferred :: e.orderId != ev.orderId
    ensures var book := CoreStep(cfg, c, ev).core.book;
            && book.balance == c.book.balance + ev.commission.GetOr(0.0)
            && book.positions.Keys == c.book.positions.Keys + {ev.orderId}
            && (forall o <- c.book.positions :: book.positions[o] == c.book.positions[o])
            && (var pos := book.positions[ev.orderId];
                pos.symbol == ev.symbol && pos.side == ev.side && pos.volume == ev.volume &&
                pos.entryPx == ev.fillPx.value && pos.openedTs == ev.brokerTs && pos.orderId == ev.orderId)
            && book.lastPx == c.book.lastPx[ev.symbol := ev.fillPx.value]
  {
    hide EquityOf, DedupKey, FindWindow, DrainCore, OthersOf;
    NothingWaits(cfg, Filled(c, ev), c.deferred, |c.deferred|, ev.orderId);
  }

  lemma {:induction false} NothingWaits(cfg: Settings, c: Core, buffer: seq<CloseEvent>, k: nat, order: string)
    requires k <= |buffer| && forall e <- buffer :: e.orderId != order
    ensures DrainCore(cfg, c, buffer, k, order).core == c
  {
    hide CloseCore;
    if k > 0 {
      assert buffer[k - 1] in buffer;
      NothingWaits(cfg, c, buffer, k - 1, order);
    }
  }
}
