/** Per-account state (state.rs): positions, marks, and equity as a mark-to-market sum. */
module State {
  import opened Events

  datatype Position = Position(orderId: string, symbol: string, side: Side, volume: real, entryPx: real, openedTs: int)

  datatype NewsWindowRec = NewsWindowRec(symbol: string, tier: string, windowStart: int, windowEnd: int)

  datatype DayState = DayState(date: string, startEquity: real, worstEquity: real, traded: bool, dailyBreached: bool)

  /** What equity is computed from: cash, open positions, last known price per symbol. */
  datatype Book = Book(balance: real, positions: map<string, Position>, lastPx: map<string, real>)

  /** PnL of `volume` entered at `entry` and valued at `px`. */
  function Pnl(side: Side, entry: real, px: real, volume: real): real {
    match side
    case Buy => (px - entry) * volume
    case Sell => (entry - px) * volume
  }

  /** PnL of a position at its symbol's last price, or at its own entry price when there is none. */
  function Unrealized(pos: Position, lastPx: map<string, real>): real {
    var mark := if pos.symbol in lastPx then lastPx[pos.symbol] else pos.entryPx;
    Pnl(pos.side, pos.entryPx, mark, pos.volume)
  }

  /** Sum of unrealized PnL over some open orders, taken in an arbitrary but fixed order. */
  ghost function UnrealizedSum(orders: set<string>, positions: map<string, Position>, lastPx: map<string, real>): real
    requires orders <= positions.Keys
  {
    if orders == {} then 0.0
    else
      var o :| o in orders;
      Unrealized(positions[o], lastPx) + UnrealizedSum(orders - {o}, positions, lastPx)
  }

  ghost function EquityOf(b: Book): real {
    b.balance + UnrealizedSum(b.positions.Keys, b.positions, b.lastPx)
  }

  /** Any order may be taken first: the sum does not depend on the map's iteration order. */
  lemma {:induction false} UnrealizedSumPick(orders: set<string>, o: string, positions: map<string, Position>,
                                             lastPx: map<string, real>)
    requires orders <= positions.Keys && o in orders
    ensures UnrealizedSum(orders, positions, lastPx) ==
            Unrealized(positions[o], lastPx) + UnrealizedSum(orders - {o}, positions, lastPx)
    decreases orders
  {
    var first :| first in orders && UnrealizedSum(orders, positions, lastPx) ==
      Unrealized(positions[first], lastPx) + UnrealizedSum(orders - {first}, positions, lastPx);
    if first != o {
      UnrealizedSumPick(orders - {first}, o, positions, lastPx);
      UnrealizedSumPick(orders - {o}, first, positions, lastPx);
      assert orders - {first} - {o} == orders - {o} - {first};
    }
  }

  /** Left-to-right sum along one iteration order. */
  function SumAlong(order: seq<string>, positions: map<string, Position>, lastPx: map<string, real>): real
    requires forall o <- order :: o in positions
  {
    if order == [] then 0.0
    else Unrealized(positions[order[0]], lastPx) + SumAlong(order[1..], positions, lastPx)
  }

  /** Every iteration order of the positions map gives the same equity. */
  lemma {:induction false} EquityIgnoresIterationOrder(b: Book, order: seq<string>)
    requires forall i, j :: 0 <= i < j < |order| ==> order[i] != order[j]
    requires (set o <- order) == b.positions.Keys
    ensures b.balance + SumAlong(order, b.positions, b.lastPx) == EquityOf(b)
  {
    SumAlongIsSum(order, b.positions, b.lastPx);
  }

  lemma {:induction false} SumAlongIsSum(order: seq<string>, positions: map<string, Position>,
                                         lastPx: map<string, real>)
    requires forall i, j :: 0 <= i < j < |order| ==> order[i] != order[j]
    requires (set o <- order) <= positions.Keys
    ensures SumAlong(order, positions, lastPx) == UnrealizedSum((set o <- order), positions, lastPx)
  {
    var all := set o <- order;
    if order == [] {
    } else {
      assert order[0] in all;
      assert (set o <- order[1..]) == all - {order[0]};
      SumAlongIsSum(order[1..], positions, lastPx);
      UnrealizedSumPick(all, order[0], positions, lastPx);
    }
  }
}
