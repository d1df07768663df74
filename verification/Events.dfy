/**
 * Canonical events (events.rs). Money and prices travel as decimal strings; the model keeps the
 * result of parsing them, so `None` is a string that is not a decimal.
 */
module Events {
  import opened Options

  datatype Side = Buy | Sell

  datatype AdjKind = Commission | Swap | Bonus | Refund | Correction

  datatype Event =
    | OrderFilled(eventId: string, seqNo: nat, brokerTs: int, orderId: string, dealId: string, symbol: string,
                  side: Side, volume: real, fillPx: Option<real>, commission: Option<real>)
    | Mark(eventId: string, seqNo: nat, brokerTs: int, symbol: string, px: Option<real>)
    | TradeClosed(eventId: string, seqNo: nat, brokerTs: int, orderId: string, dealId: string, symbol: string,
                  volume: real, entryPx: Option<real>, exitPx: Option<real>, pnlReported: Option<real>,
                  commission: Option<real>, swap: Option<real>)
    | BalanceAdjustment(eventId: string, seqNo: nat, brokerTs: int, kind: AdjKind, amount: Option<real>,
                        reference: Option<string>)
    | AccountStateReport(eventId: string, seqNo: nat, brokerTs: int, balanceReported: Option<real>,
                         equityReported: Option<real>)
    | NewsWindow(eventId: string, seqNo: nat, brokerTs: int, symbol: string, tier: string, windowStart: int,
                 windowEnd: int)
    | Rollover(eventId: string, seqNo: nat, brokerTs: int, date: string)

  /** Natural idempotency key: deals by deal id, rollovers by date, everything else by event id. */
  function DedupKey(ev: Event): string {
    match ev
    case OrderFilled(_, _, _, _, dealId, _, _, _, _, _) => "deal:" + dealId
    case TradeClosed(_, _, _, _, dealId, _, _, _, _, _, _, _) => "deal:" + dealId
    case Rollover(_, _, _, date) => DayKey(date)
    case _ => "ev:" + ev.eventId
  }

  function DayKey(date: string): string {
    "day:" + date
  }

  /**
   * The three key families never collide, and inside a family the key is the id: a shared key means
   * the same deal, the same date, or the same event id.
   */
  lemma DedupKeyIdentifies(a: Event, b: Event)
    ensures DedupKey(a) == DedupKey(b) <==>
            if a.OrderFilled? || a.TradeClosed? then (b.OrderFilled? || b.TradeClosed?) && a.dealId == b.dealId
            else if a.Rollover? then b.Rollover? && a.date == b.date
            else !b.OrderFilled? && !b.TradeClosed? && !b.Rollover? && a.eventId == b.eventId
  {
    var ka, kb := DedupKey(a), DedupKey(b);
    assert ka[0] == (if a.OrderFilled? || a.TradeClosed? || a.Rollover? then 'd' else 'e');
    assert kb[0] == (if b.OrderFilled? || b.TradeClosed? || b.Rollover? then 'd' else 'e');
    assert (a.OrderFilled? || a.TradeClosed?) ==> ka[1] == 'e' && ka[5..] == a.dealId;
    assert (b.OrderFilled? || b.TradeClosed?) ==> kb[1] == 'e' && kb[5..] == b.dealId;
    assert a.Rollover? ==> ka[1] == 'a' && ka[4..] == a.date;
    assert b.Rollover? ==> kb[1] == 'a' && kb[4..] == b.date;
    assert ka[0] == 'e' ==> ka[3..] == a.eventId;
    assert kb[0] == 'e' ==> kb[3..] == b.eventId;
  }
}
