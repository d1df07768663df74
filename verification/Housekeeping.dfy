/** What a step reports about itself (eval.rs): the change flag, and the sequence and clock bookkeeping. */
module Housekeeping {
  import opened Options
  import opened Events
  import opened Pack
  import opened State
  import opened Verdicts
  import opened Ledger
  import opened Judge
  import opened Journal

  /** A window whose symbol, or whose tier, the pack has no rule for. */
  predicate OutOfScope(news: NewsCfg, symbol: string, tier: string) {
    || !news.enabled
    || (forall s <- news.symbols :: s != "*" && s != symbol)
    || (news.tiers != {} && forall t <- news.tiers :: t != tier)
  }

  /**
   * A step that reports no change moved no money, position, mark, day or flag and buffered nothing; all it
   * may have done beside bookkeeping is to record a news window, which an out-of-scope one does unreported.
   */
  lemma UnreportedChangeIsAWindow(p: CompiledPack, a: Account, ev: Event)
    requires !Step(p, a, ev).out.stateChanged
    ensures var next := Step(p, a, ev).next;
            && SheetOf(next.core) == SheetOf(a.core) && next.core.deferred == a.core.deferred && next.flags == a.flags
            && (next.core.newsWindows != a.core.newsWindows <==>
                ev.NewsWindow? && DedupKey(ev) !in a.core.seen && OutOfScope(p.news, ev.symbol, ev.tier))
  {
    hide EquityOf, DedupKey, DrainCore, Pnl, MakeVerdict, JudgeAll, FindWindow;
    var c := a.core.(seen := a.core.seen + {DedupKey(ev)});
    NoSamples(p, a.flags, CoreStep(p.Cfg(), a.core, ev).moments);
    if ev.NewsWindow? {
      LeftEarlyIff(p.Cfg(), a.core, ev);
      assert |c.newsWindows + [NewsWindowRec(ev.symbol, ev.tier, ev.windowStart, ev.windowEnd)]| > |c.newsWindows|;
    }
  }

  lemma {:induction false} NoSamples(p: CompiledPack, f: Flags, ms: seq<Moment>)
    ensures (forall m <- ms :: m.NewsHit? || m.PrePositioned?) ==> JudgeAll(p, f, ms).flags == f
  {
    hide MakeVerdict;
    if ms != [] {
      NoSamples(p, f, ms[..|ms| - 1]);
      assert ms[|ms| - 1] in ms;
    }
  }

  /** New events that are dropped, deferred or out of scope, before the bookkeeping at the end. */
  predicate LeftEarly(cfg: Settings, c: Core, ev: Event) {
    match ev
    case OrderFilled(_, _, _, order, _, _, _, _, px, _) => px.None? || order in c.book.positions
    case TradeClosed(_, _, _, order, _, _, _, _, _, _, _, _) => order !in c.book.positions
    case BalanceAdjustment(_, _, _, _, amount, _) => amount.None?
    case NewsWindow(_, _, _, symbol, tier, _, _) => OutOfScope(cfg.news, symbol, tier)
    case _ => false
  }

  lemma LeftEarlyIff(cfg: Settings, c: Core, ev: Event)
    ensures RunsToTheEnd(cfg, c.book.positions.Keys, ev) <==> !LeftEarly(cfg, c, ev)
  {
    if ev.NewsWindow? {
      InScopeIff(cfg.news, ev.symbol, ev.tier);
    }
  }

  /**
   * The source says its bookkeeping always runs for new events. It runs exactly for those that are not
   * left early: their number and time become the watermarks where they are the greater ones. The others leave
   * sequence and clock watermarks behind.
   */
  lemma BookkeepingIff(cfg: Settings, c: Core, ev: Event)
    requires DedupKey(ev) !in c.seen
    ensures var next := CoreStep(cfg, c, ev).core;
            if LeftEarly(cfg, c, ev) then next.seqApplied == c.seqApplied && next.lastBrokerTs == c.lastBrokerTs
            else && next.seqApplied == (if ev.seqNo > c.seqApplied then ev.seqNo else c.seqApplied)
                 && next.lastBrokerTs == if c.lastBrokerTs.Some? && c.lastBrokerTs.value > ev.brokerTs
                                         then c.lastBrokerTs else Some(ev.brokerTs)
  {
    hide EquityOf, DedupKey, DrainCore, Pnl, RunsToTheEnd, LeftEarly;
    LeftEarlyIff(cfg, c, ev);
    if FillAccepted(c, ev) {
      DrainKeepsWatermarks(cfg, Filled(c, ev), c.deferred, |c.deferred|, ev.orderId);
    }
  }

  lemma {:induction false} DrainKeepsWatermarks(cfg: Settings, c: Core, buffer: seq<CloseEvent>, k: nat, order: string)
    requires k <= |buffer|
    ensures var d := DrainCore(cfg, c, buffer, k, order).core;
            d.seqApplied == c.seqApplied && d.lastBrokerTs == c.lastBrokerTs
  {
    hide EquityOf, Pnl;
    if k > 0 {
      DrainKeepsWatermarks(cfg, c, buffer, k - 1, order);
    }
  }

  // ----- what is reported ---------------------------------------------------------------------------

  /** Which new events report a change. */
  lemma ChangedIff(cfg: Settings, c: Core, ev: Event)
    ensures CoreStep(cfg, c, ev).changed <==>
            && DedupKey(ev) !in c.seen
            && match ev
               case Mark(_, _, _, _, px) => px.Some?
               case OrderFilled(_, _, _, order, _, _, _, _, px, _) => px.Some? && order !in c.book.positions
               case TradeClosed(_, _, _, order, _, _, _, _, exit, _, _, _) => order !in c.book.positions || exit.Some?
               case BalanceAdjustment(_, _, _, _, amount, _) => amount.Some?
               case AccountStateReport(_, _, _, _, _) => false
               case NewsWindow(_, _, _, symbol, tier, _, _) => !OutOfScope(cfg.news, symbol, tier)
               case Rollover(_, _, _, _) => true
  {
    hide EquityOf, DedupKey, DrainCore, Pnl, FindWindow, OutOfScope;
    if ev.NewsWindow? {
      LeftEarlyIff(cfg, c, ev);
    }
  }

  ghost predicate Has(alerts: seq<IntegrityAlert>, kind: AlertKind) {
    exists a <- alerts :: a.kind == kind
  }

  lemma HasAppend(x: seq<IntegrityAlert>, y: seq<IntegrityAlert>)
    ensures forall k :: Has(x + y, k) <==> Has(x, k) || Has(y, k)
  {
    forall k ensures Has(x + y, k) <==> Has(x, k) || Has(y, k) {
      assert forall a <- x :: a in x + y;
      assert forall a <- y :: a in x + y;
    }
  }

  lemma HasFew(a: IntegrityAlert)
    ensures forall k :: !Has([], k)
    ensures forall k :: Has([a], k) <==> k == a.kind
  {
    assert a in [a];
  }

  /** Further apart than the tolerance, either way. */
  predicate Differs(reported: Option<real>, actual: real, tolerance: real) {
    reported.Some? && (reported.value - actual > tolerance || actual - reported.value > tolerance)
  }

  /** Regressions are found against the watermarks before the event: an earlier time, a lower number. */
  lemma RegressionsIff(c: Core, ev: Event)
    ensures var alerts := WatchdogAlerts(c, ev);
            && (Has(alerts, BrokerTsRegression) <==> c.lastBrokerTs.Some? && c.lastBrokerTs.value > ev.brokerTs)
            && (Has(alerts, SeqRegression) <==> c.seqApplied > ev.seqNo)
            && (forall k :: Has(alerts, k) ==> k == BrokerTsRegression || k == SeqRegression)
            && (forall a <- alerts :: a.eventId == ev.eventId && a.dealId == None)
            && (Has(alerts, BrokerTsRegression) && Has(alerts, SeqRegression) ==>
                  |alerts| == 2 && alerts[0].kind == BrokerTsRegression && alerts[1].kind == SeqRegression)
  {
    var x := if c.lastBrokerTs.Some? && ev.brokerTs < c.lastBrokerTs.value
             then [IntegrityAlert(ev.eventId, None, BrokerTsRegression)] else [];
    var y := if ev.seqNo < c.seqApplied then [IntegrityAlert(ev.eventId, None, SeqRegression)] else [];
    HasAppend(x, y);
    HasFew(IntegrityAlert(ev.eventId, None, BrokerTsRegression));
    HasFew(IntegrityAlert(ev.eventId, None, SeqRegression));
  }

  /** What a position brings when closed at `exit`, side by side. */
  function Brings(pos: Position, exit: real): real {
    if pos.side == Buy then (exit - pos.entryPx) * pos.volume else (pos.entryPx - exit) * pos.volume
  }

  lemma BringsPnl(pos: Position, exit: real)
    ensures Brings(pos, exit) == Pnl(pos.side, pos.entryPx, exit, pos.volume)
  {
  }

  /** A close of an open order reports an unreadable price, or a PnL further off than the tolerance, and no more. */
  lemma CloseReports(cfg: Settings, c: Core, ev: CloseEvent)
    requires ev.orderId in c.book.positions
    ensures var alerts, pos := CloseCore(cfg, c, ev).alerts, c.book.positions[ev.orderId];
            && (Has(alerts, Malformed) <==> ev.exitPx.None?)
            && (Has(alerts, PnlMismatch) <==>
                ev.exitPx.Some? && Differs(ev.pnlReported, Brings(pos, ev.exitPx.value), cfg.pnlTolerance))
            && (forall k :: Has(alerts, k) ==> k == Malformed || k == PnlMismatch)
            && (forall a <- alerts :: a.eventId == ev.eventId && a.dealId == Some(ev.orderId))
  {
    hide EquityOf, Observe, Raise, Has, Pnl, Brings;
    if ev.exitPx.Some? {
      BringsPnl(c.book.positions[ev.orderId], ev.exitPx.value);
    }
    HasFew(IntegrityAlert(ev.eventId, Some(ev.orderId), Malformed));
    HasFew(IntegrityAlert(ev.eventId, Some(ev.orderId), PnlMismatch));
  }

  /** A drain reports an unreadable close where one waits, and a mismatch of the one close it applies. */
  lemma {:induction false} DrainFinds(cfg: Settings, c: Core, buffer: seq<CloseEvent>, k: nat, order: string)
    requires k <= |buffer| && order in c.book.positions
    ensures var alerts, good := DrainCore(cfg, c, buffer, k, order).alerts, FirstGood(buffer, k, order);
            && (Has(alerts, Malformed) <==> Bad(buffer, k, order) != [])
            && (Has(alerts, PnlMismatch) <==> good != [] && Has(CloseCore(cfg, c, good[0]).alerts, PnlMismatch))
            && (forall a :: Has(alerts, a) ==> a == Malformed || a == PnlMismatch)
  {
    hide CloseCore, Has;
    if k == 0 {
      HasFew(IntegrityAlert("", None, Malformed));
    } else {
      var init, e := DrainCore(cfg, c, buffer, k - 1, order), buffer[k - 1];
      DrainFinds(cfg, c, buffer, k - 1, order);
      DrainAppliesFirstGood(cfg, c, buffer, k - 1, order);
      HasAppend(init.alerts, CloseCore(cfg, init.core, e).alerts);
      HasFew(IntegrityAlert("", None, Malformed));
      var good := FirstGood(buffer, k - 1, order);
      if e.orderId == order {
        if good == [] {
          CloseReports(cfg, c, e);
        } else if e.exitPx.None? {
          UnreadableReports(cfg, init.core, e);
        } else {
          AppliedCloseRemoves(cfg, c, good[0], init.core, e);
        }
      }
    }
  }

  lemma UnreadableReports(cfg: Settings, c: Core, e: CloseEvent)
    requires e.exitPx.None?
    ensures forall k :: Has(CloseCore(cfg, c, e).alerts, k) <==> k == Malformed
  {
    HasFew(IntegrityAlert(e.eventId, Some(e.orderId), Malformed));
  }

  /** Which findings a new event raises, each kind exactly when. */
  lemma FindingsIff(cfg: Settings, c: Core, ev: Event)
    requires DedupKey(ev) !in c.seen
    ensures var alerts := CoreStep(cfg, c, ev).alerts;
            && (Has(alerts, BrokerTsRegression) <==> c.lastBrokerTs.Some? && c.lastBrokerTs.value > ev.brokerTs)
            && (Has(alerts, SeqRegression) <==> c.seqApplied > ev.seqNo)
            && (Has(alerts, DuplicateFill) <==> ev.OrderFilled? && ev.fillPx.Some? && ev.orderId in c.book.positions)
            && (Has(alerts, CloseDeferred) <==> ev.TradeClosed? && ev.orderId !in c.book.positions)
            && (Has(alerts, BalanceDrift) <==>
                ev.AccountStateReport? && Differs(ev.balanceReported, c.book.balance, cfg.pnlTolerance))
            && (Has(alerts, Malformed) <==>
                || (ev.OrderFilled? && ev.fillPx.None?) || (ev.BalanceAdjustment? && ev.amount.None?)
                || (ev.TradeClosed? && ev.orderId in c.book.positions && ev.exitPx.None?)
                || (FillAccepted(c, ev) && Bad(c.deferred, |c.deferred|, ev.orderId) != []))
            && (Has(alerts, PnlMismatch) <==>
                || (ev.TradeClosed? && ev.orderId in c.book.positions && ev.exitPx.Some? &&
                    Differs(ev.pnlReported, Brings(c.book.positions[ev.orderId], ev.exitPx.value), cfg.pnlTolerance))
                || (FillAccepted(c, ev) && SettlesWithMismatch(cfg, c, ev)))
  {
    hide DedupKey, Has, Transition, WatchdogAlerts, Differs, Brings, FillAccepted, SettlesWithMismatch;
    RegressionsIff(c, ev);
    var c0 := c.(seen := c.seen + {DedupKey(ev)});
    HasAppend(WatchdogAlerts(c, ev), Transition(cfg, c0, ev).alerts);
    TransitionFinds(cfg, c, ev);
  }

  /** The first readable close waiting for the fill reports another PnL than the fill's price gives. */
  predicate SettlesWithMismatch(cfg: Settings, c: Core, ev: Event)
    requires FillAccepted(c, ev)
  {
    var good := FirstGood(c.deferred, |c.deferred|, ev.orderId);
    good != [] && good[0].exitPx.Some? &&
    Differs(good[0].pnlReported, Brings(PositionOf(ev), good[0].exitPx.value), cfg.pnlTolerance)
  }

  lemma TransitionFinds(cfg: Settings, c: Core, ev: Event)
    requires DedupKey(ev) !in c.seen
    ensures var alerts := Transition(cfg, c.(seen := c.seen + {DedupKey(ev)}), ev).alerts;
            && !Has(alerts, BrokerTsRegression) && !Has(alerts, SeqRegression)
            && (Has(alerts, DuplicateFill) <==> ev.OrderFilled? && ev.fillPx.Some? && ev.orderId in c.book.positions)
            && (Has(alerts, CloseDeferred) <==> ev.TradeClosed? && ev.orderId !in c.book.positions)
            && (Has(alerts, BalanceDrift) <==>
                ev.AccountStateReport? && Differs(ev.balanceReported, c.book.balance, cfg.pnlTolerance))
            && (Has(alerts, Malformed) <==>
                || (ev.OrderFilled? && ev.fillPx.None?) || (ev.BalanceAdjustment? && ev.amount.None?)
                || (ev.TradeClosed? && ev.orderId in c.book.positions && ev.exitPx.None?)
                || (FillAccepted(c, ev) && Bad(c.deferred, |c.deferred|, ev.orderId) != []))
            && (Has(alerts, PnlMismatch) <==>
                || (ev.TradeClosed? && ev.orderId in c.book.positions && ev.exitPx.Some? &&
                    Differs(ev.pnlReported, Brings(c.book.positions[ev.orderId], ev.exitPx.value), cfg.pnlTolerance))
                || (FillAccepted(c, ev) && SettlesWithMismatch(cfg, c, ev)))
  {
    hide EquityOf, DedupKey, Has, CloseCore, DrainCore, Observe, Brings, FindWindow, OthersOf, Bad, FirstGood;
    var c0 := c.(seen := c.seen + {DedupKey(ev)});
    forall id: string, order: Option<string>, kind: AlertKind
      ensures forall k :: Has([IntegrityAlert(id, order, kind)], k) <==> k == kind
      ensures forall k :: !Has([], k)
    {
      HasFew(IntegrityAlert(id, order, kind));
    }
    HasFew(IntegrityAlert("", None, Malformed));
    if FillAccepted(c, ev) {
      FillFinds(cfg, c, ev);
    } else if ev.TradeClosed? && ev.orderId in c.book.positions {
      CloseReports(cfg, c0, ev);
    }
  }

  lemma FillFinds(cfg: Settings, c: Core, ev: Event)
    requires FillAccepted(c, ev)
    ensures var alerts := FillCore(cfg, c.(seen := c.seen + {DedupKey(ev)}), ev).alerts;
            && (Has(alerts, Malformed) <==> Bad(c.deferred, |c.deferred|, ev.orderId) != [])
            && (Has(alerts, PnlMismatch) <==> SettlesWithMismatch(cfg, c, ev))
            && (forall k :: Has(alerts, k) ==> k == Malformed || k == PnlMismatch)
  {
    hide EquityOf, DedupKey, Has, CloseCore, DrainCore, Observe, Brings, Bad, FirstGood, OthersOf, Differs;
    var filled, n := Filled(c, ev), |c.deferred|;
    DrainFinds(cfg, filled, c.deferred, n, ev.orderId);
    DrainAppliesFirstGood(cfg, filled, c.deferred, n, ev.orderId);
    var good := FirstGood(c.deferred, n, ev.orderId);
    if good != [] {
      CloseReports(cfg, filled, good[0]);
    }
  }

  /** The first event of an account is no regression. */
  lemma FirstEventIsNoRegression(cfg: Settings, account: string, startBalance: real, day: string, ev: Event)
    ensures var alerts := CoreStep(cfg, FreshCore(account, startBalance, day), ev).alerts;
            !Has(alerts, BrokerTsRegression) && !Has(alerts, SeqRegression)
  {
    hide DedupKey, Has, CoreStep;
    FreshHasSeenNothing(account, startBalance, day, ev);
    FindingsIff(cfg, FreshCore(account, startBalance, day), ev);
  }

  lemma FreshHasSeenNothing(account: string, startBalance: real, day: string, ev: Event)
    ensures DedupKey(ev) !in FreshCore(account, startBalance, day).seen
  {
  }

  /** Findings name the event they are about; those on a fill or close its order too, the others none. */
  lemma FindingsName(cfg: Settings, c: Core, ev: Event)
    requires DedupKey(ev) !in c.seen && !FillAccepted(c, ev)
    ensures forall a <- CoreStep(cfg, c, ev).alerts ::
              && a.eventId == ev.eventId
              && var regression := a.kind == BrokerTsRegression || a.kind == SeqRegression;
                 a.dealId == if (ev.OrderFilled? || ev.TradeClosed?) && !regression then Some(ev.orderId) else None
  {
    hide EquityOf, DedupKey, Pnl, Observe, FindWindow, Raise;
  }
}
