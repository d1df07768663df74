/**
 * The shape of the moments a ledger run goes through: every figure of a day refers to that day's start,
 * a rollover ends the day and starts the next one at the equity it saw.
 */
module Trace {
  import opened Events
  import opened Pack
  import opened State
  import opened Ledger
  import opened Judge

  /** Moments inside the day the ledger is in, with the high-water mark at its level or above. */
  predicate WithinDay(c: Core, ms: seq<Moment>) {
    forall m <- ms ::
      && !m.DayEnd?
      && m.o.startEquity == c.day.startEquity && m.o.date == c.day.date && m.o.hwm >= c.hwm
      && m.o.dayCounter == c.dayCounter && m.o.startBalance == c.startBalance && m.o.account == c.account
  }

  /** What no movement inside a day changes. */
  predicate SameDay(c: Core, d: Core) {
    && d.day.startEquity == c.day.startEquity && d.day.date == c.day.date && d.dayCounter == c.dayCounter
    && d.startBalance == c.startBalance && d.account == c.account && d.hwm >= c.hwm
  }

  lemma {:induction false} DrainStaysInDay(cfg: Settings, c: Core, buffer: seq<CloseEvent>, k: nat, order: string)
    requires k <= |buffer|
    ensures var r := DrainCore(cfg, c, buffer, k, order);
            WithinDay(c, r.moments) && SameDay(c, r.core)
  {
    hide EquityOf, Pnl, MismatchAlerts;
    if k > 0 {
      DrainStaysInDay(cfg, c, buffer, k - 1, order);
    }
  }

  predicate Rolls(c: Core, ev: Event) {
    ev.Rollover? && DedupKey(ev) !in c.seen
  }

  lemma FillStaysInDay(cfg: Settings, c: Core, ev: Event)
    requires ev.OrderFilled? && ev.fillPx.Some? && ev.orderId !in c.book.positions
    ensures var r := FillCore(cfg, c, ev);
            WithinDay(c, r.moments) && SameDay(c, r.core)
  {
    hide EquityOf, DrainCore;
    var book := Book(c.book.balance + ev.commission.GetOr(0.0), c.book.positions[ev.orderId := PositionOf(ev)],
                     c.book.lastPx[ev.symbol := ev.fillPx.value]);
    DrainStaysInDay(cfg, c.(book := book, deferred := OthersOf(c.deferred, |c.deferred|, ev.orderId)),
                    c.deferred, |c.deferred|, ev.orderId);
  }

  /** One step stays in its day, or is the one moment that ends it. */
  lemma StepMoments(cfg: Settings, c: Core, ev: Event)
    ensures var r := CoreStep(cfg, c, ev);
            && r.core.hwm >= c.hwm && r.core.startBalance == c.startBalance && r.core.account == c.account
            && if Rolls(c, ev) then
                 && r.moments == [DayEnd(Observe(c), ev, if c.day.traded then c.dayCounter + 1 else c.dayCounter)]
                 && r.core.day == CoreDay(ev.date, EquityOf(c.book), false)
                 && r.core.dayCounter == r.moments[0].counter
               else WithinDay(c, r.moments) && SameDay(c, r.core)
  {
    hide EquityOf, DedupKey, Pnl, FillCore, MismatchAlerts, FindWindow;
    var c0 := c.(seen := c.seen + {DedupKey(ev)});
    if ev.OrderFilled? && ev.fillPx.Some? && ev.orderId !in c.book.positions {
      FillStaysInDay(cfg, c0, ev);
    }
  }

  // ----- chains of days --------------------------------------------------------------------------

  /** Where a day stands after some moments: its start equity and its date. */
  datatype DayStart = DayStart(equity: real, date: string)

  function DayAfter(d: DayStart, ms: seq<Moment>): DayStart {
    if ms == [] then d
    else
      match ms[|ms| - 1]
      case DayEnd(o, ev, _) => DayStart(o.equity, if ev.Rollover? then ev.date else "")
      case _ => DayAfter(d, ms[..|ms| - 1])
  }

  /** Every moment refers to the day it falls in, and finds the high-water mark at `hwm` or above. */
  predicate Chained(d: DayStart, hwm: real, ms: seq<Moment>) {
    ms == [] ||
    var init, m := ms[..|ms| - 1], ms[|ms| - 1];
    && Chained(d, hwm, init)
    && DayStart(m.o.startEquity, m.o.date) == DayAfter(d, init)
    && m.o.hwm >= hwm
  }

  lemma {:induction false} ChainWithinDay(d: DayStart, hwm: real, ms: seq<Moment>, more: seq<Moment>)
    requires Chained(d, hwm, ms)
    requires forall m <- more :: !m.DayEnd? && DayStart(m.o.startEquity, m.o.date) == DayAfter(d, ms) && m.o.hwm >= hwm
    ensures Chained(d, hwm, ms + more) && DayAfter(d, ms + more) == DayAfter(d, ms)
  {
    if more == [] {
      assert ms + more == ms;
    } else {
      var n := |more| - 1;
      ChainWithinDay(d, hwm, ms, more[..n]);
      assert (ms + more)[..|ms| + n] == ms + more[..n];
      assert more[n] in more;
    }
  }

  lemma ChainDayEnd(d: DayStart, hwm: real, ms: seq<Moment>, m: Moment)
    requires Chained(d, hwm, ms) && m.DayEnd? && m.ev.Rollover?
    requires DayStart(m.o.startEquity, m.o.date) == DayAfter(d, ms) && m.o.hwm >= hwm
    ensures Chained(d, hwm, ms + [m]) && DayAfter(d, ms + [m]) == DayStart(m.o.equity, m.ev.date)
  {
    assert (ms + [m])[..|ms|] == ms;
  }

  /** The moments of every run form a chain of days that starts at the account's current day. */
  lemma {:induction false} RunIsChained(cfg: Settings, c: Core, evs: seq<Event>)
    ensures var r, d := CoreRun(cfg, c, evs), DayStart(c.day.startEquity, c.day.date);
            && Chained(d, c.hwm, r.moments)
            && DayAfter(d, r.moments) == DayStart(r.core.day.startEquity, r.core.day.date)
            && r.core.hwm >= c.hwm
  {
    hide CoreStep, EquityOf, DedupKey;
    if evs != [] {
      var init, last, d := evs[..|evs| - 1], evs[|evs| - 1], DayStart(c.day.startEquity, c.day.date);
      RunIsChained(cfg, c, init);
      var r := CoreRun(cfg, c, init);
      var step := CoreStep(cfg, r.core, last);
      StepMoments(cfg, r.core, last);
      if Rolls(r.core, last) {
        ChainDayEnd(d, c.hwm, r.moments, step.moments[0]);
      } else {
        ChainWithinDay(d, c.hwm, r.moments, step.moments);
      }
    }
  }

  /** A share of a growing mark. */
  lemma ShareGrows(before: real, after: real, pct: real)
    requires before <= after
    ensures before * (1.0 - pct / 100.0) <= after * (1.0 - pct / 100.0) <==> after == before || pct <= 100.0
  {
    var share, gain := 1.0 - pct / 100.0, after - before;
    assert after * share == before * share + gain * share;
    if share >= 0.0 {
      MulNonNegative(gain, share);
    } else if gain > 0.0 {
      MulPositive(gain, -share);
      assert gain * -share == -(gain * share);
    }
  }

  /** A trailing floor, like a static one, never falls while the percentage is at most 100. */
  lemma OverallFloorNeverFalls(p: CompiledPack, a: Account, evs: seq<Event>)
    ensures var before, after := a.core.hwm, Run(p, a, evs).account.core.hwm;
            && after >= before
            && (p.OverallFloor(after) >= p.OverallFloor(before) <==>
                p.overallMode.Static? || after == before || p.overallLossPct <= 100.0)
  {
    hide CoreRun, Run;
    RunIsLedgerThenJudge(p, a, evs);
    RunIsChained(p.Cfg(), a.core, evs);
    ShareGrows(a.core.hwm, Run(p, a, evs).account.core.hwm, p.overallLossPct);
  }
}
