/**
 * Verdicts as evidence (verdict.rs, eval.rs): what a verdict carries is what the plain ledger shows after a
 * prefix of the journal, so journal and pack decide every dispute about it.
 */
module Evidence {
  import opened Options
  import opened Events
  import opened Pack
  import opened State
  import opened Verdicts
  import opened Ledger
  import opened Judge
  import opened Journal
  import opened Coverage
  import opened Trace
  import PackDivergence
  import Eval
  import VerdictHistory

  // ----- every figure judged is one of the journal's ---------------------------------------------

  /** The figures read at an instant are those of the sheet. */
  ghost predicate Reads(o: Obs, s: Sheet) {
    && o.equity == EquityOf(s.book) && o.balance == s.book.balance && o.hwm == s.hwm
    && o.dayCounter == s.dayCounter && o.date == s.day.date && o.startEquity == s.day.startEquity
  }

  /** The event's entry is the last of the first `n`, or the fill whose buffered close is. */
  predicate EndsWith(j: seq<Event>, n: nat, ev: Event)
    requires n <= |j|
  {
    || (n > 0 && j[n - 1] == ev)
    || (n > 1 && j[n - 2] == ev && ev.OrderFilled? && j[n - 1].TradeClosed? && j[n - 1].orderId == ev.orderId)
  }

  /** The sheet of the first `n` entries is what a moment was judged by; samples and day ends have their entry there. */
  ghost predicate JudgedAt(s: Sheet, j: seq<Event>, n: nat, m: Moment) {
    && n <= |j| && Reads(m.o, s)
    && (m.Sample? ==> EndsWith(j, n, m.ev))
    && (m.DayEnd? ==> n < |j| && j[n] == m.ev && m.counter == if s.day.traded then s.dayCounter + 1 else s.dayCounter)
  }

  ghost predicate InJournal(mode: OverallMode, start: Sheet, j: seq<Event>, n: nat, m: Moment) {
    n <= |j| && PostAll(mode, start, j[..n]).Some? && JudgedAt(PostAll(mode, start, j[..n]).value, j, n, m)
  }

  lemma StaysInJournal(mode: OverallMode, start: Sheet, j: seq<Event>, more: seq<Event>, n: nat, m: Moment)
    requires InJournal(mode, start, j, n, m)
    ensures InJournal(mode, start, j + more, n, m)
  {
    hide PostAll, Reads;
    assert (j + more)[..n] == j[..n];
  }

  lemma {:induction false} DrainMoments(cfg: Settings, c: Core, buffer: seq<CloseEvent>, k: nat, order: string)
    requires k <= |buffer| && order in c.book.positions
    ensures var good := FirstGood(buffer, k, order);
            DrainCore(cfg, c, buffer, k, order).moments == if good == [] then [] else CloseCore(cfg, c, good[0]).moments
  {
    hide CloseCore;
    if k > 0 {
      var good, e := FirstGood(buffer, k - 1, order), buffer[k - 1];
      DrainMoments(cfg, c, buffer, k - 1, order);
      DrainAppliesFirstGood(cfg, c, buffer, k - 1, order);
      var init := DrainCore(cfg, c, buffer, k - 1, order);
      if e.orderId == order && e.exitPx.None? {
        UnreadableIsSilent(cfg, init.core, e);
      } else if e.orderId == order && good != [] {
        AppliedCloseRemoves(cfg, c, good[0], init.core, e);
      }
    }
  }

  lemma UnreadableIsSilent(cfg: Settings, c: Core, e: CloseEvent)
    requires e.exitPx.None?
    ensures CloseCore(cfg, c, e).moments == []
  {
  }

  lemma ObserveReads(c: Core)
    ensures Reads(Observe(c), SheetOf(c))
  {
  }

  /** A fill in the open: its news is judged before it, its close and itself after the entries they post. */
  lemma FillFigures(cfg: Settings, c: Core, ev: Event, start: Sheet, j: seq<Event>)
    requires PostAll(cfg.overallMode, start, j) == Some(SheetOf(c))
    requires FillAccepted(c, ev) && DedupKey(ev) !in c.seen
    ensures forall m <- FillCore(cfg, c.(seen := c.seen + {DedupKey(ev)}), ev).moments ::
              exists n: nat :: InJournal(cfg.overallMode, start, j + FateOf(c, ev).posted, n, m)
  {
    hide EquityOf, Pnl, Raise, DedupKey, PostAll, DrainCore, FirstGood, OthersOf, Lost, Bad, Observe, Reads,
         MismatchAlerts;
    var filled, good := Filled(c, ev), FirstGood(c.deferred, |c.deferred|, ev.orderId);
    var all := j + FateOf(c, ev).posted;
    PostSnoc(cfg.overallMode, start, j, ev);
    StepPosts(cfg, c, ev, start, j);
    assert all[..|all|] == all;
    DrainAppliesFirstGood(cfg, filled, c.deferred, |c.deferred|, ev.orderId);
    DrainMoments(cfg, filled, c.deferred, |c.deferred|, ev.orderId);
    var after := DrainCore(cfg, filled, c.deferred, |c.deferred|, ev.orderId).core;
    ObserveReads(after);
    assert InJournal(cfg.overallMode, start, all, |all|, Sample(Observe(after), ev));
    if good != [] {
      assert InJournal(cfg.overallMode, start, all, |all|, Sample(Observe(after), good[0]));
    }
  }

  lemma StepFigures(cfg: Settings, c: Core, ev: Event, start: Sheet, j: seq<Event>)
    requires PostAll(cfg.overallMode, start, j) == Some(SheetOf(c))
    ensures forall m <- CoreStep(cfg, c, ev).moments ::
              exists n: nat :: InJournal(cfg.overallMode, start, j + FateOf(c, ev).posted, n, m)
  {
    hide EquityOf, Pnl, Raise, DedupKey, PostAll, FillCore, CloseCore, FindWindow, Observe, Reads, MismatchAlerts;
    var all, c0 := j + FateOf(c, ev).posted, c.(seen := c.seen + {DedupKey(ev)});
    assert all[..|j|] == j && all[..|all|] == all;
    ObserveReads(c0);
    StepPosts(cfg, c, ev, start, j);
    if DedupKey(ev) in c.seen {
    } else if FillAccepted(c, ev) {
      FillFigures(cfg, c, ev, start, j);
      assert forall m <- NewsHits(cfg, c0, ev) :: InJournal(cfg.overallMode, start, all, |j|, m);
    } else if ev.TradeClosed? {
      CloseFigures(cfg, c, ev, start, j);
    } else if ev.Mark? || ev.BalanceAdjustment? {
      ObserveReads(Transition(cfg, c0, ev).core);
      SampleFigures(cfg, c, ev, start, j);
    } else {
      assert forall m <- Transition(cfg, c0, ev).moments :: InJournal(cfg.overallMode, start, all, |j|, m);
    }
  }

  lemma CloseFigures(cfg: Settings, c: Core, ev: CloseEvent, start: Sheet, j: seq<Event>)
    requires PostAll(cfg.overallMode, start, j) == Some(SheetOf(c)) && DedupKey(ev) !in c.seen
    ensures forall m <- CoreStep(cfg, c, ev).moments ::
              exists n: nat :: InJournal(cfg.overallMode, start, j + FateOf(c, ev).posted, n, m)
  {
    hide EquityOf, Pnl, Raise, DedupKey, PostAll, Observe, Reads, MismatchAlerts;
    var all, c0 := j + FateOf(c, ev).posted, c.(seen := c.seen + {DedupKey(ev)});
    assert all[..|all|] == all;
    StepPosts(cfg, c, ev, start, j);
    ObserveReads(CloseCore(cfg, c0, ev).core);
    assert forall m <- CoreStep(cfg, c, ev).moments :: InJournal(cfg.overallMode, start, all, |all|, m);
  }

  lemma SampleFigures(cfg: Settings, c: Core, ev: Event, start: Sheet, j: seq<Event>)
    requires PostAll(cfg.overallMode, start, j) == Some(SheetOf(c)) && DedupKey(ev) !in c.seen
    requires ev.Mark? || ev.BalanceAdjustment?
    ensures forall m <- CoreStep(cfg, c, ev).moments ::
              exists n: nat :: InJournal(cfg.overallMode, start, j + FateOf(c, ev).posted, n, m)
  {
    hide EquityOf, Raise, DedupKey, PostAll, Observe, Reads;
    var all, c0 := j + FateOf(c, ev).posted, c.(seen := c.seen + {DedupKey(ev)});
    assert all[..|all|] == all;
    StepPosts(cfg, c, ev, start, j);
    ObserveReads(Transition(cfg, c0, ev).core);
    assert forall m <- CoreStep(cfg, c, ev).moments :: InJournal(cfg.overallMode, start, all, |all|, m);
  }

  /** Every moment of a run was judged by the figures of the plain ledger after some prefix of the journal. */
  lemma {:induction false} RunFigures(cfg: Settings, c: Core, evs: seq<Event>)
    ensures forall m <- CoreRun(cfg, c, evs).moments ::
              exists n: nat :: InJournal(cfg.overallMode, SheetOf(c), JournalOf(cfg, c, evs), n, m)
  {
    hide CoreStep, FateOf, InJournal;
    if evs != [] {
      var init, last := evs[..|evs| - 1], evs[|evs| - 1];
      var r, j := CoreRun(cfg, c, init), JournalOf(cfg, c, init);
      RunFigures(cfg, c, init);
      RunPostsItsJournal(cfg, c, init);
      StepFigures(cfg, r.core, last, SheetOf(c), j);
      assert JournalOf(cfg, c, evs) == j + FateOf(r.core, last).posted;
      forall m | m in r.moments
        ensures exists n: nat :: InJournal(cfg.overallMode, SheetOf(c), j + FateOf(r.core, last).posted, n, m)
      {
        var n: nat :| InJournal(cfg.overallMode, SheetOf(c), j, n, m);
        StaysInJournal(cfg.overallMode, SheetOf(c), j, FateOf(r.core, last).posted, n, m);
      }
    }
  }

  // ----- every movement is judged ---------------------------------------------------------------------

  /** A new event that moves cash, a position or a price. */
  predicate Moves(c: Core, ev: Event) {
    && DedupKey(ev) !in c.seen
    && match ev
       case Mark(_, _, _, _, px) => px.Some?
       case OrderFilled(_, _, _, order, _, _, _, _, px, _) => px.Some? && order !in c.book.positions
       case TradeClosed(_, _, _, order, _, _, _, _, exit, _, _, _) => exit.Some? && order in c.book.positions
       case BalanceAdjustment(_, _, _, _, amount, _) => amount.Some?
       case _ => false
  }

  /** The rules are judged at the state a movement leads to, and at no other event's end but a rollover's. */
  lemma MovementIsJudged(cfg: Settings, c: Core, ev: Event)
    ensures var r := CoreStep(cfg, c, ev);
            if Moves(c, ev)
            then && r.moments != []
                 && var m := r.moments[|r.moments| - 1];
                    m.Sample? && m.ev == ev && Reads(m.o, SheetOf(r.core))
            else forall m <- r.moments :: !m.Sample?
  {
    hide EquityOf, DedupKey, Pnl, MismatchAlerts, FindWindow, DrainCore, Observe, OthersOf, Reads, Raise;
    ObserveReads(CoreStep(cfg, c, ev).core);
    if Moves(c, ev) {
      LastMoment(cfg, c, ev);
    }
  }

  lemma LastMoment(cfg: Settings, c: Core, ev: Event)
    requires Moves(c, ev)
    ensures var ms := CoreStep(cfg, c, ev).moments;
            && ms != [] && ms[|ms| - 1].Sample? && ms[|ms| - 1].ev == ev
            && Reads(ms[|ms| - 1].o, SheetOf(CoreStep(cfg, c, ev).core))
  {
    hide EquityOf, DedupKey, Pnl, MismatchAlerts, FindWindow, DrainCore, OthersOf, Raise, NewsHits;
  }

  /** A buffered close that a fill settles is judged too, on its own, before the fill is. */
  lemma SettledCloseIsJudged(cfg: Settings, c: Core, ev: Event)
    requires FillAccepted(c, ev) && DedupKey(ev) !in c.seen
    requires FirstGood(c.deferred, |c.deferred|, ev.orderId) != []
    ensures var ms, e := CoreStep(cfg, c, ev).moments, FirstGood(c.deferred, |c.deferred|, ev.orderId)[0];
            |ms| >= 2 && ms[|ms| - 2].Sample? && ms[|ms| - 2].ev == e
  {
    hide EquityOf, DedupKey, DrainCore, FindWindow, OthersOf, FirstGood, NewsHits;
    DrainMoments(cfg, Filled(c, ev), c.deferred, |c.deferred|, ev.orderId);
    DrainAppliesFirstGood(cfg, Filled(c, ev), c.deferred, |c.deferred|, ev.orderId);
  }

  // ----- news ------------------------------------------------------------------------------------

  /** News moments are about windows the pack has in scope, and fills that fall into them. */
  predicate NewsInScope(news: NewsCfg, m: Moment) {
    && (m.NewsHit? || m.PrePositioned? ==> news.enabled && news.SymbolInScope(m.symbol) && news.TierInScope(m.w.tier))
    && (m.NewsHit? ==> m.w.windowStart <= m.ev.brokerTs <= m.w.windowEnd)
  }

  lemma {:induction false} FoundInWindow(news: NewsCfg, windows: seq<NewsWindowRec>, symbol: string, ts: int)
    ensures var w := FindWindow(news, windows, symbol, ts);
            w.Some? ==> w.value in windows && w.value.symbol == symbol && news.TierInScope(w.value.tier) &&
                        w.value.windowStart <= ts <= w.value.windowEnd
  {
    if windows != [] {
      FoundInWindow(news, windows[1..], symbol, ts);
    }
  }

  lemma {:induction false} DrainHasNoNews(cfg: Settings, c: Core, buffer: seq<CloseEvent>, k: nat, order: string)
    requires k <= |buffer|
    ensures forall m <- DrainCore(cfg, c, buffer, k, order).moments :: m.Sample?
  {
    hide EquityOf, Pnl, MismatchAlerts, Observe;
    if k > 0 {
      DrainHasNoNews(cfg, c, buffer, k - 1, order);
    }
  }

  lemma StepNews(cfg: Settings, c: Core, ev: Event)
    ensures forall m <- CoreStep(cfg, c, ev).moments :: NewsInScope(cfg.news, m)
  {
    hide EquityOf, DedupKey, Pnl, MismatchAlerts, FindWindow, DrainCore, Observe, OthersOf;
    if ev.OrderFilled? {
      FoundInWindow(cfg.news, c.newsWindows, ev.symbol, ev.brokerTs);
    }
    if FillAccepted(c, ev) {
      DrainHasNoNews(cfg, Filled(c, ev), c.deferred, |c.deferred|, ev.orderId);
    }
  }

  lemma {:induction false} RunNamesItsAccount(cfg: Settings, c: Core, evs: seq<Event>)
    ensures var r := CoreRun(cfg, c, evs);
            && r.core.account == c.account && r.core.startBalance == c.startBalance
            && forall m <- r.moments ::
                 m.o.startBalance == c.startBalance && m.o.account == c.account && NewsInScope(cfg.news, m)
  {
    hide CoreStep, EquityOf, DedupKey, NewsInScope;
    if evs != [] {
      var init := evs[..|evs| - 1];
      RunNamesItsAccount(cfg, c, init);
      StepMoments(cfg, CoreRun(cfg, c, init).core, evs[|evs| - 1]);
      StepNews(cfg, CoreRun(cfg, c, init).core, evs[|evs| - 1]);
    }
  }

  /** Some event of the stream announced the window. */
  ghost predicate Announced(evs: seq<Event>, w: NewsWindowRec) {
    exists e <- evs :: e.NewsWindow? && w == WindowOf(e)
  }

  function WindowOf(e: Event): NewsWindowRec
    requires e.NewsWindow?
  {
    NewsWindowRec(e.symbol, e.tier, e.windowStart, e.windowEnd)
  }

  lemma {:induction false} DrainKeepsWindows(cfg: Settings, c: Core, buffer: seq<CloseEvent>, k: nat, order: string)
    requires k <= |buffer|
    ensures DrainCore(cfg, c, buffer, k, order).core.newsWindows == c.newsWindows
  {
    hide EquityOf, Pnl, MismatchAlerts, Observe;
    if k > 0 {
      DrainKeepsWindows(cfg, c, buffer, k - 1, order);
    }
  }

  /** A step records the window it announces and no other, and judges by windows recorded or announced. */
  lemma StepWindows(cfg: Settings, c: Core, ev: Event)
    ensures var r := CoreStep(cfg, c, ev);
            && (forall w <- r.core.newsWindows :: w in c.newsWindows || (ev.NewsWindow? && w == WindowOf(ev)))
            && (forall m <- r.moments :: m.NewsHit? ==> m.w in c.newsWindows)
            && (forall m <- r.moments :: m.PrePositioned? ==> ev.NewsWindow? && m.w == WindowOf(ev))
  {
    hide EquityOf, DedupKey, Pnl, MismatchAlerts, FindWindow, DrainCore, Observe, OthersOf;
    if ev.OrderFilled? {
      FoundInWindow(cfg.news, c.newsWindows, ev.symbol, ev.brokerTs);
    }
    if FillAccepted(c, ev) {
      DrainHasNoNews(cfg, Filled(c, ev), c.deferred, |c.deferred|, ev.orderId);
      DrainKeepsWindows(cfg, Filled(c, ev), c.deferred, |c.deferred|, ev.orderId);
    }
  }

  lemma {:induction false} NewsIsAnnounced(cfg: Settings, c: Core, evs: seq<Event>)
    requires c.newsWindows == []
    ensures var r := CoreRun(cfg, c, evs);
            && (forall w <- r.core.newsWindows :: Announced(evs, w))
            && (forall m <- r.moments :: m.NewsHit? || m.PrePositioned? ==> Announced(evs, m.w))
  {
    hide CoreStep, WindowOf;
    if evs != [] {
      var init, last := evs[..|evs| - 1], evs[|evs| - 1];
      NewsIsAnnounced(cfg, c, init);
      StepWindows(cfg, CoreRun(cfg, c, init).core, last);
      assert last in evs && forall e <- init :: e in evs;
      assert forall w :: Announced(init, w) ==> Announced(evs, w);
    }
  }

  // ----- verdicts --------------------------------------------------------------------------------

  predicate Below(x: Option<real>, y: Option<real>) {
    x.Some? && y.Some? && x.value < y.value
  }

  /** Inputs that are the sheet's figures, and a threshold that is the pack's, crossed by them. */
  ghost predicate Certified(p: CompiledPack, account: string, s: Sheet, worst: real, m: Moment, v: Verdict) {
    var i, equity := v.inputs, EquityOf(s.book);
    && v.account == account && v.packVersion == p.packId && v.day == s.day.date
    && v.eventId == m.ev.eventId && v.brokerTs == m.ev.brokerTs && i.startBalance == Some(p.startBalance)
    && i.equity == Some(if v.rule.DailyMaxLoss? && m.DayEnd? then worst else equity)
    && i.dayPnl == Some(equity - s.day.startEquity)
    && match v.rule
       case DailyMaxLoss =>
         && v.status == Breach && i.startEquity == Some(s.day.startEquity)
         && i.threshold == Some(p.DailyFloor(s.day.startEquity))
         && (if p.dailyBreachIntraday
             then m.Sample? && (if p.dailyBasisEquity then equity else s.book.balance) < p.DailyFloor(s.day.startEquity)
             else m.DayEnd? && worst < p.DailyFloor(s.day.startEquity))
       case MaxOverallLoss =>
         && v.status == Breach && m.Sample? && i.hwm == Some(s.hwm) && i.startEquity == Some(s.day.startEquity)
         && i.threshold == Some(p.OverallFloor(s.hwm)) && equity < p.OverallFloor(s.hwm)
       case ProfitTarget =>
         && v.status == TargetReached && m.Sample? && i.threshold == Some(p.TargetLevel()) && equity >= p.TargetLevel()
         && i.dayCounter == Some(s.dayCounter) && s.dayCounter >= p.minTradingDays
       case DayRollover =>
         && v.status == Info && m.DayEnd? && i.symbol == Some(s.day.date)
         && i.dayCounter == Some(if s.day.traded then s.dayCounter + 1 else s.dayCounter)
       case NewsRule =>
         && v.status == (if p.news.prePositionedFlag then Flagged else Breach) && m.NewsHit? && NewsInScope(p.news, m)
         && CarriesWindow(i, m.symbol, m.w)
       case NewsPrePositioned =>
         v.status == Flagged && m.PrePositioned? && NewsInScope(p.news, m) && CarriesWindow(i, m.symbol, m.w)
  }

  predicate CarriesWindow(i: RuleInputs, symbol: string, w: NewsWindowRec) {
    && i.windowStart == Some(w.windowStart) && i.windowEnd == Some(w.windowEnd)
    && i.tier == Some(w.tier) && i.symbol == Some(symbol)
  }

  lemma MomentCertifies(p: CompiledPack, f: Flags, m: Moment, s: Sheet)
    requires m.o.startBalance == p.startBalance && f.packVersion == p.packId && NewsInScope(p.news, m) && Reads(m.o, s)
    requires m.DayEnd? ==> m.counter == if s.day.traded then s.dayCounter + 1 else s.dayCounter
    ensures forall v <- JudgeOne(p, f, m).verdicts :: Certified(p, m.o.account, s, f.worstEquity, m, v)
  {
    hide CompiledPack.DailyFloor, CompiledPack.OverallFloor, CompiledPack.TargetLevel, EquityOf, NewsInScope;
  }

  /** Every verdict of a judged trace is one that some moment of it emits, under the flags reached before. */
  lemma {:induction false} FromMoments(p: CompiledPack, f: Flags, ms: seq<Moment>)
    ensures JudgeAll(p, f, ms).flags.packVersion == f.packVersion
    ensures forall v <- JudgeAll(p, f, ms).verdicts ::
              exists k :: 0 <= k < |ms| && v in JudgeOne(p, JudgeAll(p, f, ms[..k]).flags, ms[k]).verdicts
  {
    hide JudgeOne;
    if ms != [] {
      var n := |ms| - 1;
      FromMoments(p, f, ms[..n]);
      VerdictHistory.MomentCounts(p, JudgeAll(p, f, ms[..n]).flags, ms[n], None);
      forall v | v in JudgeAll(p, f, ms[..n]).verdicts
        ensures exists k :: 0 <= k < |ms| && v in JudgeOne(p, JudgeAll(p, f, ms[..k]).flags, ms[k]).verdicts
      {
        var k :| 0 <= k < n && v in JudgeOne(p, JudgeAll(p, f, ms[..n][..k]).flags, ms[..n][k]).verdicts;
        assert ms[..n][..k] == ms[..k];
      }
    }
  }

  /**
   * The k-th moment of the run settles the verdict: the first `n` entries of the journal show the figures it
   * carries; a worst equity is the least of that day's; a news window was announced in the stream.
   */
  ghost predicate SettledAt(p: CompiledPack, c: Core, evs: seq<Event>, n: nat, k: nat, v: Verdict) {
    var ms, j := CoreRun(p.Cfg(), c, evs).moments, JournalOf(p.Cfg(), c, evs);
    && k < |ms| && InJournal(p.overallMode, SheetOf(c), j, n, ms[k])
    && (ms[k].NewsHit? || ms[k].PrePositioned? ==> Announced(evs, ms[k].w))
    && exists worst ::
         && Certified(p, c.account, PostAll(p.overallMode, SheetOf(c), j[..n]).value, worst, ms[k], v)
         && (!p.dailyBreachIntraday ==>
               LeastOfTheDay(worst, DayStart(ms[k].o.startEquity, ms[k].o.date), ms[..k]))
  }

  /** The worst equity an end-of-day pack holds at a moment of a run is the least of its day. */
  lemma WorstAtMoment(p: CompiledPack, a: Account, evs: seq<Event>, k: nat)
    requires !p.dailyBreachIntraday && a.flags.worstEquity == a.core.day.startEquity
    requires k < |CoreRun(p.Cfg(), a.core, evs).moments|
    ensures var ms := CoreRun(p.Cfg(), a.core, evs).moments;
            LeastOfTheDay(JudgeAll(p, a.flags, ms[..k]).flags.worstEquity,
                          DayStart(ms[k].o.startEquity, ms[k].o.date), ms[..k])
  {
    hide CoreRun, JudgeAll, Chained, DayAfter, LeastOfTheDay;
    var ms, d := CoreRun(p.Cfg(), a.core, evs).moments, DayStart(a.core.day.startEquity, a.core.day.date);
    RunIsChained(p.Cfg(), a.core, evs);
    ChainedTo(d, a.core.hwm, ms, k);
    WorstIsLeast(p, a.flags, d, ms[..k]);
  }

  lemma MomentSettles(p: CompiledPack, account: string, day: string, evs: seq<Event>, k: nat, v: Verdict)
    requires k < |CoreRun(p.Cfg(), FreshCore(account, p.startBalance, day), evs).moments|
    requires var ms := CoreRun(p.Cfg(), FreshCore(account, p.startBalance, day), evs).moments;
             v in JudgeOne(p, JudgeAll(p, FreshFlags(p), ms[..k]).flags, ms[k]).verdicts
    ensures exists n: nat :: SettledAt(p, FreshCore(account, p.startBalance, day), evs, n, k, v)
  {
    hide CoreRun, JudgeAll, JudgeOne, JournalOf, Certified, PostAll, NewsInScope, Reads, LeastOfTheDay, Announced;
    var a := FreshAccount(account, p, day);
    var ms, j := CoreRun(p.Cfg(), a.core, evs).moments, JournalOf(p.Cfg(), a.core, evs);
    RunFigures(p.Cfg(), a.core, evs);
    RunNamesItsAccount(p.Cfg(), a.core, evs);
    NewsIsAnnounced(p.Cfg(), a.core, evs);
    var f, m := JudgeAll(p, a.flags, ms[..k]).flags, ms[k];
    assert m in ms;
    var n: nat :| InJournal(p.Cfg().overallMode, SheetOf(a.core), j, n, m);
    FromMoments(p, a.flags, ms[..k]);
    MomentCertifies(p, f, m, PostAll(p.overallMode, SheetOf(a.core), j[..n]).value);
    if !p.dailyBreachIntraday {
      WorstAtMoment(p, a, evs, k);
    }
    assert SettledAt(p, a.core, evs, n, k, v);
  }

  /**
   * Every verdict of every run is settled by journal and pack: the plain ledger, after the prefix that ends at the
   * verdict's event, shows each figure it carries, and these figures cross the pack's own threshold.
   */
  lemma VerdictsAreProofs(p: CompiledPack, account: string, day: string, evs: seq<Event>)
    ensures forall v <- Run(p, FreshAccount(account, p, day), evs).verdicts ::
              exists n: nat, k: nat :: SettledAt(p, FreshCore(account, p.startBalance, day), evs, n, k, v)
  {
    hide Run, JudgeAll, CoreRun, JudgeOne, SettledAt;
    var a := FreshAccount(account, p, day);
    RunIsLedgerThenJudge(p, a, evs);
    var ms := CoreRun(p.Cfg(), a.core, evs).moments;
    FromMoments(p, a.flags, ms);
    forall v | v in Run(p, a, evs).verdicts
      ensures exists n: nat, k: nat :: SettledAt(p, a.core, evs, n, k, v)
    {
      var k :| 0 <= k < |ms| && v in JudgeOne(p, JudgeAll(p, a.flags, ms[..k]).flags, ms[k]).verdicts;
      MomentSettles(p, account, day, evs, k, v);
    }
  }

  /** Under a plan that pays for a profit, no target is reached without one. */
  lemma TargetNeedsProfit(p: CompiledPack, account: string, day: string, evs: seq<Event>, v: Verdict)
    requires p.startBalance > 0.0 && p.targetPct > 0.0
    requires v in Run(p, FreshAccount(account, p, day), evs).verdicts && v.rule.ProfitTarget?
    ensures v.inputs.equity.Some? && v.inputs.equity.value > p.startBalance
  {
    hide Run, JournalOf, PostAll, InJournal, LeastOfTheDay, CoreRun, EquityOf, CompiledPack.TargetLevel;
    VerdictsAreProofs(p, account, day, evs);
    var n: nat, k: nat :| SettledAt(p, FreshCore(account, p.startBalance, day), evs, n, k, v);
    MulPositive(p.targetPct, p.startBalance);
    LimitsInNumbers(p, v.inputs.equity.value, 0.0, 0.0);
  }

  // ----- verdicts that do not prove themselves ---------------------------------------------------

  /** A breach that can be believed on its own inputs: the equity it carries is under the threshold it carries. */
  predicate ProvesItself(v: Verdict) {
    Below(v.inputs.equity, v.inputs.threshold)
  }

  lemma WithinJournal(p: CompiledPack, c: Core, evs: seq<Event>, n: nat, k: nat, v: Verdict)
    requires SettledAt(p, c, evs, n, k, v)
    ensures var j := JournalOf(p.Cfg(), c, evs);
            n <= |j| && PostAll(p.overallMode, SheetOf(c), j[..n]).Some?
  {
    hide CoreRun, JournalOf, PostAll;
  }

  /**
   * A daily breach decided on balance carries equity. Over any run it proves itself exactly when the open
   * positions were worth less than the floor minus the balance; so it does whenever none was open.
   */
  lemma BalanceBasisProvesItselfIff(p: CompiledPack, account: string, day: string, evs: seq<Event>, v: Verdict)
    requires p.dailyBreachIntraday && !p.dailyBasisEquity
    requires v in Run(p, FreshAccount(account, p, day), evs).verdicts && v.rule.DailyMaxLoss?
    ensures var c := FreshCore(account, p.startBalance, day);
            var j := JournalOf(p.Cfg(), c, evs);
            exists n: nat, k: nat ::
              && SettledAt(p, c, evs, n, k, v)
              && var s := PostAll(p.overallMode, SheetOf(c), j[..n]).value;
                 var open := UnrealizedSum(s.book.positions.Keys, s.book.positions, s.book.lastPx);
                 && (ProvesItself(v) <==> open < p.DailyFloor(s.day.startEquity) - s.book.balance)
                 && (s.book.positions == map[] ==> ProvesItself(v))
  {
    hide Run, JournalOf, PostAll, InJournal, CompiledPack.DailyFloor, CoreRun, LeastOfTheDay;
    VerdictsAreProofs(p, account, day, evs);
    var c := FreshCore(account, p.startBalance, day);
    var n: nat, k: nat :| SettledAt(p, c, evs, n, k, v);
    WithinJournal(p, c, evs, n, k, v);
  }

  /** Two fills: the second one's costs take the balance under the floor, its price holds the equity above it. */
  lemma HiddenBehindEquity(p: CompiledPack, account: string, day: string) returns (evs: seq<Event>, v: Verdict)
    requires p.dailyBreachIntraday && !p.dailyBasisEquity && p.startBalance > 0.0 && p.dailyLossPct > 0.0
    ensures v in Run(p, FreshAccount(account, p, day), evs).verdicts && v.rule.DailyMaxLoss? && !ProvesItself(v)
  {
    hide Run, CoreRun, CoreStep, EquityOf, CompiledPack.DailyFloor, PackDivergence.SteeringFill,
         PackDivergence.Steerable;
    var a, cfg, b, floor := FreshAccount(account, p, day), p.Cfg(), p.startBalance, p.DailyFloor(p.startBalance);
    FreshIsSteerable(account, b, day);
    var first := PackDivergence.SteeringFill(a.core, 0, b, b);
    PackDivergence.Steer(cfg, a.core, 0, b, b);
    var s1 := CoreStep(cfg, a.core, first);
    var second := PackDivergence.SteeringFill(s1.core, 6, floor - 1.0, floor + 1.0);
    PackDivergence.Steer(cfg, s1.core, 6, floor - 1.0, floor + 1.0);
    var s2 := CoreStep(cfg, s1.core, second);
    PackDivergence.RunSnoc(cfg, a.core, [], first);
    PackDivergence.RunSnoc(cfg, a.core, [] + [first], second);
    evs := [] + [first] + [second];
    assert CoreRun(cfg, a.core, []) == CoreResult(a.core, [], [], false) by { NothingRuns(cfg, a.core); }
    assert CoreRun(cfg, a.core, evs).moments == [s1.moments[0]] + [s2.moments[0]];
    RunIsLedgerThenJudge(p, a, evs);
    v := SecondSampleBreaches(p, a.flags, s1.moments[0], s2.moments[0]);
  }

  lemma NothingRuns(cfg: Settings, c: Core)
    ensures CoreRun(cfg, c, []) == CoreResult(c, [], [], false)
  {
  }

  lemma FreshIsSteerable(account: string, b: real, day: string)
    ensures PackDivergence.Steerable(FreshCore(account, b, day), 0)
  {
  }

  lemma SecondSampleBreaches(p: CompiledPack, f: Flags, m1: Moment, m2: Moment) returns (v: Verdict)
    requires p.dailyBreachIntraday && !p.dailyBasisEquity && p.startBalance > 0.0 && p.dailyLossPct > 0.0
    requires !f.dailyBreached && m1.Sample? && m2.Sample?
    requires m1.o.balance == m1.o.startEquity == m2.o.startEquity == p.startBalance
    requires m2.o.balance < p.DailyFloor(p.startBalance) <= m2.o.equity
    ensures v in JudgeAll(p, f, [m1] + [m2]).verdicts && v.rule.DailyMaxLoss? && !ProvesItself(v)
  {
    hide CompiledPack.DailyFloor, CompiledPack.OverallFloor, CompiledPack.TargetLevel;
    assert p.DailyFloor(p.startBalance) < p.startBalance by { FloorUnderBase(p); }
    Eval.JudgeSingle(p, f, m1);
    JudgeSnoc(p, f, [m1], m2);
    v := DailyVerdict(p, JudgeAll(p, f, [m1]).flags, m2.o, m2.ev);
    assert JudgeOne(p, JudgeAll(p, f, [m1]).flags, m2).verdicts == [v];
  }

  lemma FloorUnderBase(p: CompiledPack)
    requires p.startBalance > 0.0 && p.dailyLossPct > 0.0
    ensures p.DailyFloor(p.startBalance) < p.startBalance
  {
    MulPositive(p.startBalance, p.dailyLossPct / 100.0);
  }

  /** Every daily breach a pack can find proves itself. */
  ghost predicate AlwaysProvesItself(p: CompiledPack) {
    forall account, day, evs, v ::
      v in Run(p, FreshAccount(account, p, day), evs).verdicts && v.rule.DailyMaxLoss? ==> ProvesItself(v)
  }

  /** Which packs' daily breaches always prove themselves: all but those that judge the balance intraday. */
  lemma AlwaysProvesItselfIff(p: CompiledPack)
    requires p.startBalance > 0.0 && p.dailyLossPct > 0.0
    ensures AlwaysProvesItself(p) <==> p.dailyBasisEquity || !p.dailyBreachIntraday
  {
    hide Run;
    if p.dailyBasisEquity || !p.dailyBreachIntraday {
      forall account, day, evs, v | v in Run(p, FreshAccount(account, p, day), evs).verdicts && v.rule.DailyMaxLoss?
        ensures ProvesItself(v)
      {
        DecidedOnEquity(p, account, day, evs, v);
      }
    } else {
      var evs, v := HiddenBehindEquity(p, "", "");
    }
  }

  lemma DecidedOnEquity(p: CompiledPack, account: string, day: string, evs: seq<Event>, v: Verdict)
    requires p.dailyBasisEquity || !p.dailyBreachIntraday
    requires v in Run(p, FreshAccount(account, p, day), evs).verdicts && v.rule.DailyMaxLoss?
    ensures ProvesItself(v)
  {
    hide Run, JournalOf, PostAll, InJournal, LeastOfTheDay, CoreRun, CompiledPack.DailyFloor, EquityOf;
    VerdictsAreProofs(p, account, day, evs);
    var n: nat, k: nat :| SettledAt(p, FreshCore(account, p.startBalance, day), evs, n, k, v);
  }
}
