/**
 * The news rules (eval.rs:145-173, 282-334): which fills and which open positions a recorded window concerns,
 * and how many verdicts that makes.
 */
module NewsRules {
  import opened Options
  import opened Events
  import opened Pack
  import opened State
  import opened Verdicts
  import opened Ledger
  import opened Judge
  import opened Journal
  import opened Housekeeping
  import opened VerdictHistory
  import Evidence

  // ----- windows ------------------------------------------------------------------------------------

  /** A window of the fill's symbol, of a tier in scope, that the fill's time falls into, bounds included. */
  predicate Hits(news: NewsCfg, w: NewsWindowRec, symbol: string, ts: int) {
    && w.symbol == symbol && (news.tiers == {} || w.tier in news.tiers)
    && w.windowStart <= ts && ts <= w.windowEnd
  }

  predicate IsFirst(news: NewsCfg, windows: seq<NewsWindowRec>, symbol: string, ts: int, k: int) {
    && 0 <= k < |windows| && Hits(news, windows[k], symbol, ts)
    && forall i :: 0 <= i < k ==> !Hits(news, windows[i], symbol, ts)
  }

  /** The search finds the first window that is hit, and none exactly when none is. */
  lemma {:induction false} FindsFirst(news: NewsCfg, windows: seq<NewsWindowRec>, symbol: string, ts: int)
    ensures var found := FindWindow(news, windows, symbol, ts);
            && (found.None? <==> forall w <- windows :: !Hits(news, w, symbol, ts))
            && (found.Some? ==> exists k :: IsFirst(news, windows, symbol, ts, k) && windows[k] == found.value)
  {
    if windows != [] {
      assert windows[0] in windows && forall w <- windows :: w == windows[0] || w in windows[1..];
      if !Hits(news, windows[0], symbol, ts) {
        FindsFirst(news, windows[1..], symbol, ts);
        var found := FindWindow(news, windows[1..], symbol, ts);
        if found.Some? {
          var k :| IsFirst(news, windows[1..], symbol, ts, k) && windows[1..][k] == found.value;
          assert forall i :: 0 < i < k + 1 ==> windows[i] == windows[1..][i - 1];
          assert IsFirst(news, windows, symbol, ts, k + 1);
        }
      } else {
        assert IsFirst(news, windows, symbol, ts, 0);
      }
    }
  }

  /** Every new window is recorded, in scope or not, and nothing else records or forgets one. */
  lemma WindowsAreRecorded(cfg: Settings, c: Core, ev: Event)
    requires DedupKey(ev) !in c.seen
    ensures CoreStep(cfg, c, ev).core.newsWindows ==
            if ev.NewsWindow? then c.newsWindows + [NewsWindowRec(ev.symbol, ev.tier, ev.windowStart, ev.windowEnd)]
            else c.newsWindows
  {
    hide EquityOf, DedupKey, Pnl, MismatchAlerts, FindWindow, DrainCore, OthersOf;
    if FillAccepted(c, ev) {
      Evidence.DrainKeepsWindows(cfg, Filled(c, ev), c.deferred, |c.deferred|, ev.orderId);
    }
  }

  // ----- fills inside a window ----------------------------------------------------------------------

  /** The rule covers the symbol at all. */
  predicate Covers(news: NewsCfg, symbol: string) {
    news.enabled && ("*" in news.symbols || symbol in news.symbols)
  }

  /** A readable fill, of an order open or not, is judged exactly when it falls into a recorded window in scope. */
  lemma FillIsJudgedIff(cfg: Settings, c: Core, ev: Event)
    requires ev.OrderFilled? && ev.fillPx.Some? && DedupKey(ev) !in c.seen
    ensures (exists m <- CoreStep(cfg, c, ev).moments :: m.NewsHit?) <==>
            Covers(cfg.news, ev.symbol) && exists w <- c.newsWindows :: Hits(cfg.news, w, ev.symbol, ev.brokerTs)
    ensures forall m <- CoreStep(cfg, c, ev).moments :: m.NewsHit? ==> m.symbol == ev.symbol && m.ev == ev
  {
    hide EquityOf, DedupKey, Pnl, MismatchAlerts, FindWindow, DrainCore, OthersOf, Observe, Hits;
    FindsFirst(cfg.news, c.newsWindows, ev.symbol, ev.brokerTs);
    var c0 := c.(seen := c.seen + {DedupKey(ev)});
    if FillAccepted(c, ev) {
      Evidence.DrainHasNoNews(cfg, Filled(c, ev), c.deferred, |c.deferred|, ev.orderId);
    }
    var found := FindWindow(cfg.news, c.newsWindows, ev.symbol, ev.brokerTs);
    if Covers(cfg.news, ev.symbol) && found.Some? {
      assert NewsHits(cfg, c0, ev)[0] in CoreStep(cfg, c, ev).moments;
    }
  }

  // ----- positions open before a window ---------------------------------------------------------------

  /** Every position is filed under its own order. */
  predicate Keyed(b: Book) {
    forall o <- b.positions :: b.positions[o].orderId == o
  }

  lemma {:induction false} PostedIsKeyed(mode: OverallMode, s: Sheet, j: seq<Event>)
    requires Keyed(s.book) && PostAll(mode, s, j).Some?
    ensures Keyed(PostAll(mode, s, j).value.book)
  {
    if j != [] {
      PostedIsKeyed(mode, s, j[..|j| - 1]);
      PostKeepsKeyed(mode, PostAll(mode, s, j[..|j| - 1]).value, j[|j| - 1]);
    }
    hide Post;
  }

  lemma PostKeepsKeyed(mode: OverallMode, s: Sheet, ev: Event)
    requires Keyed(s.book) && Post(mode, s, ev).Some?
    ensures Keyed(Post(mode, s, ev).value.book)
  {
    hide EquityOf, Pnl, Raise;
  }

  lemma AlwaysKeyed(cfg: Settings, c: Core, evs: seq<Event>)
    requires Keyed(c.book)
    ensures Keyed(CoreRun(cfg, c, evs).core.book)
  {
    hide PostAll, CoreRun;
    RunPostsItsJournal(cfg, c, evs);
    PostedIsKeyed(cfg.overallMode, SheetOf(c), JournalOf(cfg, c, evs));
  }

  /** A new window in scope concerns each order open on its symbol from before its start; one out of scope, none. */
  lemma PrePositionedAre(cfg: Settings, c: Core, ev: Event)
    requires ev.NewsWindow? && DedupKey(ev) !in c.seen && Keyed(c.book)
    ensures var ms := CoreStep(cfg, c, ev).moments;
            var concerned := set o <- c.book.positions |
              c.book.positions[o].symbol == ev.symbol && c.book.positions[o].openedTs < ev.windowStart;
            if OutOfScope(cfg.news, ev.symbol, ev.tier) then ms == []
            else |ms| == 1 && ms[0].PrePositioned? && ms[0].count == |concerned| && ms[0].symbol == ev.symbol
  {
    hide EquityOf, DedupKey, OutOfScope;
    LeftEarlyIff(cfg, c, ev);
    var concerned := set o <- c.book.positions |
      c.book.positions[o].symbol == ev.symbol && c.book.positions[o].openedTs < ev.windowStart;
    assert PrePositionedOrders(c.book.positions, ev.symbol, ev.windowStart) == concerned;
  }

  // ----- verdicts -------------------------------------------------------------------------------------

  lemma {:induction false} CountRepeated(v: Verdict, n: nat, rule: RuleId)
    ensures Count(Repeat(v, n), rule, None) == if v.rule == rule then n else 0
  {
    if n > 0 {
      CountRepeated(v, n - 1, rule);
      assert Repeat(v, n)[..n - 1] == Repeat(v, n - 1);
    }
  }

  /** A fill in a window makes one NewsRule verdict, a window one NewsPrePositioned per position, a day end one Info. */
  lemma NewsCounts(p: CompiledPack, f: Flags, m: Moment)
    ensures var vs := JudgeOne(p, f, m).verdicts;
            && Count(vs, NewsRule, None) == (if m.NewsHit? then 1 else 0)
            && Count(vs, NewsPrePositioned, None) == (if m.PrePositioned? then m.count else 0)
            && Count(vs, DayRollover, None) == (if m.DayEnd? then 1 else 0)
  {
    hide Count, DailyFires, EodFires, OverallFires, TargetFires, Repeat, NewsInputs;
    hide CompiledPack.DailyFloor, CompiledPack.OverallFloor, CompiledPack.TargetLevel;
    var vs := JudgeOne(p, f, m).verdicts;
    match m
    case Sample(o, ev) =>
      CountNone(vs, NewsRule, None);
      CountNone(vs, NewsPrePositioned, None);
      CountNone(vs, DayRollover, None);
    case NewsHit(o, ev, symbol, w) =>
      CountOne(vs[0], NewsRule, None);
      CountOne(vs[0], NewsPrePositioned, None);
      CountOne(vs[0], DayRollover, None);
    case PrePositioned(o, ev, symbol, w, count) =>
      var v := MakeVerdict(f.packVersion, o, ev, NewsPrePositioned, Flagged, NewsInputs(symbol, w));
      CountRepeated(v, count, NewsRule);
      CountRepeated(v, count, NewsPrePositioned);
      CountRepeated(v, count, DayRollover);
    case DayEnd(o, ev, counter) =>
      var eod, info := EodVerdicts(p, f, o, ev), RolloverVerdict(f.packVersion, o, ev, counter);
      DayEndNews(eod, info);
  }

  lemma DayEndNews(eod: seq<Verdict>, info: Verdict)
    requires (forall v <- eod :: v.rule == DailyMaxLoss) && info.rule == DayRollover
    ensures Count(eod + [info], NewsRule, None) == 0 && Count(eod + [info], NewsPrePositioned, None) == 0
    ensures Count(eod + [info], DayRollover, None) == 1
  {
    hide Count;
    CountNone(eod + [info], NewsRule, None);
    CountNone(eod + [info], NewsPrePositioned, None);
    CountAppend(eod, [info], DayRollover, None);
    CountNone(eod, DayRollover, None);
    CountOne(info, DayRollover, None);
  }

  /** The order in a log: an overall loss before a target, an end-of-day loss before the rollover that finds it. */
  lemma VerdictOrder(p: CompiledPack, f: Flags, m: Moment)
    ensures var vs := JudgeOne(p, f, m).verdicts;
            && (m.Sample? ==> |vs| <= 2 && (|vs| == 2 ==> vs[0].rule == MaxOverallLoss && vs[1].rule == ProfitTarget))
            && (m.DayEnd? ==>
                  1 <= |vs| <= 2 && vs[|vs| - 1].rule == DayRollover && (|vs| == 2 ==> vs[0].rule == DailyMaxLoss))
  {
    hide DailyFires, EodFires, OverallFires, TargetFires, Repeat, NewsInputs;
    hide CompiledPack.DailyFloor, CompiledPack.OverallFloor, CompiledPack.TargetLevel;
  }
}
