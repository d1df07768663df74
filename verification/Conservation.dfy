/** What a journal says about money, high-water mark and trading days, and what becomes of every event. */
module Conservation {
  import opened Options
  import opened Events
  import opened Pack
  import opened State
  import opened Verdicts
  import opened Ledger
  import opened Judge
  import opened Journal
  import opened AtLeastOnce

  // ----- money -----------------------------------------------------------------------------------

  /** The last fill of an order in a journal. */
  function LastFill(j: seq<Event>, order: string): (fill: Option<Event>)
    ensures fill.Some? ==> fill.value.OrderFilled? && fill.value.orderId == order && fill.value in j
  {
    if j == [] then None
    else
      var last := j[|j| - 1];
      if last.OrderFilled? && last.orderId == order then Some(last) else LastFill(j[..|j| - 1], order)
  }

  /**
   * The money one entry moves, from events alone: a close realises the PnL between the price of the
   * order's last fill and its own exit price; what the terminal reported plays no part.
   */
  function Amount(before: seq<Event>, e: Event): real {
    match e
    case OrderFilled(_, _, _, _, _, _, _, _, _, commission) => commission.GetOr(0.0)
    case BalanceAdjustment(_, _, _, _, amount, _) => amount.GetOr(0.0)
    case TradeClosed(_, _, _, order, _, _, _, _, exit, _, commission, swap) =>
      var fill := LastFill(before, order);
      if fill.None? || fill.value.fillPx.None? || exit.None? then 0.0
      else
        var entry, volume := fill.value.fillPx.value, fill.value.volume;
        var gain := if fill.value.side == Buy then (exit.value - entry) * volume else (entry - exit.value) * volume;
        gain + commission.GetOr(0.0) + swap.GetOr(0.0)
    case _ => 0.0
  }

  function Total(j: seq<Event>): real {
    if j == [] then 0.0 else Total(j[..|j| - 1]) + Amount(j[..|j| - 1], j[|j| - 1])
  }

  /** Every open position of a posted journal is the one its order's last fill opened. */
  lemma {:induction false} BookComesFromFills(mode: OverallMode, s: Sheet, j: seq<Event>)
    requires s.book.positions == map[] && PostAll(mode, s, j).Some?
    ensures var t := PostAll(mode, s, j).value;
            forall o <- t.book.positions :: LastFill(j, o).Some? && LastFill(j, o).value.fillPx.Some? &&
                                            t.book.positions[o] == PositionOf(LastFill(j, o).value)
  {
    if j != [] {
      BookComesFromFills(mode, s, j[..|j| - 1]);
      PostOpens(mode, PostAll(mode, s, j[..|j| - 1]).value, j[|j| - 1]);
    }
    hide Post;
  }

  /** An entry opens at most the position it describes, and changes no other. */
  lemma PostOpens(mode: OverallMode, s: Sheet, ev: Event)
    requires Post(mode, s, ev).Some?
    ensures var t := Post(mode, s, ev).value;
            forall o <- t.book.positions ::
              if ev.OrderFilled? && ev.orderId == o then ev.fillPx.Some? && t.book.positions[o] == PositionOf(ev)
              else o in s.book.positions && t.book.positions[o] == s.book.positions[o]
  {
    hide EquityOf, Pnl, Raise;
  }

  lemma {:induction false} PostedMoney(mode: OverallMode, s: Sheet, j: seq<Event>)
    requires s.book.positions == map[] && PostAll(mode, s, j).Some?
    ensures PostAll(mode, s, j).value.book.balance == s.book.balance + Total(j)
  {
    hide EquityOf, Pnl, Raise;
    if j != [] {
      PostedMoney(mode, s, j[..|j| - 1]);
      BookComesFromFills(mode, s, j[..|j| - 1]);
      hide Post, Amount;
      AmountIsPosted(mode, PostAll(mode, s, j[..|j| - 1]).value, j[..|j| - 1], j[|j| - 1]);
    }
  }

  /** The money read off the events is the money posted, on a book that comes from their fills. */
  lemma AmountIsPosted(mode: OverallMode, s: Sheet, j: seq<Event>, e: Event)
    requires Post(mode, s, e).Some?
    requires forall o <- s.book.positions :: LastFill(j, o).Some? && LastFill(j, o).value.fillPx.Some? &&
                                             s.book.positions[o] == PositionOf(LastFill(j, o).value)
    ensures Post(mode, s, e).value.book.balance == s.book.balance + Amount(j, e)
  {
    PostedAmount(mode, s, e);
    if e.TradeClosed? {
      var pos, fill := s.book.positions[e.orderId], LastFill(j, e.orderId).value;
      assert pos.entryPx == fill.fillPx.value && pos.volume == fill.volume && pos.side == fill.side;
    }
    hide EquityOf, Raise, Pnl, LastFill;
  }

  /** What one entry does to the balance, side by side. */
  lemma PostedAmount(mode: OverallMode, s: Sheet, e: Event)
    requires Post(mode, s, e).Some?
    ensures Post(mode, s, e).value.book.balance == s.book.balance +
            match e
            case OrderFilled(_, _, _, _, _, _, _, _, _, commission) => commission.GetOr(0.0)
            case BalanceAdjustment(_, _, _, _, amount, _) => amount.GetOr(0.0)
            case TradeClosed(_, _, _, order, _, _, _, _, exit, _, commission, swap) =>
              var pos := s.book.positions[order];
              (if pos.side == Buy then (exit.value - pos.entryPx) * pos.volume
               else (pos.entryPx - exit.value) * pos.volume)
              + commission.GetOr(0.0) + swap.GetOr(0.0)
            case _ => 0.0
  {
    hide EquityOf, Raise;
  }

  /** Conservation, on arbitrary streams: the balance is the start balance plus the journal's total. */
  lemma MoneyConservation(p: CompiledPack, account: string, day: string, evs: seq<Event>)
    ensures var a := FreshAccount(account, p, day);
            Run(p, a, evs).account.core.book.balance == p.startBalance + Total(JournalOf(p.Cfg(), a.core, evs))
  {
    hide Post, EquityOf, Run;
    var a := FreshAccount(account, p, day);
    RunIsLedgerThenJudge(p, a, evs);
    RunPostsItsJournal(p.Cfg(), a.core, evs);
    PostedMoney(p.overallMode, SheetOf(a.core), JournalOf(p.Cfg(), a.core, evs));
  }

  // ----- high-water mark -------------------------------------------------------------------------

  lemma {:induction false} PrefixPosts(mode: OverallMode, s: Sheet, j: seq<Event>, k: nat)
    requires k <= |j| && PostAll(mode, s, j).Some?
    ensures PostAll(mode, s, j[..k]).Some?
  {
    hide Post;
    if k == |j| {
      assert j[..k] == j;
    } else {
      PrefixPosts(mode, s, j[..|j| - 1], k);
      assert j[..|j| - 1][..k] == j[..k];
    }
  }

  /** Equity just after the first `k` entries. */
  ghost function EquityAfter(mode: OverallMode, s: Sheet, j: seq<Event>, k: nat): real
    requires k <= |j| && PostAll(mode, s, j).Some?
  {
    PrefixPosts(mode, s, j, k);
    EquityOf(PostAll(mode, s, j[..k]).value.book)
  }

  /** The entries after which a trailing pack looks at equity. */
  predicate Trails(e: Event) {
    e.TradeClosed? || e.BalanceAdjustment? || e.Rollover?
  }

  /** `h` is the greatest of the starting mark and the equities just after closes, adjustments and rollovers. */
  ghost predicate IsHighWater(h: real, mode: OverallMode, s: Sheet, j: seq<Event>)
    requires PostAll(mode, s, j).Some?
  {
    && s.hwm <= h
    && (forall k :: 0 < k <= |j| && Trails(j[k - 1]) ==> EquityAfter(mode, s, j, k) <= h)
    && (h == s.hwm || exists k :: 0 < k <= |j| && Trails(j[k - 1]) && EquityAfter(mode, s, j, k) == h)
  }

  lemma EquityAfterPrefix(mode: OverallMode, s: Sheet, j: seq<Event>, n: nat, k: nat)
    requires k <= n <= |j| && PostAll(mode, s, j).Some? && PostAll(mode, s, j[..n]).Some?
    ensures EquityAfter(mode, s, j, k) == EquityAfter(mode, s, j[..n], k)
  {
    hide Post, EquityOf;
    assert j[..n][..k] == j[..k];
  }

  /** One more entry raises the mark to the equity after it, if it is one that trails. */
  lemma MarkSnoc(s: Sheet, j: seq<Event>)
    requires j != [] && PostAll(Trailing, s, j).Some?
    ensures PostAll(Trailing, s, j[..|j| - 1]).Some?
    ensures var before, after := PostAll(Trailing, s, j[..|j| - 1]).value.hwm, PostAll(Trailing, s, j).value.hwm;
            after == if Trails(j[|j| - 1]) then RMax(before, EquityAfter(Trailing, s, j, |j|)) else before
  {
    hide EquityOf, Pnl;
    assert j[..|j|] == j;
  }

  /** A mark that is the maximum so far stays it when raised to one more sample. */
  lemma HighWaterSnoc(h: real, g: real, s: Sheet, j: seq<Event>)
    requires j != [] && PostAll(Trailing, s, j).Some? && PostAll(Trailing, s, j[..|j| - 1]).Some?
    requires IsHighWater(h, Trailing, s, j[..|j| - 1])
    requires g == if Trails(j[|j| - 1]) then RMax(h, EquityAfter(Trailing, s, j, |j|)) else h
    ensures IsHighWater(g, Trailing, s, j)
  {
    hide Post, PostAll, EquityAfter, EquityOf;
    var n := |j| - 1;
    forall k | 0 < k <= n
      ensures EquityAfter(Trailing, s, j, k) == EquityAfter(Trailing, s, j[..n], k) && j[..n][k - 1] == j[k - 1]
    {
      EquityAfterPrefix(Trailing, s, j, n, k);
    }
  }

  lemma {:induction false} TrailingMark(s: Sheet, j: seq<Event>)
    requires PostAll(Trailing, s, j).Some?
    ensures IsHighWater(PostAll(Trailing, s, j).value.hwm, Trailing, s, j)
  {
    if j != [] {
      MarkSnoc(s, j);
      TrailingMark(s, j[..|j| - 1]);
      HighWaterSnoc(PostAll(Trailing, s, j[..|j| - 1]).value.hwm, PostAll(Trailing, s, j).value.hwm, s, j);
      hide Post, PostAll, IsHighWater;
    }
  }

  lemma {:induction false} StaticMark(s: Sheet, j: seq<Event>)
    requires PostAll(Static, s, j).Some?
    ensures PostAll(Static, s, j).value.hwm == s.hwm
  {
    hide EquityOf, Pnl;
    if j != [] {
      StaticMark(s, j[..|j| - 1]);
    }
  }

  /** The mark of a journal: the high water in trailing mode, its starting level in static mode. */
  ghost predicate MarkOf(mode: OverallMode, s: Sheet, j: seq<Event>, hwm: real) {
    && PostAll(mode, s, j).Some?
    && match mode
       case Trailing => IsHighWater(hwm, Trailing, s, j)
       case Static => hwm == s.hwm
  }

  /** Trailing packs track the maximum of the sampled equities; static packs never move the mark. */
  lemma HighWaterMark(p: CompiledPack, account: string, day: string, evs: seq<Event>)
    ensures var a := FreshAccount(account, p, day);
            && SheetOf(a.core).hwm == p.startBalance
            && MarkOf(p.overallMode, SheetOf(a.core), JournalOf(p.Cfg(), a.core, evs),
                      Run(p, a, evs).account.core.hwm)
  {
    hide Post, EquityOf, Run, IsHighWater;
    var a := FreshAccount(account, p, day);
    RunIsLedgerThenJudge(p, a, evs);
    RunPostsItsJournal(p.Cfg(), a.core, evs);
    if p.overallMode.Trailing? {
      TrailingMark(SheetOf(a.core), JournalOf(p.Cfg(), a.core, evs));
    } else {
      StaticMark(SheetOf(a.core), JournalOf(p.Cfg(), a.core, evs));
    }
  }

  // ----- trading days ----------------------------------------------------------------------------

  /** A close was posted since the rollover before entry `k` (or since the beginning). */
  ghost predicate ClosedThatDay(j: seq<Event>, k: nat)
    requires k <= |j|
  {
    exists i :: 0 <= i < k && j[i].TradeClosed? && forall m :: i < m < k ==> !j[m].Rollover?
  }

  /** The completed days, by the index of the rollover ending them, on which a close was posted. */
  ghost function TradedDays(j: seq<Event>): set<nat> {
    set k: nat | k < |j| && j[k].Rollover? && ClosedThatDay(j, k)
  }

  lemma ClosedThatDayPrefix(j: seq<Event>, n: nat, k: nat)
    requires k <= n <= |j|
    ensures ClosedThatDay(j, k) == ClosedThatDay(j[..n], k)
  {
    if ClosedThatDay(j, k) {
      var i :| 0 <= i < k && j[i].TradeClosed? && forall m :: i < m < k ==> !j[m].Rollover?;
      assert j[..n][i].TradeClosed?;
    }
    if ClosedThatDay(j[..n], k) {
      var i :| 0 <= i < k && j[..n][i].TradeClosed? && forall m :: i < m < k ==> !j[..n][m].Rollover?;
      assert j[i].TradeClosed?;
      assert forall m :: i < m < k ==> j[m] == j[..n][m];
    }
  }

  lemma ClosedThatDaySnoc(j: seq<Event>)
    requires j != []
    ensures var n := |j| - 1;
            ClosedThatDay(j, |j|) == (j[n].TradeClosed? || (!j[n].Rollover? && ClosedThatDay(j, n)))
  {
    var n := |j| - 1;
    if ClosedThatDay(j, n) && !j[n].Rollover? {
      var i :| 0 <= i < n && j[i].TradeClosed? && forall m :: i < m < n ==> !j[m].Rollover?;
      assert forall m :: i < m < |j| ==> !j[m].Rollover?;
    }
  }

  lemma PostDay(mode: OverallMode, s: Sheet, ev: Event)
    requires Post(mode, s, ev).Some?
    ensures var t := Post(mode, s, ev).value;
            && t.day.traded == (ev.TradeClosed? || (!ev.Rollover? && s.day.traded))
            && t.dayCounter == if ev.Rollover? && s.day.traded then s.dayCounter + 1 else s.dayCounter
  {
    hide EquityOf, Pnl, Raise;
  }

  lemma TradedDaysSnoc(j: seq<Event>)
    requires j != []
    ensures var n := |j| - 1;
            |TradedDays(j)| == |TradedDays(j[..n])| + (if j[n].Rollover? && ClosedThatDay(j, n) then 1 else 0)
  {
    var n := |j| - 1;
    forall k: nat | k <= n ensures ClosedThatDay(j, k) == ClosedThatDay(j[..n], k) {
      ClosedThatDayPrefix(j, n, k);
    }
    hide ClosedThatDay;
    assert TradedDays(j) == TradedDays(j[..n]) + (if j[n].Rollover? && ClosedThatDay(j, n) then {n} else {});
  }

  lemma {:induction false} DayCounterCounts(mode: OverallMode, s: Sheet, j: seq<Event>)
    requires PostAll(mode, s, j).Some? && !s.day.traded
    ensures var t := PostAll(mode, s, j).value;
            t.day.traded == ClosedThatDay(j, |j|) && t.dayCounter == s.dayCounter + |TradedDays(j)|
  {
    if j == [] {
      assert TradedDays(j) == {};
    } else {
      hide Post, ClosedThatDay, TradedDays;
      var n := |j| - 1;
      DayCounterCounts(mode, s, j[..n]);
      ClosedThatDaySnoc(j);
      ClosedThatDayPrefix(j, n, n);
      TradedDaysSnoc(j);
      PostDay(mode, PostAll(mode, s, j[..n]).value, j[n]);
    }
  }

  /** The day counter is the number of completed days with an applied close. */
  lemma TradingDays(p: CompiledPack, account: string, day: string, evs: seq<Event>)
    ensures var a := FreshAccount(account, p, day);
            Run(p, a, evs).account.core.dayCounter == |TradedDays(JournalOf(p.Cfg(), a.core, evs))|
  {
    hide Post, EquityOf, Run, TradedDays;
    var a := FreshAccount(account, p, day);
    RunIsLedgerThenJudge(p, a, evs);
    RunPostsItsJournal(p.Cfg(), a.core, evs);
    DayCounterCounts(p.overallMode, SheetOf(a.core), JournalOf(p.Cfg(), a.core, evs));
  }

  // ----- what becomes of every event -------------------------------------------------------------

  /** How often an event occurs in a sequence. */
  ghost function Occ(s: seq<Event>, e: Event): nat {
    multiset(s)[e]
  }

  lemma OccAppend(x: seq<Event>, y: seq<Event>, e: Event)
    ensures Occ(x + y, e) == Occ(x, e) + Occ(y, e)
  {
  }

  lemma OccOne(x: Event, e: Event)
    ensures Occ([], e) == 0 && Occ([x], e) == if x == e then 1 else 0
  {
  }

  /** The buffer splits into the closes kept, applied, rejected and lost. */
  lemma {:induction false} BufferSplits(buffer: seq<CloseEvent>, k: nat, order: string, e: Event)
    requires k <= |buffer|
    ensures Occ(buffer[..k], e) == Occ(OthersOf(buffer, k, order), e) + Occ(FirstGood(buffer, k, order), e) +
                                   Occ(Bad(buffer, k, order), e) + Occ(Lost(buffer, k, order), e)
  {
    hide Occ;
    if k == 0 {
      OccOne(e, e);
    } else {
      var last := buffer[k - 1];
      BufferSplits(buffer, k - 1, order, e);
      assert buffer[..k] == buffer[..k - 1] + [last];
      OccAppend(buffer[..k - 1], [last], e);
      OccAppend(OthersOf(buffer, k - 1, order), [last], e);
      OccAppend(Bad(buffer, k - 1, order), [last], e);
      OccAppend(Lost(buffer, k - 1, order), [last], e);
      OccOne(last, e);
    }
  }

  lemma {:induction false} DrainKeepsBuffer(cfg: Settings, c: Core, buffer: seq<CloseEvent>, k: nat, order: string)
    requires k <= |buffer|
    ensures DrainCore(cfg, c, buffer, k, order).core.deferred == c.deferred
  {
    if k > 0 {
      DrainKeepsBuffer(cfg, c, buffer, k - 1, order);
    }
  }

  /** The buffer after a step. */
  lemma StepBuffer(cfg: Settings, c: Core, ev: Event)
    ensures CoreStep(cfg, c, ev).core.deferred ==
            if DedupKey(ev) in c.seen then c.deferred
            else if FillAccepted(c, ev) then OthersOf(c.deferred, |c.deferred|, ev.orderId)
            else if ev.TradeClosed? && ev.orderId !in c.book.positions then c.deferred + [ev]
            else c.deferred
  {
    hide EquityOf, DedupKey, Pnl, DrainCore, OthersOf, NewsHits, MismatchAlerts;
    if DedupKey(ev) !in c.seen && FillAccepted(c, ev) {
      DrainKeepsBuffer(cfg, Filled(c, ev), c.deferred, |c.deferred|, ev.orderId);
    }
  }

  /** How often an event is found among what the fates and the buffer hold. */
  ghost function Held(deferred: seq<CloseEvent>, f: Fate, e: Event): nat {
    Occ(f.posted, e) + Occ(f.ignored, e) + Occ(f.rejected, e) + Occ(f.lost, e) + Occ(deferred, e)
  }

  lemma StepAccounts(cfg: Settings, c: Core, ev: Event, e: Event)
    ensures Held(CoreStep(cfg, c, ev).core.deferred, FateOf(c, ev), e) ==
            Occ(c.deferred, e) + if ev == e && DedupKey(ev) !in c.seen then 1 else 0
  {
    hide CoreStep, DedupKey, OthersOf, FirstGood, Bad, Lost, Occ;
    StepBuffer(cfg, c, ev);
    OccOne(ev, e);
    OccAppend(c.deferred, [ev], e);
    if FillAccepted(c, ev) {
      BufferSplits(c.deferred, |c.deferred|, ev.orderId, e);
      OccAppend([ev], FirstGood(c.deferred, |c.deferred|, ev.orderId), e);
      assert c.deferred[..|c.deferred|] == c.deferred;
    }
  }

  lemma {:induction false} RunAccounts(cfg: Settings, c: Core, evs: seq<Event>, e: Event)
    requires c.deferred == []
    ensures Held(CoreRun(cfg, c, evs).core.deferred, FateOfRun(cfg, c, evs), e) == Occ(FirstOccurrences(evs, c.seen), e)
  {
    hide CoreStep, FateOf, DedupKey, Keys, Occ;
    OccOne(e, e);
    if evs != [] {
      var init, last := evs[..|evs| - 1], evs[|evs| - 1];
      var f, g := FateOfRun(cfg, c, init), FateOf(CoreRun(cfg, c, init).core, last);
      RunAccounts(cfg, c, init, e);
      RunSees(cfg, c, init);
      StepAccounts(cfg, CoreRun(cfg, c, init).core, last, e);
      OccAppend(f.posted, g.posted, e);
      OccAppend(f.rejected, g.rejected, e);
      OccAppend(f.lost, g.lost, e);
      OccAppend(f.ignored, g.ignored, e);
      OccAppend(FirstOccurrences(init, c.seen), [last], e);
      OccOne(last, e);
    }
  }

  lemma {:induction false} IgnoredAreNoCloses(cfg: Settings, c: Core, evs: seq<Event>)
    ensures forall e <- FateOfRun(cfg, c, evs).ignored :: !e.TradeClosed?
  {
    hide CoreStep, DedupKey, FirstGood, Bad, Lost;
    if evs != [] {
      IgnoredAreNoCloses(cfg, c, evs[..|evs| - 1]);
    }
  }

  /**
   * Nothing is counted twice and nothing disappears: the first occurrences of a stream are exactly the
   * entries posted, the closes still buffered, rejected or lost, and other events that move no money.
   */
  lemma EveryEventAccountedFor(p: CompiledPack, account: string, day: string, evs: seq<Event>)
    ensures var c := FreshCore(account, p.startBalance, day);
            var f := FateOfRun(p.Cfg(), c, evs);
            var deferred: seq<Event> := Run(p, FreshAccount(account, p, day), evs).account.core.deferred;
            && multiset(FirstOccurrences(evs, {})) ==
               multiset(f.posted) + multiset(f.ignored) + multiset(f.rejected) + multiset(f.lost) + multiset(deferred)
            && forall e <- f.ignored :: !e.TradeClosed?
  {
    hide CoreStep, FateOf, DedupKey, Run, FirstOccurrences;
    var c := FreshCore(account, p.startBalance, day);
    RunIsLedgerThenJudge(p, FreshAccount(account, p, day), evs);
    IgnoredAreNoCloses(p.Cfg(), c, evs);
    var f := FateOfRun(p.Cfg(), c, evs);
    var deferred: seq<Event> := CoreRun(p.Cfg(), c, evs).core.deferred;
    var all := multiset(f.posted) + multiset(f.ignored) + multiset(f.rejected) + multiset(f.lost) + multiset(deferred);
    forall e: Event
      ensures multiset(FirstOccurrences(evs, {}))[e] == all[e]
    {
      RunAccounts(p.Cfg(), c, evs, e);
    }
  }

  /** A buffered close never waits for an order that is open. */
  ghost predicate BufferSafe(c: Core) {
    forall e <- c.deferred :: e.orderId !in c.book.positions
  }

  lemma {:induction false} OthersAreOthers(buffer: seq<CloseEvent>, k: nat, order: string)
    requires k <= |buffer|
    ensures forall e <- OthersOf(buffer, k, order) :: e.orderId != order && e in buffer
  {
    if k > 0 {
      OthersAreOthers(buffer, k - 1, order);
    }
  }

  /** Which orders a step opens and closes. */
  lemma StepOrders(cfg: Settings, c: Core, ev: Event)
    ensures CoreStep(cfg, c, ev).core.book.positions.Keys <=
            c.book.positions.Keys + if DedupKey(ev) !in c.seen && FillAccepted(c, ev) then {ev.orderId} else {}
  {
    hide EquityOf, DedupKey, Pnl, FirstGood, OthersOf, DrainCore;
    if DedupKey(ev) !in c.seen && FillAccepted(c, ev) {
      DrainAppliesFirstGood(cfg, Filled(c, ev), c.deferred, |c.deferred|, ev.orderId);
    }
  }

  lemma {:induction false} DeferredBufferSafety(cfg: Settings, c: Core, evs: seq<Event>)
    requires BufferSafe(c)
    ensures BufferSafe(CoreRun(cfg, c, evs).core)
  {
    hide CoreStep, DedupKey;
    if evs != [] {
      var init, last := evs[..|evs| - 1], evs[|evs| - 1];
      DeferredBufferSafety(cfg, c, init);
      var at := CoreRun(cfg, c, init).core;
      StepBuffer(cfg, at, last);
      StepOrders(cfg, at, last);
      if FillAccepted(at, last) {
        OthersAreOthers(at.deferred, |at.deferred|, last.orderId);
      }
    }
  }

  // ----- rejected and lost closes ----------------------------------------------------------------

  predicate IsGood(e: CloseEvent, order: string) {
    e.orderId == order && e.exitPx.Some?
  }

  lemma {:induction false} FirstGoodExists(buffer: seq<CloseEvent>, k: nat, order: string)
    requires k <= |buffer|
    ensures FirstGood(buffer, k, order) != [] <==> exists i :: 0 <= i < k && IsGood(buffer[i], order)
  {
    if k > 0 {
      FirstGoodExists(buffer, k - 1, order);
      assert IsGood(buffer[k - 1], order) || !IsGood(buffer[k - 1], order);
    }
  }

  lemma {:induction false} LostExists(buffer: seq<CloseEvent>, k: nat, order: string)
    requires k <= |buffer|
    ensures Lost(buffer, k, order) != [] <==>
            exists i, j :: 0 <= i < j < k && IsGood(buffer[i], order) && IsGood(buffer[j], order)
  {
    if k > 0 {
      LostExists(buffer, k - 1, order);
      FirstGoodExists(buffer, k - 1, order);
      if FirstGood(buffer, k - 1, order) != [] && IsGood(buffer[k - 1], order) {
        var i :| 0 <= i < k - 1 && IsGood(buffer[i], order);
        assert 0 <= i < k - 1 < k && IsGood(buffer[i], order) && IsGood(buffer[k - 1], order);
      }
    }
  }

  /**
   * Closes are lost exactly when a fill is accepted while two well-formed closes of its order wait in the
   * buffer, a case the source calls unreachable; and nothing tells of them: state, moments and alerts of the step
   * are those of a buffer without them.
   */
  lemma CloseLostIffTwoWait(cfg: Settings, c: Core, ev: Event)
    ensures FateOf(c, ev).lost != [] <==>
            && DedupKey(ev) !in c.seen && FillAccepted(c, ev)
            && exists i, j :: 0 <= i < j < |c.deferred| && IsGood(c.deferred[i], ev.orderId) &&
                              IsGood(c.deferred[j], ev.orderId)
    ensures FateOf(c, ev).lost != [] ==>
            var kept := WithoutLost(c.deferred, |c.deferred|, ev.orderId);
            && multiset(c.deferred) == multiset(kept) + multiset(FateOf(c, ev).lost)
            && CoreStep(cfg, c, ev) == CoreStep(cfg, c.(deferred := kept), ev)
  {
    hide CoreStep;
    if FillAccepted(c, ev) {
      LostExists(c.deferred, |c.deferred|, ev.orderId);
      LostSetAside(c.deferred, |c.deferred|, ev.orderId);
      assert c.deferred[..|c.deferred|] == c.deferred;
      if DedupKey(ev) !in c.seen {
        LostLeavesNoTrace(cfg, c, ev);
      }
    }
  }

  /** With one close per order, redelivered or not, no close is lost. */
  lemma {:induction false} OneClosePerOrderLosesNothing(cfg: Settings, c: Core, evs: seq<Event>)
    requires c.deferred == []
    requires forall a <- evs, b <- evs :: a.TradeClosed? && b.TradeClosed? && a.orderId == b.orderId ==> a == b
    ensures FateOfRun(cfg, c, evs).lost == []
  {
    hide CoreStep, DedupKey, FateOf, OrdersDiffer;
    if evs != [] {
      var init, last := evs[..|evs| - 1], evs[|evs| - 1];
      var at := CoreRun(cfg, c, init).core;
      OneClosePerOrderLosesNothing(cfg, c, init);
      NoTwoWait(cfg, c, evs, init);
      NoneLost(cfg, at, last);
    }
  }

  ghost predicate OrdersDiffer(buffer: seq<CloseEvent>) {
    forall i, j :: 0 <= i < j < |buffer| ==> buffer[i].orderId != buffer[j].orderId
  }

  lemma NoneLost(cfg: Settings, c: Core, ev: Event)
    requires OrdersDiffer(c.deferred)
    ensures FateOf(c, ev).lost == []
  {
    hide CoreStep, DedupKey, FateOf;
    CloseLostIffTwoWait(cfg, c, ev);
  }

  /** Where every order has one close, no two closes of one order wait. */
  lemma NoTwoWait(cfg: Settings, c: Core, evs: seq<Event>, init: seq<Event>)
    requires c.deferred == [] && forall e <- init :: e in evs
    requires forall a <- evs, b <- evs :: a.TradeClosed? && b.TradeClosed? && a.orderId == b.orderId ==> a == b
    ensures OrdersDiffer(CoreRun(cfg, c, init).core.deferred)
  {
    hide CoreRun;
    BufferDistinct(cfg, c, init);
    var buffer := CoreRun(cfg, c, init).core.deferred;
    forall i, j | 0 <= i < j < |buffer| ensures buffer[i].orderId != buffer[j].orderId {
      assert buffer[i] in buffer && buffer[j] in buffer;
    }
  }

  lemma BufferDistinct(cfg: Settings, c: Core, evs: seq<Event>)
    requires c.deferred == []
    ensures var buffer := CoreRun(cfg, c, evs).core.deferred;
            && (forall e <- buffer :: e in evs)
            && (forall i, j :: 0 <= i < j < |buffer| ==> buffer[i] != buffer[j])
  {
    hide CoreRun, Occ;
    var buffer := CoreRun(cfg, c, evs).core.deferred;
    forall e | e in buffer ensures e in evs && Occ(buffer, e) <= 1 {
      BufferedOnce(cfg, c, evs, e);
    }
    forall i, j | 0 <= i < j < |buffer| && buffer[i] == buffer[j] ensures Occ(buffer, buffer[i]) >= 2 {
      OccTwice(buffer, i, j);
    }
    assert forall i :: 0 <= i < |buffer| ==> buffer[i] in buffer;
  }

  lemma OccTwice(s: seq<Event>, i: nat, j: nat)
    requires i < j < |s| && s[i] == s[j]
    ensures Occ(s, s[i]) >= 2
  {
    assert s == s[..i] + [s[i]] + s[i + 1..j] + [s[j]] + s[j + 1..];
  }

  lemma BufferedOnce(cfg: Settings, c: Core, evs: seq<Event>, e: CloseEvent)
    requires c.deferred == [] && e in CoreRun(cfg, c, evs).core.deferred
    ensures e in evs && Occ(CoreRun(cfg, c, evs).core.deferred, e) <= 1
  {
    hide CoreStep, DedupKey, FateOf, CoreRun, FateOfRun, FirstOccurrences;
    var kept := FirstOccurrences(evs, c.seen);
    RunAccounts(cfg, c, evs, e);
    FirstOccurrencesOnePerKey(evs, c.seen);
    assert Occ(kept, e) >= 1;
    assert e in kept;
    OccursOnce(kept, e);
  }

  lemma {:induction false} OccursOnce(evs: seq<Event>, e: Event)
    requires OnePerKey(evs)
    ensures Occ(evs, e) <= 1
  {
    hide DedupKey;
    if evs != [] {
      var init, last := evs[..|evs| - 1], evs[|evs| - 1];
      OccursOnce(init, e);
      assert evs == init + [last];
      OccAppend(init, [last], e);
      if e == last {
        assert e !in init;
      }
    }
  }

  /** A close delivered before its fill is buffered and posts nothing. */
  lemma EarlyClose(cfg: Settings, c: Core, close: CloseEvent)
    requires DedupKey(close) !in c.seen && close.orderId !in c.book.positions
    ensures var next := CoreStep(cfg, c, close).core;
            && next.deferred == c.deferred + [close] && next.seen == c.seen + {DedupKey(close)}
            && next.book.positions.Keys <= c.book.positions.Keys
    ensures FateOf(c, close) == Nowhere
  {
    hide CoreStep, DedupKey;
    StepBuffer(cfg, c, close);
    StepOrders(cfg, c, close);
    StepSees(cfg, c, close);
  }

  /** The family that loses a close: two closes of one order delivered before its fill. */
  lemma TwoEarlyClosesLoseOne(cfg: Settings, c: Core, first: CloseEvent, second: CloseEvent, fill: Event)
    requires c.deferred == [] && c.book.positions == map[] && c.seen == {}
    requires fill.OrderFilled? && fill.fillPx.Some?
    requires IsGood(first, fill.orderId) && IsGood(second, fill.orderId)
    requires DedupKey(first) != DedupKey(second) && DedupKey(fill) != DedupKey(first) &&
             DedupKey(fill) != DedupKey(second)
    ensures FateOfRun(cfg, c, [first, second, fill]) == Fate([fill, first], [], [second], [])
    ensures CoreRun(cfg, c, [first, second, fill]).core.deferred == []
  {
    hide CoreStep, DedupKey, FateOf;
    var evs: seq<Event> := [first, second, fill];
    var c1 := CoreStep(cfg, c, first).core;
    var c2 := CoreStep(cfg, c1, second).core;
    EarlyClose(cfg, c, first);
    EarlyClose(cfg, c1, second);
    FilledAfterTwo(cfg, c2, first, second, fill);
    assert evs[..2][..1][..0] == [] && evs[..2][..1] == [first] && evs[..2] == [first, second];
    assert CoreRun(cfg, c, evs[..2][..1]).core == c1 && FateOfRun(cfg, c, evs[..2][..1]) == Nowhere;
    assert CoreRun(cfg, c, evs[..2]).core == c2 && FateOfRun(cfg, c, evs[..2]) == Nowhere;
    assert CoreRun(cfg, c, evs).core == CoreStep(cfg, c2, fill).core;
    var f := FateOf(c2, fill);
    assert FateOfRun(cfg, c, evs) == Fate([] + f.posted, [] + f.rejected, [] + f.lost, [] + f.ignored);
  }

  lemma FilledAfterTwo(cfg: Settings, c: Core, first: CloseEvent, second: CloseEvent, fill: Event)
    requires c.deferred == [first, second] && FillAccepted(c, fill) && DedupKey(fill) !in c.seen
    requires IsGood(first, fill.orderId) && IsGood(second, fill.orderId)
    ensures FateOf(c, fill) == Fate([fill, first], [], [second], [])
    ensures CoreStep(cfg, c, fill).core.deferred == []
  {
    hide CoreStep, DedupKey;
    StepBuffer(cfg, c, fill);
    TwoWaiting(first, second, fill.orderId);
  }

  lemma TwoWaiting(first: CloseEvent, second: CloseEvent, order: string)
    requires IsGood(first, order) && IsGood(second, order)
    ensures var buffer := [first, second];
            && FirstGood(buffer, 2, order) == [first] && Lost(buffer, 2, order) == [second]
            && Bad(buffer, 2, order) == [] && OthersOf(buffer, 2, order) == []
  {
    var buffer := [first, second];
    assert Bad(buffer, 0, order) == [] && OthersOf(buffer, 0, order) == [] && Lost(buffer, 0, order) == [];
    assert FirstGood(buffer, 1, order) == [first] && Lost(buffer, 1, order) == [];
    assert Bad(buffer, 1, order) == [] && OthersOf(buffer, 1, order) == [];
  }

  lemma {:induction false} BadAreReported(cfg: Settings, c: Core, buffer: seq<CloseEvent>, k: nat, order: string)
    requires k <= |buffer|
    ensures forall e <- Bad(buffer, k, order) ::
              IntegrityAlert(e.eventId, Some(e.orderId), Malformed) in DrainCore(cfg, c, buffer, k, order).alerts
  {
    hide EquityOf, Pnl, MismatchAlerts;
    if k > 0 {
      BadAreReported(cfg, c, buffer, k - 1, order);
    }
  }

  lemma StepReports(cfg: Settings, c: Core, ev: Event)
    ensures forall e <- FateOf(c, ev).rejected ::
              IntegrityAlert(e.eventId, Some(e.orderId), Malformed) in CoreStep(cfg, c, ev).alerts
  {
    hide EquityOf, DedupKey, Pnl, FirstGood, OthersOf, DrainCore, Bad, Lost, WatchdogAlerts;
    if DedupKey(ev) !in c.seen && FillAccepted(c, ev) {
      BadAreReported(cfg, Filled(c, ev), c.deferred, |c.deferred|, ev.orderId);
    }
  }

  /** Every close turned away for its exit price is reported under its own event id. */
  lemma {:induction false} RejectedAreReported(cfg: Settings, c: Core, evs: seq<Event>)
    ensures forall e <- FateOfRun(cfg, c, evs).rejected ::
              IntegrityAlert(e.eventId, Some(e.orderId), Malformed) in CoreRun(cfg, c, evs).alerts
  {
    hide CoreStep, FateOf;
    if evs != [] {
      var init := evs[..|evs| - 1];
      RejectedAreReported(cfg, c, init);
      StepReports(cfg, CoreRun(cfg, c, init).core, evs[|evs| - 1]);
    }
  }
}
