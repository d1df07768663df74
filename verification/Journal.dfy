/**
 * What the ledger really did: every run has a journal of postings, and replaying the journal on a
 * plain in-order ledger (no buffer, no idempotency, no verdicts) gives the account's figures.
 */
module Journal {
  import opened Options
  import opened Events
  import opened Pack
  import opened State
  import opened Ledger

  // ----- the plain in-order ledger ---------------------------------------------------------------

  datatype Sheet = Sheet(book: Book, hwm: real, day: CoreDay, dayCounter: nat)

  /** Post one entry; only well-formed entries that the book admits can be posted. */
  ghost function Post(mode: OverallMode, s: Sheet, ev: Event): Option<Sheet> {
    match ev
    case Mark(_, _, _, symbol, px) =>
      if px.None? then None else Some(s.(book := s.book.(lastPx := s.book.lastPx[symbol := px.value])))
    case OrderFilled(_, _, _, order, _, symbol, _, _, px, commission) =>
      if px.None? || order in s.book.positions then None
      else Some(s.(book := Book(s.book.balance + commission.GetOr(0.0), s.book.positions[order := PositionOf(ev)],
                                s.book.lastPx[symbol := px.value])))
    case TradeClosed(_, _, _, order, _, symbol, _, _, exit, _, commission, swap) =>
      if exit.None? || order !in s.book.positions then None
      else
        var pos := s.book.positions[order];
        var pnl := Pnl(pos.side, pos.entryPx, exit.value, pos.volume);
        var book := Book(s.book.balance + (pnl + commission.GetOr(0.0) + swap.GetOr(0.0)),
                         s.book.positions - {order}, s.book.lastPx[symbol := exit.value]);
        Some(s.(book := book, hwm := Raise(mode, s.hwm, EquityOf(book)), day := s.day.(traded := true)))
    case BalanceAdjustment(_, _, _, _, amount, _) =>
      if amount.None? then None
      else
        var book := s.book.(balance := s.book.balance + amount.value);
        Some(s.(book := book, hwm := Raise(mode, s.hwm, EquityOf(book))))
    case Rollover(_, _, _, date) =>
      var eq := EquityOf(s.book);
      Some(Sheet(s.book, Raise(mode, s.hwm, eq), CoreDay(date, eq, false),
                 if s.day.traded then s.dayCounter + 1 else s.dayCounter))
    case _ => None
  }

  ghost function PostAll(mode: OverallMode, s: Sheet, j: seq<Event>): Option<Sheet> {
    if j == [] then Some(s)
    else
      match PostAll(mode, s, j[..|j| - 1])
      case None => None
      case Some(init) => Post(mode, init, j[|j| - 1])
  }

  lemma PostSnoc(mode: OverallMode, s: Sheet, j: seq<Event>, ev: Event)
    ensures PostAll(mode, s, j + [ev]) ==
            match PostAll(mode, s, j) { case None => None case Some(init) => Post(mode, init, ev) }
  {
    hide Post;
    assert (j + [ev])[..|j|] == j;
  }

  // ----- the journal of a run --------------------------------------------------------------------

  function SheetOf(c: Core): Sheet {
    Sheet(c.book, c.hwm, c.day, c.dayCounter)
  }

  /** The first close of the order among the first `k` of the buffer whose exit price parses, if any. */
  function FirstGood(buffer: seq<CloseEvent>, k: nat, order: string): seq<CloseEvent>
    requires k <= |buffer|
    ensures |FirstGood(buffer, k, order)| <= 1
  {
    if k == 0 then []
    else
      var init, e := FirstGood(buffer, k - 1, order), buffer[k - 1];
      if init == [] && e.orderId == order && e.exitPx.Some? then [e] else init
  }

  /** Later closes of the order whose exit price parses: the position is gone when they are drained. */
  function Lost(buffer: seq<CloseEvent>, k: nat, order: string): seq<CloseEvent>
    requires k <= |buffer|
  {
    if k == 0 then []
    else
      var init, e := Lost(buffer, k - 1, order), buffer[k - 1];
      if FirstGood(buffer, k - 1, order) != [] && e.orderId == order && e.exitPx.Some? then init + [e] else init
  }

  /** Closes of the order whose exit price does not parse. */
  function Bad(buffer: seq<CloseEvent>, k: nat, order: string): seq<CloseEvent>
    requires k <= |buffer|
  {
    if k == 0 then []
    else
      var init, e := Bad(buffer, k - 1, order), buffer[k - 1];
      if e.orderId == order && e.exitPx.None? then init + [e] else init
  }

  predicate FillAccepted(c: Core, ev: Event) {
    ev.OrderFilled? && ev.fillPx.Some? && ev.orderId !in c.book.positions
  }

  /**
   * Where one event leads: entries posted, closes rejected as malformed, closes dropped silently, and
   * events that move no money and are not kept.
   */
  datatype Fate = Fate(posted: seq<Event>, rejected: seq<CloseEvent>, lost: seq<CloseEvent>, ignored: seq<Event>)

  const Nowhere := Fate([], [], [], [])

  function PostedOr(ok: bool, ev: Event): Fate {
    if ok then Fate([ev], [], [], []) else Fate([], [], [], [ev])
  }

  function FateOf(c: Core, ev: Event): Fate {
    if DedupKey(ev) in c.seen then Nowhere
    else
      match ev
      case Mark(_, _, _, _, px) => PostedOr(px.Some?, ev)
      case OrderFilled(_, _, _, order, _, _, _, _, _, _) =>
        if !FillAccepted(c, ev) then PostedOr(false, ev)
        else Fate([ev] + FirstGood(c.deferred, |c.deferred|, order),
                  Bad(c.deferred, |c.deferred|, order), Lost(c.deferred, |c.deferred|, order), [])
      case TradeClosed(_, _, _, order, _, _, _, _, exit, _, _, _) =>
        if order !in c.book.positions then Nowhere
        else if exit.None? then Fate([], [ev], [], [])
        else PostedOr(true, ev)
      case BalanceAdjustment(_, _, _, _, amount, _) => PostedOr(amount.Some?, ev)
      case Rollover(_, _, _, _) => PostedOr(true, ev)
      case _ => PostedOr(false, ev)
  }

  ghost function FateOfRun(cfg: Settings, c: Core, evs: seq<Event>): Fate {
    if evs == [] then Nowhere
    else
      var init := FateOfRun(cfg, c, evs[..|evs| - 1]);
      var last := FateOf(CoreRun(cfg, c, evs[..|evs| - 1]).core, evs[|evs| - 1]);
      Fate(init.posted + last.posted, init.rejected + last.rejected, init.lost + last.lost, init.ignored + last.ignored)
  }

  ghost function JournalOf(cfg: Settings, c: Core, evs: seq<Event>): seq<Event> {
    FateOfRun(cfg, c, evs).posted
  }

  // ----- the run refines the plain ledger --------------------------------------------------------

  /** Draining an open order applies its first well-formed close and nothing else. */
  lemma {:induction false} DrainAppliesFirstGood(cfg: Settings, c: Core, buffer: seq<CloseEvent>, k: nat, order: string)
    requires k <= |buffer| && order in c.book.positions
    ensures var good := FirstGood(buffer, k, order);
            DrainCore(cfg, c, buffer, k, order).core == if good == [] then c else CloseCore(cfg, c, good[0]).core
    ensures FirstGood(buffer, k, order) != [] ==>
            var e := FirstGood(buffer, k, order)[0]; e.orderId == order && e.exitPx.Some?
  {
    hide EquityOf, Pnl, Raise, MismatchAlerts, Observe;
    if k > 0 {
      DrainAppliesFirstGood(cfg, c, buffer, k - 1, order);
    }
  }

  /** What a drain reports: each unreadable close, and what the one close applied has to report. */
  lemma {:induction false} DrainAlerts(cfg: Settings, c: Core, buffer: seq<CloseEvent>, k: nat, order: string)
    requires k <= |buffer| && order in c.book.positions
    ensures var good := FirstGood(buffer, k, order);
            |DrainCore(cfg, c, buffer, k, order).alerts| ==
            |Bad(buffer, k, order)| + if good == [] then 0 else |CloseCore(cfg, c, good[0]).alerts|
  {
    hide EquityOf, Pnl, Raise, MismatchAlerts, Observe;
    if k > 0 {
      DrainAlerts(cfg, c, buffer, k - 1, order);
      DrainAppliesFirstGood(cfg, c, buffer, k - 1, order);
    }
  }

  /** The first `k` of the buffer without the closes that a drain of the order loses. */
  function WithoutLost(buffer: seq<CloseEvent>, k: nat, order: string): seq<CloseEvent>
    requires k <= |buffer|
  {
    if k == 0 then []
    else
      var init, e := WithoutLost(buffer, k - 1, order), buffer[k - 1];
      if FirstGood(buffer, k - 1, order) != [] && e.orderId == order && e.exitPx.Some? then init else init + [e]
  }

  lemma {:induction false} LostSetAside(buffer: seq<CloseEvent>, k: nat, order: string)
    requires k <= |buffer|
    ensures multiset(buffer[..k]) == multiset(WithoutLost(buffer, k, order)) + multiset(Lost(buffer, k, order))
  {
    hide FirstGood;
    if k == 0 {
      assert buffer[..k] == [];
    } else {
      LostSetAside(buffer, k - 1, order);
      assert buffer[..k] == buffer[..k - 1] + [buffer[k - 1]];
      AddOne(buffer[..k - 1], buffer[k - 1]);
      AddOne(WithoutLost(buffer, k - 1, order), buffer[k - 1]);
      AddOne(Lost(buffer, k - 1, order), buffer[k - 1]);
    }
  }

  lemma AddOne(x: seq<CloseEvent>, e: CloseEvent)
    ensures multiset(x + [e]) == multiset(x) + multiset{e}
  {
  }

  lemma {:induction false} DrainPrefix(cfg: Settings, c: Core, x: seq<CloseEvent>, e: CloseEvent, k: nat, order: string)
    requires k <= |x|
    ensures DrainCore(cfg, c, x + [e], k, order) == DrainCore(cfg, c, x, k, order)
    ensures OthersOf(x + [e], k, order) == OthersOf(x, k, order)
  {
    hide CloseCore;
    if k > 0 {
      DrainPrefix(cfg, c, x, e, k - 1, order);
    }
  }

  /** A lost close changes nothing: the drain is that of the buffer without it, alerts and moments included. */
  lemma {:induction false} DrainWithoutLost(cfg: Settings, c: Core, buffer: seq<CloseEvent>, k: nat, order: string)
    requires k <= |buffer| && order in c.book.positions
    ensures var left := WithoutLost(buffer, k, order);
            && DrainCore(cfg, c, left, |left|, order) == DrainCore(cfg, c, buffer, k, order)
            && OthersOf(left, |left|, order) == OthersOf(buffer, k, order)
  {
    hide CloseCore, FirstGood;
    if k > 0 {
      var init, e := WithoutLost(buffer, k - 1, order), buffer[k - 1];
      DrainWithoutLost(cfg, c, buffer, k - 1, order);
      DrainPrefix(cfg, c, init, e, |init|, order);
      var good := FirstGood(buffer, k - 1, order);
      if good != [] && e.orderId == order && e.exitPx.Some? {
        DrainAppliesFirstGood(cfg, c, buffer, k - 1, order);
        AppliedCloseRemoves(cfg, c, good[0], DrainCore(cfg, c, buffer, k - 1, order).core, e);
      }
    }
  }

  /** Once a close of an order was applied, another one does nothing at all. */
  lemma AppliedCloseRemoves(cfg: Settings, c: Core, first: CloseEvent, after: Core, second: CloseEvent)
    requires first.exitPx.Some? && first.orderId in c.book.positions && second.orderId == first.orderId
    requires second.exitPx.Some? && after == CloseCore(cfg, c, first).core
    ensures CloseCore(cfg, after, second) == CoreResult(after, [], [], false)
  {
    hide EquityOf, Pnl, Raise;
  }

  /**
   * A close is lost without trace: the fill that loses it does and reports exactly what it would have done and
   * reported had the close never been buffered.
   */
  lemma LostLeavesNoTrace(cfg: Settings, c: Core, ev: Event)
    requires FillAccepted(c, ev) && DedupKey(ev) !in c.seen
    ensures CoreStep(cfg, c, ev) == CoreStep(cfg, c.(deferred := WithoutLost(c.deferred, |c.deferred|, ev.orderId)), ev)
  {
    hide EquityOf, DedupKey, DrainCore, OthersOf, WithoutLost, FindWindow;
    var left := WithoutLost(c.deferred, |c.deferred|, ev.orderId);
    DrainWithoutLost(cfg, Filled(c, ev), c.deferred, |c.deferred|, ev.orderId);
  }

  /** The account just before the closes waiting for an accepted fill are drained. */
  function Filled(c: Core, ev: Event): Core
    requires FillAccepted(c, ev)
  {
    c.(seen := c.seen + {DedupKey(ev)},
       book := Book(c.book.balance + ev.commission.GetOr(0.0), c.book.positions[ev.orderId := PositionOf(ev)],
                    c.book.lastPx[ev.symbol := ev.fillPx.value]),
       deferred := OthersOf(c.deferred, |c.deferred|, ev.orderId))
  }

  /** All that an accepted fill reports: regressions, the closes rejected, and a mismatch of the close applied. */
  lemma FillAlerts(cfg: Settings, c: Core, ev: Event)
    requires FillAccepted(c, ev) && DedupKey(ev) !in c.seen
    ensures var good := FirstGood(c.deferred, |c.deferred|, ev.orderId);
            |CoreStep(cfg, c, ev).alerts| ==
            |WatchdogAlerts(c, ev)| + |FateOf(c, ev).rejected| +
            if good == [] then 0 else |CloseCore(cfg, Filled(c, ev), good[0]).alerts|
  {
    hide EquityOf, DedupKey, DrainCore, OthersOf, CloseCore, FindWindow, WatchdogAlerts, FirstGood, Bad, Lost;
    DrainAlerts(cfg, Filled(c, ev), c.deferred, |c.deferred|, ev.orderId);
  }

  lemma ClosePosts(cfg: Settings, c: Core, ev: CloseEvent)
    requires ev.exitPx.Some? && ev.orderId in c.book.positions
    ensures Post(cfg.overallMode, SheetOf(c), ev) == Some(SheetOf(CloseCore(cfg, c, ev).core))
  {
    hide EquityOf, Pnl;
  }

  /** A step moves the sheet by the entries it posts, in order, all of them admissible. */
  lemma StepPosts(cfg: Settings, c: Core, ev: Event, start: Sheet, j: seq<Event>)
    requires PostAll(cfg.overallMode, start, j) == Some(SheetOf(c))
    ensures PostAll(cfg.overallMode, start, j + FateOf(c, ev).posted) == Some(SheetOf(CoreStep(cfg, c, ev).core))
  {
    hide EquityOf, Pnl, Raise, DedupKey, PostAll, DrainCore, CloseCore, FirstGood, OthersOf, NewsHits, Lost, Bad;
    assert j + [] == j;
    PostSnoc(cfg.overallMode, start, j, ev);
    if DedupKey(ev) !in c.seen {
      var c0 := c.(seen := c.seen + {DedupKey(ev)});
      assert SheetOf(c0) == SheetOf(c);
      if FillAccepted(c, ev) {
        var book := Book(c.book.balance + ev.commission.GetOr(0.0), c.book.positions[ev.orderId := PositionOf(ev)],
                         c.book.lastPx[ev.symbol := ev.fillPx.value]);
        var filled := c0.(book := book, deferred := OthersOf(c.deferred, |c.deferred|, ev.orderId));
        DrainAppliesFirstGood(cfg, filled, c.deferred, |c.deferred|, ev.orderId);
        var good := FirstGood(c.deferred, |c.deferred|, ev.orderId);
        if good != [] {
          assert j + ([ev] + good) == j + [ev] + [good[0]];
          PostSnoc(cfg.overallMode, start, j + [ev], good[0]);
          ClosePosts(cfg, filled, good[0]);
        } else {
          assert [ev] + good == [ev];
        }
      } else if ev.TradeClosed? && ev.orderId in c.book.positions {
        if ev.exitPx.Some? {
          ClosePosts(cfg, c0, ev);
        } else {
          assert CloseCore(cfg, c0, ev).core == c0 by { MalformedCloseIsInert(cfg, c0, ev); }
        }
      }
    }
  }

  lemma MalformedCloseIsInert(cfg: Settings, c: Core, ev: CloseEvent)
    requires ev.exitPx.None?
    ensures CloseCore(cfg, c, ev).core == c
  {
  }

  /**
   * Refinement: after any stream, the account's book, high-water mark, day and day counter are what
   * the plain ledger shows after the journal, every entry of which it admits.
   */
  lemma {:induction false} RunPostsItsJournal(cfg: Settings, c: Core, evs: seq<Event>)
    ensures PostAll(cfg.overallMode, SheetOf(c), JournalOf(cfg, c, evs)) == Some(SheetOf(CoreRun(cfg, c, evs).core))
  {
    hide CoreStep, FateOf;
    if evs != [] {
      var init := evs[..|evs| - 1];
      RunPostsItsJournal(cfg, c, init);
      StepPosts(cfg, CoreRun(cfg, c, init).core, evs[|evs| - 1], SheetOf(c), JournalOf(cfg, c, init));
    }
  }
}
