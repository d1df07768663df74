/**
 * When a looser pack can breach overall alone (eval.rs:498-522). Fills on one symbol steer an account to any
 * balance and equity; the streams built from them show that the joint claim about two packs fails
 * wherever `PackMonotonicity` does not prove it, so its exact condition is known.
 */
module PackDivergence {
  import opened Options
  import opened Events
  import opened Pack
  import opened State
  import opened Verdicts
  import opened Ledger
  import opened Judge
  import opened Trace
  import opened PackMonotonicity

  // ----- steering a ledger -----------------------------------------------------------------------

  const SYMBOL := "s"

  /** Everything is held long, one unit each, on one symbol; `size` bounds the ids in use. */
  ghost predicate Steerable(c: Core, size: nat) {
    && c.newsWindows == [] && c.deferred == []
    && (forall k <- c.seen :: |k| <= size)
    && (forall o <- c.book.positions :: |o| <= size && Unit(c.book.positions[o]))
    && (c.book.positions != map[] ==> SYMBOL in c.book.lastPx)
  }

  predicate Unit(pos: Position) {
    pos.symbol == SYMBOL && pos.side == Buy && pos.volume == 1.0
  }

  /** A unit gains what its symbol's price gains, and nothing at its own entry price. */
  lemma UnitRepriced(pos: Position, lastPx: map<string, real>, px: real)
    requires Unit(pos)
    ensures Unrealized(pos, lastPx[SYMBOL := px]) == px - pos.entryPx
    ensures SYMBOL in lastPx ==> Unrealized(pos, lastPx) == lastPx[SYMBOL] - pos.entryPx
  {
  }

  /** A new price moves every unit by as much. */
  lemma {:induction false} Repriced(orders: set<string>, positions: map<string, Position>, lastPx: map<string, real>,
                                    px: real)
    requires orders <= positions.Keys && SYMBOL in lastPx
    requires forall o <- orders :: Unit(positions[o])
    ensures UnrealizedSum(orders, positions, lastPx[SYMBOL := px]) ==
            UnrealizedSum(orders, positions, lastPx) + |orders| as real * (px - lastPx[SYMBOL])
    decreases orders
  {
    hide Unrealized, Unit;
    if orders != {} {
      var o :| o in orders;
      UnitRepriced(positions[o], lastPx, px);
      UnrealizedSumPick(orders, o, positions, lastPx);
      UnrealizedSumPick(orders, o, positions, lastPx[SYMBOL := px]);
      Repriced(orders - {o}, positions, lastPx, px);
      OneMore(|orders - {o}|, px - lastPx[SYMBOL]);
    }
  }

  lemma OneMore(n: nat, x: real)
    ensures (n + 1) as real * x == n as real * x + x
  {
  }

  /** Positions of other orders play no part in a sum. */
  lemma {:induction false} SumIgnoresOthers(orders: set<string>, positions: map<string, Position>,
                                            lastPx: map<string, real>, other: string, pos: Position)
    requires orders <= positions.Keys && other !in orders
    ensures UnrealizedSum(orders, positions[other := pos], lastPx) == UnrealizedSum(orders, positions, lastPx)
    decreases orders
  {
    hide Unrealized;
    if orders != {} {
      var o :| o in orders;
      UnrealizedSumPick(orders, o, positions, lastPx);
      UnrealizedSumPick(orders, o, positions[other := pos], lastPx);
      SumIgnoresOthers(orders - {o}, positions, lastPx, other, pos);
    }
  }

  /** Equity after one more unit is bought at `px`: it adds nothing itself, but reprices the others. */
  lemma EquityAfterUnit(b: Book, order: string, pos: Position, balance: real)
    requires order !in b.positions && Unit(pos) && forall o <- b.positions :: Unit(b.positions[o])
    requires b.positions != map[] ==> SYMBOL in b.lastPx
    ensures var after := Book(balance, b.positions[order := pos], b.lastPx[SYMBOL := pos.entryPx]);
            EquityOf(after) ==
            if b.positions == map[] then balance
            else EquityOf(b) - b.balance + balance + |b.positions| as real * (pos.entryPx - b.lastPx[SYMBOL])
  {
    hide Unrealized, Unit;
    UnitRepriced(pos, b.lastPx, pos.entryPx);
    var lastPx, keys := b.lastPx[SYMBOL := pos.entryPx], b.positions.Keys;
    var positions := b.positions[order := pos];
    assert positions.Keys - {order} == keys;
    UnrealizedSumPick(positions.Keys, order, positions, lastPx);
    SumIgnoresOthers(keys, b.positions, lastPx, order, pos);
    if b.positions != map[] {
      Repriced(keys, b.positions, b.lastPx, pos.entryPx);
      assert |keys| == |b.positions|;
    } else {
      assert keys == {};
    }
  }

  /** The entry price that brings the equity to `equity` while the commission brings the balance to `balance`. */
  ghost function EntryFor(b: Book, balance: real, equity: real): real {
    if b.positions == map[] || SYMBOL !in b.lastPx then 1.0
    else b.lastPx[SYMBOL] + (equity - balance - (EquityOf(b) - b.balance)) / |b.positions| as real
  }

  function NewId(size: nat): string {
    seq(size + 1, _ => 'x')
  }

  ghost function SteeringFill(c: Core, size: nat, balance: real, equity: real): Event {
    OrderFilled("", 0, 0, NewId(size), NewId(size), SYMBOL, Buy, 1.0, Some(EntryFor(c.book, balance, equity)),
                Some(balance - c.book.balance))
  }

  lemma QuotientTimes(x: real, n: nat)
    requires n > 0
    ensures n as real * (x / n as real) == x
  {
  }

  lemma SteeredBook(b: Book, order: string, pos: Position, balance: real, equity: real)
    requires order !in b.positions && Unit(pos) && forall o <- b.positions :: Unit(b.positions[o])
    requires b.positions != map[] ==> SYMBOL in b.lastPx
    requires b.positions == map[] ==> equity == balance
    requires pos.entryPx == EntryFor(b, balance, equity)
    ensures EquityOf(Book(balance, b.positions[order := pos], b.lastPx[SYMBOL := pos.entryPx])) == equity
  {
    hide EquityOf;
    EquityAfterUnit(b, order, pos, balance);
    if b.positions != map[] {
      QuotientTimes(equity - balance - (EquityOf(b) - b.balance), |b.positions|);
    }
  }

  lemma NothingToDrain(cfg: Settings, c: Core, order: string)
    ensures DrainCore(cfg, c, [], 0, order) == CoreResult(c, [], [], false) && OthersOf([], 0, order) == []
  {
  }

  lemma FillAppears(cfg: Settings, c: Core, ev: Event)
    requires ev.OrderFilled? && ev.fillPx.Some? && ev.orderId !in c.book.positions && DedupKey(ev) !in c.seen
    requires c.newsWindows == [] && c.deferred == []
    ensures var r := CoreStep(cfg, c, ev);
            && r.core.book == Book(c.book.balance + ev.commission.GetOr(0.0),
                                   c.book.positions[ev.orderId := PositionOf(ev)],
                                   c.book.lastPx[ev.symbol := ev.fillPx.value])
            && r.core.hwm == c.hwm && r.core.day == c.day && r.core.seen == c.seen + {DedupKey(ev)}
            && r.core.newsWindows == [] && r.core.deferred == []
            && |r.moments| == 1 && r.moments[0].Sample?
            && r.moments[0].o == Observe(c).(balance := r.core.book.balance, equity := EquityOf(r.core.book))
  {
    hide EquityOf, DedupKey, DrainCore;
    var book := Book(c.book.balance + ev.commission.GetOr(0.0), c.book.positions[ev.orderId := PositionOf(ev)],
                     c.book.lastPx[ev.symbol := ev.fillPx.value]);
    NothingToDrain(cfg, c.(seen := c.seen + {DedupKey(ev)}, book := book, deferred := []), ev.orderId);
    assert FindWindow(cfg.news, [], ev.symbol, ev.brokerTs) == None;
    assert NewsHits(cfg, c.(seen := c.seen + {DedupKey(ev)}), ev) == [];
  }

  /** One fill takes the account to any balance and equity; the first one leaves the two equal. */
  lemma Steer(cfg: Settings, c: Core, size: nat, balance: real, equity: real)
    requires Steerable(c, size) && (c.book.positions == map[] ==> equity == balance)
    ensures var r := CoreStep(cfg, c, SteeringFill(c, size, balance, equity));
            && Steerable(r.core, size + 6) && r.core.book.positions != map[]
            && r.core.book.balance == balance && EquityOf(r.core.book) == equity
            && r.core.hwm == c.hwm && r.core.day == c.day
            && |r.moments| == 1 && r.moments[0].Sample?
            && r.moments[0].o == Observe(c).(balance := balance, equity := equity)
  {
    hide EquityOf, EntryFor;
    var ev := SteeringFill(c, size, balance, equity);
    assert |DedupKey(ev)| == size + 6;
    FillAppears(cfg, c, ev);
    SteeredBook(c.book, ev.orderId, PositionOf(ev), balance, equity);
  }

  lemma TurnDay(cfg: Settings, c: Core, size: nat)
    requires Steerable(c, size)
    ensures var r := CoreStep(cfg, c, Rollover("", 0, 0, NewId(size)));
            && Steerable(r.core, size + 6) && r.core.book == c.book
            && r.core.hwm == Raise(cfg.overallMode, c.hwm, EquityOf(c.book))
            && r.core.day.startEquity == EquityOf(c.book)
            && |r.moments| == 1 && r.moments[0].DayEnd? && r.moments[0].o == Observe(c)
  {
    hide EquityOf;
    assert |DedupKey(Rollover("", 0, 0, NewId(size)))| == size + 5;
  }

  // ----- two packs on one stream -----------------------------------------------------------------

  /** What one pack has found: today's daily breach, and the overall one. */
  datatype Found = Found(daily: bool, overall: bool)

  /** Where a stream leaves an account, and what both packs found on the way. */
  datatype Scene = Scene(balance: real, equity: real, start: real, hwm: real, open: bool, tight: Found, loose: Found)

  predicate DailyHit(p: CompiledPack, f: Found, start: real, balance: real, equity: real) {
    p.dailyBreachIntraday && !f.daily && (if p.dailyBasisEquity then equity else balance) < p.DailyFloor(start)
  }

  /** A sample: the daily rule, or else the overall one. */
  function Find(p: CompiledPack, f: Found, start: real, hwm: real, balance: real, equity: real): Found {
    var hit := DailyHit(p, f, start, balance, equity);
    Found(f.daily || hit, f.overall || (!hit && equity < p.OverallFloor(hwm)))
  }

  function Sampled(p: CompiledPack, q: CompiledPack, x: Scene, balance: real, equity: real): Scene {
    Scene(balance, equity, x.start, x.hwm, true,
          Find(p, x.tight, x.start, x.hwm, balance, equity), Find(q, x.loose, x.start, x.hwm, balance, equity))
  }

  function Turned(p: CompiledPack, x: Scene): Scene {
    x.(start := x.equity, hwm := Raise(p.overallMode, x.hwm, x.equity),
       tight := Found(false, x.tight.overall), loose := Found(false, x.loose.overall))
  }

  function FoundBy(f: Flags): Found {
    Found(f.dailyBreached, f.overallBreached)
  }

  lemma SampleFinds(p: CompiledPack, f: Flags, ms: seq<Moment>, m: Moment)
    requires m.Sample?
    ensures var g := JudgeAll(p, f, ms).flags;
            FoundBy(JudgeAll(p, f, ms + [m]).flags) ==
            Find(p, FoundBy(g), m.o.startEquity, m.o.hwm, m.o.balance, m.o.equity)
  {
    hide CompiledPack.DailyFloor, CompiledPack.OverallFloor, CompiledPack.TargetLevel, MakeVerdict;
    JudgeSnoc(p, f, ms, m);
  }

  lemma DayEndFinds(p: CompiledPack, f: Flags, ms: seq<Moment>, m: Moment)
    requires m.DayEnd?
    ensures FoundBy(JudgeAll(p, f, ms + [m]).flags) == Found(false, JudgeAll(p, f, ms).flags.overallBreached)
  {
    hide CompiledPack.DailyFloor, MakeVerdict;
    JudgeSnoc(p, f, ms, m);
  }

  /** A run that both packs judge: the ledger's state shows the scene, and so do both packs' flags. */
  ghost predicate Shows(p: CompiledPack, q: CompiledPack, r: CoreResult, size: nat, x: Scene) {
    && Steerable(r.core, size)
    && x.balance == r.core.book.balance && x.equity == EquityOf(r.core.book)
    && x.start == r.core.day.startEquity && x.hwm == r.core.hwm && x.open == (r.core.book.positions != map[])
    && x.tight == FoundBy(JudgeAll(p, FreshFlags(p), r.moments).flags)
    && x.loose == FoundBy(JudgeAll(q, FreshFlags(q), r.moments).flags)
  }

  /** Some stream leads an account to the scene under both packs. */
  ghost predicate Reachable(p: CompiledPack, q: CompiledPack, account: string, day: string, x: Scene) {
    exists evs, size: nat :: Shows(p, q, CoreRun(p.Cfg(), FreshCore(account, p.startBalance, day), evs), size, x)
  }

  function Opening(b: real): Scene {
    Scene(b, b, b, b, false, Found(false, false), Found(false, false))
  }

  lemma Begin(p: CompiledPack, q: CompiledPack, account: string, day: string)
    ensures Reachable(p, q, account, day, Opening(p.startBalance))
  {
    var c := FreshCore(account, p.startBalance, day);
    assert CoreRun(p.Cfg(), c, []) == CoreResult(c, [], [], false);
    assert Shows(p, q, CoreRun(p.Cfg(), c, []), 0, Opening(p.startBalance));
  }

  lemma RunSnoc(cfg: Settings, c: Core, evs: seq<Event>, ev: Event)
    ensures var init := CoreRun(cfg, c, evs);
            var r, last := CoreRun(cfg, c, evs + [ev]), CoreStep(cfg, init.core, ev);
            r.core == last.core && r.moments == init.moments + last.moments
  {
    hide CoreStep;
    assert (evs + [ev])[..|evs|] == evs;
  }

  /** From a reachable scene any balance and equity can be sampled next. */
  lemma Move(p: CompiledPack, q: CompiledPack, account: string, day: string, x: Scene, balance: real, equity: real)
    requires Reachable(p, q, account, day, x) && (x.open || equity == balance)
    ensures Reachable(p, q, account, day, Sampled(p, q, x, balance, equity))
  {
    hide CoreRun, CoreStep, EquityOf, JudgeAll, Find, Steerable, SteeringFill;
    var c := FreshCore(account, p.startBalance, day);
    var evs, size: nat :| Shows(p, q, CoreRun(p.Cfg(), c, evs), size, x);
    var r := CoreRun(p.Cfg(), c, evs);
    var ev := SteeringFill(r.core, size, balance, equity);
    Steer(p.Cfg(), r.core, size, balance, equity);
    RunSnoc(p.Cfg(), c, evs, ev);
    var m := CoreStep(p.Cfg(), r.core, ev).moments[0];
    assert CoreStep(p.Cfg(), r.core, ev).moments == [m];
    SampleFinds(p, FreshFlags(p), r.moments, m);
    SampleFinds(q, FreshFlags(q), r.moments, m);
    assert Shows(p, q, CoreRun(p.Cfg(), c, evs + [ev]), size + 6, Sampled(p, q, x, balance, equity));
  }

  /** And the day can be ended. */
  lemma NextDay(p: CompiledPack, q: CompiledPack, account: string, day: string, x: Scene)
    requires Reachable(p, q, account, day, x)
    ensures Reachable(p, q, account, day, Turned(p, x))
  {
    hide CoreRun, CoreStep, EquityOf, JudgeAll, Steerable;
    var c := FreshCore(account, p.startBalance, day);
    var evs, size: nat :| Shows(p, q, CoreRun(p.Cfg(), c, evs), size, x);
    var r := CoreRun(p.Cfg(), c, evs);
    var ev := Rollover("", 0, 0, NewId(size));
    TurnDay(p.Cfg(), r.core, size);
    RunSnoc(p.Cfg(), c, evs, ev);
    var m := CoreStep(p.Cfg(), r.core, ev).moments[0];
    assert CoreStep(p.Cfg(), r.core, ev).moments == [m];
    DayEndFinds(p, FreshFlags(p), r.moments, m);
    DayEndFinds(q, FreshFlags(q), r.moments, m);
    assert Shows(p, q, CoreRun(p.Cfg(), c, evs + [ev]), size + 6, Turned(p, x));
  }

  // ----- how the looser pack gets ahead ----------------------------------------------------------

  /** What is left of a base after a loss of `pct` percent. */
  function Keep(pct: real): real {
    1.0 - pct / 100.0
  }

  lemma FloorsAre(p: CompiledPack, start: real)
    ensures p.DailyFloor(start) == start * Keep(p.dailyLossPct)
    ensures p.OverallFloor(p.startBalance) == p.startBalance * Keep(p.overallLossPct)
  {
  }

  /** After some stream the looser pack has breached overall and the tighter one has not. */
  ghost predicate LooseAlone(p: CompiledPack, q: CompiledPack, account: string, day: string) {
    exists x :: Reachable(p, q, account, day, x) && x.loose.overall && !x.tight.overall
  }

  /** Packs of one account, and a scene at which its day is young and the tighter pack has found nothing. */
  ghost predicate Ready(p: CompiledPack, q: CompiledPack, account: string, day: string, x: Scene) {
    && p.dailyBreachIntraday && SameDailyRule(p, q) && SameLedger(p, q)
    && Reachable(p, q, account, day, x) && x.hwm == p.startBalance
    && x.tight == Found(false, false) && !x.loose.daily
  }

  /** The figure the daily rule reads; a pack on equity reads the equity. */
  predicate Reads(p: CompiledPack, x: Scene, figure: real, equity: real) {
    p.dailyBasisEquity || !x.open ==> figure == equity
  }

  /** The tighter pack breaches daily, the looser one does not and is looked at overall. */
  lemma TightCutShort(p: CompiledPack, q: CompiledPack, account: string, day: string, x: Scene, figure: real,
                      equity: real)
    requires Ready(p, q, account, day, x) && Reads(p, x, figure, equity)
    requires q.DailyFloor(x.start) <= figure < p.DailyFloor(x.start) && equity < q.OverallFloor(p.startBalance)
    ensures LooseAlone(p, q, account, day)
  {
    hide Reachable, CompiledPack.DailyFloor, CompiledPack.OverallFloor;
    Move(p, q, account, day, x, figure, equity);
    var y := Sampled(p, q, x, figure, equity);
    assert y.loose.overall && !y.tight.overall;
  }

  /** The looser pack breaches daily first, so that the next sample cuts only the tighter one short. */
  lemma LooseCutFirst(p: CompiledPack, q: CompiledPack, account: string, day: string, x: Scene, figure: real,
                      equity: real)
    requires Ready(p, q, account, day, x) && Reads(p, x, figure, equity)
    requires p.DailyFloor(x.start) <= figure < q.DailyFloor(x.start) && p.OverallFloor(p.startBalance) <= equity
    ensures LooseAlone(p, q, account, day)
  {
    hide Reachable, CompiledPack.DailyFloor, CompiledPack.OverallFloor;
    Move(p, q, account, day, x, figure, equity);
    var y := Sampled(p, q, x, figure, equity);
    assert y.loose.daily && y.tight == Found(false, false);
    var low := RMin(p.DailyFloor(x.start), q.OverallFloor(p.startBalance)) - 1.0;
    Move(p, q, account, day, y, low, low);
    var z := Sampled(p, q, y, low, low);
    assert z.loose.overall && !z.tight.overall;
  }

  /** A drop that the tighter pack sees as a daily breach only, and the day after it. */
  lemma DropUnseen(p: CompiledPack, q: CompiledPack, account: string, day: string, x: Scene, equity: real)
    returns (y: Scene)
    requires Ready(p, q, account, day, x) && equity < p.DailyFloor(x.start) && equity <= p.startBalance
    ensures Ready(p, q, account, day, y) && y.start == equity && y.open
  {
    hide Reachable, CompiledPack.DailyFloor, CompiledPack.OverallFloor;
    Move(p, q, account, day, x, equity, equity);
    NextDay(p, q, account, day, Sampled(p, q, x, equity, equity));
    y := Turned(p, Sampled(p, q, x, equity, equity));
  }

  /** A negative base falls, and a positive one rises, with the share kept of it. */
  lemma ShareOrder(base: real, low: real, high: real)
    requires low < high
    ensures base < 0.0 ==> base * high < base * low
    ensures base > 0.0 ==> base * low < base * high
  {
    if base < 0.0 {
      MulPositive(-base, high - low);
    } else if base > 0.0 {
      MulPositive(base, high - low);
    }
  }

  /** On a day that opens negative the looser floor is the higher one, on one that opens positive the lower one. */
  lemma FloorOrder(p: CompiledPack, q: CompiledPack, start: real)
    requires p.dailyLossPct < q.dailyLossPct
    ensures start < 0.0 ==> p.DailyFloor(start) < q.DailyFloor(start)
    ensures start > 0.0 ==> q.DailyFloor(start) < p.DailyFloor(start)
  {
    FloorsAre(p, start);
    FloorsAre(q, start);
    ShareOrder(start, Keep(q.dailyLossPct), Keep(p.dailyLossPct));
  }

  /** On a day that opens negative the looser daily floor is the higher one. */
  lemma NegativeDay(p: CompiledPack, q: CompiledPack, account: string, day: string, x: Scene, start: real)
    requires Ready(p, q, account, day, x) && p.dailyLossPct < q.dailyLossPct && p.dailyBasisEquity
    requires start < 0.0 && start < p.DailyFloor(x.start) && start <= p.startBalance
    requires p.OverallFloor(p.startBalance) < start * Keep(q.dailyLossPct)
    ensures LooseAlone(p, q, account, day)
  {
    hide Reachable, Ready;
    var y := DropUnseen(p, q, account, day, x, start);
    ShareOrder(start, Keep(q.dailyLossPct), Keep(p.dailyLossPct));
    FloorsAre(p, start);
    FloorsAre(q, start);
    var figure := RMax(start * Keep(p.dailyLossPct), p.OverallFloor(p.startBalance));
    LooseCutFirst(p, q, account, day, y, figure, figure);
  }

  // ----- every pair of packs that differ in the daily percentage ---------------------------------

  /** Two packs of one plan: they judge alike, and differ in percentages only. */
  predicate SamePlan(p: CompiledPack, q: CompiledPack) {
    SameLedger(p, q) && SameDailyRule(p, q) && p.startBalance > 0.0 && p.dailyLossPct > 0.0 && q.dailyLossPct > 0.0
  }

  lemma ReadyAtStart(p: CompiledPack, q: CompiledPack, account: string, day: string) returns (x: Scene)
    requires SamePlan(p, q) && p.dailyBreachIntraday
    ensures Ready(p, q, account, day, x) && x.start == p.startBalance
  {
    hide Reachable;
    Begin(p, q, account, day);
    x := Opening(p.startBalance);
  }

  /** A number below every number of interest. */
  function Under(x: real, y: real): real {
    RMin(RMin(x, y), 0.0) - 1.0
  }

  /** Packs on balance: one fill moves balance and equity apart, so any two daily floors will do. */
  lemma BalanceBasisDiverges(p: CompiledPack, q: CompiledPack, account: string, day: string)
    requires SamePlan(p, q) && p.dailyBreachIntraday && !p.dailyBasisEquity && p.dailyLossPct != q.dailyLossPct
    ensures LooseAlone(p, q, account, day)
  {
    hide Reachable, Ready, LooseAlone, CompiledPack.DailyFloor, CompiledPack.OverallFloor;
    var x := ReadyAtStart(p, q, account, day);
    var start := Under(p.DailyFloor(x.start), 0.0);
    var y := DropUnseen(p, q, account, day, x, start);
    if p.dailyLossPct < q.dailyLossPct {
      FloorOrder(p, q, start);
      LooseCutFirst(p, q, account, day, y, p.DailyFloor(start), p.OverallFloor(p.startBalance));
    } else {
      FloorOrder(q, p, start);
      TightCutShort(p, q, account, day, y, q.DailyFloor(start), q.OverallFloor(p.startBalance) - 1.0);
    }
  }

  /**
   * A looser daily percentage of at most 100, and a positive overall floor: day after day the account
   * keeps the least the looser pack lets pass, until that is under the floor.
   */
  lemma {:induction false} ShrinkingDays(p: CompiledPack, q: CompiledPack, account: string, day: string, x: Scene,
                                         loss: real, days: nat)
    requires Ready(p, q, account, day, x) && p.dailyBasisEquity
    requires p.dailyLossPct < q.dailyLossPct <= 100.0 && 0.0 < q.OverallFloor(p.startBalance)
    requires 0.0 < x.start <= p.startBalance && x.start <= days as real * loss
    requires loss == (1.0 - Keep(q.dailyLossPct)) * q.OverallFloor(p.startBalance) > 0.0
    ensures LooseAlone(p, q, account, day)
    decreases days
  {
    hide Reachable, Ready, LooseAlone, CompiledPack.DailyFloor, CompiledPack.OverallFloor;
    var keep := Keep(q.dailyLossPct);
    var left := x.start * keep;
    FloorsAre(p, x.start);
    FloorsAre(q, x.start);
    ShareOrder(x.start, keep, Keep(p.dailyLossPct));
    LeastLoss(x.start, keep, q.OverallFloor(p.startBalance), loss);
    if left < q.OverallFloor(p.startBalance) {
      TightCutShort(p, q, account, day, x, left, left);
    } else {
      var y := DropUnseen(p, q, account, day, x, left);
      OneMore(days - 1, loss);
      ShrinkingDays(p, q, account, day, y, loss, days - 1);
    }
  }

  function EnoughDays(amount: real, loss: real): (days: nat)
    requires amount > 0.0 && loss > 0.0
    ensures amount <= days as real * loss
  {
    var whole := (amount / loss).Floor + 1;
    assert amount / loss * loss == amount;
    MulNonNegative(whole as real - amount / loss, loss);
    assert whole > 0 by { PositiveQuotient(amount, loss); }
    whole
  }

  lemma PositiveQuotient(amount: real, loss: real)
    requires amount > 0.0 && loss > 0.0
    ensures amount / loss > 0.0
  {
    var x := amount / loss;
    assert x * loss == amount;
    if x <= 0.0 {
      MulNonNegative(-x, loss);
    }
  }

  /** While at least `floor` is left, keeping a share of at least zero costs at least that share's complement of it. */
  lemma LeastLoss(base: real, keep: real, floor: real, loss: real)
    requires 0.0 <= keep < 1.0 && loss == (1.0 - keep) * floor
    ensures base > 0.0 ==> base * keep <= base
    ensures base > 0.0 && base * keep >= floor ==> base - base * keep >= loss
  {
    if base > 0.0 {
      MulPositive(base, 1.0 - keep);
      if base * keep >= floor {
        MulNonNegative(base - floor, 1.0 - keep);
      }
    }
  }

  /** Far enough under zero, a negative share is above any mark. */
  lemma Stretch(start: real, keep: real, mark: real)
    requires keep < 0.0 && start <= (mark + 1.0) / keep
    ensures start * keep > mark
  {
    var edge := (mark + 1.0) / keep;
    assert edge * keep == mark + 1.0;
    MulNonNegative(edge - start, -keep);
  }

  /** A looser daily percentage over 100: the floors of a day that opens deep under zero lie high above it. */
  lemma DeepNegative(p: CompiledPack, q: CompiledPack, account: string, day: string)
    requires SamePlan(p, q) && p.dailyBreachIntraday && p.dailyBasisEquity
    requires p.dailyLossPct < q.dailyLossPct && q.dailyLossPct > 100.0
    ensures LooseAlone(p, q, account, day)
  {
    hide Reachable, Ready, LooseAlone, CompiledPack.DailyFloor, CompiledPack.OverallFloor;
    var x := ReadyAtStart(p, q, account, day);
    var mark := RMax(p.OverallFloor(p.startBalance), 0.0);
    var keep := Keep(q.dailyLossPct);
    var start := Under(RMin(p.DailyFloor(x.start), x.start), (mark + 1.0) / keep);
    Stretch(start, keep, mark);
    NegativeDay(p, q, account, day, x, start);
  }

  /** An overall percentage over 100: the account may sink to a floor under zero, in one drop unseen. */
  lemma SunkToFloor(p: CompiledPack, q: CompiledPack, account: string, day: string)
    requires SamePlan(p, q) && p.dailyBreachIntraday && p.dailyBasisEquity
    requires p.dailyLossPct < q.dailyLossPct <= 100.0 && p.overallLossPct > 100.0
    ensures LooseAlone(p, q, account, day)
  {
    hide Reachable, Ready, LooseAlone, CompiledPack.DailyFloor, CompiledPack.OverallFloor;
    var x := ReadyAtStart(p, q, account, day);
    var start := p.OverallFloor(x.start);
    FloorsAre(p, x.start);
    ShareOrder(x.start, Keep(p.overallLossPct), 0.0);
    ShareOrder(x.start, 0.0, Keep(p.dailyLossPct));
    ShareOrder(start, Keep(q.dailyLossPct), 1.0);
    NegativeDay(p, q, account, day, x, start);
  }

  /** A tighter daily percentage under a looser one, for packs on equity. */
  lemma TighterDailyDiverges(p: CompiledPack, q: CompiledPack, account: string, day: string)
    requires SamePlan(p, q) && p.dailyBreachIntraday && p.dailyBasisEquity && p.dailyLossPct < q.dailyLossPct
    requires q.dailyLossPct > 100.0 || p.overallLossPct > 100.0 || q.overallLossPct < 100.0
    ensures LooseAlone(p, q, account, day)
  {
    hide Reachable, Ready, LooseAlone, CompiledPack.DailyFloor, CompiledPack.OverallFloor;
    if q.dailyLossPct > 100.0 {
      DeepNegative(p, q, account, day);
    } else if p.overallLossPct > 100.0 {
      SunkToFloor(p, q, account, day);
    } else {
      var x := ReadyAtStart(p, q, account, day);
      FloorsAre(q, x.start);
      MulPositive(x.start, Keep(q.overallLossPct));
      MulPositive(1.0 - Keep(q.dailyLossPct), q.OverallFloor(x.start));
      var loss := (1.0 - Keep(q.dailyLossPct)) * q.OverallFloor(x.start);
      ShrinkingDays(p, q, account, day, x, loss, EnoughDays(x.start, loss));
    }
  }

  /** A tighter daily percentage over a looser one, for packs on equity. */
  lemma LooserDailyDiverges(p: CompiledPack, q: CompiledPack, account: string, day: string)
    requires SamePlan(p, q) && p.dailyBreachIntraday && p.dailyBasisEquity && p.dailyLossPct > q.dailyLossPct
    requires q.dailyLossPct < 100.0 || p.overallLossPct > 100.0 || q.overallLossPct < 100.0
    ensures LooseAlone(p, q, account, day)
  {
    hide Reachable, Ready, LooseAlone;
    if q.dailyLossPct < 100.0 {
      DeepDrop(p, q, account, day);
    } else if q.overallLossPct < 100.0 {
      BarelyNegative(p, q, account, day);
    } else {
      BarelyPositive(p, q, account, day);
    }
  }

  lemma DeepDrop(p: CompiledPack, q: CompiledPack, account: string, day: string)
    requires SamePlan(p, q) && p.dailyBreachIntraday && p.dailyBasisEquity
    requires p.dailyLossPct > q.dailyLossPct && q.dailyLossPct < 100.0
    ensures LooseAlone(p, q, account, day)
  {
    hide Reachable, Ready, LooseAlone;
    var x := ReadyAtStart(p, q, account, day);
    var b, keep := p.startBalance, Keep(q.dailyLossPct);
    var mark := -RMin(q.OverallFloor(b), 0.0);
    var start := Under(p.DailyFloor(b), (mark + 1.0) / -keep);
    Stretch(start, -keep, mark);
    var y := DropUnseen(p, q, account, day, x, start);
    FloorsAre(p, start);
    FloorsAre(q, start);
    ShareOrder(start, Keep(p.dailyLossPct), keep);
    TightCutShort(p, q, account, day, y, start * keep, start * keep);
  }

  /** Two days opening negative, the second barely so: its daily floors lie just above zero. */
  lemma BarelyNegative(p: CompiledPack, q: CompiledPack, account: string, day: string)
    requires SamePlan(p, q) && p.dailyBreachIntraday && p.dailyBasisEquity
    requires p.dailyLossPct > q.dailyLossPct >= 100.0 && q.overallLossPct < 100.0
    ensures LooseAlone(p, q, account, day)
  {
    hide Reachable, Ready, LooseAlone;
    var x := ReadyAtStart(p, q, account, day);
    var b, keep := p.startBalance, Keep(q.dailyLossPct);
    FloorsAre(p, b);
    FloorsAre(q, b);
    var floor := q.OverallFloor(b);
    MulPositive(b, Keep(q.overallLossPct));
    ShareOrder(b, Keep(p.dailyLossPct), 0.0);
    var first := p.DailyFloor(b) - 1.0;
    var y := DropUnseen(p, q, account, day, x, first);
    FloorsAre(p, first);
    ShareOrder(first, Keep(p.dailyLossPct), 0.0);
    var start := -floor / (1.0 - keep);
    SmallShare(floor, keep);
    var z := DropUnseen(p, q, account, day, y, start);
    FloorsAre(p, start);
    FloorsAre(q, start);
    ShareOrder(start, Keep(p.dailyLossPct), keep);
    TightCutShort(p, q, account, day, z, start * keep, start * keep);
  }

  lemma SmallShare(floor: real, keep: real)
    requires floor > 0.0 && keep <= 0.0
    ensures var start := -floor / (1.0 - keep); start < 0.0 && start * keep < floor
  {
    var start := -floor / (1.0 - keep);
    assert start * (1.0 - keep) == -floor;
    if start >= 0.0 {
      MulNonNegative(start, 1.0 - keep);
    }
    assert start * keep == start + floor;
  }

  /** A day opening barely positive after one opening negative: its daily floors lie just under zero. */
  lemma BarelyPositive(p: CompiledPack, q: CompiledPack, account: string, day: string)
    requires SamePlan(p, q) && p.dailyBreachIntraday && p.dailyBasisEquity
    requires p.dailyLossPct > q.dailyLossPct >= 100.0 && p.overallLossPct > 100.0
    ensures LooseAlone(p, q, account, day)
  {
    hide Reachable, Ready, LooseAlone, CompiledPack.DailyFloor, CompiledPack.OverallFloor;
    var x := ReadyAtStart(p, q, account, day);
    var first := Under(p.DailyFloor(x.start), 0.0);
    var y := DropUnseen(p, q, account, day, x, first);
    var keep := Keep(p.dailyLossPct);
    FloorsAre(p, first);
    ShareOrder(first, keep, 0.0);
    ShareOrder(x.start, Keep(p.overallLossPct), 0.0);
    var edge := p.OverallFloor(x.start) / keep;
    var start := RMin(RMin(p.DailyFloor(first), x.start), edge) / 2.0;
    FloorsAre(p, x.start);
    PositiveEdge(p.OverallFloor(x.start), keep, start, edge);
    var z := DropUnseen(p, q, account, day, y, start);
    OnPositiveDay(p, q, account, day, z);
  }

  lemma OnPositiveDay(p: CompiledPack, q: CompiledPack, account: string, day: string, x: Scene)
    requires Ready(p, q, account, day, x) && p.dailyBasisEquity && p.dailyLossPct > q.dailyLossPct
    requires x.start > 0.0 && x.start * Keep(p.dailyLossPct) >= p.OverallFloor(p.startBalance)
    ensures LooseAlone(p, q, account, day)
  {
    hide Reachable, Ready, LooseAlone, CompiledPack.DailyFloor, CompiledPack.OverallFloor;
    FloorsAre(p, x.start);
    FloorOrder(q, p, x.start);
    LooseCutFirst(p, q, account, day, x, p.DailyFloor(x.start), p.DailyFloor(x.start));
  }

  lemma PositiveEdge(floor: real, keep: real, start: real, edge: real)
    requires floor < 0.0 && keep < 0.0 && edge == floor / keep && start <= edge / 2.0
    ensures edge > 0.0 && start * keep >= floor
  {
    assert edge * keep == floor;
    if edge <= 0.0 {
      MulNonNegative(-edge, -keep);
    }
    MulNonNegative(edge - start, -keep);
  }

  // ----- when the joint claim holds all the same -------------------------------------------------

  /**
   * Packs on equity whose overall floors lie on either side of zero, with the looser daily percentage between
   * the tighter pack's and 100: where the daily floors differ, what lies between them is on the harmless side.
   */
  predicate HarmlessGap(p: CompiledPack, q: CompiledPack) {
    && p.dailyBasisEquity && p.overallLossPct <= 100.0 <= q.overallLossPct
    && (p.dailyLossPct <= q.dailyLossPct <= 100.0 || 100.0 <= q.dailyLossPct <= p.dailyLossPct)
  }

  lemma FloorsAtZero(p: CompiledPack, q: CompiledPack, start: real, hwm: real)
    requires HarmlessGap(p, q) && p.startBalance == q.startBalance > 0.0 && hwm > 0.0
    ensures p.OverallFloor(hwm) >= 0.0 >= q.OverallFloor(hwm)
    ensures p.DailyFloor(start) < q.DailyFloor(start) ==> q.DailyFloor(start) <= 0.0
    ensures q.DailyFloor(start) < p.DailyFloor(start) ==> q.DailyFloor(start) >= 0.0
  {
    SignOfShare(if p.overallMode.Static? then p.startBalance else hwm, p.overallLossPct);
    SignOfShare(if q.overallMode.Static? then q.startBalance else hwm, q.overallLossPct);
    SignOfShare(start, q.dailyLossPct);
    if p.dailyLossPct < q.dailyLossPct {
      FloorOrder(p, q, start);
    } else if q.dailyLossPct < p.dailyLossPct {
      FloorOrder(q, p, start);
    }
    hide CompiledPack.DailyFloor;
    if start == 0.0 {
      FloorsAre(p, start);
      FloorsAre(q, start);
    }
  }

  lemma SignOfShare(base: real, pct: real)
    ensures (base >= 0.0 && pct <= 100.0) || (base <= 0.0 && pct >= 100.0) ==> base * (1.0 - pct / 100.0) >= 0.0
    ensures (base >= 0.0 && pct >= 100.0) || (base <= 0.0 && pct <= 100.0) ==> base * (1.0 - pct / 100.0) <= 0.0
  {
    var share := 1.0 - pct / 100.0;
    if (base >= 0.0 && pct <= 100.0) || (base <= 0.0 && pct >= 100.0) {
      MulNonNegative(RMax(base, -base), RMax(share, -share));
    }
    if (base >= 0.0 && pct >= 100.0) || (base <= 0.0 && pct <= 100.0) {
      MulNonNegative(RMax(base, -base), RMax(share, -share));
    }
  }

  /** Until the tighter pack is breached overall, every daily breach of the looser pack is one of its own. */
  predicate KeptUp(tight: Found, loose: Found) {
    tight.overall || (!loose.overall && (loose.daily ==> tight.daily))
  }

  lemma GapSample(p: CompiledPack, q: CompiledPack, f: Found, g: Found, start: real, hwm: real, balance: real,
                  equity: real)
    requires SameDailyRule(p, q) && HarmlessGap(p, q) && p.startBalance == q.startBalance > 0.0 && hwm > 0.0
    requires p.dailyBreachIntraday && KeptUp(f, g)
    ensures KeptUp(Find(p, f, start, hwm, balance, equity), Find(q, g, start, hwm, balance, equity))
  {
    hide CompiledPack.DailyFloor, CompiledPack.OverallFloor;
    FloorsAtZero(p, q, start, hwm);
  }

  lemma NewsFindsNothing(p: CompiledPack, f: Flags, ms: seq<Moment>, m: Moment)
    requires !m.Sample? && !m.DayEnd?
    ensures JudgeAll(p, f, ms + [m]).flags == JudgeAll(p, f, ms).flags
  {
    JudgeSnoc(p, f, ms, m);
  }

  lemma {:induction false} GapKeepsUp(p: CompiledPack, q: CompiledPack, fp: Flags, fq: Flags, d: DayStart, hwm: real,
                                      ms: seq<Moment>)
    requires SameDailyRule(p, q) && HarmlessGap(p, q) && p.startBalance == q.startBalance > 0.0 && hwm > 0.0
    requires p.dailyBreachIntraday && Chained(d, hwm, ms) && KeptUp(FoundBy(fp), FoundBy(fq))
    ensures KeptUp(FoundBy(JudgeAll(p, fp, ms).flags), FoundBy(JudgeAll(q, fq, ms).flags))
  {
    hide JudgeAll, Find, HarmlessGap;
    if ms == [] {
      NothingJudged(p, fp);
      NothingJudged(q, fq);
    } else {
      var init, m := ms[..|ms| - 1], ms[|ms| - 1];
      assert ms == init + [m];
      GapKeepsUp(p, q, fp, fq, d, hwm, init);
      var f, g := FoundBy(JudgeAll(p, fp, init).flags), FoundBy(JudgeAll(q, fq, init).flags);
      if m.Sample? {
        SampleFinds(p, fp, init, m);
        SampleFinds(q, fq, init, m);
        GapSample(p, q, f, g, m.o.startEquity, m.o.hwm, m.o.balance, m.o.equity);
      } else if m.DayEnd? {
        DayEndFinds(p, fp, init, m);
        DayEndFinds(q, fq, init, m);
      } else {
        NewsFindsNothing(p, fp, init, m);
        NewsFindsNothing(q, fq, init, m);
      }
    }
  }

  lemma HarmlessGapHolds(p: CompiledPack, q: CompiledPack, account: string, day: string, evs: seq<Event>)
    requires SamePlan(p, q) && p.dailyBreachIntraday && HarmlessGap(p, q)
    ensures Run(q, FreshAccount(account, q, day), evs).account.flags.overallBreached ==>
            Run(p, FreshAccount(account, p, day), evs).account.flags.overallBreached
  {
    hide Run, JudgeAll, CoreRun;
    var a, b := FreshAccount(account, p, day), FreshAccount(account, q, day);
    RunIsLedgerThenJudge(p, a, evs);
    RunIsLedgerThenJudge(q, b, evs);
    RunIsChained(p.Cfg(), a.core, evs);
    GapKeepsUp(p, q, a.flags, b.flags, DayStart(a.core.day.startEquity, a.core.day.date), a.core.hwm,
               CoreRun(p.Cfg(), a.core, evs).moments);
  }

  // ----- the exact condition ---------------------------------------------------------------------

  /** After every stream the tighter pack is breached overall whenever the looser one is. */
  ghost predicate JointClaim(p: CompiledPack, q: CompiledPack) {
    forall account, day, evs ::
      Run(q, FreshAccount(account, q, day), evs).account.flags.overallBreached ==>
      Run(p, FreshAccount(account, p, day), evs).account.flags.overallBreached
  }

  lemma LooseAloneRefutes(p: CompiledPack, q: CompiledPack, account: string, day: string)
    requires SamePlan(p, q) && LooseAlone(p, q, account, day)
    ensures !JointClaim(p, q)
  {
    hide Run, JudgeAll, CoreRun, Steerable;
    var x :| Reachable(p, q, account, day, x) && x.loose.overall && !x.tight.overall;
    var a, b := FreshAccount(account, p, day), FreshAccount(account, q, day);
    var evs, size: nat :| Shows(p, q, CoreRun(p.Cfg(), a.core, evs), size, x);
    RunIsLedgerThenJudge(p, a, evs);
    RunIsLedgerThenJudge(q, b, evs);
  }

  /**
   * For two packs of one plan, the second with the looser overall limit and any daily limits: the joint claim
   * holds for all streams exactly when samples are cut short alike or the gap between the daily floors is harmless.
   */
  lemma JointClaimIff(p: CompiledPack, q: CompiledPack)
    requires SamePlan(p, q) && p.overallLossPct <= q.overallLossPct
    ensures JointClaim(p, q) <==> SameCuts(p, q) || HarmlessGap(p, q)
  {
    hide Run, LooseAlone, HarmlessGap, SamePlan;
    if SameCuts(p, q) || HarmlessGap(p, q) {
      forall account, day, evs
        ensures Run(q, FreshAccount(account, q, day), evs).account.flags.overallBreached ==>
                Run(p, FreshAccount(account, p, day), evs).account.flags.overallBreached
      {
        ClaimHolds(p, q, account, day, evs);
      }
    } else {
      ClaimFails(p, q, "", "");
      LooseAloneRefutes(p, q, "", "");
    }
  }

  lemma ClaimHolds(p: CompiledPack, q: CompiledPack, account: string, day: string, evs: seq<Event>)
    requires SamePlan(p, q) && p.overallLossPct <= q.overallLossPct && (SameCuts(p, q) || HarmlessGap(p, q))
    ensures Run(q, FreshAccount(account, q, day), evs).account.flags.overallBreached ==>
            Run(p, FreshAccount(account, p, day), evs).account.flags.overallBreached
  {
    hide Run;
    if SameCuts(p, q) {
      TighterOverallBreachesFirst(p, q, account, day, evs);
    } else {
      HarmlessGapHolds(p, q, account, day, evs);
    }
  }

  /** Whatever the account and its first day, some stream lets the looser pack breach alone. */
  lemma ClaimFails(p: CompiledPack, q: CompiledPack, account: string, day: string)
    requires SamePlan(p, q) && p.overallLossPct <= q.overallLossPct && !SameCuts(p, q) && !HarmlessGap(p, q)
    ensures LooseAlone(p, q, account, day)
  {
    hide LooseAlone, CompiledPack.Cfg;
    if !p.dailyBasisEquity {
      BalanceBasisDiverges(p, q, account, day);
    } else if p.dailyLossPct < q.dailyLossPct {
      TighterDailyDiverges(p, q, account, day);
    } else {
      LooserDailyDiverges(p, q, account, day);
    }
  }

  /** For percentages under 100 it holds exactly when samples are cut short alike: the daily limits must agree. */
  lemma JointClaimIffSameCuts(p: CompiledPack, q: CompiledPack)
    requires SamePlan(p, q) && p.overallLossPct <= q.overallLossPct < 100.0
    ensures JointClaim(p, q) <==> SameCuts(p, q)
  {
    JointClaimIff(p, q);
  }
}
