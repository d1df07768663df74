/**
 * The evaluator itself (eval.rs): an account whose fields `Apply` updates in place, rule checks
 * interleaved with ledger movements. Every method is proved against `Ledger` and `Judge`.
 */
module Eval {
  import opened Options
  import opened Events
  import opened Pack
  import opened State
  import opened Verdicts
  import opened Ledger
  import opened Judge

  /** The outcome the reference prescribes for a ledger result judged from the given flags. */
  ghost function Outcome(p: CompiledPack, f: Flags, r: CoreResult): Stepped {
    var j := JudgeAll(p, f, r.moments);
    Stepped(Account(r.core, j.flags), ApplyResult(j.verdicts, r.alerts, r.changed))
  }

  /** Buffered closes play no part in applying a close. */
  lemma CloseIgnoresBuffer(cfg: Settings, c: Core, buffer: seq<CloseEvent>, ev: CloseEvent)
    ensures CloseCore(cfg, c.(deferred := buffer), ev) ==
            var r := CloseCore(cfg, c, ev);
            r.(core := r.core.(deferred := buffer))
  {
  }

  lemma CloseKeepsBuffer(cfg: Settings, c: Core, ev: CloseEvent)
    ensures CloseCore(cfg, c, ev).core.deferred == c.deferred
  {
  }

  lemma OutcomeIgnoresBuffer(p: CompiledPack, f: Flags, c: Core, buffer: seq<CloseEvent>, ev: CloseEvent)
    ensures Outcome(p, f, CloseCore(p.Cfg(), c.(deferred := buffer), ev)) ==
            var o := Outcome(p, f, CloseCore(p.Cfg(), c, ev));
            o.(next := o.next.(core := o.next.core.(deferred := buffer)))
  {
    hide CloseCore;
    CloseIgnoresBuffer(p.Cfg(), c, buffer, ev);
  }

  lemma {:induction false} DrainIgnoresBuffer(cfg: Settings, c: Core, left: seq<CloseEvent>, buffer: seq<CloseEvent>,
                                              k: nat, order: string)
    requires k <= |buffer|
    ensures DrainCore(cfg, c.(deferred := left), buffer, k, order) ==
            var r := DrainCore(cfg, c, buffer, k, order);
            r.(core := r.core.(deferred := left))
  {
    if k > 0 {
      DrainIgnoresBuffer(cfg, c, left, buffer, k - 1, order);
    }
  }

  lemma JudgeNothing(p: CompiledPack, f: Flags)
    ensures JudgeAll(p, f, []) == Judged(f, [])
  {
  }

  lemma JudgeSingle(p: CompiledPack, f: Flags, m: Moment)
    ensures JudgeAll(p, f, [m]) == JudgeOne(p, f, m)
  {
    hide JudgeOne;
    assert [m][..0] == [];
    assert JudgeAll(p, f, []) == Judged(f, []);
    var last := JudgeOne(p, f, m);
    assert [] + last.verdicts == last.verdicts;
  }

  /** The outcome of applying the order's closes among the first `k` of the buffer. */
  ghost function Drained(p: CompiledPack, c: Core, f: Flags, buffer: seq<CloseEvent>, k: nat, order: string): Stepped
    requires k <= |buffer|
  {
    Outcome(p, f, DrainCore(p.Cfg(), c, buffer, k, order))
  }

  lemma DrainedNext(p: CompiledPack, c: Core, f: Flags, buffer: seq<CloseEvent>, k: nat, order: string)
    requires k < |buffer|
    ensures var prev := Drained(p, c, f, buffer, k, order);
            var step := Outcome(p, prev.next.flags, CloseCore(p.Cfg(), prev.next.core, buffer[k]));
            Drained(p, c, f, buffer, k + 1, order) ==
            if buffer[k].orderId != order then prev else Stepped(step.next, prev.out.Then(step.out))
  {
    hide CloseCore, JudgeOne, JudgeAll;
    var init := DrainCore(p.Cfg(), c, buffer, k, order);
    JudgeAppend(p, f, init.moments, CloseCore(p.Cfg(), init.core, buffer[k]).moments);
  }

  function RemoveAt(buffer: seq<CloseEvent>, i: nat): seq<CloseEvent>
    requires i < |buffer|
  {
    buffer[..i] + buffer[i + 1..]
  }

  /** The buffer once its first `k` closes were looked at and those of the order taken out. */
  function Left(all: seq<CloseEvent>, k: nat, order: string): seq<CloseEvent>
    requires k <= |all|
  {
    OthersOf(all, k, order) + all[k..]
  }

  lemma LeftNext(all: seq<CloseEvent>, k: nat, order: string)
    requires k < |all|
    ensures var i, left := |OthersOf(all, k, order)|, Left(all, k, order);
            var taken := all[k].orderId == order;
            && i < |left| && left[i] == all[k]
            && Left(all, k + 1, order) == (if taken then RemoveAt(left, i) else left)
            && |OthersOf(all, k + 1, order)| == (if taken then i else i + 1)
            && |Left(all, k + 1, order)| == |OthersOf(all, k + 1, order)| + |all| - k - 1
  {
  }

  lemma NothingDrained(p: CompiledPack, c: Core, f: Flags, buffer: seq<CloseEvent>, order: string)
    ensures Drained(p, c, f, buffer, 0, order) == Stepped(Account(c, f), NoChange)
    ensures OthersOf(buffer, 0, order) == [] && Left(buffer, 0, order) == buffer
  {
  }

  /** The drain done, the buffer holds what the reference takes it to hold from the start. */
  lemma AllDrained(p: CompiledPack, c: Core, f: Flags, buffer: seq<CloseEvent>, order: string, now: Account,
                   out: ApplyResult)
    requires Drained(p, c, f, buffer, |buffer|, order) == Stepped(now.(core := now.core.(deferred := c.deferred)), out)
    requires now.core.deferred == Left(buffer, |buffer|, order)
    ensures now.core.deferred == OthersOf(buffer, |buffer|, order)
    ensures Stepped(now, out) ==
            var left := OthersOf(buffer, |buffer|, order);
            Outcome(p, f, DrainCore(p.Cfg(), c.(deferred := left), buffer, |buffer|, order))
  {
    hide JudgeAll, DrainCore;
    DrainIgnoresBuffer(p.Cfg(), c, OthersOf(buffer, |buffer|, order), buffer, |buffer|, order);
  }

  /** What the reference prescribes for a rollover. */
  lemma RolloverOutcome(p: CompiledPack, c: Core, f: Flags, ev: Event)
    requires ev.Rollover?
    ensures var r, o := RolloverCore(p.Cfg(), c, ev), Observe(c);
            Outcome(p, f, Transition(p.Cfg(), c, ev)) ==
            Stepped(Account(r.core, f.(worstEquity := o.equity, dailyBreached := false)),
                    ApplyResult(EodVerdicts(p, f, o, ev) + [RolloverVerdict(f.packVersion, o, ev, r.core.dayCounter)],
                                [], true))
  {
    hide EquityOf, JudgeAll, EodVerdicts, RolloverVerdict, Observe;
    JudgeSingle(p, f, RolloverCore(p.Cfg(), c, ev).moments[0]);
  }

  /** What the reference prescribes for a sample: cut short by the daily rule, or judged by the other two. */
  lemma SampleIs(p: CompiledPack, f: Flags, o: Obs, ev: Event)
    ensures var worst := if p.dailyBreachIntraday then f.worstEquity else RMin(f.worstEquity, o.equity);
            var j := JudgeSample(p, f, o, ev);
            if DailyFires(p, f, o)
            then j == Judged(f.(worstEquity := worst, dailyBreached := true), [DailyVerdict(p, f, o, ev)])
            else j.flags == f.(worstEquity := worst,
                               overallBreached := f.overallBreached || OverallFires(p, f, o),
                               targetReached := f.targetReached || TargetFires(p, f, o)) &&
                 j.verdicts == OverallVerdicts(p, f, o, ev) + TargetVerdicts(p, f, o, ev)
  {
    hide DailyVerdict, OverallVerdicts, TargetVerdicts, OverallFires, TargetFires, DailyFires;
  }

  class AccountState {
    const account: string
    const packVersion: string
    const startBalance: real
    var balance: real
    var hwm: real
    var day: DayState
    var dayCounter: nat
    var positions: map<string, Position>
    var lastPx: map<string, real>
    var overallBreached: bool
    var targetReached: bool
    var newsWindows: seq<NewsWindowRec>
    var deferredCloses: seq<CloseEvent>
    var seenDedupKeys: set<string>
    var seqApplied: nat
    var lastBrokerTs: Option<int>

    ghost function BookNow(): Book
      reads this
    {
      Book(balance, positions, lastPx)
    }

    ghost function CoreNow(): Core
      reads this
    {
      Core(account, startBalance, BookNow(), hwm, CoreDay(day.date, day.startEquity, day.traded), dayCounter,
           newsWindows, deferredCloses, seenDedupKeys, seqApplied, lastBrokerTs)
    }

    ghost function FlagsNow(): Flags
      reads this
    {
      Flags(packVersion, day.worstEquity, day.dailyBreached, overallBreached, targetReached)
    }

    ghost function Now(): Account
      reads this
    {
      Account(CoreNow(), FlagsNow())
    }

    constructor (account: string, pack: CompiledPack, initialDay: string)
      ensures Now() == FreshAccount(account, pack, initialDay)
    {
      this.account, packVersion, startBalance := account, pack.packId, pack.startBalance;
      balance, hwm := pack.startBalance, pack.startBalance;
      day := DayState(initialDay, pack.startBalance, pack.startBalance, false, false);
      dayCounter, positions, lastPx := 0, map[], map[];
      overallBreached, targetReached := false, false;
      newsWindows, deferredCloses, seenDedupKeys, seqApplied, lastBrokerTs := [], [], {}, 0, None;
    }

    /** Mark-to-market over the positions in whatever order the map yields them. */
    method Equity() returns (eq: real)
      ensures eq == EquityOf(BookNow())
    {
      eq := balance;
      var rest := positions.Keys;
      while rest != {}
        invariant rest <= positions.Keys
        invariant eq + UnrealizedSum(rest, positions, lastPx) == EquityOf(BookNow())
        decreases rest
      {
        var order :| order in rest;
        UnrealizedSumPick(rest, order, positions, lastPx);
        var pos := positions[order];
        var mark := if pos.symbol in lastPx then lastPx[pos.symbol] else pos.entryPx;
        eq := eq + Pnl(pos.side, pos.entryPx, mark, pos.volume);
        rest := rest - {order};
      }
    }

    method NewVerdict(ev: Event, rule: RuleId, status: VerdictStatus, inputs: RuleInputs) returns (v: Verdict)
      ensures v == MakeVerdict(packVersion, Observe(CoreNow()), ev, rule, status, inputs)
    {
      var eq := Equity();
      var filled := inputs;
      if filled.equity.None? { filled := filled.(equity := Some(eq)); }
      if filled.startBalance.None? { filled := filled.(startBalance := Some(startBalance)); }
      if filled.dayPnl.None? { filled := filled.(dayPnl := Some(eq - day.startEquity)); }
      v := Verdict(ev.eventId, account, rule, status, day.date, ev.brokerTs, packVersion, filled);
    }

    /** Rule evaluation at the current state. */
    method CheckRules(pack: CompiledPack, ev: Event) returns (verdicts: seq<Verdict>)
      modifies `day, `overallBreached, `targetReached
      ensures CoreNow() == old(CoreNow())
      ensures Judged(FlagsNow(), verdicts) == JudgeSample(pack, old(FlagsNow()), Observe(old(CoreNow())), ev)
    {
      hide EquityOf, DailyVerdict, OverallVerdicts, TargetVerdicts, OverallFires, TargetFires, JudgeSample;
      hide CompiledPack.DailyFloor;
      var eq := Equity();
      ghost var o, f := Observe(CoreNow()), FlagsNow();
      SampleIs(pack, f, o, ev);
      if !pack.dailyBreachIntraday {
        day := day.(worstEquity := RMin(day.worstEquity, eq));
      }
      if pack.dailyBreachIntraday && !day.dailyBreached {
        var floor := pack.DailyFloor(day.startEquity);
        var basis := if pack.dailyBasisEquity then eq else balance;
        if basis < floor {
          var v := BreachDaily(pack, ev, f, floor);
          verdicts := [v];
          return;
        }
      }
      var overall := CheckOverall(pack, ev, eq, f);
      var target := CheckTarget(pack, ev, eq, f);
      verdicts := overall + target;
    }

    /** The day is marked breached before its verdict is made. */
    method BreachDaily(pack: CompiledPack, ev: Event, ghost f: Flags, floor: real) returns (v: Verdict)
      requires floor == pack.DailyFloor(day.startEquity) && f.packVersion == packVersion
      modifies `day
      ensures day == old(day).(dailyBreached := true)
      ensures v == DailyVerdict(pack, f, old(Observe(CoreNow())), ev)
    {
      day := day.(dailyBreached := true);
      v := NewVerdict(ev, DailyMaxLoss, Breach,
                      NoInputs.(threshold := Some(floor), startEquity := Some(day.startEquity)));
    }

    /** Max overall loss, against the start balance or the high-water mark. */
    method CheckOverall(pack: CompiledPack, ev: Event, eq: real, ghost f: Flags) returns (verdicts: seq<Verdict>)
      requires eq == EquityOf(BookNow())
      requires f.packVersion == packVersion && f.overallBreached == overallBreached
      modifies `overallBreached
      ensures overallBreached == (f.overallBreached || OverallFires(pack, f, Observe(old(CoreNow()))))
      ensures verdicts == OverallVerdicts(pack, f, Observe(old(CoreNow())), ev)
    {
      verdicts := [];
      if !overallBreached {
        var floor := pack.OverallFloor(hwm);
        if eq < floor {
          overallBreached := true;
          var v := NewVerdict(ev, MaxOverallLoss, Breach,
                              NoInputs.(threshold := Some(floor), hwm := Some(hwm),
                                        startEquity := Some(day.startEquity), startBalance := Some(startBalance)));
          verdicts := [v];
        }
      }
    }

    /** Profit target, once enough trading days are complete. */
    method CheckTarget(pack: CompiledPack, ev: Event, eq: real, ghost f: Flags) returns (verdicts: seq<Verdict>)
      requires eq == EquityOf(BookNow())
      requires f.packVersion == packVersion && f.targetReached == targetReached
      modifies `targetReached
      ensures targetReached == (f.targetReached || TargetFires(pack, f, Observe(old(CoreNow()))))
      ensures verdicts == TargetVerdicts(pack, f, Observe(old(CoreNow())), ev)
    {
      verdicts := [];
      if !targetReached && dayCounter >= pack.minTradingDays {
        var level := pack.TargetLevel();
        if eq >= level {
          targetReached := true;
          var v := NewVerdict(ev, ProfitTarget, TargetReached,
                              NoInputs.(threshold := Some(level), dayCounter := Some(dayCounter)));
          verdicts := [v];
        }
      }
    }

    /** A close against an open position; without one, or without a readable exit price, nothing is moved. */
    method ApplyClose(pack: CompiledPack, ev: CloseEvent) returns (out: ApplyResult)
      modifies this
      ensures Stepped(Now(), out) == Outcome(pack, old(FlagsNow()), CloseCore(pack.Cfg(), old(CoreNow()), ev))
    {
      hide EquityOf, Pnl, JudgeOne, JudgeAll;
      out := NoChange;
      JudgeNothing(pack, FlagsNow());
      ghost var f := FlagsNow();
      if ev.exitPx.None? {
        out := out.(alerts := [IntegrityAlert(ev.eventId, Some(ev.orderId), Malformed)]);
        return;
      }
      if ev.orderId !in positions {
        return;
      }
      var exit, pos := ev.exitPx.value, positions[ev.orderId];
      var recomputed := Pnl(pos.side, pos.entryPx, exit, pos.volume);
      if ev.pnlReported.Some? && Abs(ev.pnlReported.value - recomputed) > pack.pnlTolerance {
        out := out.(alerts := [IntegrityAlert(ev.eventId, Some(ev.orderId), PnlMismatch)]);
      }
      PostClose(pack, ev, recomputed, exit);
      var verdicts := Sampled(pack, ev, f, [], []);
      assert [] + [Sample(Observe(CoreNow()), ev)] == [Sample(Observe(CoreNow()), ev)];
      out := ApplyResult(verdicts, out.alerts, true);
    }

    method PostClose(pack: CompiledPack, ev: CloseEvent, recomputed: real, exit: real)
      modifies this
      ensures FlagsNow() == old(FlagsNow())
      ensures var c := old(CoreNow());
              var book := Book(c.book.balance + (recomputed + ev.commission.GetOr(0.0) + ev.swap.GetOr(0.0)),
                               c.book.positions - {ev.orderId}, c.book.lastPx[ev.symbol := exit]);
              CoreNow() == c.(book := book, day := c.day.(traded := true),
                              hwm := Raise(pack.overallMode, c.hwm, EquityOf(book)))
    {
      hide EquityOf;
      balance := balance + (recomputed + ev.commission.GetOr(0.0) + ev.swap.GetOr(0.0));
      positions := positions - {ev.orderId};
      lastPx := lastPx[ev.symbol := exit];
      day := day.(traded := true);
      TrailHwm(pack);
    }

    method TrailHwm(pack: CompiledPack)
      modifies `hwm
      ensures hwm == Raise(pack.overallMode, old(hwm), EquityOf(BookNow()))
    {
      if pack.overallMode.Trailing? {
        var eq := Equity();
        hwm := RMax(hwm, eq);
      }
    }

    /** The close at buffer index `i` is taken out and applied. */
    method ApplyBuffered(pack: CompiledPack, i: nat) returns (out: ApplyResult)
      requires i < |deferredCloses|
      modifies this
      ensures deferredCloses == old(RemoveAt(deferredCloses, i))
      ensures var o := Outcome(pack, old(FlagsNow()), CloseCore(pack.Cfg(), old(CoreNow()), old(deferredCloses[i])));
              && out == o.out && FlagsNow() == o.next.flags
              && CoreNow().(deferred := old(deferredCloses)) == o.next.core
    {
      hide EquityOf, JudgeOne, JudgeAll, CloseCore;
      var ev := deferredCloses[i];
      ghost var c := CoreNow();
      deferredCloses := deferredCloses[..i] + deferredCloses[i + 1..];
      CloseIgnoresBuffer(pack.Cfg(), c, deferredCloses, ev);
      CloseKeepsBuffer(pack.Cfg(), c, ev);
      out := ApplyClose(pack, ev);
    }

    /** Closes buffered for the order are taken out one by one and applied; the rest stays, in order. */
    method DrainCloses(pack: CompiledPack, orderId: string) returns (out: ApplyResult)
      modifies this
      ensures var c := old(CoreNow());
              var left := OthersOf(c.deferred, |c.deferred|, orderId);
              var r := DrainCore(pack.Cfg(), c.(deferred := left), c.deferred, |c.deferred|, orderId);
              Stepped(Now(), out) == Outcome(pack, old(FlagsNow()), r)
    {
      hide EquityOf, JudgeOne, JudgeAll, CloseCore, DrainCore, OthersOf, Left, RemoveAt, Drained, Outcome,
           ApplyResult.Then;
      out := NoChange;
      ghost var c, f, all, k := CoreNow(), FlagsNow(), deferredCloses, 0;
      NothingDrained(pack, c, f, all, orderId);
      var i := 0;
      while i < |deferredCloses|
        invariant 0 <= k <= |all| && i == |OthersOf(all, k, orderId)| && |deferredCloses| == i + |all| - k
        invariant deferredCloses == Left(all, k, orderId)
        invariant var d := Drained(pack, c, f, all, k, orderId);
                  d == Stepped(Account(CoreNow().(deferred := c.deferred), FlagsNow()), out)
        decreases |all| - k
      {
        LeftNext(all, k, orderId);
        DrainedNext(pack, c, f, all, k, orderId);
        if deferredCloses[i].orderId == orderId {
          OutcomeIgnoresBuffer(pack, FlagsNow(), CoreNow(), c.deferred, all[k]);
          var more := ApplyBuffered(pack, i);
          out := out.Then(more);
        } else {
          i := i + 1;
        }
        k := k + 1;
      }
      AllDrained(pack, c, f, all, orderId, Now(), out);
    }

    /** A fill inside a recorded in-scope window is flagged, or fails, as the pack says. */
    method CheckNews(pack: CompiledPack, ev: Event) returns (verdicts: seq<Verdict>)
      requires ev.OrderFilled?
      ensures Judged(FlagsNow(), verdicts) == JudgeAll(pack, FlagsNow(), NewsHits(pack.Cfg(), CoreNow(), ev))
    {
      hide EquityOf, MakeVerdict, FindWindow, NewsInputs;
      verdicts := [];
      if pack.news.enabled && pack.news.SymbolInScope(ev.symbol) {
        var hit := FindWindow(pack.news, newsWindows, ev.symbol, ev.brokerTs);
        if hit.Some? {
          JudgeSingle(pack, FlagsNow(), NewsHit(Observe(CoreNow()), ev, ev.symbol, hit.value));
          var v := NewVerdict(ev, NewsRule, if pack.news.prePositionedFlag then Flagged else Breach,
                              NewsInputs(ev.symbol, hit.value));
          verdicts := [v];
        }
      }
    }

    /** Rule checks after a movement: one more sample for the judge. */
    method Sampled(pack: CompiledPack, ev: Event, ghost f: Flags, ghost ms: seq<Moment>, sofar: seq<Verdict>)
      returns (verdicts: seq<Verdict>)
      requires Judged(FlagsNow(), sofar) == JudgeAll(pack, f, ms)
      modifies `day, `overallBreached, `targetReached
      ensures CoreNow() == old(CoreNow())
      ensures Judged(FlagsNow(), verdicts) == JudgeAll(pack, f, ms + [Sample(Observe(CoreNow()), ev)])
    {
      hide EquityOf, JudgeSample;
      JudgeSnoc(pack, f, ms, Sample(Observe(CoreNow()), ev));
      var more := CheckRules(pack, ev);
      verdicts := sofar + more;
    }

    method ApplyFill(pack: CompiledPack, ev: Event) returns (out: ApplyResult, finish: bool)
      requires ev.OrderFilled?
      modifies this
      ensures Stepped(Now(), out) == Outcome(pack, old(FlagsNow()), Transition(pack.Cfg(), old(CoreNow()), ev))
      ensures finish == RunsToTheEnd(pack.Cfg(), old(positions.Keys), ev)
    {
      hide EquityOf, JudgeOne, JudgeAll, DrainCore, FindWindow, OthersOf;
      out, finish := NoChange, false;
      ghost var c, f := CoreNow(), FlagsNow();
      if ev.fillPx.None? {
        JudgeNothing(pack, f);
        out := out.(alerts := [IntegrityAlert(ev.eventId, Some(ev.orderId), Malformed)]);
        return;
      }
      var news := CheckNews(pack, ev);
      ghost var hits := NewsHits(pack.Cfg(), c, ev);
      if ev.orderId in positions {
        out := ApplyResult(news, [IntegrityAlert(ev.eventId, Some(ev.orderId), DuplicateFill)], false);
        return;
      }
      positions := positions[ev.orderId := PositionOf(ev)];
      lastPx := lastPx[ev.symbol := ev.fillPx.value];
      balance := balance + ev.commission.GetOr(0.0);
      ghost var filled := CoreNow().(deferred := OthersOf(c.deferred, |c.deferred|, ev.orderId));
      ghost var drained := DrainCore(pack.Cfg(), filled, c.deferred, |c.deferred|, ev.orderId);
      var closes := DrainCloses(pack, ev.orderId);
      JudgeAppend(pack, f, hits, drained.moments);
      var verdicts := Sampled(pack, ev, f, hits + drained.moments, news + closes.verdicts);
      assert hits + drained.moments + [Sample(Observe(drained.core), ev)] ==
             hits + (drained.moments + [Sample(Observe(drained.core), ev)]);
      out := ApplyResult(verdicts, closes.alerts, true);
      finish := true;
    }

    method ApplyAdjustment(pack: CompiledPack, ev: Event) returns (out: ApplyResult, finish: bool)
      requires ev.BalanceAdjustment?
      modifies this
      ensures Stepped(Now(), out) == Outcome(pack, old(FlagsNow()), Transition(pack.Cfg(), old(CoreNow()), ev))
      ensures finish == RunsToTheEnd(pack.Cfg(), old(positions.Keys), ev)
    {
      hide EquityOf, JudgeOne, JudgeAll;
      out, finish := NoChange, false;
      JudgeNothing(pack, FlagsNow());
      ghost var f := FlagsNow();
      if ev.amount.None? {
        out := out.(alerts := [IntegrityAlert(ev.eventId, None, Malformed)]);
        return;
      }
      balance := balance + ev.amount.value;
      TrailHwm(pack);
      var verdicts := Sampled(pack, ev, f, [], []);
      assert [] + [Sample(Observe(CoreNow()), ev)] == [Sample(Observe(CoreNow()), ev)];
      out := ApplyResult(verdicts, [], true);
      finish := true;
    }

    method ApplyMark(pack: CompiledPack, ev: Event) returns (out: ApplyResult)
      requires ev.Mark?
      modifies this
      ensures Stepped(Now(), out) == Outcome(pack, old(FlagsNow()), Transition(pack.Cfg(), old(CoreNow()), ev))
    {
      hide EquityOf, JudgeOne, JudgeAll;
      out := NoChange;
      JudgeNothing(pack, FlagsNow());
      ghost var f := FlagsNow();
      if ev.px.Some? {
        lastPx := lastPx[ev.symbol := ev.px.value];
        var verdicts := Sampled(pack, ev, f, [], []);
        assert [] + [Sample(Observe(CoreNow()), ev)] == [Sample(Observe(CoreNow()), ev)];
        out := ApplyResult(verdicts, [], true);
      }
    }

    /** Positions opened before the window are flagged one by one, in whatever order the map yields them. */
    method FlagPrePositioned(ev: Event, w: NewsWindowRec) returns (verdicts: seq<Verdict>)
      requires ev.NewsWindow?
      ensures verdicts == Repeat(MakeVerdict(packVersion, Observe(CoreNow()), ev, NewsPrePositioned, Flagged,
                                             NewsInputs(ev.symbol, w)),
                                 |PrePositionedOrders(positions, ev.symbol, ev.windowStart)|)
    {
      hide EquityOf, MakeVerdict, NewsInputs;
      verdicts := [];
      var flagged: set<string> := {};
      var rest := positions.Keys;
      while rest != {}
        invariant rest <= positions.Keys
        invariant flagged == set o <- positions.Keys - rest |
          positions[o].symbol == ev.symbol && positions[o].openedTs < ev.windowStart :: positions[o].orderId
        invariant |verdicts| == |flagged|
        invariant forall v <- verdicts ::
          v == MakeVerdict(packVersion, Observe(CoreNow()), ev, NewsPrePositioned, Flagged, NewsInputs(ev.symbol, w))
        decreases rest
      {
        var o :| o in rest;
        rest := rest - {o};
        var pos := positions[o];
        if pos.symbol == ev.symbol && pos.openedTs < ev.windowStart && pos.orderId !in flagged {
          flagged := flagged + {pos.orderId};
          var v := NewVerdict(ev, NewsPrePositioned, Flagged, NewsInputs(ev.symbol, w));
          verdicts := verdicts + [v];
        }
      }
      assert flagged == PrePositionedOrders(positions, ev.symbol, ev.windowStart);
      RepeatIs(verdicts, MakeVerdict(packVersion, Observe(CoreNow()), ev, NewsPrePositioned, Flagged,
                                     NewsInputs(ev.symbol, w)));
    }

    method ApplyNewsWindow(pack: CompiledPack, ev: Event) returns (out: ApplyResult, finish: bool)
      requires ev.NewsWindow?
      modifies this
      ensures Stepped(Now(), out) == Outcome(pack, old(FlagsNow()), Transition(pack.Cfg(), old(CoreNow()), ev))
      ensures finish == RunsToTheEnd(pack.Cfg(), old(positions.Keys), ev)
    {
      hide EquityOf, MakeVerdict, PrePositionedOrders, JudgeAll, Repeat, NewsInputs;
      out, finish := NoChange, false;
      ghost var o, f := Observe(CoreNow()), FlagsNow();
      JudgeNothing(pack, f);
      var w := NewsWindowRec(ev.symbol, ev.tier, ev.windowStart, ev.windowEnd);
      newsWindows := newsWindows + [w];
      if !pack.news.enabled || !pack.news.SymbolInScope(ev.symbol) {
        return;
      }
      if !pack.news.TierInScope(ev.tier) {
        return;
      }
      var verdicts := FlagPrePositioned(ev, w);
      JudgeSingle(pack, f,
                  PrePositioned(o, ev, ev.symbol, w, |PrePositionedOrders(positions, ev.symbol, ev.windowStart)|));
      out := ApplyResult(verdicts, [], true);
      finish := true;
    }

    method ApplyRollover(pack: CompiledPack, ev: Event) returns (out: ApplyResult)
      requires ev.Rollover?
      modifies this
      ensures Stepped(Now(), out) == Outcome(pack, old(FlagsNow()), Transition(pack.Cfg(), old(CoreNow()), ev))
    {
      hide EquityOf, JudgeAll, EodVerdicts, RolloverVerdict, EodFires, Outcome, Transition;
      ghost var o, f := Observe(CoreNow()), FlagsNow();
      RolloverOutcome(pack, CoreNow(), f, ev);
      var eqNow := Equity();
      var eod := CheckEod(pack, ev);
      if day.traded {
        dayCounter := dayCounter + 1;
      }
      if pack.overallMode.Trailing? {
        hwm := RMax(hwm, eqNow);
      }
      var info := RolloverInfo(ev, o, eqNow);
      day := DayState(ev.date, eqNow, eqNow, false, false);
      out := ApplyResult(eod + [info], [], true);
    }

    /** End-of-day packs judge the day's worst equity at the rollover. */
    method CheckEod(pack: CompiledPack, ev: Event) returns (verdicts: seq<Verdict>)
      modifies `day
      ensures CoreNow() == old(CoreNow())
      ensures verdicts == EodVerdicts(pack, old(FlagsNow()), Observe(CoreNow()), ev)
      ensures var fires := EodFires(pack, old(FlagsNow()), Observe(CoreNow()));
              day == old(day).(dailyBreached := old(day.dailyBreached) || fires)
    {
      hide EquityOf, MakeVerdict, CompiledPack.DailyFloor;
      verdicts := [];
      if !pack.dailyBreachIntraday && !day.dailyBreached {
        var floor := pack.DailyFloor(day.startEquity);
        if day.worstEquity < floor {
          day := day.(dailyBreached := true);
          var v := NewVerdict(ev, DailyMaxLoss, Breach,
                              NoInputs.(equity := Some(day.worstEquity), threshold := Some(floor),
                                        startEquity := Some(day.startEquity)));
          verdicts := [v];
        }
      }
    }

    method RolloverInfo(ev: Event, ghost o: Obs, eqNow: real) returns (v: Verdict)
      requires o.(hwm := hwm, dayCounter := dayCounter) == Observe(CoreNow()) && eqNow == o.equity
      ensures v == RolloverVerdict(packVersion, o, ev, dayCounter)
    {
      v := NewVerdict(ev, DayRollover, Info,
                      NoInputs.(dayCounter := Some(dayCounter), dayPnl := Some(eqNow - day.startEquity),
                                symbol := Some(day.date)));
    }

    /** The transition of an event not seen before; `finish` is false where the source returns early. */
    method Move(pack: CompiledPack, ev: Event) returns (out: ApplyResult, finish: bool)
      modifies this
      ensures Stepped(Now(), out) == Outcome(pack, old(FlagsNow()), Transition(pack.Cfg(), old(CoreNow()), ev))
      ensures finish == RunsToTheEnd(pack.Cfg(), old(positions.Keys), ev)
    {
      hide EquityOf, JudgeOne, JudgeAll, CloseCore, FillCore, RolloverCore, NewsHits, Observe;
      JudgeNothing(pack, FlagsNow());
      out, finish := NoChange, true;
      match ev {
        case Mark(_, _, _, _, _) => out := ApplyMark(pack, ev);
        case OrderFilled(_, _, _, _, _, _, _, _, _, _) => out, finish := ApplyFill(pack, ev);
        case TradeClosed(_, _, _, _, _, _, _, _, _, _, _, _) =>
          if ev.orderId !in positions {
            deferredCloses := deferredCloses + [ev];
            out := ApplyResult([], [IntegrityAlert(ev.eventId, Some(ev.orderId), CloseDeferred)], true);
            finish := false;
          } else {
            out := ApplyClose(pack, ev);
          }
        case BalanceAdjustment(_, _, _, _, _, _) => out, finish := ApplyAdjustment(pack, ev);
        case AccountStateReport(_, _, _, _, _) =>
          if ev.balanceReported.Some? && Abs(ev.balanceReported.value - balance) > pack.pnlTolerance {
            out := out.(alerts := [IntegrityAlert(ev.eventId, None, BalanceDrift)]);
          }
        case NewsWindow(_, _, _, _, _, _, _) => out, finish := ApplyNewsWindow(pack, ev);
        case Rollover(_, _, _, _) => out := ApplyRollover(pack, ev);
      }
    }

    /** Clock and sequence regressions are reported, never fatal. */
    method Watchdogs(ev: Event) returns (alerts: seq<IntegrityAlert>)
      ensures alerts == WatchdogAlerts(CoreNow(), ev)
    {
      alerts := [];
      if lastBrokerTs.Some? && ev.brokerTs < lastBrokerTs.value {
        alerts := [IntegrityAlert(ev.eventId, None, BrokerTsRegression)];
      }
      if ev.seqNo < seqApplied {
        alerts := alerts + [IntegrityAlert(ev.eventId, None, SeqRegression)];
      }
    }

    method Finish(ev: Event)
      modifies `seqApplied, `lastBrokerTs
      ensures CoreNow() == Bookkeep(old(CoreNow()), ev)
    {
      seqApplied := Max(seqApplied, ev.seqNo);
      lastBrokerTs := Some(if lastBrokerTs.Some? then Max(lastBrokerTs.value, ev.brokerTs) else ev.brokerTs);
    }

    /** Apply one event: idempotency, watchdogs, transition with rule checks, bookkeeping. */
    method Apply(pack: CompiledPack, ev: Event) returns (out: ApplyResult)
      modifies this
      ensures Stepped(Now(), out) == Step(pack, old(Now()), ev)
    {
      hide EquityOf, JudgeOne, JudgeAll, Transition, DedupKey, RunsToTheEnd, WatchdogAlerts, Bookkeep;
      JudgeNothing(pack, FlagsNow());
      if DedupKey(ev) in seenDedupKeys {
        return NoChange;
      }
      var alerts := Watchdogs(ev);
      seenDedupKeys := seenDedupKeys + {DedupKey(ev)};
      var finish;
      out, finish := Move(pack, ev);
      if finish {
        Finish(ev);
      }
      out := out.(alerts := alerts + out.alerts);
    }
  }
}
