/**
 * When a looser pack can find a daily breach that a tighter one does not (eval.rs:481-500): the exact condition
 * for daily breaches to nest, day by day and in number, on every stream.
 */
module DailyDivergence {
  import opened Options
  import opened Events
  import opened Pack
  import opened State
  import opened Verdicts
  import opened Ledger
  import opened Judge
  import opened DayLog
  import opened PackMonotonicity
  import opened PackDivergence
  import opened VerdictHistory

  // ----- how many daily breaches a log holds --------------------------------------------------------

  function BreachCount(days: seq<Day>): nat {
    if days == [] then 0 else BreachCount(days[..|days| - 1]) + One(days[|days| - 1].breached)
  }

  /** One DailyMaxLoss verdict per completed day logged as breached, and one if today is breached. */
  lemma {:induction false} TotalCount(p: CompiledPack, f: Flags, ms: seq<Moment>)
    requires !f.dailyBreached
    ensures var j := JudgeAll(p, f, ms);
            && DaysOf(j.verdicts).breachedToday == j.flags.dailyBreached
            && Count(j.verdicts, DailyMaxLoss, None) ==
               BreachCount(DaysOf(j.verdicts).done) + One(j.flags.dailyBreached)
  {
    hide JudgeAll, JudgeOne, DaysOf, CompiledPack.DailyFloor, Count;
    if ms == [] {
      TallyStart(p, f);
      NothingJudged(p, f);
      CountNone([], DailyMaxLoss, None);
    } else {
      var init, m := ms[..|ms| - 1], ms[|ms| - 1];
      assert ms == init + [m];
      TotalCount(p, f, init);
      var j := JudgeAll(p, f, init);
      JudgeSnoc(p, f, init, m);
      ReadSnoc(p, f, init, m);
      MomentCounts(p, j.flags, m, None);
      CountAppend(j.verdicts, JudgeOne(p, j.flags, m).verdicts, DailyMaxLoss, None);
      if m.DayEnd? {
        var done := DaysOf(j.verdicts).done;
        var day := Day(m.o.date, m.o.startEquity, DaysOf(j.verdicts).breachedToday || EodFires(p, j.flags, m.o));
        assert (done + [day])[..|done|] == done;
      }
    }
  }

  lemma {:induction false} NestedCounts(tight: seq<Day>, loose: seq<Day>)
    requires DaysNest(tight, loose)
    ensures BreachCount(loose) <= BreachCount(tight)
  {
    if loose != [] {
      NestedCounts(tight[..|tight| - 1], loose[..|loose| - 1]);
    }
  }

  // ----- the claim ------------------------------------------------------------------------------------

  /** On every stream each day the looser pack finds breached, today included, the tighter one finds breached too. */
  ghost predicate DailyClaim(p: CompiledPack, q: CompiledPack) {
    forall account, day, evs ::
      var rp, rq := Run(p, FreshAccount(account, p, day), evs), Run(q, FreshAccount(account, q, day), evs);
      && DaysNest(DaysOf(rp.verdicts).done, DaysOf(rq.verdicts).done)
      && (rq.account.flags.dailyBreached ==> rp.account.flags.dailyBreached)
  }

  /** On every stream the tighter pack emits at least as many DailyMaxLoss verdicts. */
  ghost predicate CountClaim(p: CompiledPack, q: CompiledPack) {
    forall account, day, evs ::
      Count(Run(q, FreshAccount(account, q, day), evs).verdicts, DailyMaxLoss, None) <=
      Count(Run(p, FreshAccount(account, p, day), evs).verdicts, DailyMaxLoss, None)
  }

  /** The daily limits agree, or the packs judge the end of the day and the first one's is the tighter. */
  predicate NestedLimits(p: CompiledPack, q: CompiledPack) {
    p.dailyLossPct == q.dailyLossPct || (!p.dailyBreachIntraday && p.dailyLossPct < q.dailyLossPct)
  }

  lemma ImpliedBothWays(tight: seq<Day>, loose: seq<Day>)
    requires DaysImplied(tight, loose) && DaysImplied(loose, tight)
    ensures DaysNest(tight, loose)
  {
  }

  lemma NestedLimitsNest(p: CompiledPack, q: CompiledPack, account: string, day: string, evs: seq<Event>)
    requires SamePlan(p, q) && NestedLimits(p, q)
    ensures var rp, rq := Run(p, FreshAccount(account, p, day), evs), Run(q, FreshAccount(account, q, day), evs);
            && DaysNest(DaysOf(rp.verdicts).done, DaysOf(rq.verdicts).done)
            && (rq.account.flags.dailyBreached ==> rp.account.flags.dailyBreached)
  {
    hide Run, DaysOf, DaysNest, DaysImplied;
    LedgerIgnoresThresholds(p, q, account, day, evs);
    TighterDailyBreachesMore(p, q, account, day, evs);
    if p.dailyLossPct == q.dailyLossPct {
      TighterDailyBreachesMore(q, p, account, day, evs);
      ImpliedBothWays(DaysOf(Run(p, FreshAccount(account, p, day), evs).verdicts).done,
                      DaysOf(Run(q, FreshAccount(account, q, day), evs).verdicts).done);
    }
  }

  /** Breaches that nest day by day, today included, nest in number. */
  lemma NestedDaysNestCounts(p: CompiledPack, q: CompiledPack, account: string, day: string, evs: seq<Event>)
    ensures var rp, rq := Run(p, FreshAccount(account, p, day), evs), Run(q, FreshAccount(account, q, day), evs);
            DaysNest(DaysOf(rp.verdicts).done, DaysOf(rq.verdicts).done) &&
            (rq.account.flags.dailyBreached ==> rp.account.flags.dailyBreached) ==>
            Count(rq.verdicts, DailyMaxLoss, None) <= Count(rp.verdicts, DailyMaxLoss, None)
  {
    hide Run, JudgeAll, CoreRun, DaysOf, DaysNest, Count, BreachCount;
    var a, b := FreshAccount(account, p, day), FreshAccount(account, q, day);
    RunIsLedgerThenJudge(p, a, evs);
    RunIsLedgerThenJudge(q, b, evs);
    TotalCount(p, a.flags, CoreRun(p.Cfg(), a.core, evs).moments);
    TotalCount(q, b.flags, CoreRun(q.Cfg(), b.core, evs).moments);
    var tight, loose := DaysOf(Run(p, a, evs).verdicts).done, DaysOf(Run(q, b, evs).verdicts).done;
    if DaysNest(tight, loose) {
      NestedCounts(tight, loose);
    }
  }

  // ----- streams on which it fails --------------------------------------------------------------------

  /** The moments of a day with one sample. */
  predicate OneSampleDay(first: Moment, last: Moment, start: real, equity: real) {
    && first.Sample? && first.o.startEquity == start && first.o.equity == equity && first.o.balance == equity
    && last.DayEnd? && last.o.startEquity == start && last.o.equity == equity
  }

  /** A fill and a rollover make such a day, whatever equity it is to end with. */
  lemma SampleAndTurn(cfg: Settings, c: Core, evs: seq<Event>, size: nat, equity: real)
    returns (more: seq<Event>, first: Moment, last: Moment)
    requires Steerable(CoreRun(cfg, c, evs).core, size)
    ensures var r, s := CoreRun(cfg, c, evs), CoreRun(cfg, c, more);
            && Steerable(s.core, size + 12) && s.core.day.startEquity == equity
            && s.moments == r.moments + [first] + [last]
            && OneSampleDay(first, last, r.core.day.startEquity, equity)
  {
    hide CoreRun, CoreStep, EquityOf, Steerable, SteeringFill;
    var r := CoreRun(cfg, c, evs);
    var fill := SteeringFill(r.core, size, equity, equity);
    Steer(cfg, r.core, size, equity, equity);
    RunSnoc(cfg, c, evs, fill);
    var mid := CoreRun(cfg, c, evs + [fill]);
    var turn := Rollover("", 0, 0, NewId(size + 6));
    TurnDay(cfg, mid.core, size + 6);
    RunSnoc(cfg, c, evs + [fill], turn);
    more := evs + [fill] + [turn];
    first, last := CoreStep(cfg, r.core, fill).moments[0], CoreStep(cfg, mid.core, turn).moments[0];
    assert CoreStep(cfg, r.core, fill).moments == [first] && CoreStep(cfg, mid.core, turn).moments == [last];
  }

  /** How such a day is logged: breached exactly when its sample is under the floor, if its opening is not. */
  lemma DayLogged(p: CompiledPack, f: Flags, ms: seq<Moment>, first: Moment, last: Moment, start: real, equity: real)
    requires OneSampleDay(first, last, start, equity)
    requires p.dailyBreachIntraday || p.DailyFloor(start) <= start
    requires var t := TallyOf(JudgeAll(p, f, ms));
             !t.breached && !t.days.breachedToday && (p.dailyBreachIntraday || t.worst == start)
    ensures var t, u := TallyOf(JudgeAll(p, f, ms)), TallyOf(JudgeAll(p, f, ms + [first] + [last]));
            && u.days.done == t.days.done + [Day(last.o.date, start, equity < p.DailyFloor(start))]
            && !u.breached && !u.days.breachedToday && u.worst == equity
  {
    hide JudgeAll, TallyOf, CompiledPack.DailyFloor;
    TallySnoc(p, f, ms, first);
    TallySnoc(p, f, ms + [first], last);
  }

  lemma CountedAtDayStart(p: CompiledPack, a: Account, evs: seq<Event>)
    requires !a.flags.dailyBreached && !TallyOf(JudgeAll(p, a.flags, CoreRun(p.Cfg(), a.core, evs).moments)).breached
    ensures Count(Run(p, a, evs).verdicts, DailyMaxLoss, None) ==
            BreachCount(TallyOf(JudgeAll(p, a.flags, CoreRun(p.Cfg(), a.core, evs).moments)).days.done)
  {
    hide Run, JudgeAll, CoreRun, DaysOf, Count;
    RunIsLedgerThenJudge(p, a, evs);
    TotalCount(p, a.flags, CoreRun(p.Cfg(), a.core, evs).moments);
  }

  lemma FreshSteerable(account: string, start: real, day: string, cfg: Settings)
    ensures CoreRun(cfg, FreshCore(account, start, day), []) == CoreResult(FreshCore(account, start, day), [], [],
                                                                           false)
    ensures Steerable(FreshCore(account, start, day), 0)
  {
  }

  lemma PositiveOpening(p: CompiledPack)
    requires p.startBalance > 0.0 && p.dailyLossPct > 0.0
    ensures p.DailyFloor(p.startBalance) < p.startBalance
  {
    FloorsAre(p, p.startBalance);
    ShareOrder(p.startBalance, Keep(p.dailyLossPct), 1.0);
  }

  /** A first day that ends between the floors: only the looser pack has the higher one, and breaches. */
  lemma FirstDayBetween(p: CompiledPack, q: CompiledPack, account: string, day: string) returns (evs: seq<Event>)
    requires SamePlan(p, q) && p.dailyLossPct > q.dailyLossPct
    ensures Count(Run(p, FreshAccount(account, p, day), evs).verdicts, DailyMaxLoss, None) == 0
    ensures Count(Run(q, FreshAccount(account, q, day), evs).verdicts, DailyMaxLoss, None) == 1
  {
    hide Run, CoreRun, JudgeAll, TallyOf, Count, CompiledPack.DailyFloor, Steerable;
    var a, b, start := FreshAccount(account, p, day), FreshAccount(account, q, day), p.startBalance;
    FreshSteerable(account, start, day, p.Cfg());
    FloorOrder(q, p, start);
    PositiveOpening(p);
    PositiveOpening(q);
    var first, last;
    evs, first, last := SampleAndTurn(p.Cfg(), a.core, [], 0, p.DailyFloor(start));
    TallyStart(p, a.flags);
    TallyStart(q, b.flags);
    DayLogged(p, a.flags, [], first, last, start, p.DailyFloor(start));
    DayLogged(q, b.flags, [], first, last, start, p.DailyFloor(start));
    assert CoreRun(p.Cfg(), a.core, evs).moments == [] + [first] + [last];
    CountedAtDayStart(p, a, evs);
    CountedAtDayStart(q, b, evs);
    OneDayCount(last.o.date, start);
  }

  lemma OneDayCount(date: string, start: real)
    ensures forall b: bool :: BreachCount([] + [Day(date, start, b)]) == One(b)
  {
    forall b: bool ensures BreachCount([] + [Day(date, start, b)]) == One(b) {
      assert ([] + [Day(date, start, b)])[..0] == [];
    }
  }

  lemma TwoDayCount(d: Day, e: Day)
    ensures BreachCount([] + [d] + [e]) == One(d.breached) + One(e.breached)
  {
    var one, two := [d], [d, e];
    assert [] + [d] + [e] == two && two[..1] == one && one[..0] == [];
    assert BreachCount(one) == One(d.breached);
  }

  /** A day that both find breached and that ends below zero; then one between the floors, the looser one the higher. */
  lemma NegativeDayBetween(p: CompiledPack, q: CompiledPack, account: string, day: string) returns (evs: seq<Event>)
    requires SamePlan(p, q) && p.dailyBreachIntraday && p.dailyLossPct < q.dailyLossPct
    ensures Count(Run(p, FreshAccount(account, p, day), evs).verdicts, DailyMaxLoss, None) == 1
    ensures Count(Run(q, FreshAccount(account, q, day), evs).verdicts, DailyMaxLoss, None) == 2
  {
    hide Run, CoreRun, JudgeAll, TallyOf, Count, CompiledPack.DailyFloor, Steerable, BreachCount;
    var a, b, start := FreshAccount(account, p, day), FreshAccount(account, q, day), p.startBalance;
    FreshSteerable(account, start, day, p.Cfg());
    var below := Under(p.DailyFloor(start), q.DailyFloor(start));
    FloorOrder(p, q, below);
    var one, m1, m2 := SampleAndTurn(p.Cfg(), a.core, [], 0, below);
    var m3, m4;
    evs, m3, m4 := SampleAndTurn(p.Cfg(), a.core, one, 12, p.DailyFloor(below));
    TallyStart(p, a.flags);
    TallyStart(q, b.flags);
    var ms := [] + [m1] + [m2];
    DayLogged(p, a.flags, [], m1, m2, start, below);
    DayLogged(q, b.flags, [], m1, m2, start, below);
    DayLogged(p, a.flags, ms, m3, m4, below, p.DailyFloor(below));
    DayLogged(q, b.flags, ms, m3, m4, below, p.DailyFloor(below));
    assert CoreRun(p.Cfg(), a.core, evs).moments == ms + [m3] + [m4];
    CountedAtDayStart(p, a, evs);
    CountedAtDayStart(q, b, evs);
    TwoDayCount(Day(m2.o.date, start, true), Day(m4.o.date, below, false));
    TwoDayCount(Day(m2.o.date, start, true), Day(m4.o.date, below, true));
  }

  // ----- the exact condition ----------------------------------------------------------------------------

  /**
   * For two packs of one plan, with any daily limits: the second one's daily breaches are breaches of the first,
   * day by day or just in number, on all streams, exactly when the limits agree or end-of-day limits nest.
   */
  lemma DailyClaimIff(p: CompiledPack, q: CompiledPack)
    requires SamePlan(p, q)
    ensures DailyClaim(p, q) <==> NestedLimits(p, q)
    ensures CountClaim(p, q) <==> NestedLimits(p, q)
  {
    hide Run, DaysOf, DaysNest, Count, SamePlan;
    if NestedLimits(p, q) {
      forall account, day, evs
        ensures var rp, rq := Run(p, FreshAccount(account, p, day), evs), Run(q, FreshAccount(account, q, day), evs);
                && DaysNest(DaysOf(rp.verdicts).done, DaysOf(rq.verdicts).done)
                && (rq.account.flags.dailyBreached ==> rp.account.flags.dailyBreached)
      {
        NestedLimitsNest(p, q, account, day, evs);
      }
      assert DailyClaim(p, q);
    } else {
      var evs;
      if p.dailyLossPct > q.dailyLossPct {
        evs := FirstDayBetween(p, q, "", "");
      } else {
        evs := NegativeDayBetween(p, q, "", "");
      }
      assert !CountClaim(p, q);
    }
    if DailyClaim(p, q) {
      forall account, day, evs
        ensures Count(Run(q, FreshAccount(account, q, day), evs).verdicts, DailyMaxLoss, None) <=
                Count(Run(p, FreshAccount(account, p, day), evs).verdicts, DailyMaxLoss, None)
      {
        NestedDaysNestCounts(p, q, account, day, evs);
      }
    }
  }

  // ----- the suite's own packs --------------------------------------------------------------------------

  /** Minus 100001 on the first day, which both packs breach, and plus 0.06 on the second. */
  function NegativeSecondDay(): seq<Event> {
    [Adjust("a", -100001.0), Rollover("b", 0, 0, "d1"), Adjust("c", 0.06)]
  }

  /** At -0.94 the account is over the tight floor of -0.96 and under the loose one of -0.92. */
  lemma LoosePackBreachesDailyAlone()
    ensures var tight, loose := TestPack(4.0, 8.0), TestPack(8.0, 16.0);
            && !Run(tight, FreshAccount("acc", tight, "d0"), NegativeSecondDay()).account.flags.dailyBreached
            && Run(loose, FreshAccount("acc", loose, "d0"), NegativeSecondDay()).account.flags.dailyBreached
  {
    SecondDayUnder(4.0, 8.0);
    SecondDayUnder(8.0, 16.0);
  }

  lemma SecondDayUnder(daily: real, overall: real)
    ensures var p := TestPack(daily, overall);
            Run(p, FreshAccount("acc", p, "d0"), NegativeSecondDay()).account.flags.dailyBreached ==
            (-0.94 < -1.0 * (1.0 - daily / 100.0))
  {
    hide Step, DedupKey;
    var p, evs := TestPack(daily, overall), NegativeSecondDay();
    var a0 := FreshAccount("acc", p, "d0");
    var a1 := Step(p, a0, evs[0]).next;
    var a2 := Step(p, a1, evs[1]).next;
    var one, two := [evs[0]], [evs[0], evs[1]];
    assert one[..0] == [] && two[..1] == one && evs[..2] == two;
    assert Run(p, a0, []).account == a0;
    assert Run(p, a0, one).account == a1;
    assert Run(p, a0, two).account == a2;
    KeysOfNegativeSecondDay();
    assert "ev:a" != "ev:c" && "day:d1" != "ev:c" && "ev:a" != "day:d1" by { DistinctKeys(); }
    AdjustFlat(p, a0, 100000.0, 100000.0, {}, "a", -100001.0);
    RollFlat(p, a1, -1.0, 100000.0, {} + {"ev:a"}, evs[1]);
    AdjustFlat(p, a2, -1.0, -1.0, {} + {"ev:a"} + {"day:d1"}, "c", 0.06);
  }

  lemma KeysOfNegativeSecondDay()
    ensures var evs := NegativeSecondDay();
            DedupKey(evs[0]) == "ev:a" && DedupKey(evs[1]) == "day:d1" && DedupKey(evs[2]) == "ev:c"
  {
  }
}
