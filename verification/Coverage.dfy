/**
 * Nothing that crosses a threshold is missed (eval.rs:341-358, 473-541): the flags and the log say exactly which
 * samples of a judged trace were under a floor or over the target.
 */
module Coverage {
  import opened Events
  import opened Pack
  import opened Verdicts
  import opened Ledger
  import opened Judge
  import opened Trace
  import opened DayLog
  import PackMonotonicity

  // ----- the limits in the plan's own numbers -------------------------------------------------------

  /** Less than what is left of a base after a loss of `pct` percent. */
  predicate Under(figure: real, base: real, pct: real) {
    figure * 100.0 < base * (100.0 - pct)
  }

  /** The figure the daily rule reads has lost more than the daily percentage of the day's start equity. */
  predicate UnderDaily(p: CompiledPack, m: Moment) {
    Under(if p.dailyBreachIntraday && !p.dailyBasisEquity then m.o.balance else m.o.equity, m.o.startEquity,
          p.dailyLossPct)
  }

  /** The first sample of a day that an intraday pack finds under the daily floor: the other rules do not see it. */
  predicate CutShort(p: CompiledPack, f: Flags, m: Moment) {
    p.dailyBreachIntraday && !f.dailyBreached && UnderDaily(p, m)
  }

  /** A sample not cut short whose equity has lost more than the overall percentage of start balance or mark. */
  predicate UnderOverall(p: CompiledPack, f: Flags, m: Moment) {
    && m.Sample? && !CutShort(p, f, m)
    && Under(m.o.equity, if p.overallMode == Static then p.startBalance else m.o.hwm, p.overallLossPct)
  }

  /** A sample not cut short, with its trading days, whose profit is the target percentage of the start balance. */
  predicate AtTarget(p: CompiledPack, f: Flags, m: Moment) {
    && m.Sample? && !CutShort(p, f, m)
    && m.o.dayCounter >= p.minTradingDays && (m.o.equity - p.startBalance) * 100.0 >= p.targetPct * p.startBalance
  }

  lemma PercentOf(base: real, pct: real)
    ensures base * (1.0 - pct / 100.0) * 100.0 == base * (100.0 - pct)
    ensures base * (1.0 + pct / 100.0) * 100.0 == base * 100.0 + pct * base
  {
    assert (1.0 - pct / 100.0) * 100.0 == 100.0 - pct;
    assert (1.0 + pct / 100.0) * 100.0 == 100.0 + pct;
    Regroup(base, 1.0 - pct / 100.0);
    Regroup(base, 1.0 + pct / 100.0);
  }

  lemma Regroup(base: real, share: real)
    ensures base * share * 100.0 == base * (share * 100.0)
  {
  }

  /** The pack's floors and level are those percentages. */
  lemma LimitsInNumbers(p: CompiledPack, figure: real, start: real, hwm: real)
    ensures figure < p.DailyFloor(start) <==> Under(figure, start, p.dailyLossPct)
    ensures figure < p.OverallFloor(hwm) <==>
            Under(figure, if p.overallMode == Static then p.startBalance else hwm, p.overallLossPct)
    ensures figure >= p.TargetLevel() <==> (figure - p.startBalance) * 100.0 >= p.targetPct * p.startBalance
  {
    PercentOf(start, p.dailyLossPct);
    PercentOf(p.startBalance, p.overallLossPct);
    PercentOf(hwm, p.overallLossPct);
    PercentOf(p.startBalance, p.targetPct);
  }

  // ----- overall loss and target --------------------------------------------------------------------

  /** The flags with which the k-th moment of a trace is judged. */
  function FlagsAt(p: CompiledPack, f: Flags, ms: seq<Moment>, k: nat): Flags
    requires k <= |ms|
  {
    JudgeAll(p, f, ms[..k]).flags
  }

  lemma AccountFlagsSnoc(p: CompiledPack, f: Flags, ms: seq<Moment>, m: Moment)
    ensures var g, h := JudgeAll(p, f, ms).flags, JudgeAll(p, f, ms + [m]).flags;
            && h.overallBreached == (g.overallBreached || UnderOverall(p, g, m))
            && h.targetReached == (g.targetReached || AtTarget(p, g, m))
  {
    hide CompiledPack.DailyFloor, CompiledPack.OverallFloor, CompiledPack.TargetLevel, EodFires, MakeVerdict, Under,
         JudgeAll;
    JudgeSnoc(p, f, ms, m);
    LimitsInNumbers(p, m.o.equity, m.o.startEquity, m.o.hwm);
    LimitsInNumbers(p, m.o.balance, m.o.startEquity, m.o.hwm);
  }

  /** The overall flag is up exactly when some sample crossed, and likewise the target's. */
  lemma {:induction false} CrossingsAreFlagged(p: CompiledPack, f: Flags, ms: seq<Moment>)
    requires !f.overallBreached && !f.targetReached
    ensures var g := JudgeAll(p, f, ms).flags;
            && (g.overallBreached <==> exists k :: 0 <= k < |ms| && UnderOverall(p, FlagsAt(p, f, ms, k), ms[k]))
            && (g.targetReached <==> exists k :: 0 <= k < |ms| && AtTarget(p, FlagsAt(p, f, ms, k), ms[k]))
  {
    hide JudgeAll, UnderOverall, AtTarget;
    if ms == [] {
      PackMonotonicity.NothingJudged(p, f);
    } else {
      var n := |ms| - 1;
      CrossingsAreFlagged(p, f, ms[..n]);
      assert ms == ms[..n] + [ms[n]];
      AccountFlagsSnoc(p, f, ms[..n], ms[n]);
      forall k: nat | k <= n ensures FlagsAt(p, f, ms, k) == FlagsAt(p, f, ms[..n], k) {
        assert ms[..n][..k] == ms[..k];
      }
    }
  }

  // ----- the daily rule -----------------------------------------------------------------------------------

  /** A sample of the day the trace ends in. */
  predicate InToday(ms: seq<Moment>, k: int) {
    0 <= k < |ms| && ms[k].Sample? && forall i :: k < i < |ms| ==> !ms[i].DayEnd?
  }

  lemma InTodaySnoc(ms: seq<Moment>, m: Moment, k: int)
    ensures InToday(ms + [m], k) <==> !m.DayEnd? && (InToday(ms, k) || (k == |ms| && m.Sample?))
  {
    var all := ms + [m];
    assert all[|ms|] == m && forall i :: 0 <= i < |ms| ==> all[i] == ms[i];
  }

  /** Under an intraday pack today is flagged exactly when one of its samples was under the floor. */
  lemma {:induction false} TodayIsFlagged(p: CompiledPack, f: Flags, ms: seq<Moment>)
    requires p.dailyBreachIntraday && !f.dailyBreached
    ensures JudgeAll(p, f, ms).flags.dailyBreached <==> exists k :: InToday(ms, k) && UnderDaily(p, ms[k])
  {
    hide JudgeAll, CompiledPack.DailyFloor, InToday;
    if ms == [] {
      PackMonotonicity.NothingJudged(p, f);
      NoToday();
    } else {
      var n := |ms| - 1;
      var init, m := ms[..n], ms[n];
      assert ms == init + [m];
      TodayIsFlagged(p, f, init);
      DailyFlagsSnoc(p, f, init, m);
      forall k ensures InToday(ms, k) <==> !m.DayEnd? && (InToday(init, k) || (k == n && m.Sample?)) {
        InTodaySnoc(init, m, k);
      }
      forall k | InToday(init, k) ensures 0 <= k < n && init[k] == ms[k] {
        WithinToday(init, k);
      }
      forall k | InToday(ms, k) ensures 0 <= k <= n {
        WithinToday(ms, k);
      }
      LimitsInNumbers(p, m.o.equity, m.o.startEquity, m.o.hwm);
      LimitsInNumbers(p, m.o.balance, m.o.startEquity, m.o.hwm);
      TodayStep(p, init, m);
    }
  }

  lemma WithinToday(ms: seq<Moment>, k: int)
    requires InToday(ms, k)
    ensures 0 <= k < |ms|
  {
  }

  lemma NoToday()
    ensures forall k :: !InToday([], k)
  {
  }

  /** Whether some sample of today was under the floor, one moment on. */
  lemma TodayStep(p: CompiledPack, ms: seq<Moment>, m: Moment)
    ensures (exists k :: InToday(ms + [m], k) && UnderDaily(p, (ms + [m])[k])) <==>
            !m.DayEnd? && ((exists k :: InToday(ms, k) && UnderDaily(p, ms[k])) || (m.Sample? && UnderDaily(p, m)))
  {
    hide CompiledPack.DailyFloor, UnderDaily;
    var all := ms + [m];
    if k :| InToday(all, k) && UnderDaily(p, all[k]) {
      InTodaySnoc(ms, m, k);
    }
    if !m.DayEnd? {
      if k :| InToday(ms, k) && UnderDaily(p, ms[k]) {
        InTodaySnoc(ms, m, k);
        assert InToday(all, k) && all[k] == ms[k];
      }
      InTodaySnoc(ms, m, |ms|);
    }
  }

  // ----- the day's worst equity ---------------------------------------------------------------------------

  /** The least of the day's start equity and the equities of its samples. */
  ghost predicate LeastOfTheDay(worst: real, day: DayStart, ms: seq<Moment>) {
    && worst <= day.equity
    && (forall k :: InToday(ms, k) ==> worst <= ms[k].o.equity)
    && (worst == day.equity || exists k :: InToday(ms, k) && ms[k].o.equity == worst)
  }

  /** What an end-of-day pack holds as the worst equity is the least of the day. */
  lemma {:induction false} WorstIsLeast(p: CompiledPack, f: Flags, d: DayStart, ms: seq<Moment>)
    requires !p.dailyBreachIntraday && f.worstEquity == d.equity
    ensures LeastOfTheDay(JudgeAll(p, f, ms).flags.worstEquity, DayAfter(d, ms), ms)
  {
    hide JudgeAll, InToday;
    if ms == [] {
      PackMonotonicity.NothingJudged(p, f);
      NoToday();
    } else {
      var init, m := ms[..|ms| - 1], ms[|ms| - 1];
      assert ms == init + [m];
      WorstIsLeast(p, f, d, init);
      DailyFlagsSnoc(p, f, init, m);
      LeastSnoc(JudgeAll(p, f, init).flags.worstEquity, d, init, m);
    }
  }

  lemma LeastSnoc(worst: real, d: DayStart, ms: seq<Moment>, m: Moment)
    requires LeastOfTheDay(worst, DayAfter(d, ms), ms)
    ensures var next := if m.DayEnd? then m.o.equity else if m.Sample? then RMin(worst, m.o.equity) else worst;
            LeastOfTheDay(next, DayAfter(d, ms + [m]), ms + [m])
  {
    var all := ms + [m];
    assert all[..|ms|] == ms;
    forall k ensures InToday(all, k) <==> !m.DayEnd? && (InToday(ms, k) || (k == |ms| && m.Sample?)) {
      InTodaySnoc(ms, m, k);
    }
    if !m.DayEnd? && worst != DayAfter(d, ms).equity {
      var k :| InToday(ms, k) && ms[k].o.equity == worst;
      assert InToday(all, k) && all[k].o.equity == worst;
    }
    assert !m.DayEnd? && m.Sample? ==> InToday(all, |ms|) && all[|ms|] == m;
  }

  // ----- completed days -------------------------------------------------------------------------------------

  /** Some sample of today was under the floor; or, for an end-of-day pack, the day opened there. */
  ghost predicate TodayUnder(p: CompiledPack, day: DayStart, ms: seq<Moment>) {
    || (exists k :: InToday(ms, k) && UnderDaily(p, ms[k]))
    || (!p.dailyBreachIntraday && Under(day.equity, day.equity, p.dailyLossPct))
  }

  lemma {:induction false} TodayIsChained(d: DayStart, hwm: real, ms: seq<Moment>, k: int)
    requires Chained(d, hwm, ms) && InToday(ms, k)
    ensures DayStart(ms[k].o.startEquity, ms[k].o.date) == DayAfter(d, ms)
  {
    var n := |ms| - 1;
    if k < n {
      assert ms == ms[..n] + [ms[n]];
      InTodaySnoc(ms[..n], ms[n], k);
      TodayIsChained(d, hwm, ms[..n], k);
    }
  }

  lemma LeastDecides(p: CompiledPack, worst: real, d: DayStart, hwm: real, ms: seq<Moment>)
    requires !p.dailyBreachIntraday && Chained(d, hwm, ms) && LeastOfTheDay(worst, DayAfter(d, ms), ms)
    ensures var day := DayAfter(d, ms);
            worst < p.DailyFloor(day.equity) <==> TodayUnder(p, day, ms)
  {
    hide CompiledPack.DailyFloor, InToday, DayAfter, Chained, Under;
    var day := DayAfter(d, ms);
    LimitsInNumbers(p, worst, day.equity, hwm);
    LimitsInNumbers(p, day.equity, day.equity, hwm);
    forall k | InToday(ms, k)
      ensures 0 <= k < |ms| && ms[k].o.startEquity == day.equity
      ensures ms[k].o.equity < p.DailyFloor(day.equity) <==> UnderDaily(p, ms[k])
    {
      WithinToday(ms, k);
      TodayIsChained(d, hwm, ms, k);
      LimitsInNumbers(p, ms[k].o.equity, day.equity, hwm);
    }
  }

  /**
   * The day that a trace's next moment ends is logged breached exactly when one of its samples was under the
   * floor, or, for an end-of-day pack, when it opened there.
   */
  lemma CompletedDayIsLogged(p: CompiledPack, f: Flags, d: DayStart, hwm: real, ms: seq<Moment>, m: Moment)
    requires !f.dailyBreached && f.worstEquity == d.equity && Chained(d, hwm, ms + [m]) && m.DayEnd?
    ensures var done := DaysOf(JudgeAll(p, f, ms + [m]).verdicts).done;
            && done != [] && done[|done| - 1].date == m.o.date && done[|done| - 1].start == m.o.startEquity
            && (done[|done| - 1].breached <==> TodayUnder(p, DayAfter(d, ms), ms))
  {
    hide JudgeAll, DaysOf, CompiledPack.DailyFloor, InToday, DayAfter;
    assert (ms + [m])[..|ms|] == ms;
    ReadSnoc(p, f, ms, m);
    FlagIsToday(p, f, ms);
    if p.dailyBreachIntraday {
      TodayIsFlagged(p, f, ms);
    } else {
      WorstIsLeast(p, f, d, ms);
      LeastDecides(p, JudgeAll(p, f, ms).flags.worstEquity, d, hwm, ms);
    }
  }

  /** The log and the flag agree on today; an end-of-day pack never has it breached. */
  lemma {:induction false} FlagIsToday(p: CompiledPack, f: Flags, ms: seq<Moment>)
    requires !f.dailyBreached
    ensures var j := JudgeAll(p, f, ms);
            && DaysOf(j.verdicts).breachedToday == j.flags.dailyBreached
            && (!p.dailyBreachIntraday ==> !j.flags.dailyBreached)
  {
    hide JudgeAll, DaysOf, CompiledPack.DailyFloor;
    if ms == [] {
      TallyStart(p, f);
      PackMonotonicity.NothingJudged(p, f);
    } else {
      var init, m := ms[..|ms| - 1], ms[|ms| - 1];
      assert ms == init + [m];
      FlagIsToday(p, f, init);
      ReadSnoc(p, f, init, m);
      DailyFlagsSnoc(p, f, init, m);
    }
  }

  // ----- runs -----------------------------------------------------------------------------------------------

  /** Over a run: which samples put the account's flags up. */
  lemma RunMissesNothing(p: CompiledPack, account: string, day: string, evs: seq<Event>)
    ensures var a := FreshAccount(account, p, day);
            var ms, f := CoreRun(p.Cfg(), a.core, evs).moments, Run(p, a, evs).account.flags;
            && (f.overallBreached <==>
                exists k :: 0 <= k < |ms| && UnderOverall(p, FlagsAt(p, a.flags, ms, k), ms[k]))
            && (f.targetReached <==>
                exists k :: 0 <= k < |ms| && AtTarget(p, FlagsAt(p, a.flags, ms, k), ms[k]))
            && (p.dailyBreachIntraday ==>
                (f.dailyBreached <==> exists k :: InToday(ms, k) && UnderDaily(p, ms[k])))
  {
    hide Run, CoreRun, JudgeAll, UnderOverall, AtTarget, UnderDaily, InToday;
    var a := FreshAccount(account, p, day);
    RunIsLedgerThenJudge(p, a, evs);
    var ms := CoreRun(p.Cfg(), a.core, evs).moments;
    CrossingsAreFlagged(p, a.flags, ms);
    if p.dailyBreachIntraday {
      TodayIsFlagged(p, a.flags, ms);
    }
  }

  /** Over a run: each moment that ends a day logs it breached exactly when it was under its floor. */
  lemma RunLogsEveryDay(p: CompiledPack, account: string, day: string, evs: seq<Event>, k: nat)
    requires k < |CoreRun(p.Cfg(), FreshCore(account, p.startBalance, day), evs).moments|
    requires CoreRun(p.Cfg(), FreshCore(account, p.startBalance, day), evs).moments[k].DayEnd?
    ensures var ms := CoreRun(p.Cfg(), FreshCore(account, p.startBalance, day), evs).moments;
            var done := DaysOf(JudgeAll(p, FreshFlags(p), ms[..k + 1]).verdicts).done;
            && done != [] && done[|done| - 1].date == ms[k].o.date && done[|done| - 1].start == ms[k].o.startEquity
            && (done[|done| - 1].breached <==> TodayUnder(p, DayStart(ms[k].o.startEquity, ms[k].o.date), ms[..k]))
  {
    hide CoreRun, JudgeAll, DaysOf, TodayUnder, DayAfter, Chained;
    var c := FreshCore(account, p.startBalance, day);
    var ms, d := CoreRun(p.Cfg(), c, evs).moments, DayStart(c.day.startEquity, c.day.date);
    RunIsChained(p.Cfg(), c, evs);
    ChainedTo(d, c.hwm, ms, k);
    assert ms[..k + 1] == ms[..k] + [ms[k]];
    CompletedDayIsLogged(p, FreshFlags(p), d, c.hwm, ms[..k], ms[k]);
  }

  lemma {:induction false} ChainedTo(d: DayStart, hwm: real, ms: seq<Moment>, k: nat)
    requires Chained(d, hwm, ms) && k < |ms|
    ensures Chained(d, hwm, ms[..k]) && Chained(d, hwm, ms[..k + 1])
    ensures DayStart(ms[k].o.startEquity, ms[k].o.date) == DayAfter(d, ms[..k])
  {
    if k == |ms| - 1 {
      assert ms[..k + 1] == ms;
    } else {
      ChainedTo(d, hwm, ms[..|ms| - 1], k);
      assert ms[..|ms| - 1][..k] == ms[..k] && ms[..|ms| - 1][..k + 1] == ms[..k + 1];
    }
  }
}
