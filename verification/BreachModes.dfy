/**
 * Intraday and end-of-day packs over one stream (eval.rs): judging every sample and judging the day's
 * worst equity at the rollover name the same days.
 */
module BreachModes {
  import opened Events
  import opened Pack
  import opened State
  import opened Verdicts
  import opened Ledger
  import opened Judge
  import opened Trace
  import opened DayLog
  import AtLeastOnce
  import PackMonotonicity

  /** The same equity-basis pack, judged at the end of the day. */
  function EodTwin(p: CompiledPack): CompiledPack {
    p.(dailyBreachIntraday := false)
  }

  /** Day by day, the end-of-day log names the intraday log's days, and those that opened below zero. */
  predicate SameDays(intraday: seq<Day>, eod: seq<Day>) {
    && |intraday| == |eod|
    && forall k :: 0 <= k < |eod| ==>
         eod[k].date == intraday[k].date && eod[k].start == intraday[k].start &&
         (eod[k].breached <==> intraday[k].breached || intraday[k].start < 0.0)
  }

  /** The coupling of the two daily rules; `under` says the day opened below zero. */
  predicate Coupled(i: Tally, e: Tally, floor: real, under: bool) {
    && SameDays(i.days.done, e.days.done)
    && i.days.breachedToday == i.breached
    && !e.days.breachedToday && !e.breached
    && (e.worst < floor <==> i.breached || under)
  }

  /** A sample lowers the worst equity below the floor exactly when it breaches intraday. */
  lemma SampleCouples(i: Tally, e: Tally, floor: real, under: bool, m: Moment)
    requires Coupled(i, e, floor, under) && !m.DayEnd?
    ensures Coupled(TallyStep(true, true, floor, i, m), TallyStep(false, true, floor, e, m), floor, under)
  {
    hide SameDays;
  }

  /** At the rollover both rules log the day; the next one starts at the equity seen. */
  lemma DayEndCouples(i: Tally, e: Tally, floor: real, m: Moment, next: real)
    requires Coupled(i, e, floor, m.o.startEquity < 0.0) && m.DayEnd?
    requires m.o.equity < next <==> m.o.equity < 0.0
    ensures Coupled(TallyStep(true, true, floor, i, m), TallyStep(false, true, floor, e, m), next, m.o.equity < 0.0)
  {
  }

  /** One moment, whatever its kind; `next` is the start equity of the day it leaves the run in. */
  lemma MomentCouples(p: CompiledPack, i: Tally, e: Tally, m: Moment, next: real)
    requires p.dailyLossPct > 0.0 && next == if m.DayEnd? then m.o.equity else m.o.startEquity
    requires Coupled(i, e, p.DailyFloor(m.o.startEquity), m.o.startEquity < 0.0)
    ensures var floor := p.DailyFloor(m.o.startEquity);
            Coupled(TallyStep(true, true, floor, i, m), TallyStep(false, true, floor, e, m), p.DailyFloor(next),
                    next < 0.0)
  {
    hide CompiledPack.DailyFloor, TallyStep, Coupled;
    if m.DayEnd? {
      FloorAtStart(p, m.o.equity);
      DayEndCouples(i, e, p.DailyFloor(m.o.startEquity), m, p.DailyFloor(m.o.equity));
    } else {
      SampleCouples(i, e, p.DailyFloor(m.o.startEquity), m.o.startEquity < 0.0, m);
    }
  }

  /** The tally of the twin, one moment on, at the floor both packs share. */
  lemma TwinSnoc(p: CompiledPack, f: Flags, ms: seq<Moment>, m: Moment)
    requires p.dailyBasisEquity && p.dailyLossPct > 0.0
    ensures TallyOf(JudgeAll(EodTwin(p), f, ms + [m])) ==
            TallyStep(false, true, p.DailyFloor(m.o.startEquity), TallyOf(JudgeAll(EodTwin(p), f, ms)), m)
  {
    hide CompiledPack.DailyFloor, TallyStep, TallyOf, JudgeAll;
    TallySnoc(EodTwin(p), f, ms, m);
    FloorAtStart(p, m.o.startEquity);
  }

  lemma {:induction false} TwinsAgree(p: CompiledPack, fi: Flags, fe: Flags, d: DayStart, hwm: real, ms: seq<Moment>)
    requires p.dailyBreachIntraday && p.dailyBasisEquity && p.dailyLossPct > 0.0
    requires !fi.dailyBreached && !fe.dailyBreached && fe.worstEquity == d.equity
    requires Chained(d, hwm, ms)
    ensures var start := DayAfter(d, ms).equity;
            Coupled(TallyOf(JudgeAll(p, fi, ms)), TallyOf(JudgeAll(EodTwin(p), fe, ms)), p.DailyFloor(start),
                    start < 0.0)
  {
    hide JudgeAll, CompiledPack.DailyFloor, TallyOf, TallyStep, Coupled, EodTwin;
    if ms == [] {
      TallyStart(p, fi);
      TallyStart(EodTwin(p), fe);
      FloorAtStart(p, d.equity);
      StartsCoupled(d.equity, p.DailyFloor(d.equity));
    } else {
      var init, m := ms[..|ms| - 1], ms[|ms| - 1];
      assert ms == init + [m];
      TwinsAgree(p, fi, fe, d, hwm, init);
      TallySnoc(p, fi, init, m);
      TwinSnoc(p, fe, init, m);
      MomentCouples(p, TallyOf(JudgeAll(p, fi, init)), TallyOf(JudgeAll(EodTwin(p), fe, init)), m,
                    DayAfter(d, ms).equity);
    }
  }

  lemma StartsCoupled(start: real, floor: real)
    requires start < floor <==> start < 0.0
    ensures var t := Tally(Days([], false), false, start);
            forall w: real :: Coupled(t.(worst := w), t, floor, start < 0.0)
  {
  }

  lemma FloorAtStart(p: CompiledPack, start: real)
    requires p.dailyLossPct > 0.0
    ensures EodTwin(p).DailyFloor(start) == p.DailyFloor(start)
    ensures start < p.DailyFloor(start) <==> start < 0.0
  {
    StartBelowFloorIffNegative(start, p.dailyLossPct);
  }

  /**
   * On one stream, an equity-basis pack and its end-of-day twin complete the same days, and the twin's
   * log names exactly the days the intraday log names plus those that opened with negative equity.
   */
  lemma EodAgreesWithIntraday(raw: RulePack, p: CompiledPack, account: string, day: string, evs: seq<Event>)
    requires Compile(raw) == Ok(p) && p.dailyBreachIntraday && p.dailyBasisEquity
    ensures SameDays(DaysOf(Run(p, FreshAccount(account, p, day), evs).verdicts).done,
                     DaysOf(Run(EodTwin(p), FreshAccount(account, EodTwin(p), day), evs).verdicts).done)
  {
    hide Run, JudgeAll, CoreRun, DaysOf, SameDays, CompiledPack.DailyFloor;
    var i, e := FreshAccount(account, p, day), FreshAccount(account, EodTwin(p), day);
    RunIsLedgerThenJudge(p, i, evs);
    RunIsLedgerThenJudge(EodTwin(p), e, evs);
    RunIsChained(p.Cfg(), i.core, evs);
    TwinsAgree(p, i.flags, e.flags, DayStart(i.core.day.startEquity, i.core.day.date), i.core.hwm,
               CoreRun(p.Cfg(), i.core, evs).moments);
  }

  /** The two logs tell of the same days exactly when no day opens below zero without breaching intraday. */
  lemma ModesDifferOnlyBelowZero(raw: RulePack, p: CompiledPack, account: string, day: string, evs: seq<Event>)
    requires Compile(raw) == Ok(p) && p.dailyBreachIntraday && p.dailyBasisEquity
    ensures var i := DaysOf(Run(p, FreshAccount(account, p, day), evs).verdicts).done;
            var e := DaysOf(Run(EodTwin(p), FreshAccount(account, EodTwin(p), day), evs).verdicts).done;
            i == e <==> forall k :: 0 <= k < |i| && i[k].start < 0.0 ==> i[k].breached
  {
    hide Run, DaysOf;
    EodAgreesWithIntraday(raw, p, account, day, evs);
    var i := DaysOf(Run(p, FreshAccount(account, p, day), evs).verdicts).done;
    var e := DaysOf(Run(EodTwin(p), FreshAccount(account, EodTwin(p), day), evs).verdicts).done;
    if forall k :: 0 <= k < |i| && i[k].start < 0.0 ==> i[k].breached {
      assert forall k :: 0 <= k < |i| ==> i[k] == e[k];
    }
  }

  // ----- a day that opens below zero -------------------------------------------------------------

  /** The account loses all it has and one more, and two days end. */
  function NegativeOpening(p: CompiledPack): seq<Event> {
    [PackMonotonicity.Adjust("a", -1.0 - p.startBalance), Rollover("b", 0, 0, "d1"), Rollover("c", 0, 0, "d2")]
  }

  lemma KeysOfNegativeOpening(p: CompiledPack)
    ensures var evs := NegativeOpening(p);
            DedupKey(evs[0]) == "ev:a" && DedupKey(evs[1]) == "day:d1" && DedupKey(evs[2]) == "day:d2"
    ensures "ev:a" != "day:d1" && "ev:a" != "day:d2" && "day:d1" != "day:d2"
  {
    assert "ev:a"[0] != "day:d1"[0] && "ev:a"[0] != "day:d2"[0] && "day:d1"[5] != "day:d2"[5];
  }

  lemma AdjustEmpty(cfg: Settings, c: Core, id: string, amount: real)
    requires c.book.positions == map[] && DedupKey(PackMonotonicity.Adjust(id, amount)) !in c.seen
    ensures var next := CoreStep(cfg, c, PackMonotonicity.Adjust(id, amount)).core;
            next.book.positions == map[] && EquityOf(next.book) == c.book.balance + amount
  {
    hide EquityOf, DedupKey;
    PackMonotonicity.FlatEquity(CoreStep(cfg, c, PackMonotonicity.Adjust(id, amount)).core);
  }

  /** Its last two moments are two rollovers, and the day between them opened below zero. */
  lemma TraceOfNegativeOpening(p: CompiledPack, account: string, day: string)
    ensures var ms := CoreRun(p.Cfg(), FreshCore(account, p.startBalance, day), NegativeOpening(p)).moments;
            && |ms| >= 2 && ms[|ms| - 2].DayEnd? && ms[|ms| - 1].DayEnd? && ms[|ms| - 1].o.startEquity == -1.0
  {
    hide CoreStep, EquityOf, DedupKey;
    var c, evs, cfg := FreshCore(account, p.startBalance, day), NegativeOpening(p), p.Cfg();
    var one, two := [evs[0]], [evs[0], evs[1]];
    assert one[..0] == [] && two[..1] == one && evs[..2] == two;
    var s1 := CoreStep(cfg, c, evs[0]);
    var s2 := CoreStep(cfg, s1.core, evs[1]);
    var s3 := CoreStep(cfg, s2.core, evs[2]);
    assert CoreRun(cfg, c, []) == CoreResult(c, [], [], false);
    assert CoreRun(cfg, c, one).core == s1.core;
    assert CoreRun(cfg, c, two).core == s2.core;
    assert CoreRun(cfg, c, evs).moments == CoreRun(cfg, c, one).moments + s2.moments + s3.moments;
    KeysOfNegativeOpening(p);
    AdjustEmpty(cfg, c, "a", -1.0 - p.startBalance);
    AtLeastOnce.StepSees(cfg, c, evs[0]);
    AtLeastOnce.StepSees(cfg, s1.core, evs[1]);
    StepMoments(cfg, s1.core, evs[1]);
    StepMoments(cfg, s2.core, evs[2]);
  }

  /** The exception is real, for every pack: on that stream the two logs differ. */
  lemma NegativeOpeningDiffers(raw: RulePack, p: CompiledPack, account: string, day: string)
    requires Compile(raw) == Ok(p) && p.dailyBreachIntraday && p.dailyBasisEquity
    ensures var evs := NegativeOpening(p);
            DaysOf(Run(p, FreshAccount(account, p, day), evs).verdicts).done !=
            DaysOf(Run(EodTwin(p), FreshAccount(account, EodTwin(p), day), evs).verdicts).done
  {
    hide Run, CoreRun, JudgeAll, DaysOf;
    var evs, a := NegativeOpening(p), FreshAccount(account, p, day);
    ModesDifferOnlyBelowZero(raw, p, account, day, evs);
    RunIsLedgerThenJudge(p, a, evs);
    var ms := CoreRun(p.Cfg(), a.core, evs).moments;
    TraceOfNegativeOpening(p, account, day);
    LastDayUnseen(p, a.flags, ms);
  }

  /** Under an intraday pack a day without a sample is logged unbreached. */
  lemma LastDayUnseen(p: CompiledPack, f: Flags, ms: seq<Moment>)
    requires p.dailyBreachIntraday && |ms| >= 2 && ms[|ms| - 2].DayEnd? && ms[|ms| - 1].DayEnd?
    ensures var done := DaysOf(JudgeAll(p, f, ms).verdicts).done;
            done != [] && done[|done| - 1].start == ms[|ms| - 1].o.startEquity && !done[|done| - 1].breached
  {
    hide JudgeAll, DaysOf, CompiledPack.DailyFloor;
    var n := |ms|;
    assert ms == ms[..n - 1] + [ms[n - 1]] && ms[..n - 1] == ms[..n - 2] + [ms[n - 2]];
    ReadSnoc(p, f, ms[..n - 2], ms[n - 2]);
    ReadSnoc(p, f, ms[..n - 1], ms[n - 1]);
  }

  // ----- the basis -------------------------------------------------------------------------------

  /** The same pack on the other basis. */
  function OtherBasis(p: CompiledPack): CompiledPack {
    p.(dailyBasisEquity := !p.dailyBasisEquity)
  }

  lemma {:induction false} JudgesAlike(p: CompiledPack, f: Flags, ms: seq<Moment>)
    requires !p.dailyBreachIntraday
    ensures JudgeAll(OtherBasis(p), f, ms) == JudgeAll(p, f, ms)
  {
    if ms != [] {
      var init, m := ms[..|ms| - 1], ms[|ms| - 1];
      JudgesAlike(p, f, init);
      OneAlike(p, JudgeAll(p, f, init).flags, m);
      hide JudgeOne;
    }
  }

  lemma OneAlike(p: CompiledPack, f: Flags, m: Moment)
    requires !p.dailyBreachIntraday
    ensures JudgeOne(OtherBasis(p), f, m) == JudgeOne(p, f, m)
  {
    hide MakeVerdict;
    var q := OtherBasis(p);
    assert q.DailyFloor(m.o.startEquity) == p.DailyFloor(m.o.startEquity);
    assert q.OverallFloor(m.o.hwm) == p.OverallFloor(m.o.hwm) && q.TargetLevel() == p.TargetLevel();
    match m
    case Sample(o, ev) => assert JudgeSample(q, f, o, ev) == JudgeSample(p, f, o, ev);
    case DayEnd(o, ev, counter) => assert JudgeDayEnd(q, f, o, ev, counter) == JudgeDayEnd(p, f, o, ev, counter);
    case _ =>
  }

  /** An end-of-day pack judges equity whatever its basis says: every run is the same on either basis. */
  lemma EodIgnoresBasis(p: CompiledPack, account: string, day: string, evs: seq<Event>)
    requires !p.dailyBreachIntraday
    ensures Run(OtherBasis(p), FreshAccount(account, OtherBasis(p), day), evs) ==
            Run(p, FreshAccount(account, p, day), evs)
  {
    hide Run, JudgeAll, CoreRun;
    var a := FreshAccount(account, p, day);
    RunIsLedgerThenJudge(p, a, evs);
    RunIsLedgerThenJudge(OtherBasis(p), a, evs);
    JudgesAlike(p, a.flags, CoreRun(p.Cfg(), a.core, evs).moments);
  }
}
