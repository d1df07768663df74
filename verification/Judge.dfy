/**
 * The threshold half of the evaluator: a pack judges the moments of a ledger run. Together with
 * `Ledger` this is the reference the evaluator class is proved against.
 */
module Judge {
  import opened Options
  import opened Events
  import opened Pack
  import opened Verdicts
  import opened Ledger

  datatype Flags = Flags(packVersion: string, worstEquity: real, dailyBreached: bool, overallBreached: bool,
                         targetReached: bool)

  datatype Judged = Judged(flags: Flags, verdicts: seq<Verdict>)

  function FreshFlags(p: CompiledPack): Flags {
    Flags(p.packId, p.startBalance, false, false, false)
  }

  /** The intraday daily rule fires at this sample; it then hides the two rules after it. */
  predicate DailyFires(p: CompiledPack, f: Flags, o: Obs) {
    p.dailyBreachIntraday && !f.dailyBreached &&
    (if p.dailyBasisEquity then o.equity else o.balance) < p.DailyFloor(o.startEquity)
  }

  predicate OverallFires(p: CompiledPack, f: Flags, o: Obs) {
    !f.overallBreached && o.equity < p.OverallFloor(o.hwm)
  }

  predicate TargetFires(p: CompiledPack, f: Flags, o: Obs) {
    !f.targetReached && o.dayCounter >= p.minTradingDays && o.equity >= p.TargetLevel()
  }

  function DailyVerdict(p: CompiledPack, f: Flags, o: Obs, ev: Event): Verdict {
    MakeVerdict(f.packVersion, o, ev, DailyMaxLoss, Breach,
                NoInputs.(threshold := Some(p.DailyFloor(o.startEquity)), startEquity := Some(o.startEquity)))
  }

  function OverallVerdicts(p: CompiledPack, f: Flags, o: Obs, ev: Event): seq<Verdict> {
    if !OverallFires(p, f, o) then []
    else [MakeVerdict(f.packVersion, o, ev, MaxOverallLoss, Breach,
                      NoInputs.(threshold := Some(p.OverallFloor(o.hwm)), hwm := Some(o.hwm),
                                startEquity := Some(o.startEquity), startBalance := Some(o.startBalance)))]
  }

  function TargetVerdicts(p: CompiledPack, f: Flags, o: Obs, ev: Event): seq<Verdict> {
    if !TargetFires(p, f, o) then []
    else [MakeVerdict(f.packVersion, o, ev, ProfitTarget, TargetReached,
                      NoInputs.(threshold := Some(p.TargetLevel()), dayCounter := Some(o.dayCounter)))]
  }

  function JudgeSample(p: CompiledPack, f: Flags, o: Obs, ev: Event): Judged {
    var worst := if p.dailyBreachIntraday then f.worstEquity else RMin(f.worstEquity, o.equity);
    if DailyFires(p, f, o) then
      Judged(f.(worstEquity := worst, dailyBreached := true), [DailyVerdict(p, f, o, ev)])
    else
      Judged(f.(worstEquity := worst,
                overallBreached := f.overallBreached || OverallFires(p, f, o),
                targetReached := f.targetReached || TargetFires(p, f, o)),
             OverallVerdicts(p, f, o, ev) + TargetVerdicts(p, f, o, ev))
  }

  /** The end-of-day rule fires at the rollover. */
  predicate EodFires(p: CompiledPack, f: Flags, o: Obs) {
    !p.dailyBreachIntraday && !f.dailyBreached && f.worstEquity < p.DailyFloor(o.startEquity)
  }

  function EodVerdicts(p: CompiledPack, f: Flags, o: Obs, ev: Event): seq<Verdict> {
    if !EodFires(p, f, o) then []
    else [MakeVerdict(f.packVersion, o, ev, DailyMaxLoss, Breach,
                      NoInputs.(equity := Some(f.worstEquity), threshold := Some(p.DailyFloor(o.startEquity)),
                                startEquity := Some(o.startEquity)))]
  }

  function RolloverVerdict(packVersion: string, o: Obs, ev: Event, counter: nat): Verdict {
    MakeVerdict(packVersion, o, ev, DayRollover, Info,
                NoInputs.(dayCounter := Some(counter), dayPnl := Some(o.equity - o.startEquity),
                          symbol := Some(o.date)))
  }

  function JudgeDayEnd(p: CompiledPack, f: Flags, o: Obs, ev: Event, counter: nat): Judged {
    Judged(f.(worstEquity := o.equity, dailyBreached := false),
           EodVerdicts(p, f, o, ev) + [RolloverVerdict(f.packVersion, o, ev, counter)])
  }

  function Repeat<T>(x: T, n: nat): seq<T> {
    seq(n, _ => x)
  }

  lemma RepeatIs<T>(xs: seq<T>, x: T)
    requires forall y <- xs :: y == x
    ensures xs == Repeat(x, |xs|)
  {
    assert forall i :: 0 <= i < |xs| ==> xs[i] in xs;
  }

  function JudgeOne(p: CompiledPack, f: Flags, m: Moment): Judged {
    match m
    case Sample(o, ev) => JudgeSample(p, f, o, ev)
    case NewsHit(o, ev, symbol, w) =>
      Judged(f, [MakeVerdict(f.packVersion, o, ev, NewsRule, if p.news.prePositionedFlag then Flagged else Breach,
                             NewsInputs(symbol, w))])
    case PrePositioned(o, ev, symbol, w, count) =>
      Judged(f, Repeat(MakeVerdict(f.packVersion, o, ev, NewsPrePositioned, Flagged, NewsInputs(symbol, w)), count))
    case DayEnd(o, ev, counter) => JudgeDayEnd(p, f, o, ev, counter)
  }

  function JudgeAll(p: CompiledPack, f: Flags, ms: seq<Moment>): Judged {
    if ms == [] then Judged(f, [])
    else
      var init := JudgeAll(p, f, ms[..|ms| - 1]);
      var last := JudgeOne(p, init.flags, ms[|ms| - 1]);
      Judged(last.flags, init.verdicts + last.verdicts)
  }

  lemma JudgeSnoc(p: CompiledPack, f: Flags, ms: seq<Moment>, m: Moment)
    ensures JudgeAll(p, f, ms + [m]) ==
            var init := JudgeAll(p, f, ms);
            var last := JudgeOne(p, init.flags, m);
            Judged(last.flags, init.verdicts + last.verdicts)
  {
    assert (ms + [m])[..|ms|] == ms;
  }

  lemma {:induction false} JudgeAppend(p: CompiledPack, f: Flags, a: seq<Moment>, b: seq<Moment>)
    ensures JudgeAll(p, f, a + b) ==
            var first := JudgeAll(p, f, a);
            var second := JudgeAll(p, first.flags, b);
            Judged(second.flags, first.verdicts + second.verdicts)
  {
    hide JudgeOne;
    if b == [] {
      assert a + b == a;
    } else {
      var n := |b| - 1;
      JudgeAppend(p, f, a, b[..n]);
      JudgeSnoc(p, f, a + b[..n], b[n]);
      JudgeSnoc(p, JudgeAll(p, f, a).flags, b[..n], b[n]);
      assert a + b == a + b[..n] + [b[n]] && b == b[..n] + [b[n]];
    }
  }

  // ----- the whole evaluator ---------------------------------------------------------------------

  datatype Account = Account(core: Core, flags: Flags)

  function FreshAccount(account: string, p: CompiledPack, initialDay: string): Account {
    Account(FreshCore(account, p.startBalance, initialDay), FreshFlags(p))
  }

  datatype Stepped = Stepped(next: Account, out: ApplyResult)

  /** One event: move the ledger, then judge the moments it went through. */
  ghost function Step(p: CompiledPack, a: Account, ev: Event): Stepped {
    var r := CoreStep(p.Cfg(), a.core, ev);
    var j := JudgeAll(p, a.flags, r.moments);
    Stepped(Account(r.core, j.flags), ApplyResult(j.verdicts, r.alerts, r.changed))
  }

  datatype Replayed = Replayed(account: Account, verdicts: seq<Verdict>, alerts: seq<IntegrityAlert>)

  /** A whole stream, event by event. */
  ghost function Run(p: CompiledPack, a: Account, evs: seq<Event>): Replayed {
    if evs == [] then Replayed(a, [], [])
    else
      var init := Run(p, a, evs[..|evs| - 1]);
      var last := Step(p, init.account, evs[|evs| - 1]);
      Replayed(last.next, init.verdicts + last.out.verdicts, init.alerts + last.out.alerts)
  }

  /**
   * Thresholds never reach the ledger: a run is the ledger's run, and its verdicts are the pack's
   * judgment of the moments of that run.
   */
  lemma {:induction false} RunIsLedgerThenJudge(p: CompiledPack, a: Account, evs: seq<Event>)
    ensures var r := Run(p, a, evs);
            var c := CoreRun(p.Cfg(), a.core, evs);
            var j := JudgeAll(p, a.flags, c.moments);
            r == Replayed(Account(c.core, j.flags), j.verdicts, c.alerts)
  {
    if evs != [] {
      var init := evs[..|evs| - 1];
      RunIsLedgerThenJudge(p, a, init);
      var c := CoreRun(p.Cfg(), a.core, init);
      JudgeAppend(p, a.flags, c.moments, CoreStep(p.Cfg(), c.core, evs[|evs| - 1]).moments);
    }
  }
}
