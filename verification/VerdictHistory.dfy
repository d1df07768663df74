/** What a verdict log can contain over a whole run: how often each verdict, and what each one proves. */
module VerdictHistory {
  import opened Options
  import opened Events
  import opened Pack
  import opened State
  import opened Verdicts
  import opened Ledger
  import opened Judge
  import opened AtLeastOnce
  import opened DayLog
  import opened Trace
  import opened Conservation
  import opened Journal
  import Eval
  import PackDivergence
  import PackMonotonicity

  // ----- counting --------------------------------------------------------------------------------

  /** Number of verdicts of a rule, on one date if one is given. */
  function Count(vs: seq<Verdict>, rule: RuleId, date: Option<string>): nat {
    if vs == [] then 0
    else
      var v := vs[|vs| - 1];
      Count(vs[..|vs| - 1], rule, date) + if v.rule == rule && (date.None? || date.value == v.day) then 1 else 0
  }

  lemma {:induction false} CountAppend(x: seq<Verdict>, y: seq<Verdict>, rule: RuleId, date: Option<string>)
    ensures Count(x + y, rule, date) == Count(x, rule, date) + Count(y, rule, date)
  {
    if y == [] {
      assert x + y == x;
    } else {
      var n := |y| - 1;
      CountAppend(x, y[..n], rule, date);
      assert (x + y)[..|x| + n] == x + y[..n];
    }
  }

  lemma {:induction false} CountNone(vs: seq<Verdict>, rule: RuleId, date: Option<string>)
    requires forall v <- vs :: v.rule != rule
    ensures Count(vs, rule, date) == 0
  {
    if vs != [] {
      CountNone(vs[..|vs| - 1], rule, date);
    }
  }

  lemma CountOne(v: Verdict, rule: RuleId, date: Option<string>)
    ensures Count([v], rule, date) == if v.rule == rule && (date.None? || date.value == v.day) then 1 else 0
    ensures Count([], rule, date) == 0
  {
    assert [v][..0] == [];
  }

  function One(b: bool): nat { if b then 1 else 0 }

  /** Whether a moment breaches the daily rule. */
  predicate DailyAt(p: CompiledPack, f: Flags, m: Moment) {
    match m
    case Sample(o, _) => DailyFires(p, f, o)
    case DayEnd(o, _, _) => EodFires(p, f, o)
    case _ => false
  }

  predicate OverallAt(p: CompiledPack, f: Flags, m: Moment) {
    m.Sample? && !DailyFires(p, f, m.o) && OverallFires(p, f, m.o)
  }

  predicate TargetAt(p: CompiledPack, f: Flags, m: Moment) {
    m.Sample? && !DailyFires(p, f, m.o) && TargetFires(p, f, m.o)
  }

  /** One judged moment: how many verdicts of each rule it emits, and what it does to the flags. */
  lemma MomentCounts(p: CompiledPack, f: Flags, m: Moment, date: Option<string>)
    ensures var j := JudgeOne(p, f, m);
            && Count(j.verdicts, DailyMaxLoss, date) == One(DailyAt(p, f, m) && (date.None? || date.value == m.o.date))
            && Count(j.verdicts, MaxOverallLoss, None) == One(OverallAt(p, f, m))
            && Count(j.verdicts, ProfitTarget, None) == One(TargetAt(p, f, m))
            && j.flags.overallBreached == (f.overallBreached || OverallAt(p, f, m))
            && j.flags.targetReached == (f.targetReached || TargetAt(p, f, m))
            && j.flags.dailyBreached == (!m.DayEnd? && (f.dailyBreached || DailyAt(p, f, m)))
            && j.flags.packVersion == f.packVersion
  {
    hide DailyFires, EodFires, OverallFires, TargetFires, DailyVerdict, OverallVerdicts, TargetVerdicts, EodVerdicts,
         RolloverVerdict, Count;
    var vs := JudgeOne(p, f, m).verdicts;
    match m
    case Sample(o, ev) =>
      if DailyFires(p, f, o) {
        FiredCounts(p, f, o, ev, date);
      } else {
        SampleCounts(p, f, o, ev, date);
      }
    case DayEnd(o, ev, counter) =>
      DayEndCounts(p, f, o, ev, counter, date);
    case _ =>
      CountNone(vs, DailyMaxLoss, date);
      CountNone(vs, MaxOverallLoss, None);
      CountNone(vs, ProfitTarget, None);
  }

  lemma FiredCounts(p: CompiledPack, f: Flags, o: Obs, ev: Event, date: Option<string>)
    ensures var vs := [DailyVerdict(p, f, o, ev)];
            && Count(vs, DailyMaxLoss, date) == One(date.None? || date.value == o.date)
            && Count(vs, MaxOverallLoss, None) == 0 && Count(vs, ProfitTarget, None) == 0
  {
    hide CompiledPack.DailyFloor;
    var v := DailyVerdict(p, f, o, ev);
    CountOne(v, DailyMaxLoss, date);
    CountOne(v, MaxOverallLoss, None);
    CountOne(v, ProfitTarget, None);
  }

  lemma OverallCounts(p: CompiledPack, f: Flags, o: Obs, ev: Event)
    ensures var vs := OverallVerdicts(p, f, o, ev);
            && (forall v <- vs :: v.rule == MaxOverallLoss)
            && Count(vs, MaxOverallLoss, None) == One(OverallFires(p, f, o))
  {
    hide CompiledPack.OverallFloor, OverallFires;
    var vs := OverallVerdicts(p, f, o, ev);
    if vs != [] {
      CountOne(vs[0], MaxOverallLoss, None);
    }
  }

  lemma TargetCounts(p: CompiledPack, f: Flags, o: Obs, ev: Event)
    ensures var vs := TargetVerdicts(p, f, o, ev);
            && (forall v <- vs :: v.rule == ProfitTarget)
            && Count(vs, ProfitTarget, None) == One(TargetFires(p, f, o))
  {
    hide CompiledPack.TargetLevel, TargetFires;
    var vs := TargetVerdicts(p, f, o, ev);
    if vs != [] {
      CountOne(vs[0], ProfitTarget, None);
    }
  }

  lemma SampleCounts(p: CompiledPack, f: Flags, o: Obs, ev: Event, date: Option<string>)
    ensures var vs := OverallVerdicts(p, f, o, ev) + TargetVerdicts(p, f, o, ev);
            && Count(vs, DailyMaxLoss, date) == 0
            && Count(vs, MaxOverallLoss, None) == One(OverallFires(p, f, o))
            && Count(vs, ProfitTarget, None) == One(TargetFires(p, f, o))
  {
    hide OverallVerdicts, TargetVerdicts, OverallFires, TargetFires, Count;
    var x, y := OverallVerdicts(p, f, o, ev), TargetVerdicts(p, f, o, ev);
    OverallCounts(p, f, o, ev);
    TargetCounts(p, f, o, ev);
    CountNone(x + y, DailyMaxLoss, date);
    CountAppend(x, y, MaxOverallLoss, None);
    CountAppend(x, y, ProfitTarget, None);
    CountNone(x, ProfitTarget, None);
    CountNone(y, MaxOverallLoss, None);
  }

  lemma DayEndCounts(p: CompiledPack, f: Flags, o: Obs, ev: Event, counter: nat, date: Option<string>)
    ensures var vs := JudgeDayEnd(p, f, o, ev, counter).verdicts;
            && Count(vs, DailyMaxLoss, date) == One(EodFires(p, f, o) && (date.None? || date.value == o.date))
            && Count(vs, MaxOverallLoss, None) == 0 && Count(vs, ProfitTarget, None) == 0
  {
    hide CompiledPack.DailyFloor, EodFires;
    var x, info := EodVerdicts(p, f, o, ev), RolloverVerdict(f.packVersion, o, ev, counter);
    CountAppend(x, [info], DailyMaxLoss, date);
    CountOne(info, DailyMaxLoss, date);
    if x != [] {
      CountOne(x[0], DailyMaxLoss, date);
    }
    CountNone(x + [info], MaxOverallLoss, None);
    CountNone(x + [info], ProfitTarget, None);
  }

  // ----- once per account ------------------------------------------------------------------------

  lemma {:induction false} OnceCounts(p: CompiledPack, f: Flags, ms: seq<Moment>)
    ensures var j := JudgeAll(p, f, ms);
            && Count(j.verdicts, MaxOverallLoss, None) + One(f.overallBreached) == One(j.flags.overallBreached)
            && Count(j.verdicts, ProfitTarget, None) + One(f.targetReached) == One(j.flags.targetReached)
  {
    hide JudgeOne, DailyFires, CompiledPack.OverallFloor, CompiledPack.TargetLevel;
    if ms != [] {
      var init, m := ms[..|ms| - 1], ms[|ms| - 1];
      OnceCounts(p, f, init);
      var j := JudgeAll(p, f, init);
      MomentCounts(p, j.flags, m, None);
      CountAppend(j.verdicts, JudgeOne(p, j.flags, m).verdicts, MaxOverallLoss, None);
      CountAppend(j.verdicts, JudgeOne(p, j.flags, m).verdicts, ProfitTarget, None);
    }
  }

  /**
   * Over a whole run the log holds one MaxOverallLoss verdict if the account is flagged breached and
   * none otherwise, and likewise one ProfitTarget verdict.
   */
  lemma OncePerAccount(p: CompiledPack, account: string, day: string, evs: seq<Event>)
    ensures var r := Run(p, FreshAccount(account, p, day), evs);
            && Count(r.verdicts, MaxOverallLoss, None) == One(r.account.flags.overallBreached)
            && Count(r.verdicts, ProfitTarget, None) == One(r.account.flags.targetReached)
  {
    hide Run, JudgeAll, CoreRun;
    var a := FreshAccount(account, p, day);
    RunIsLedgerThenJudge(p, a, evs);
    OnceCounts(p, a.flags, CoreRun(p.Cfg(), a.core, evs).moments);
  }

  // ----- once per date ---------------------------------------------------------------------------

  /** A day's allowance: one breach for the initial day, one for having been rolled to. */
  ghost function Allowance(initialDay: string, seen: set<string>, d: string): nat {
    One(d == initialDay) + One(DayKey(d) in seen)
  }

  /** Judging within a day emits its DailyMaxLoss at most once, by raising the flag. */
  lemma {:induction false} WithinDayCounts(p: CompiledPack, f: Flags, c: Core, ms: seq<Moment>, d: string)
    requires WithinDay(c, ms)
    ensures var j := JudgeAll(p, f, ms);
            Count(j.verdicts, DailyMaxLoss, Some(d)) + One(c.day.date == d && !j.flags.dailyBreached) ==
            One(c.day.date == d && !f.dailyBreached)
  {
    hide JudgeOne, CompiledPack.DailyFloor;
    if ms != [] {
      var init, m := ms[..|ms| - 1], ms[|ms| - 1];
      assert m in ms;
      WithinDayCounts(p, f, c, init, d);
      var j := JudgeAll(p, f, init);
      MomentCounts(p, j.flags, m, Some(d));
      CountAppend(j.verdicts, JudgeOne(p, j.flags, m).verdicts, DailyMaxLoss, Some(d));
    }
  }

  lemma {:induction false} DailyWithinAllowance(p: CompiledPack, a: Account, evs: seq<Event>, d: string)
    requires a == FreshAccount(a.core.account, p, a.core.day.date)
    ensures var r := Run(p, a, evs);
            Count(r.verdicts, DailyMaxLoss, Some(d)) +
            One(r.account.core.day.date == d && !r.account.flags.dailyBreached) <=
            Allowance(a.core.day.date, r.account.core.seen, d)
  {
    hide CoreStep, DedupKey, JudgeOne, WithinDay, EquityOf, CompiledPack.DailyFloor;
    if evs != [] {
      var init, last := evs[..|evs| - 1], evs[|evs| - 1];
      DailyWithinAllowance(p, a, init, d);
      var r := Run(p, a, init);
      StepSees(p.Cfg(), r.account.core, last);
      StepMoments(p.Cfg(), r.account.core, last);
      var ms := CoreStep(p.Cfg(), r.account.core, last).moments;
      var step := Step(p, r.account, last);
      CountAppend(r.verdicts, step.out.verdicts, DailyMaxLoss, Some(d));
      if Rolls(r.account.core, last) {
        assert DedupKey(last) == DayKey(last.date) by { RolloverKey(last); }
        Eval.JudgeSingle(p, r.account.flags, ms[0]);
        MomentCounts(p, r.account.flags, ms[0], Some(d));
        DayKeyInjective(d, last.date);
      } else {
        WithinDayCounts(p, r.account.flags, r.account.core, ms, d);
      }
    }
  }

  lemma RolloverKey(ev: Event)
    requires ev.Rollover?
    ensures DedupKey(ev) == DayKey(ev.date)
  {
  }

  lemma DayKeyInjective(d: string, e: string)
    ensures DayKey(d) == DayKey(e) <==> d == e
  {
    assert DayKey(d)[4..] == d && DayKey(e)[4..] == e;
  }

  /** Some rollover of the stream names the date. */
  ghost predicate RolledTo(evs: seq<Event>, d: string) {
    exists e <- evs :: e.Rollover? && e.date == d
  }

  lemma DayKeySeen(evs: seq<Event>, d: string)
    ensures DayKey(d) in Keys(evs) <==> RolledTo(evs, d)
  {
    var probe := Rollover("", 0, 0, d);
    forall e | e in evs ensures DedupKey(e) == DayKey(d) <==> e.Rollover? && e.date == d {
      DedupKeyIdentifies(e, probe);
    }
  }

  /** The completed days of a date that were logged as breached. */
  function BreachedDays(days: seq<Day>, date: string): nat {
    if days == [] then 0
    else
      var last := days[|days| - 1];
      BreachedDays(days[..|days| - 1], date) + One(last.date == date && last.breached)
  }

  /** A log's count for a date: one per breached day of it, and one if today is breached and of that date. */
  predicate CountIs(j: Judged, d: string, today: bool) {
    && DaysOf(j.verdicts).breachedToday == j.flags.dailyBreached
    && Count(j.verdicts, DailyMaxLoss, Some(d)) ==
       BreachedDays(DaysOf(j.verdicts).done, d) + One(today && j.flags.dailyBreached)
  }

  /** One more moment: a breach it finds is the day's first, and a day it ends is logged with its breach. */
  lemma DailyCountSnoc(p: CompiledPack, f: Flags, ms: seq<Moment>, m: Moment, d: string)
    requires CountIs(JudgeAll(p, f, ms), d, m.o.date == d)
    ensures CountIs(JudgeAll(p, f, ms + [m]), d, !m.DayEnd? && m.o.date == d)
  {
    hide JudgeAll, JudgeOne, DaysOf, CompiledPack.DailyFloor, Count;
    var j := JudgeAll(p, f, ms);
    JudgeSnoc(p, f, ms, m);
    ReadSnoc(p, f, ms, m);
    MomentCounts(p, j.flags, m, Some(d));
    CountAppend(j.verdicts, JudgeOne(p, j.flags, m).verdicts, DailyMaxLoss, Some(d));
    if m.DayEnd? {
      var done := DaysOf(j.verdicts).done;
      var day := Day(m.o.date, m.o.startEquity, DaysOf(j.verdicts).breachedToday || EodFires(p, j.flags, m.o));
      assert (done + [day])[..|done|] == done;
    }
  }

  lemma {:induction false} DailyCount(p: CompiledPack, f: Flags, day: DayStart, hwm: real, ms: seq<Moment>, d: string)
    requires !f.dailyBreached && Chained(day, hwm, ms)
    ensures CountIs(JudgeAll(p, f, ms), d, DayAfter(day, ms).date == d)
  {
    hide JudgeAll, DaysOf, Count;
    if ms == [] {
      TallyStart(p, f);
      PackMonotonicity.NothingJudged(p, f);
      CountNone([], DailyMaxLoss, Some(d));
    } else {
      var init, m := ms[..|ms| - 1], ms[|ms| - 1];
      assert ms == init + [m];
      DailyCount(p, f, day, hwm, init, d);
      DailyCountSnoc(p, f, init, m, d);
      DailyFlagsSnoc(p, f, init, m);
    }
  }

  /**
   * How many DailyMaxLoss verdicts a date has: one per completed day of that date logged as breached, and one if
   * it is the current day and breached. So at most one, or two for an initial day that a rollover names again.
   */
  lemma DailyLossPerDate(p: CompiledPack, account: string, day: string, evs: seq<Event>, d: string)
    ensures var r := Run(p, FreshAccount(account, p, day), evs);
            && Count(r.verdicts, DailyMaxLoss, Some(d)) ==
               BreachedDays(DaysOf(r.verdicts).done, d) +
               One(r.account.core.day.date == d && r.account.flags.dailyBreached)
            && Count(r.verdicts, DailyMaxLoss, Some(d)) <= One(d == day) + One(RolledTo(evs, d))
  {
    hide Run, DedupKey, Keys, DayKey, RolledTo, JudgeAll, CoreRun;
    var a := FreshAccount(account, p, day);
    DailyWithinAllowance(p, a, evs, d);
    RunIsLedgerThenJudge(p, a, evs);
    RunSees(p.Cfg(), a.core, evs);
    DayKeySeen(evs, d);
    RunIsChained(p.Cfg(), a.core, evs);
    DailyCount(p, a.flags, DayStart(a.core.day.startEquity, a.core.day.date), a.core.hwm,
               CoreRun(p.Cfg(), a.core, evs).moments, d);
  }

  // ----- the initial day, twice ------------------------------------------------------------------

  /** An equity that is negative and under the first day's floor. */
  function Low(p: CompiledPack): real {
    RMin(p.DailyFloor(p.startBalance), 0.0) - 1.0
  }

  /** The account drops to the low, a rollover names the first day again, and a sample and another rollover follow. */
  function FirstDayAgain(p: CompiledPack, day: string): seq<Event> {
    [PackMonotonicity.Adjust("a", Low(p) - p.startBalance), Rollover("b", 0, 0, day), PackMonotonicity.Adjust("c", 0.0),
     Rollover("d", 0, 0, day + "x")]
  }

  lemma KeysOfFirstDayAgain(p: CompiledPack, day: string)
    ensures var evs := FirstDayAgain(p, day);
            forall i, j :: 0 <= i < j < 4 ==> DedupKey(evs[i]) != DedupKey(evs[j])
  {
    var evs := FirstDayAgain(p, day);
    DedupKeyIdentifies(evs[0], evs[1]);
    DedupKeyIdentifies(evs[0], evs[2]);
    DedupKeyIdentifies(evs[0], evs[3]);
    DedupKeyIdentifies(evs[1], evs[2]);
    DedupKeyIdentifies(evs[1], evs[3]);
    DedupKeyIdentifies(evs[2], evs[3]);
    assert |day + "x"| != |day|;
    assert "a"[0] != "c"[0];
  }

  /** A sample and the end of its day, both of the day that started at `start` on `date`. */
  predicate DayOf(first: Moment, last: Moment, start: real, date: string, equity: real) {
    && first.Sample? && first.o.startEquity == start && first.o.date == date
    && first.o.equity == equity && first.o.balance == equity
    && last.DayEnd? && last.o.startEquity == start && last.o.date == date && last.o.equity == equity
  }

  /** An adjustment and a rollover of an account without positions make such a day. */
  lemma AdjustAndTurn(cfg: Settings, c: Core, id: string, amount: real, turn: Event)
    returns (first: Moment, last: Moment)
    requires c.book.positions == map[] && turn.Rollover?
    requires DedupKey(PackMonotonicity.Adjust(id, amount)) !in c.seen && DedupKey(turn) !in c.seen
    requires DedupKey(PackMonotonicity.Adjust(id, amount)) != DedupKey(turn)
    ensures var s := CoreStep(cfg, c, PackMonotonicity.Adjust(id, amount));
            var r := CoreStep(cfg, s.core, turn);
            && s.moments == [first] && r.moments == [last]
            && DayOf(first, last, c.day.startEquity, c.day.date, c.book.balance + amount)
            && r.core.book.positions == map[] && r.core.book.balance == c.book.balance + amount
            && r.core.day.startEquity == c.book.balance + amount && r.core.day.date == turn.date
            && r.core.seen == c.seen + {DedupKey(PackMonotonicity.Adjust(id, amount)), DedupKey(turn)}
  {
    hide DedupKey, EquityOf;
    var s := CoreStep(cfg, c, PackMonotonicity.Adjust(id, amount));
    PackMonotonicity.FlatEquity(s.core);
    first := s.moments[0];
    last := CoreStep(cfg, s.core, turn).moments[0];
  }

  /** A day that has a sample under its floor is logged breached, whenever the pack judges it. */
  lemma LostDay(p: CompiledPack, f: Flags, ms: seq<Moment>, first: Moment, last: Moment, start: real, date: string,
                equity: real)
    requires DayOf(first, last, start, date, equity) && equity < p.DailyFloor(start)
    requires var t := TallyOf(JudgeAll(p, f, ms)); !t.breached && !t.days.breachedToday
    ensures var t, u := TallyOf(JudgeAll(p, f, ms)), TallyOf(JudgeAll(p, f, ms + [first] + [last]));
            u.days.done == t.days.done + [Day(date, start, true)] && !u.breached && !u.days.breachedToday
  {
    hide JudgeAll, TallyOf, CompiledPack.DailyFloor;
    TallySnoc(p, f, ms, first);
    TallySnoc(p, f, ms + [first], last);
  }

  /** The trace of that stream: two days of one date, the second one opening at the low and staying there. */
  lemma TraceOfFirstDayAgain(p: CompiledPack, account: string, day: string)
    returns (m1: Moment, m2: Moment, m3: Moment, m4: Moment)
    ensures var r := CoreRun(p.Cfg(), FreshCore(account, p.startBalance, day), FirstDayAgain(p, day));
            && r.moments == [m1] + [m2] + [m3] + [m4]
            && DayOf(m1, m2, p.startBalance, day, Low(p)) && DayOf(m3, m4, Low(p), day, Low(p))
            && r.core.day.date == day + "x"
  {
    hide DedupKey, EquityOf, CoreStep, CoreRun, Low;
    var cfg, c, evs := p.Cfg(), FreshCore(account, p.startBalance, day), FirstDayAgain(p, day);
    KeysOfFirstDayAgain(p, day);
    assert CoreRun(cfg, c, []) == CoreResult(c, [], [], false) by { Evidently(cfg, c); }
    var one, two, three := [] + [evs[0]], [] + [evs[0]] + [evs[1]], [] + [evs[0]] + [evs[1]] + [evs[2]];
    assert evs == three + [evs[3]];
    PackDivergence.RunSnoc(cfg, c, [], evs[0]);
    PackDivergence.RunSnoc(cfg, c, one, evs[1]);
    PackDivergence.RunSnoc(cfg, c, two, evs[2]);
    PackDivergence.RunSnoc(cfg, c, three, evs[3]);
    m1, m2 := AdjustAndTurn(cfg, c, "a", Low(p) - p.startBalance, evs[1]);
    m3, m4 := AdjustAndTurn(cfg, CoreRun(cfg, c, two).core, "c", 0.0, evs[3]);
  }

  lemma Evidently(cfg: Settings, c: Core)
    ensures CoreRun(cfg, c, []) == CoreResult(c, [], [], false)
  {
  }

  lemma LowIsLost(p: CompiledPack)
    requires p.dailyLossPct > 0.0
    ensures Low(p) < p.DailyFloor(p.startBalance) && Low(p) < p.DailyFloor(Low(p))
  {
    StartBelowFloorIffNegative(Low(p), p.dailyLossPct);
  }

  /** Every pack has a stream that breaches the initial date twice: a rollover may name it again. */
  lemma InitialDayBreachedTwice(p: CompiledPack, account: string, day: string)
    requires p.dailyLossPct > 0.0
    ensures Count(Run(p, FreshAccount(account, p, day), FirstDayAgain(p, day)).verdicts, DailyMaxLoss, Some(day)) == 2
  {
    hide Run, CoreRun, JudgeAll, TallyOf, Count, Low, CompiledPack.DailyFloor, BreachedDays;
    var a, evs := FreshAccount(account, p, day), FirstDayAgain(p, day);
    var m1, m2, m3, m4 := TraceOfFirstDayAgain(p, account, day);
    LowIsLost(p);
    TallyStart(p, a.flags);
    LostDay(p, a.flags, [], m1, m2, p.startBalance, day, Low(p));
    var ms := [] + [m1] + [m2];
    LostDay(p, a.flags, ms, m3, m4, Low(p), day, Low(p));
    assert [m1] + [m2] + [m3] + [m4] == ms + [m3] + [m4];
    RunIsLedgerThenJudge(p, a, evs);
    LoggedTwice(p, account, day, evs);
  }

  lemma LoggedTwice(p: CompiledPack, account: string, day: string, evs: seq<Event>)
    requires var r := Run(p, FreshAccount(account, p, day), evs);
             var t := TallyOf(JudgeAll(p, FreshFlags(p),
                                       CoreRun(p.Cfg(), FreshCore(account, p.startBalance, day), evs).moments));
             && t.days.done == [] + [Day(day, p.startBalance, true)] + [Day(day, Low(p), true)]
             && r.account.core.day.date != day
    ensures Count(Run(p, FreshAccount(account, p, day), evs).verdicts, DailyMaxLoss, Some(day)) == 2
  {
    hide Run, CoreRun, JudgeAll, DaysOf, Count, Low;
    DailyLossPerDate(p, account, day, evs, day);
    RunIsLedgerThenJudge(p, FreshAccount(account, p, day), evs);
    var one, two := [Day(day, p.startBalance, true)], [Day(day, p.startBalance, true), Day(day, Low(p), true)];
    assert two[..1] == one && one[..0] == [] && [] + [one[0]] + [two[1]] == two;
    assert BreachedDays(one, day) == 1;
    assert BreachedDays(two, day) == 2;
  }

  // ----- flags never fall ------------------------------------------------------------------------

  lemma {:induction false} JudgedFlagsRise(p: CompiledPack, f: Flags, ms: seq<Moment>)
    ensures var g := JudgeAll(p, f, ms).flags;
            && (f.overallBreached ==> g.overallBreached) && (f.targetReached ==> g.targetReached)
            && ((forall m <- ms :: !m.DayEnd?) ==> f.dailyBreached ==> g.dailyBreached)
  {
    hide JudgeOne;
    if ms != [] {
      var init, m := ms[..|ms| - 1], ms[|ms| - 1];
      JudgedFlagsRise(p, f, init);
      assert m in ms;
      MomentCounts(p, JudgeAll(p, f, init).flags, m, None);
    }
  }

  /** Overall breach and target hold for good; a daily breach holds until a rollover is accepted. */
  lemma FlagsNeverFall(p: CompiledPack, a: Account, ev: Event)
    ensures var next := Step(p, a, ev).next.flags;
            && (a.flags.overallBreached ==> next.overallBreached) && (a.flags.targetReached ==> next.targetReached)
            && (!Rolls(a.core, ev) ==> a.flags.dailyBreached ==> next.dailyBreached)
  {
    hide CoreStep, JudgeAll, Rolls;
    JudgedFlagsRise(p, a.flags, CoreStep(p.Cfg(), a.core, ev).moments);
    StepMoments(p.Cfg(), a.core, ev);
  }

  // ----- the target waits for its trading days ---------------------------------------------------

  predicate TargetWaits(p: CompiledPack, a: Account) {
    a.flags.targetReached ==> a.core.dayCounter >= p.minTradingDays
  }

  lemma {:induction false} TargetNeedsCounter(p: CompiledPack, f: Flags, c: Core, ms: seq<Moment>)
    requires forall m <- ms :: m.Sample? ==> m.o.dayCounter == c.dayCounter
    ensures JudgeAll(p, f, ms).flags.targetReached ==> f.targetReached || c.dayCounter >= p.minTradingDays
  {
    hide JudgeOne, CompiledPack.TargetLevel, DailyFires;
    if ms != [] {
      var init, m := ms[..|ms| - 1], ms[|ms| - 1];
      assert m in ms;
      TargetNeedsCounter(p, f, c, init);
      MomentCounts(p, JudgeAll(p, f, init).flags, m, None);
    }
  }

  lemma {:induction false} TargetAlwaysWaits(p: CompiledPack, a: Account, evs: seq<Event>)
    requires TargetWaits(p, a)
    ensures TargetWaits(p, Run(p, a, evs).account)
  {
    hide CoreStep, DedupKey, JudgeAll, EquityOf;
    if evs != [] {
      var init, last := evs[..|evs| - 1], evs[|evs| - 1];
      TargetAlwaysWaits(p, a, init);
      var at := Run(p, a, init).account;
      StepMoments(p.Cfg(), at.core, last);
      TargetNeedsCounter(p, at.flags, at.core, CoreStep(p.Cfg(), at.core, last).moments);
    }
  }

  /** A profit target is only ever reached once enough completed days saw an applied close. */
  lemma TargetNeedsTradedDays(p: CompiledPack, account: string, day: string, evs: seq<Event>)
    ensures var a := FreshAccount(account, p, day);
            Count(Run(p, a, evs).verdicts, ProfitTarget, None) > 0 ==>
            |TradedDays(JournalOf(p.Cfg(), a.core, evs))| >= p.minTradingDays
  {
    hide Run, TradedDays, JournalOf;
    TargetAlwaysWaits(p, FreshAccount(account, p, day), evs);
    OncePerAccount(p, account, day, evs);
    TradingDays(p, account, day, evs);
  }
}
