/** Reading days off a verdict log: rollover verdicts close days, daily breaches mark the day they fall in. */
module DayLog {
  import opened Events
  import opened Pack
  import opened Verdicts
  import opened Ledger
  import opened Judge

  /** A completed day: its date, its start equity, and whether a DailyMaxLoss verdict names it. */
  datatype Day = Day(date: string, start: real, breached: bool)

  datatype Days = Days(done: seq<Day>, breachedToday: bool)

  function ReadVerdict(d: Days, v: Verdict): Days {
    match v.rule
    case DailyMaxLoss => d.(breachedToday := true)
    case DayRollover =>
      var start := v.inputs.equity.GetOr(0.0) - v.inputs.dayPnl.GetOr(0.0);
      Days(d.done + [Day(v.day, start, d.breachedToday)], false)
    case _ => d
  }

  function ReadOn(d: Days, vs: seq<Verdict>): Days {
    if vs == [] then d else ReadVerdict(ReadOn(d, vs[..|vs| - 1]), vs[|vs| - 1])
  }

  /** The days a verdict log tells of. */
  function DaysOf(vs: seq<Verdict>): Days {
    ReadOn(Days([], false), vs)
  }

  lemma {:induction false} ReadAppend(d: Days, x: seq<Verdict>, y: seq<Verdict>)
    ensures ReadOn(d, x + y) == ReadOn(ReadOn(d, x), y)
  {
    hide ReadVerdict;
    if y == [] {
      assert x + y == x;
    } else {
      var n := |y| - 1;
      ReadAppend(d, x, y[..n]);
      assert (x + y)[..|x| + n] == x + y[..n];
    }
  }

  lemma {:induction false} ReadNone(d: Days, vs: seq<Verdict>)
    requires forall v <- vs :: !v.rule.DailyMaxLoss? && !v.rule.DayRollover?
    ensures ReadOn(d, vs) == d
  {
    if vs != [] {
      ReadNone(d, vs[..|vs| - 1]);
    }
  }

  /** What one judged moment adds to the days. */
  function DaysStep(p: CompiledPack, f: Flags, d: Days, m: Moment): Days {
    match m
    case Sample(o, _) => if DailyFires(p, f, o) then d.(breachedToday := true) else d
    case DayEnd(o, _, _) => Days(d.done + [Day(o.date, o.startEquity, d.breachedToday || EodFires(p, f, o))], false)
    case _ => d
  }

  lemma ReadOne(d: Days, v: Verdict)
    ensures ReadOn(d, [v]) == ReadVerdict(d, v)
  {
    assert [v][..0] == [] && ReadOn(d, []) == d;
  }

  lemma ReadSample(p: CompiledPack, f: Flags, d: Days, o: Obs, ev: Event)
    ensures ReadOn(d, JudgeSample(p, f, o, ev).verdicts) == if DailyFires(p, f, o) then d.(breachedToday := true) else d
  {
    hide CompiledPack.DailyFloor, CompiledPack.OverallFloor, CompiledPack.TargetLevel, DailyFires, OverallFires,
         TargetFires;
    if DailyFires(p, f, o) {
      ReadOne(d, DailyVerdict(p, f, o, ev));
    } else {
      ReadNone(d, JudgeSample(p, f, o, ev).verdicts);
    }
  }

  lemma ReadDayEnd(p: CompiledPack, f: Flags, d: Days, o: Obs, ev: Event, counter: nat)
    ensures ReadOn(d, JudgeDayEnd(p, f, o, ev, counter).verdicts) ==
            Days(d.done + [Day(o.date, o.startEquity, d.breachedToday || EodFires(p, f, o))], false)
  {
    hide CompiledPack.DailyFloor, EodFires;
    var eod, info := EodVerdicts(p, f, o, ev), RolloverVerdict(f.packVersion, o, ev, counter);
    if eod != [] {
      ReadOne(d, eod[0]);
    }
    ReadAppend(d, eod, [info]);
    ReadOne(ReadOn(d, eod), info);
  }

  lemma ReadJudged(p: CompiledPack, f: Flags, d: Days, m: Moment)
    ensures ReadOn(d, JudgeOne(p, f, m).verdicts) == DaysStep(p, f, d, m)
  {
    hide DailyFires, EodFires, JudgeSample, JudgeDayEnd;
    match m
    case Sample(o, ev) => ReadSample(p, f, d, o, ev);
    case DayEnd(o, ev, counter) => ReadDayEnd(p, f, d, o, ev, counter);
    case _ => ReadNone(d, JudgeOne(p, f, m).verdicts);
  }

  /** The days of a judged trace, moment by moment. */
  lemma ReadSnoc(p: CompiledPack, f: Flags, ms: seq<Moment>, m: Moment)
    ensures var j := JudgeAll(p, f, ms);
            DaysOf(JudgeAll(p, f, ms + [m]).verdicts) == DaysStep(p, j.flags, DaysOf(j.verdicts), m)
  {
    hide JudgeOne, DaysStep, ReadVerdict, ReadOn;
    var j := JudgeAll(p, f, ms);
    JudgeSnoc(p, f, ms, m);
    ReadAppend(Days([], false), j.verdicts, JudgeOne(p, j.flags, m).verdicts);
    ReadJudged(p, j.flags, DaysOf(j.verdicts), m);
  }

  /** The flags after one more moment, as far as the daily rule is concerned. */
  lemma DailyFlagsSnoc(p: CompiledPack, f: Flags, ms: seq<Moment>, m: Moment)
    ensures var j := JudgeAll(p, f, ms);
            var g := JudgeAll(p, f, ms + [m]).flags;
            && g.dailyBreached == (!m.DayEnd? && (j.flags.dailyBreached || (m.Sample? && DailyFires(p, j.flags, m.o))))
            && g.worstEquity == if m.DayEnd? then m.o.equity
                                else if m.Sample? && !p.dailyBreachIntraday then RMin(j.flags.worstEquity, m.o.equity)
                                else j.flags.worstEquity
  {
    hide CompiledPack.DailyFloor, CompiledPack.OverallFloor, CompiledPack.TargetLevel, DailyFires, EodFires,
         OverallFires, TargetFires;
    JudgeSnoc(p, f, ms, m);
  }

  // ----- the daily rule on its own ---------------------------------------------------------------

  /** All the daily rule keeps: the days logged, the day's flag and the day's worst equity. */
  datatype Tally = Tally(days: Days, breached: bool, worst: real)

  function TallyOf(j: Judged): Tally {
    Tally(DaysOf(j.verdicts), j.flags.dailyBreached, j.flags.worstEquity)
  }

  /** The daily rule at one moment, given the day's floor. */
  function TallyStep(intraday: bool, basisEquity: bool, floor: real, t: Tally, m: Moment): Tally {
    match m
    case Sample(o, _) =>
      var fires := intraday && !t.breached && (if basisEquity then o.equity else o.balance) < floor;
      Tally(if fires then t.days.(breachedToday := true) else t.days, t.breached || fires,
            if intraday then t.worst else RMin(t.worst, o.equity))
    case DayEnd(o, _, _) =>
      var fires := !intraday && !t.breached && t.worst < floor;
      Tally(Days(t.days.done + [Day(o.date, o.startEquity, t.days.breachedToday || fires)], false), false, o.equity)
    case _ => t
  }

  lemma TallySnoc(p: CompiledPack, f: Flags, ms: seq<Moment>, m: Moment)
    ensures TallyOf(JudgeAll(p, f, ms + [m])) ==
            TallyStep(p.dailyBreachIntraday, p.dailyBasisEquity, p.DailyFloor(m.o.startEquity),
                      TallyOf(JudgeAll(p, f, ms)), m)
  {
    hide JudgeAll, DaysOf, CompiledPack.DailyFloor;
    ReadSnoc(p, f, ms, m);
    DailyFlagsSnoc(p, f, ms, m);
  }

  lemma TallyStart(p: CompiledPack, f: Flags)
    ensures TallyOf(JudgeAll(p, f, [])) == Tally(Days([], false), f.dailyBreached, f.worstEquity)
  {
  }
}
