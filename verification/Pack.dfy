/** Rule packs (pack.rs): the compiled plan and its threshold helpers, over exact reals. */
module Pack {
  import opened Options

  datatype OverallMode = Static | Trailing

  /** News scope; "*" among the symbols means every symbol, no tiers means every tier. */
  datatype NewsCfg = NewsCfg(enabled: bool, prePositionedFlag: bool, tiers: set<string>, symbols: set<string>) {
    predicate SymbolInScope(symbol: string) {
      "*" in symbols || symbol in symbols
    }

    predicate TierInScope(tier: string) {
      tiers == {} || tier in tiers
    }
  }

  /** The part of a pack that the ledger itself reads: no threshold is among it. */
  datatype Settings = Settings(overallMode: OverallMode, news: NewsCfg, pnlTolerance: real)

  datatype CompiledPack = CompiledPack(
    packId: string, startBalance: real,
    dailyLossPct: real, overallMode: OverallMode, overallLossPct: real, targetPct: real,
    minTradingDays: nat, timeLimitDays: Option<nat>,
    dailyBasisEquity: bool, dailyBreachIntraday: bool,
    news: NewsCfg, pnlTolerance: real)
  {
    function Cfg(): Settings {
      Settings(overallMode, news, pnlTolerance)
    }

    function DailyFloor(dayStart: real): real {
      dayStart * (1.0 - dailyLossPct / 100.0)
    }

    function OverallFloor(hwm: real): real {
      (if overallMode.Static? then startBalance else hwm) * (1.0 - overallLossPct / 100.0)
    }

    function TargetLevel(): real {
      startBalance * (1.0 + targetPct / 100.0)
    }
  }

  /** The raw pack, as far as `compile` inspects it; the news section arrives already compiled. */
  datatype RulePack = RulePack(packId: string, startBalance: real, basis: string, breach: string,
                               maxDailyLossPct: real, overall: OverallCfg, profitTargetPct: real,
                               minTradingDays: nat, timeLimitDays: Option<nat>, news: Option<NewsCfg>,
                               pnlTolerance: Option<real>)

  datatype OverallCfg = OverallCfg(mode: OverallMode, pct: real)

  datatype PackError = PackIdMissing | InvalidBasis(basis: string) | InvalidBreachMode(mode: string)
                     | NonPositiveDailyLoss | NonPositiveTarget

  datatype Compiled = Ok(pack: CompiledPack) | Err(error: PackError)

  function Compile(p: RulePack): Compiled {
    if p.packId == "" then Err(PackIdMissing)
    else if p.basis != "equity" && p.basis != "balance" then Err(InvalidBasis(p.basis))
    else if p.breach != "intraday" && p.breach != "eod" then Err(InvalidBreachMode(p.breach))
    else if p.maxDailyLossPct <= 0.0 then Err(NonPositiveDailyLoss)
    else if p.profitTargetPct <= 0.0 then Err(NonPositiveTarget)
    else Ok(CompiledPack(p.packId, p.startBalance, p.maxDailyLossPct, p.overall.mode, p.overall.pct,
                         p.profitTargetPct, p.minTradingDays, p.timeLimitDays,
                         p.basis == "equity", p.breach == "intraday",
                         p.news.GetOr(NewsCfg(false, true, {}, {})), p.pnlTolerance.GetOr(0.01)))
  }

  /**
   * Which packs compile, and to what: the two switches are spelled out, both percentages that must be positive
   * are, the overall one may be anything; a missing news section switches news off, a missing tolerance is a cent.
   */
  lemma CompilesIff(p: RulePack)
    ensures Compile(p).Ok? <==>
            && |p.packId| > 0 && p.basis in {"equity", "balance"} && p.breach in {"intraday", "eod"}
            && p.maxDailyLossPct > 0.0 && p.profitTargetPct > 0.0
    ensures Compile(p).Ok? ==>
            var c := Compile(p).pack;
            && c.packId == p.packId && c.startBalance == p.startBalance && c.minTradingDays == p.minTradingDays
            && c.dailyLossPct == p.maxDailyLossPct && c.targetPct == p.profitTargetPct
            && c.overallMode == p.overall.mode && c.overallLossPct == p.overall.pct
            && (c.dailyBasisEquity <==> p.basis == "equity") && (c.dailyBreachIntraday <==> p.breach == "intraday")
            && (if p.news.Some? then c.news == p.news.value else !c.news.enabled)
            && c.pnlTolerance * 100.0 == if p.pnlTolerance.Some? then p.pnlTolerance.value * 100.0 else 1.0
    ensures Compile(p).Err? ==>
            var e := Compile(p).error;
            && (e == PackIdMissing <==> p.packId == "")
            && (e.InvalidBasis? ==> p.packId != "" && e.basis == p.basis && p.basis !in {"equity", "balance"})
            && (e.InvalidBreachMode? ==>
                 && p.packId != "" && p.basis in {"equity", "balance"}
                 && e.mode == p.breach && p.breach !in {"intraday", "eod"})
            && (e == NonPositiveDailyLoss ==>
                 p.basis in {"equity", "balance"} && p.breach in {"intraday", "eod"} && p.maxDailyLossPct <= 0.0)
            && (e == NonPositiveTarget ==> p.maxDailyLossPct > 0.0 && p.profitTargetPct <= 0.0)
  {
  }

  /** What is in scope of a news section: a symbol listed or any at all, a tier listed or any where none is. */
  lemma InScopeIff(news: NewsCfg, symbol: string, tier: string)
    ensures news.SymbolInScope(symbol) <==> exists s <- news.symbols :: s == "*" || s == symbol
    ensures news.TierInScope(tier) <==> |news.tiers| == 0 || exists t <- news.tiers :: t == tier
  {
  }

  /** A floor under a base of at least zero is no higher for a looser percentage. */
  lemma FloorMonotone(base: real, tight: real, loose: real)
    requires base >= 0.0 && tight <= loose
    ensures base * (1.0 - loose / 100.0) <= base * (1.0 - tight / 100.0)
  {
    MulNonNegative(base, (loose - tight) / 100.0);
  }

  lemma MulNonNegative(x: real, y: real)
    requires x >= 0.0 && y >= 0.0
    ensures x * y >= 0.0
  {
  }

  lemma MulPositive(x: real, y: real)
    requires x > 0.0 && y > 0.0
    ensures x * y > 0.0
  {
  }

  /** A day that opens at `start` opens below its own daily floor exactly when `start` is negative. */
  lemma StartBelowFloorIffNegative(start: real, pct: real)
    requires pct > 0.0
    ensures start < start * (1.0 - pct / 100.0) <==> start < 0.0
  {
    if start >= 0.0 {
      MulNonNegative(start, pct / 100.0);
    } else {
      MulPositive(-start, pct / 100.0);
    }
  }
}
