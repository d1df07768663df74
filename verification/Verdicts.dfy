/** Verdicts (verdict.rs): what a rule decided, with the exact inputs at the moment of emission. */
module Verdicts {
  import opened Options
  import opened Events
  import opened State

  datatype RuleId = DailyMaxLoss | MaxOverallLoss | ProfitTarget | NewsRule | NewsPrePositioned | DayRollover

  datatype VerdictStatus = Breach | TargetReached | Flagged | Info

  datatype RuleInputs = RuleInputs(
    equity: Option<real>, threshold: Option<real>, startEquity: Option<real>, startBalance: Option<real>,
    hwm: Option<real>, dayPnl: Option<real>, dayCounter: Option<nat>,
    windowStart: Option<int>, windowEnd: Option<int>, tier: Option<string>, symbol: Option<string>)

  datatype Verdict = Verdict(eventId: string, account: string, rule: RuleId, status: VerdictStatus, day: string,
                             brokerTs: int, packVersion: string, inputs: RuleInputs)

  const NoInputs := RuleInputs(None, None, None, None, None, None, None, None, None, None, None)

  /** The account figures a rule looks at, read at one instant. */
  datatype Obs = Obs(account: string, startBalance: real, equity: real, balance: real, hwm: real, dayCounter: nat,
                     date: string, startEquity: real)

  /** Inputs the rule did not set are filled from the account: equity, start balance, PnL of the day. */
  function MakeVerdict(packVersion: string, o: Obs, ev: Event, rule: RuleId, status: VerdictStatus,
                       inputs: RuleInputs): Verdict {
    var filled := inputs.(
      equity := Some(inputs.equity.GetOr(o.equity)),
      startBalance := Some(inputs.startBalance.GetOr(o.startBalance)),
      dayPnl := Some(inputs.dayPnl.GetOr(o.equity - o.startEquity)));
    Verdict(ev.eventId, o.account, rule, status, o.date, ev.brokerTs, packVersion, filled)
  }

  function NewsInputs(symbol: string, w: NewsWindowRec): RuleInputs {
    NoInputs.(symbol := Some(symbol), tier := Some(w.tier), windowStart := Some(w.windowStart),
              windowEnd := Some(w.windowEnd))
  }

  datatype AlertKind =
    | BrokerTsRegression
    | SeqRegression
    | Malformed
    | DuplicateFill
    | CloseDeferred
    | PnlMismatch
    | BalanceDrift

  datatype IntegrityAlert = IntegrityAlert(eventId: string, dealId: Option<string>, kind: AlertKind)

  datatype ApplyResult = ApplyResult(verdicts: seq<Verdict>, alerts: seq<IntegrityAlert>, stateChanged: bool) {
    /** What one step emits, followed by what the next one emits. */
    function Then(more: ApplyResult): ApplyResult {
      ApplyResult(verdicts + more.verdicts, alerts + more.alerts, stateChanged || more.stateChanged)
    }
  }

  const NoChange := ApplyResult([], [], false)
}
