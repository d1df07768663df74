# A verified model of the rules engine, the bridge sessions and the gateway stores

This project models the parts of the platform whose behaviour depends on history, and proves what
every history keeps. `dafny verify dfyconfig.toml` checks all of it.

* **Rules engine** (`Events`, `State`, `Pack`, `Verdicts`, `Ledger`, `Judge`, `Eval`, `Replay`). An
  account is a class whose fields each event updates in place. It is proved to do what a pure
  reference says, and the reference is factored: `Ledger` moves money and positions and knows no
  threshold, `Judge` turns the moments of a ledger run into verdicts and flags. The theorems are about whole
  streams: at-least-once delivery (`AtLeastOnce`), a plain bookkeeping ledger the engine refines
  (`Journal`), what positions are worth (`Exposure`), conservation of money and of events (`Conservation`),
  delivery order (`Confluence`, `ClosedForm`), days (`Trace`, `DayLog`), breach modes and packs compared over one stream (`BreachModes`,
  `PackMonotonicity`, `PackDivergence`, `DailyDivergence`), and the verdict log (`VerdictHistory`, `Coverage`,
  `Evidence`, `NewsRules`, `Housekeeping`).
* **Bridge** (`SessionSpec`, `SessionSafety`, `Bridge`). Sessions, the guard and the frame handlers, one
  frame being one atomic step, and every run of one session object.
* **Gateway** (`RateLimit`, `Idempotency`, `Ulid`). Each store or encoder against a reference over its
  whole history, or over arithmetic.
* **Tooling** (`Alignment`, `RoleGates`, `TableCells`). The alignment of a workbook column, two CI gates
  over the role graph, and the table cells that one script prints and another reads.

## What the code does that its own text does not say

In each case the model follows the code, and the lemmas named prove what it does.

* `eval.rs:433-436` calls a close without a position unreachable. Two closes of one order delivered before
  its fill reach it; the second is dropped, and nothing in the step's output or in the account tells of it
  (`CloseLostIffTwoWait`, `LostLeavesNoTrace`, `TwoEarlyClosesLoseOne`).
* `eval.rs:498-501` says that overall and target are still evaluated after a daily breach. The `return` skips
  them for that event, so the claim of `property.rs:182` on overall breaches fails, for the suite's own
  packs (`LoosePackBreachesAlone`) and for all packs with overall percentages under 100 whose intraday daily
  percentages differ. `JointClaimIff` is the exact condition, `TighterPackStillFails` what remains without it.
* The claim of `property.rs:181` on daily breaches fails too, for the suite's own packs
  (`LoosePackBreachesDailyAlone`): on a day that opens below zero the looser percentage has the higher floor.
  It holds of end-of-day packs, and of intraday ones only with equal limits (`DailyClaimIff`).
* `eval.rs:395` says that bookkeeping always runs for new events. Unreadable fills and adjustments, duplicate
  fills, deferred closes and out-of-scope news windows return before it; an unreadable mark and an unreadable
  close of an open order do not (`BookkeepingIff`). An out-of-scope news window is recorded while the
  step reports no change (`UnreportedChangeIsAWindow`).
* The initial day is not a deduplicated date: a rollover may name it again, and it can then be breached
  twice (`InitialDayBreachedTwice`, `DailyLossPerDate`).
* The end-of-day rule judges equity, whatever the pack's basis (`EodIgnoresBasis`). It breaches every day
  that opens with negative equity, which the intraday rule does only if a sample falls under the floor
  (`EodAgreesWithIntraday`, `NegativeOpeningDiffers`).
* A daily breach decided on balance carries the equity in its inputs, which may deny it
  (`BalanceBasisProvesItselfIff`, `AlwaysProvesItselfIff`).
* `bridge.go:262` says that a hello resumes a previous session. The end of a connection deletes the stored
  one, so a terminal that reconnects after it starts over at 0 (`Reconnect`).
* The guard does not look at the session state, so frames in sequence are accepted during a resync
  (`IngestedIff`, `ResyncHoldsNothingBack`); a frame rejected for a gap has used up its nonce (`GapUsesUpNonce`);
  at the top of the 64-bit range the number 0 is accepted again and again (`IngestsOnceIff`).
* The replay window purges by a wall clock. If that steps back, a nonce whose use was found expired before is
  accepted again (`RefusedIff`, `AnswersMatchFullHistory`, `ClockStepBackReadmits`).
* The limiter keeps one log per key for all route classes, and a request prunes it by its own class's window. A
  class with a limit of two or more exceeds it once another class with a shorter window uses the key, so `auth`
  and `payout` can be outrun and the default class cannot (`KeepsBoundIff`, `WhichClassesKeepTheirBound`);
  and Retry-After can come too early for a class whose limit is not the largest (`RetryAfterIsTight`).
* The Retry-After header rounds down (`HeaderIsEnoughIff`). A 5xx leaves the claim in flight for the whole
  TTL (`RetryConflictsUntilCommit`), and the answer of an owner whose claim ran out is replayed on the claim
  of a later one (`LandsOnAnotherIff`, `ReplayIsOwnersIff`, `LateCommitIsReplayed`).
* The fallback branches of the alignment's backtrack are never taken (`AlignRuns`).

## Model

| member | source | states |
|---|---|---|
| Events.DedupKeyIdentifies | pf-platform/rust/crates/rules-engine/src/events.rs:155-162 | two events share a key exactly when they are deals with one deal id, rollovers to one date, or other events with one event id; the three families never collide |
| State.EquityIgnoresIterationOrder | pf-platform/rust/crates/rules-engine/src/state.rs:115-130 | equity is the same sum for every iteration order of the hash map of positions |
| State.UnrealizedSumPick | pf-platform/rust/crates/rules-engine/src/state.rs:117-128 | any open order may be summed first |
| Exposure.PositionWorth | pf-platform/rust/crates/rules-engine/src/state.rs:117-128 | equity is that of the book without a position plus, for a long, (mark - entry) times its size, for a short (entry - mark) times its size; the mark is its symbol's last price, or its own entry where there is none |
| Exposure.NoPositionsNoExposure | pf-platform/rust/crates/rules-engine/src/state.rs:115-116 | without positions equity is the balance |
| Exposure.MarkMovesEquity | pf-platform/rust/crates/rules-engine/src/eval.rs:114-120 | a new mark moves equity by the move of the price for every unit held net, long less short, and a hedged symbol not at all |
| Exposure.FirstPriceMovesNothing | pf-platform/rust/crates/rules-engine/src/state.rs:118-122 | the first price of a symbol moves nothing |
| Exposure.AlwaysPriced | pf-platform/rust/crates/rules-engine/src/eval.rs:185-197 | in every reachable state each open position's symbol has a price |
| Exposure.HedgedPair | pf-platform/rust/crates/rules-engine/src/state.rs:115-130 | a long and a short of one size in one symbol are worth the same at every price |
| Exposure.CloseRealises | pf-platform/rust/crates/rules-engine/src/eval.rs:440-458 | closing a long moves the balance by (exit - entry) times its size, closing a short by (entry - exit) times its size, plus commission and swap |
| Exposure.CloseLeaves | pf-platform/rust/crates/rules-engine/src/eval.rs:459-460 | a close removes its position and no other, and sets its symbol's price |
| Exposure.FillAdds | pf-platform/rust/crates/rules-engine/src/eval.rs:185-197 | a fill no close waits for adds its position, with the fill's own symbol, side, size, price and time, and costs its commission |
| Pack.CompilesIff | pf-platform/rust/crates/rules-engine/src/pack.rs:240-313 | which packs compile, to what, and which error the others give |
| Pack.InScopeIff | pf-platform/rust/crates/rules-engine/src/pack.rs:229-236 | what is in scope of a news section |
| Coverage.LimitsInNumbers | pf-platform/rust/crates/rules-engine/src/pack.rs:318-333 | the floors and the target in the plan's own numbers: a loss of more than the percentage of the base, a profit of at least the percentage of the start balance |
| Pack.FloorMonotone | pf-platform/rust/crates/rules-engine/src/pack.rs:318-329 | over a base of at least zero a looser percentage never gives a higher floor |
| Pack.StartBelowFloorIffNegative | pf-platform/rust/crates/rules-engine/src/pack.rs:318-320 | a day opens below its own daily floor exactly when it opens negative |
| Eval.AccountState.constructor | pf-platform/rust/crates/rules-engine/src/state.rs:85-110 | a new account is the reference's fresh account |
| Eval.AccountState.Equity | pf-platform/rust/crates/rules-engine/src/state.rs:115-130 | the loop over the map, in whatever order it yields, returns the order-free sum |
| Eval.AccountState.NewVerdict | pf-platform/rust/crates/rules-engine/src/verdict.rs:111-138 | a verdict carries the figures of the account at the moment of emission where the rule gave none |
| Eval.AccountState.CheckRules | pf-platform/rust/crates/rules-engine/src/eval.rs:473-542 | the three rules at the current state, the daily one hiding the other two when it fires; the ledger is untouched |
| Eval.AccountState.CheckOverall | pf-platform/rust/crates/rules-engine/src/eval.rs:503-522 | fires once, when equity is under the floor of the start balance or of the high-water mark |
| Eval.AccountState.CheckTarget | pf-platform/rust/crates/rules-engine/src/eval.rs:524-541 | fires once, when enough days are complete and equity is at the level or above |
| Eval.AccountState.ApplyClose | pf-platform/rust/crates/rules-engine/src/eval.rs:406-467 | the whole new account and all output of one close: PnL cross-check, balance, book, mark, high-water mark, rule check |
| Eval.AccountState.DrainCloses | pf-platform/rust/crates/rules-engine/src/eval.rs:202-214 | the index loop that removes while it scans applies exactly the buffered closes of the order, in buffer order, and keeps all others in order |
| Eval.LeftNext | pf-platform/rust/crates/rules-engine/src/eval.rs:203-213 | what the buffer and the loop index are after each turn of that loop |
| Eval.DrainIgnoresBuffer | pf-platform/rust/crates/rules-engine/src/eval.rs:202-214 | what is left in the buffer plays no part in applying a close |
| Eval.AccountState.CheckNews | pf-platform/rust/crates/rules-engine/src/eval.rs:148-173 | a fill is flagged, or fails, by the first recorded in-scope window it falls into |
| Eval.AccountState.ApplyFill | pf-platform/rust/crates/rules-engine/src/eval.rs:122-217 | the whole new account and all output of a fill, malformed and duplicate ones included |
| Eval.AccountState.ApplyAdjustment | pf-platform/rust/crates/rules-engine/src/eval.rs:238-260 | the same for a balance adjustment |
| Eval.AccountState.ApplyMark | pf-platform/rust/crates/rules-engine/src/eval.rs:114-120 | the same for a mark |
| Eval.AccountState.FlagPrePositioned | pf-platform/rust/crates/rules-engine/src/eval.rs:313-332 | one flag per position opened on the symbol before the window, in any iteration order |
| Eval.AccountState.ApplyNewsWindow | pf-platform/rust/crates/rules-engine/src/eval.rs:282-334 | the same for a news window, in scope or not |
| Eval.AccountState.CheckEod | pf-platform/rust/crates/rules-engine/src/eval.rs:341-358 | the end-of-day rule judges the worst equity of the day |
| Eval.AccountState.ApplyRollover | pf-platform/rust/crates/rules-engine/src/eval.rs:336-392 | the same for a rollover: end-of-day judgment, day counter, high-water mark, info verdict, new day |
| Eval.AccountState.Watchdogs | pf-platform/rust/crates/rules-engine/src/eval.rs:93-110 | clock and sequence regressions are reported against the watermarks before the event |
| Eval.AccountState.Apply | pf-platform/rust/crates/rules-engine/src/eval.rs:83-400 | one event, any kind, new or redelivered: state and output are those of the pure step |
| Judge.JudgeAppend | pf-platform/rust/crates/rules-engine/src/eval.rs:473-542 | judging two stretches of moments is judging the first and going on from its flags |
| Judge.RunIsLedgerThenJudge | pf-platform/rust/crates/rules-engine/src/eval.rs:83-542 | every run factors: a ledger that knows no threshold, and a pack that judges the moments of its run; verdicts and flags come from the second half alone |
| Replay.Replay | pf-platform/rust/crates/rules-engine/src/replay.rs:16-35 | the replay loop returns the run of the stream: a function of account, pack, day and events |
| Replay.ReplayPrefix | pf-platform/rust/crates/rules-engine/src/replay.rs:39-51 | replaying a prefix gives the state of the run of that prefix |
| Replay.RunAppend | pf-platform/rust/crates/rules-engine/src/replay.rs:16-51 | replaying a ++ b equals continuing with b from the replay of a: state, verdicts and alerts |
| AtLeastOnce.RedeliveryIsHarmless | pf-platform/rust/crates/rules-engine/src/eval.rs:85-87 | a run equals the run of its first occurrences per key in state, verdicts and alerts, wherever redeliveries fall |
| AtLeastOnce.ReplayedTwice | pf-platform/rust/crates/rules-engine/src/eval.rs:85-87 | re-applying any part of a stream after the stream adds nothing; in particular s ++ s is s |
| AtLeastOnce.SameFirstOccurrences | pf-platform/rust/crates/rules-engine/src/eval.rs:85-87 | two deliveries with the same first occurrences cannot be told apart |
| AtLeastOnce.FirstOccurrencesOnePerKey | pf-platform/rust/crates/rules-engine/src/events.rs:155-162 | the filter keeps one event per key, only events of the stream, and loses no new key |
| AtLeastOnce.RunSees | pf-platform/rust/crates/rules-engine/src/eval.rs:85-87 | the key set after a run is the one before plus the keys of the stream |
| Journal.DrainAppliesFirstGood | pf-platform/rust/crates/rules-engine/src/eval.rs:200-214 | draining an order applies its first close with a readable exit price and nothing else |
| Journal.StepPosts | pf-platform/rust/crates/rules-engine/src/eval.rs:112-393 | one event moves the account as posting its journal entries does, each of which the plain ledger admits |
| Journal.RunPostsItsJournal | pf-platform/rust/crates/rules-engine/src/eval.rs:83-467 | refinement: after any stream the book, high-water mark, day and day counter are those of a plain in-order ledger (no buffer, no idempotency) after the journal |
| Conservation.BookComesFromFills | pf-platform/rust/crates/rules-engine/src/eval.rs:185-195 | every open position is the one its order's last posted fill opened |
| Conservation.MoneyConservation | pf-platform/rust/crates/rules-engine/src/eval.rs:122-260 | on any stream, malformed, duplicate and dropped events included: balance = start + commissions of posted fills + (PnL from the stored entry + commission + swap) of posted closes + adjustments; reported PnL plays no part |
| Conservation.PostedMoney | pf-platform/rust/crates/rules-engine/src/eval.rs:433-459 | the same on the plain ledger, entry by entry |
| Conservation.PostedAmount | pf-platform/rust/crates/rules-engine/src/eval.rs:433-459 | what one posted entry does to the balance, side by side |
| Conservation.HighWaterMark | pf-platform/rust/crates/rules-engine/src/eval.rs:255-257 | trailing: the mark is the maximum of the start balance and the equity just after each posted close, adjustment and rollover (attained, not only bounded); static: it never moves |
| Conservation.TrailingMark | pf-platform/rust/crates/rules-engine/src/eval.rs:462-464 | that characterisation on the plain ledger |
| Conservation.StaticMark | pf-platform/rust/crates/rules-engine/src/eval.rs:365-367 | in static mode no entry moves the mark |
| Conservation.TradingDays | pf-platform/rust/crates/rules-engine/src/eval.rs:360-363 | the day counter is the number of completed days on which a close was posted |
| Conservation.DayCounterCounts | pf-platform/rust/crates/rules-engine/src/eval.rs:384-390 | the traded flag says whether a close was posted since the last rollover |
| Conservation.StepBuffer | pf-platform/rust/crates/rules-engine/src/eval.rs:202-234 | the exact buffer after any one event |
| Conservation.DeferredBufferSafety | pf-platform/rust/crates/rules-engine/src/eval.rs:202-234 | in every reachable state no buffered close names an open order |
| Conservation.EveryEventAccountedFor | pf-platform/rust/crates/rules-engine/src/eval.rs:83-467 | as multisets: first occurrences = posted + still buffered + rejected + lost + others that move no money; nothing twice, nothing missing |
| Conservation.RejectedAreReported | pf-platform/rust/crates/rules-engine/src/eval.rs:421-432 | every close rejected for its exit price is reported MALFORMED under its own event id |
| Journal.DrainAlerts | pf-platform/rust/crates/rules-engine/src/eval.rs:421-459 | draining an open order reports each unreadable close and what the one applied close has to report, and nothing else |
| Journal.LostLeavesNoTrace | pf-platform/rust/crates/rules-engine/src/eval.rs:433-436 | the fill that loses a close does and reports exactly what it would have had the close never been buffered |
| Journal.FillAlerts | pf-platform/rust/crates/rules-engine/src/eval.rs:196-234 | how many alerts an accepted fill raises: regressions, rejected closes, a mismatch of the close applied |
| Conservation.CloseLostIffTwoWait | pf-platform/rust/crates/rules-engine/src/eval.rs:433-436 | closes are lost exactly when a fill is accepted while two readable closes of its order wait, and then the step, alerts included, is that of a buffer without them |
| Conservation.TwoEarlyClosesLoseOne | pf-platform/rust/crates/rules-engine/src/eval.rs:433-436 | the family of streams that reaches the branch called unreachable: two closes, then their fill |
| Conservation.OneClosePerOrderLosesNothing | pf-platform/rust/crates/rules-engine/src/eval.rs:202-234 | with one close per order, redelivered or not, no close is ever lost |
| Confluence.CloseAndFillCommute | pf-platform/rust/crates/rules-engine/src/eval.rs:175-236 | a fill and its close give the same slot, money and findings in either order |
| Confluence.StepsCommute | pf-platform/rust/crates/rules-engine/src/eval.rs:175-260 | any two events that do not compete for an order commute |
| Confluence.BubbleToFront | pf-platform/rust/crates/rules-engine/src/eval.rs:175-260 | any event of a stream can be delivered first |
| Confluence.ViewRunIgnoresOrder | pf-platform/rust/crates/rules-engine/src/eval.rs:175-260 | the order-blind view depends on the multiset of events only |
| Confluence.StepShows | pf-platform/rust/crates/rules-engine/src/eval.rs:83-467 | one step of the real ledger is one step of that view, buffer and findings included |
| Confluence.RunShows | pf-platform/rust/crates/rules-engine/src/eval.rs:83-467 | so is a whole run |
| Confluence.DeliveryOrderIsIrrelevant | pf-platform/rust/crates/rules-engine/src/eval.rs:175-236 | two deliveries of the same events, reordered and redelivered at will, every kind of event allowed: same balance, same position book, same closes buffered, as many PNL_MISMATCH and MALFORMED findings |
| ClosedForm.SlotFromEvents | pf-platform/rust/crates/rules-engine/src/eval.rs:175-236 | a position is open, and a close waits, by membership in the stream alone |
| ClosedForm.BalanceFromEvents | pf-platform/rust/crates/rules-engine/src/eval.rs:406-467 | the balance as a sum over the events, with no order of application in it |
| ClosedForm.DeliveredState | pf-platform/rust/crates/rules-engine/src/eval.rs:175-236 | the closed form of book, buffer and balance after any well-formed delivery |
| Trace.StepMoments | pf-platform/rust/crates/rules-engine/src/eval.rs:83-542 | one event stays inside its day, or is the accepted rollover that ends it |
| Trace.RunIsChained | pf-platform/rust/crates/rules-engine/src/eval.rs:336-392 | every figure judged in a run refers to the day it falls in, and each day starts at the equity its rollover saw |
| Trace.OverallFloorNeverFalls | pf-platform/rust/crates/rules-engine/src/pack.rs:323-329 | over any run the overall floor does not fall exactly when the pack is static, the mark is unmoved, or the percentage is at most 100 |
| DayLog.ReadJudged | pf-platform/rust/crates/rules-engine/src/eval.rs:341-382 | the days read off the verdict log are the days the daily rule judged |
| DayLog.TallySnoc | pf-platform/rust/crates/rules-engine/src/eval.rs:476-500 | the daily rule on its own: log, flag and worst equity, one moment at a time |
| BreachModes.TwinsAgree | pf-platform/rust/crates/rules-engine/src/eval.rs:341-358 | the coupling of intraday and end-of-day judgment over any chain of days |
| BreachModes.EodAgreesWithIntraday | pf-platform/rust/crates/rules-engine/src/eval.rs:477-499 | on one stream an equity-basis pack and its end-of-day twin log the same days, and the twin's breaches are the intraday ones plus the days that opened negative |
| BreachModes.ModesDifferOnlyBelowZero | pf-platform/rust/crates/rules-engine/src/eval.rs:341-358 | the two logs are equal exactly when no day opens negative without an intraday breach |
| BreachModes.NegativeOpeningDiffers | pf-platform/rust/crates/rules-engine/src/eval.rs:341-358 | every such pair of packs has a stream on which they are not |
| BreachModes.EodIgnoresBasis | pf-platform/rust/crates/rules-engine/src/eval.rs:341-358 | an end-of-day pack gives the same state, flags, verdicts and alerts on either basis, on every stream |
| PackMonotonicity.LedgerIgnoresThresholds | pf-platform/rust/crates/rules-engine/src/eval.rs:112-467 | two packs that differ in thresholds only: same balances, positions, marks, high-water mark, day counter, and alerts |
| PackMonotonicity.TighterDailyBreachesMore | pf-platform/rust/crates/rules-engine/src/eval.rs:481-500 | a lower daily percentage never loses a daily breach on a day that opened at zero or above, whatever the other limits are, completed days and current day alike; under end-of-day packs it never loses one on any day |
| PackMonotonicity.EodBreachesNegativeDays | pf-platform/rust/crates/rules-engine/src/eval.rs:341-358 | under an end-of-day pack every completed day that opened negative is logged breached |
| DailyDivergence.TotalCount | pf-platform/rust/crates/rules-engine/src/eval.rs:341-358 | a log holds one DailyMaxLoss verdict per completed day logged as breached, and one if today is breached |
| DailyDivergence.FirstDayBetween | pf-platform/rust/crates/rules-engine/src/eval.rs:481-500 | if the second pack's daily limit is the tighter one, a stream on which only it breaches |
| DailyDivergence.NegativeDayBetween | pf-platform/rust/crates/rules-engine/src/eval.rs:481-500 | for intraday packs with a looser second limit, a stream on which the first breaches one day and the second two: the floors change places on a day that opens below zero |
| DailyDivergence.DailyClaimIff | pf-platform/rust/crates/rules-engine/tests/property.rs:165-183 | for two packs of one plan, any daily limits: the second one's daily breaches are breaches of the first on every stream, day by day, and are never more in number, exactly when the limits are equal, or both judge the end of the day and the first is the tighter |
| DailyDivergence.LoosePackBreachesDailyAlone | pf-platform/rust/crates/rules-engine/tests/property.rs:165-183 | one instance of the failure: the suite's own two packs, on three events |
| PackMonotonicity.TighterOverallBreachesFirst | pf-platform/rust/crates/rules-engine/src/eval.rs:503-522 | at equal daily settings, or with end-of-day packs, a lower overall percentage is breached whenever the higher one is, after every stream |
| PackMonotonicity.LooseGetsAheadIff | pf-platform/rust/crates/rules-engine/src/eval.rs:498-522 | in every run, the moments at which the looser pack gets ahead are exactly the samples where only the tighter one breaches daily and equity is under the looser overall floor |
| PackMonotonicity.TighterPackStillFails | pf-platform/rust/crates/rules-engine/src/eval.rs:473-522 | with both limits tighter the account still has an overall or a daily breach whenever the looser pack breaches overall |
| PackMonotonicity.LoosePackBreachesAlone | pf-platform/rust/crates/rules-engine/tests/property.rs:165-183 | one instance of the failure: the suite's own two packs, on three events |
| PackDivergence.Steer | pf-platform/rust/crates/rules-engine/src/eval.rs:122-217 | a fill can bring an account to any balance and equity at once |
| PackDivergence.ClaimFails | pf-platform/rust/crates/rules-engine/src/eval.rs:481-522 | for every two packs of one plan outside the condition below, some stream breaches the looser one overall alone |
| PackDivergence.ShrinkingDays | pf-platform/rust/crates/rules-engine/src/eval.rs:481-522 | the generic way: every day keeps the least the looser daily limit lets pass, until the overall floor is crossed |
| PackDivergence.HarmlessGapHolds | pf-platform/rust/crates/rules-engine/src/eval.rs:481-522 | packs whose daily limits differ and that still satisfy the claim on every stream: overall floors on either side of zero, the looser daily percentage between the tighter one's and 100 |
| PackDivergence.JointClaimIff | pf-platform/rust/crates/rules-engine/tests/property.rs:165-183 | for two packs of one plan, the second looser overall, any daily percentages, any basis and mode: overall breaches nest on all streams exactly when the daily rules cut the same samples short or the gap is harmless |
| PackDivergence.JointClaimIffSameCuts | pf-platform/rust/crates/rules-engine/tests/property.rs:165-183 | with overall percentages under 100: exactly when both are end-of-day packs or have the same daily percentage |
| VerdictHistory.MomentCounts | pf-platform/rust/crates/rules-engine/src/eval.rs:473-542 | how many verdicts of each rule a moment emits, and which flags it raises |
| VerdictHistory.OncePerAccount | pf-platform/rust/crates/rules-engine/src/eval.rs:503-541 | the log holds one MaxOverallLoss verdict if the account is flagged and none otherwise; likewise ProfitTarget |
| VerdictHistory.DailyLossPerDate | pf-platform/rust/crates/rules-engine/src/eval.rs:336-392 | a date has exactly one DailyMaxLoss per completed day of that date logged as breached, and one if it is the current day and breached; so at most one, one more for an initial day that a rollover names again, none if it was never a day of the run |
| VerdictHistory.InitialDayBreachedTwice | pf-platform/rust/crates/rules-engine/src/eval.rs:384-390 | every pack has a stream with exactly two DailyMaxLoss verdicts on the initial date |
| VerdictHistory.FlagsNeverFall | pf-platform/rust/crates/rules-engine/src/eval.rs:473-542 | overall and target flags hold for good, the daily one until a rollover is accepted |
| VerdictHistory.TargetNeedsTradedDays | pf-platform/rust/crates/rules-engine/src/eval.rs:525-541 | a ProfitTarget verdict implies that as many completed days as required saw a posted close |
| Evidence.StepFigures | pf-platform/rust/crates/rules-engine/src/eval.rs:112-467 | each moment one event goes through is judged by the figures of the plain ledger after a prefix of the journal that ends at that event |
| Evidence.RunFigures | pf-platform/rust/crates/rules-engine/src/eval.rs:83-542 | so is every moment of every run, deferred closes included |
| Coverage.CrossingsAreFlagged | pf-platform/rust/crates/rules-engine/src/eval.rs:503-541 | no crossing is missed: the overall flag is up exactly when some sample not cut short was under its floor, the target flag exactly when some sample with enough days was at the level |
| Coverage.TodayIsFlagged | pf-platform/rust/crates/rules-engine/src/eval.rs:481-500 | under an intraday pack today is flagged exactly when one of its samples was under the daily floor |
| Coverage.WorstIsLeast | pf-platform/rust/crates/rules-engine/src/eval.rs:476-479 | the worst equity of an end-of-day pack is the least of the day's start equity and all of the day's samples |
| Coverage.CompletedDayIsLogged | pf-platform/rust/crates/rules-engine/src/eval.rs:341-382 | a completed day is logged breached exactly when one of its samples was under the floor, or, for an end-of-day pack, when it opened there |
| Coverage.RunMissesNothing | pf-platform/rust/crates/rules-engine/src/eval.rs:473-541 | all of this over runs: which samples of a stream put each flag up |
| Coverage.RunLogsEveryDay | pf-platform/rust/crates/rules-engine/src/eval.rs:341-382 | and how each day of a run is logged |
| Evidence.MovementIsJudged | pf-platform/rust/crates/rules-engine/src/eval.rs:114-260 | the rules are judged at the state every movement of cash, position or price leads to, and at no other event's |
| Evidence.SettledCloseIsJudged | pf-platform/rust/crates/rules-engine/src/eval.rs:202-216 | a buffered close is judged on its own when its fill settles it |
| Evidence.TargetNeedsProfit | pf-platform/rust/crates/rules-engine/src/eval.rs:525-541 | under a plan with a positive balance and target no ProfitTarget verdict carries an equity at or under the start balance |
| Evidence.NewsIsAnnounced | pf-platform/rust/crates/rules-engine/src/eval.rs:282-334 | every window a news moment of a run is about was announced by an event of the stream |
| NewsRules.FindsFirst | pf-platform/rust/crates/rules-engine/src/eval.rs:149-154 | the first window that is hit decides, bounds included, and none exactly when none is hit |
| NewsRules.WindowsAreRecorded | pf-platform/rust/crates/rules-engine/src/eval.rs:289-312 | every new window is recorded, in scope or not, and nothing else records or forgets one |
| NewsRules.FillIsJudgedIff | pf-platform/rust/crates/rules-engine/src/eval.rs:148-173 | a readable fill, duplicates included, is judged exactly when it falls into a recorded window in scope |
| NewsRules.AlwaysKeyed | pf-platform/rust/crates/rules-engine/src/eval.rs:185-195 | in every reachable state each position is filed under its own order |
| NewsRules.PrePositionedAre | pf-platform/rust/crates/rules-engine/src/eval.rs:313-332 | a new window in scope concerns exactly the orders open on its symbol from before its start |
| NewsRules.NewsCounts | pf-platform/rust/crates/rules-engine/src/eval.rs:155-172 | how many news and rollover verdicts each moment makes |
| NewsRules.VerdictOrder | pf-platform/rust/crates/rules-engine/src/eval.rs:341-382 | the order in a log: an overall loss before a target, an end-of-day loss before the rollover that finds it |
| Evidence.VerdictsAreProofs | pf-platform/rust/crates/rules-engine/src/verdict.rs:111-138 | every verdict of every run is settled by journal and pack: the plain ledger, after the prefix ending at the verdict's event, shows the equity, start equity, high-water mark, day counter, day PnL and date it carries, and they cross the pack's own threshold; a worst equity is the least of its day; a news verdict carries an announced, in-scope window, and one that holds the fill |
| Evidence.BalanceBasisProvesItselfIff | pf-platform/rust/crates/rules-engine/src/eval.rs:484-497 | over any run, a daily breach decided on balance carries equity, so it proves itself exactly when the open positions were worth less than floor minus balance; always when none was open |
| Evidence.HiddenBehindEquity | pf-platform/rust/crates/rules-engine/src/eval.rs:484-497 | every intraday balance-basis pack has a run with a daily breach whose own inputs deny it |
| Evidence.AlwaysProvesItselfIff | pf-platform/rust/crates/rules-engine/src/eval.rs:484-497 | the packs whose daily breaches always prove themselves are exactly those on equity and those judged at the end of the day |
| Evidence.StepNews | pf-platform/rust/crates/rules-engine/src/eval.rs:148-173 | news verdicts are about windows in scope, and about fills inside them |
| Housekeeping.UnreportedChangeIsAWindow | pf-platform/rust/crates/rules-engine/src/eval.rs:289-306 | a step that reports no change moved nothing but bookkeeping, except that it may have recorded an out-of-scope news window |
| Housekeeping.BookkeepingIff | pf-platform/rust/crates/rules-engine/src/eval.rs:395-397 | sequence and clock watermarks become the maximum exactly for the events that are not left early, and stay for the others |
| Housekeeping.ChangedIff | pf-platform/rust/crates/rules-engine/src/eval.rs:112-393 | which new events report a change |
| Housekeeping.RegressionsIff | pf-platform/rust/crates/rules-engine/src/eval.rs:93-110 | clock and sequence regressions, each exactly when |
| Housekeeping.CloseReports | pf-platform/rust/crates/rules-engine/src/eval.rs:421-454 | a close of an open order reports an unreadable price, or a PnL further off than the tolerance, and nothing else |
| Housekeeping.DrainFinds | pf-platform/rust/crates/rules-engine/src/eval.rs:202-214 | what a drain reports, each kind exactly when |
| Housekeeping.FindingsIff | pf-platform/rust/crates/rules-engine/src/eval.rs:93-280 | for every new event and every kind of finding, exactly when it is raised |
| Housekeeping.FindingsName | pf-platform/rust/crates/rules-engine/src/eval.rs:93-280 | each finding names its event, and its order where it is about one |
| Housekeeping.FirstEventIsNoRegression | pf-platform/rust/crates/rules-engine/src/eval.rs:93-110 | the first event of an account is no regression |
| Bridge.Session.constructor | pf-platform/go/bridge/session.go:42-48 | a new session: active, last sequence 0, no nonces |
| Bridge.Session.CheckNonce | pf-platform/go/bridge/session.go:51-66 | deleting while iterating leaves exactly the unexpired nonces; the answer and the map are those of the reference |
| Bridge.Session.SetLastSeq | pf-platform/go/bridge/session.go:80-86 | the number only grows |
| Bridge.Session.Guard | pf-platform/go/bridge/guard.go:63-104 | the checks in their order, and the nonce recorded before the sequence is looked at |
| Bridge.Node.HandleHello | pf-platform/go/bridge/bridge.go:254-287 | a new object replaces the stored one and resumes its number; the old object is untouched |
| Bridge.Node.Disconnect | pf-platform/go/bridge/bridge.go:195-201 | the end of a connection removes whatever session is stored under its account |
| Bridge.Node.IngestFrame | pf-platform/go/bridge/bridge.go:328-348 | one event appended, with the session's tenant and account |
| Bridge.Node.Process | pf-platform/go/bridge/bridge.go:293-302 | the REST path: verdict, session and publication, the missing session included |
| Bridge.Node.ProcessWithWS | pf-platform/go/bridge/bridge.go:305-325 | the WebSocket path: ack, snapshot request with resync, or reject |
| Bridge.Node.HandleSnapshot | pf-platform/go/bridge/bridge.go:350-382 | snapshot frames, every rejection included; nothing is published and the number is kept |
| Bridge.Node.Reconnect | pf-platform/go/bridge/bridge.go:262-264 | a hello after the connection ended starts at 0; a hello while it lives resumes the number |
| SessionSafety.IngestsContiguously | pf-platform/go/bridge/guard.go:94-101 | under any interleaving of frames a session ingests exactly the numbers that follow its starting one, in order |
| SessionSafety.IngestsOnceIff | pf-platform/go/bridge/session.go:80-86 | no number is ingested twice exactly as long as the 64-bit counter is not run past its top |
| SessionSafety.ZeroAgain | pf-platform/go/bridge/guard.go:94-101 | at the top of the range any two due frames under different nonces, both numbered 0, are both ingested |
| SessionSafety.BaselineIsNext | pf-platform/go/bridge/bridge.go:366-376 | the baseline announced at the end of a resync is the number of the next frame ingested, whatever comes between |
| SessionSafety.IngestedIff | pf-platform/go/bridge/guard.go:63-104 | exactly when a frame is ingested; the session's state is not among the conditions |
| SessionSafety.VerdictIff | pf-platform/go/bridge/guard.go:63-104 | each verdict is about the first check that fails, in this order: binding, form, signature, 90 seconds of skew, 60 seconds of nonces, the next 64-bit number |
| SessionSafety.NonceIsRecorded | pf-platform/go/bridge/guard.go:86-92 | what a frame leaves of the window: its own nonce at the millisecond if it gets as far, no use older than 60 seconds, all others as they were |
| SessionSafety.FrameDoes | pf-platform/go/bridge/bridge.go:293-325 | replies and state by verdict: over WebSocket an ack with the number, a snapshot request and resync, or the rejection; over REST neither reply nor resync |
| SessionSafety.PublishedIs | pf-platform/go/bridge/bridge.go:328-348 | a frame is published once, field by field as it came, exactly when it passes |
| SessionSafety.SnapshotDoes | pf-platform/go/bridge/bridge.go:350-382 | a resync ends exactly at a readable last snapshot frame with a good checksum; snapshot frames move nothing else |
| SessionSafety.ResyncHoldsNothingBack | pf-platform/go/bridge/bridge.go:313-320 | a frame that was due before a gap is ingested after it, while the session still waits for its snapshot |
| SessionSafety.ResyncIsWhatWasAsked | pf-platform/go/bridge/bridge.go:313-320 | a session is in resync exactly between a snapshot request and the completion that answers it |
| SessionSafety.PurgingIsInvisible | pf-platform/go/bridge/session.go:54-60 | on any clock the map holds exactly the uses that no later check found expired |
| SessionSafety.RefusedIff | pf-platform/go/bridge/session.go:51-66 | on any clock a nonce is refused exactly when a use of it within 60 seconds was never found expired in between |
| SessionSafety.AnswersMatchFullHistory | pf-platform/go/bridge/session.go:51-66 | on any clock: every refusal is one the full history makes; purging turns a refusal into an acceptance exactly when every recent use was found expired in between, so only if an earlier check's clock was ahead |
| SessionSafety.NeverBehindNeverDiffers | pf-platform/go/bridge/session.go:51-66 | a check whose clock is behind no earlier one answers as the full history does |
| SessionSafety.NoncesAreChecked | pf-platform/go/bridge/guard.go:71-92 | the window of a session, after any inputs, is that of the nonce checks these led to |
| SessionSafety.ReplayIff | pf-platform/go/bridge/guard.go:90-92 | over any run of a session, on any clock: a frame that gets as far is rejected as a replay exactly when a use of its nonce within 60 seconds was never found expired in between |
| SessionSafety.ClockStepBackReadmits | pf-platform/go/bridge/session.go:54-60 | after any checks: a use, another check once it is expired, a clock set back to where it is recent, and the nonce is accepted again |
| SessionSafety.ReadmittedAfterStepBack | pf-platform/go/bridge/guard.go:86-101 | the same of session runs: such a frame is no replay, and is ingested exactly when its number is due |
| SessionSafety.GapUsesUpNonce | pf-platform/go/bridge/guard.go:90-101 | a frame rejected for its number has used up its nonce: sent again within 60 seconds it is never ingested |
| RateLimit.RecentIsTail | pf-platform/go/gw/ratelimit.go:34-39 | what survives compaction is the tail of the log inside the window |
| RateLimit.LogIsRecentGrants | pf-platform/go/gw/ratelimit.go:30-46 | while no class on the key has a shorter window, the pruned log and the full history of grants have the same recent times at every later instant, whatever the mix of classes |
| RateLimit.GrantedIffRoom | pf-platform/go/gw/ratelimit.go:40-45 | then a request is granted exactly when fewer than its limit of all grants ever made, of any class, are in its window |
| RateLimit.NeverMoreThanLimit | pf-platform/go/gw/ratelimit.go:30-46 | then of any limit + 1 successive grants of a class the last comes a whole window after the first |
| RateLimit.OneIsAlwaysKept | pf-platform/go/gw/ratelimit.go:30-46 | a limit of one is kept on every mix, shorter windows or not |
| RateLimit.ShorterWindowForgets | pf-platform/go/gw/ratelimit.go:34-39 | one request of a class with a shorter window makes the key forget a burst, and a class with a limit of two or more gets one grant too many |
| RateLimit.KeepsBoundIff | pf-platform/go/gw/ratelimit.go:61-77 | a class keeps its bound on every mix with the others exactly when its limit is one or none of them has a shorter window |
| RateLimit.WhichClassesKeepTheirBound | pf-platform/go/gw/ratelimit.go:50-59 | of the gateway's classes sharing a key only the default one keeps its bound |
| RateLimit.AtMostLimitPerWindow | pf-platform/go/gw/ratelimit.go:30-46 | no stretch shorter than a window, wherever it lies, holds more grants of a class than its limit, on every mix without a shorter window |
| RateLimit.RetryAfterIsTight | pf-platform/go/gw/ratelimit.go:40-43 | on every mix: after a denial, requests of the class before the release are all denied, however many, and the first from then on is granted; Retry-After is never later than that release, and is it exactly when the oldest kept time is also the one that must leave, as it is when no class on the key has a larger limit |
| RateLimit.HeaderIsEnoughIff | pf-platform/go/gw/ratelimit.go:77-82 | waiting what the header says is enough exactly when nothing was rounded away |
| RateLimit.RatePolicy | pf-platform/go/gw/ratelimit.go:50-59 | every class has a limit of at least one and a window, which the limiter's indexing needs |
| RateLimit.BurstsInNumbers | pf-platform/go/gw/ratelimit.go:48-59 | ten logins at once are granted and use up five minutes, five payouts an hour, a hundred other requests a minute: the next is granted exactly when that is over |
| RateLimit.HeaderInNumbers | pf-platform/go/gw/ratelimit.go:77-82 | the header is at least one second, and else the whole seconds of the delay |
| RateLimit.MemLimiter.Compact | pf-platform/go/gw/ratelimit.go:34-39 | filtering a slice into its own backing array is filtering |
| RateLimit.MemLimiter.Append | pf-platform/go/gw/ratelimit.go:37-44 | appending in place or into a larger array |
| RateLimit.MemLimiter.Allow | pf-platform/go/gw/ratelimit.go:30-46 | decision and new log of the key are those of the reference, and the logs of all other keys are unchanged although arrays are reused |
| Idempotency.HistoryExplains | pf-platform/go/gw/idempotency.go:58-86 | the record of a key is what its history of calls says: last owner, last commit since, expiry after the later of both |
| Idempotency.OwnersAreTtlApart | pf-platform/go/gw/idempotency.go:58-75 | two ownership grants for one key are more than a TTL apart, in every interleaving |
| Idempotency.GrantedIff | pf-platform/go/gw/idempotency.go:58-75 | a request is granted ownership exactly when no grant was made and no answer landed on its key within the last TTL |
| Idempotency.AnswerStored | pf-platform/go/gw/idempotency.go:156-159 | an answer of 500 or more, or 0, leaves the record as it was; any other on its hash is what the record then holds, for a TTL |
| Idempotency.RetryIsGivenTheAnswer | pf-platform/go/gw/idempotency.go:141-159 | a retry within the TTL of an answer below 500 that came within the TTL of its claim is given that answer |
| Idempotency.StillHeld | pf-platform/go/gw/idempotency.go:62-74 | until the TTL is over a grant stays the owner, and the record is answered exactly when a commit landed since |
| Idempotency.OtherBodyConflicts | pf-platform/go/gw/idempotency.go:65-66 | an unexpired key with another body conflicts |
| Idempotency.RetryConflictsUntilCommit | pf-platform/go/gw/idempotency.go:67-70 | a retry with the same body conflicts exactly until a commit lands; a withheld 5xx therefore blocks the key for the TTL |
| Idempotency.ReplayWasCommitted | pf-platform/go/gw/idempotency.go:141-159 | a replayed response is the last one committed under the same key and hash since the grant in force, and never a 5xx, in every run of the middleware |
| Idempotency.AnswerMeetsLastGrant | pf-platform/go/gw/idempotency.go:77-86 | an answer lands exactly when it is remembered and the last grant is for its body, whoever holds that grant |
| Idempotency.OwnAnswerLands | pf-platform/go/gw/idempotency.go:77-86 | an answer within its TTL meets its own claim, and lands unless it is withheld |
| Idempotency.LandsOnAnotherIff | pf-platform/go/gw/idempotency.go:77-86 | an answer lands on another request's claim exactly when a later grant, of the same body, is the last |
| Idempotency.ReplayIsOwnersIff | pf-platform/go/gw/idempotency.go:141-159 | a replayed response is its record owner's own exactly when no ownership was granted between the claim it answers and the answer; always when the answer came within the TTL |
| Idempotency.LateCommitIsReplayed | pf-platform/go/gw/idempotency.go:77-86 | an instance of the other case: the first owner's late answer is replayed on the second one's claim |
| Idempotency.MemIdemStore.constructor | pf-platform/go/gw/idempotency.go:51-56 | an empty store; a TTL of zero or less means 24 hours |
| Idempotency.MemIdemStore.Begin | pf-platform/go/gw/idempotency.go:58-75 | answer and new record are those of the reference; other keys are untouched |
| Idempotency.MemIdemStore.Commit | pf-platform/go/gw/idempotency.go:77-86 | only a record of the same hash is answered; other keys are untouched |
| Idempotency.MemIdemStore.AfterHandler | pf-platform/go/gw/idempotency.go:156-159 | 5xx and aborted responses change nothing, all others are committed; other keys are untouched |
| Idempotency.RunCalls | pf-platform/go/gw/idempotency.go:141-159 | any interleaving of requests on any keys, committed or withheld as the middleware does: every key's record is that of its own history |
| Ulid.WrapIsHarmless | pf-platform/go/gw/ulid.go:34-43 | a digit read from the buffer modulo 2^32 is the digit of the whole value: the bits shifted out are never needed |
| Ulid.EncodeCrockford | pf-platform/go/gw/ulid.go:32-51 | the result spells 26 digits of the alphabet whose base-32 value is 4 times the big-endian value of the 16 bytes |
| Ulid.OrderIsValue | pf-platform/go/gw/ulid.go:13-51 | digit strings of one length are ordered as their values, and equal when these are |
| Ulid.EncodingDecodes | pf-platform/go/gw/ulid.go:32-51 | bytes have one encoding and an encoding comes from one input: it can be inverted |
| Ulid.EncodingKeepsOrder | pf-platform/go/gw/ulid.go:11-51 | texts sort as bytes do |
| Ulid.TimeBytesValue | pf-platform/go/gw/ulid.go:16-22 | the six time bytes are the millisecond count modulo 2^48, big-endian |
| Ulid.MintULID | pf-platform/go/gw/ulid.go:13-28 | 26 characters that encode the time bytes followed by the random ones, or the clock-derived ones when the source fails; whichever they are, the id tells the millisecond modulo 2^48, and sorts before every id that tells a later one |
| Ulid.FallbackBytes | pf-platform/go/gw/ulid.go:23-27 | the clock-derived bytes, byte by byte |
| Ulid.EncodedTime | pf-platform/go/gw/ulid.go:13-28 | the millisecond count can be read back from the encoding, whatever follows the time |
| Ulid.TimeDecides | pf-platform/go/gw/ulid.go:13-51 | of two ids the one that tells the later time sorts last |
| Ulid.MintTwo | pf-platform/go/gw/ulid.go:13-28 | two ids minted with any luck sort as their milliseconds do |
| Ulid.AlphabetIsReadable | pf-platform/go/gw/ulid.go:9 | the alphabet rises and is the digits and the capitals without I, L, O and U |
| Ulid.LaterIdsSortLater | pf-platform/go/gw/ulid.go:13-28 | what MintULID encodes at a later 48-bit millisecond sorts later, whether the random source worked or not |
| Alignment.LeastCases | alpha-one/scripts/parse_prd_workbook.py:173-185 | the least cost is one of the three cases and at most each of them |
| Alignment.LeastIsLowerBound | alpha-one/scripts/parse_prd_workbook.py:160-200 | no order-preserving alignment costs less than the recurrence |
| Alignment.StepBack | alpha-one/scripts/parse_prd_workbook.py:186-200 | what one step of the backtrack does to the alignment found so far and its cost |
| Alignment.FillTable | alpha-one/scripts/parse_prd_workbook.py:170-185 | forward relaxation of the table yields the least cost in every cell |
| Alignment.AlignRuns | alpha-one/scripts/parse_prd_workbook.py:160-200 | the pairs are in range and strictly monotone, cost exactly dp[n][m], and no other alignment is cheaper, at |run - anchor| a match, 5 an anchor and 30 a run left out; no pair is more than 35 apart; runs that sit on the anchors are paired one to one; the two fallback branches are dead |
| Alignment.CheapestIsClose | alpha-one/scripts/parse_prd_workbook.py:160-168 | no pair of a cheapest alignment is more than 35 apart |
| Alignment.ExactRunsStay | alpha-one/scripts/parse_prd_workbook.py:160-168 | a cheapest alignment of runs that sit on the anchors is the identity |
| RoleGates.Ancestors | alpha-one/scripts/verify_roles.py:209-218 | the worklist terminates and returns reachability on any graph, cycles included |
| RoleGates.Children | alpha-one/scripts/verify_roles.py:222-225 | the inverted graph, with parents unknown to the catalog |
| RoleGates.Descendants | alpha-one/scripts/verify_roles.py:221-234 | the same for the inverted graph |
| RoleGates.Duality | alpha-one/scripts/verify_roles.py:209-234 | d is a descendant of a exactly when a is an ancestor of d |
| RoleGates.Effective | alpha-one/scripts/verify_roles.py:237-242 | the keys held by a role or by any of its ancestors |
| RoleGates.CheckHoldersClosed | alpha-one/scripts/verify_roles.py:383-392 | check 3 accepts exactly when every key's holders are closed under descendants |
| RoleGates.CheckListsReproduced | alpha-one/scripts/verify_roles.py:394-398 | check 4 accepts exactly when every role's listed keys are its effective keys |
| RoleGates.GatesAgree | alpha-one/scripts/verify_roles.py:383-398 | the two checks accept the same catalogs and bindings |
| TableCells.CellIsEscapedText | alpha-one/scripts/build_prd_registers.py:47-49 | a printed cell is the flattened, stripped text, or a dash, with its pipes escaped |
| TableCells.ShownIs | alpha-one/scripts/build_prd_registers.py:47-49 | what a cell shows: the text on one line without the spaces around it, or an em dash where there is nothing else |
| TableCells.SpacesAre | alpha-one/scripts/build_prd_registers.py:49 | the 29 characters that are stripped |
| TableCells.RowIsOneLine | alpha-one/scripts/build_prd_registers.py:179 | a printed row is one line, whatever the texts |
| TableCells.InnerParses | alpha-one/scripts/build_docs_site.py:344-345 | the parser's split finds exactly the printed cells |
| TableCells.RowRoundTrip | alpha-one/scripts/build_docs_site.py:338-345 | every non-empty printed row comes back as what its cells show, pipes and backslashes included; U+0001 comes back as a pipe |
| TableCells.RowRoundTripIff | alpha-one/scripts/build_docs_site.py:338-345 | the trip is faithful exactly when no shown text holds U+0001 |
| TableCells.BordersAreOptional | alpha-one/scripts/build_docs_site.py:339-343 | the pipes around a row may be left off, each on its own, and spaces around it do not matter |

## Left out

Numbers and text

- Decimal rounding and overflow, and the conversion of volumes from floating point: money, prices and volumes are exact reals; a volume that is not finite, on which the engine panics, has no counterpart.
- Parsing of decimal strings and JSON: an unreadable value is an option that is empty.
- Overflow of the 32-bit day counter; sequence numbers of the engine are unbounded naturals.
- Floating-point rounding in the alignment: distances are exact, so the equality tests of the backtrack are.
- Detail texts of alerts, verdict identity and fingerprint strings, and error messages.

Rules engine

- Normalisation of the news section (lower-casing tiers, splitting instruments): the pack's news arrives compiled.
- Pack fields the evaluator never reads (time limit, funded and account-opening sections) and rules that are reserved and never emitted.
- DeliveryOrderIsIrrelevant: says nothing of verdicts, flags, days, news windows or the order in the buffer, which do depend on delivery order.
- EodAgreesWithIntraday: is about equity-basis packs, because the end-of-day rule never looks at the balance.
- JointClaimIff: is about packs that differ in percentages only and start with a positive balance; with none, or a negative one, the overall floors of two percentages coincide or nest the other way, and neither pack is the looser one. ClaimFails, DailyClaimIff and AlwaysProvesItselfIff share the positive balance.

Bridge

- Signatures, checksums, pairing and key generation: a signature is the key it verifies under, a snapshot is whether it parses, is final and has a good checksum; the hello check itself is not modelled.
- Interleaving inside one frame (the lock is released between `guard.go:97` and `bridge.go:299`), reads of the session state without its lock, and two connections racing on one object.
- Replay of pending control commands, which nothing ever adds; the control hub, heartbeats and node moves.
- Publishing: an append-only sequence, with no failures and without the broker time parsed from the payload.
- The node-wide view across objects: sequence claims are per session object, since a second hello makes another one.

Gateway

- RetryAfterIsTight: takes a clock that does not go back, which Go's monotonic readings give it, and requests of the denied class only between denial and release. GrantedIffRoom and KeepsBoundIff take the same clock.
- Saturation of durations at the ends of their range, and eviction of idle keys, which neither store does.
- HTTP, middleware composition, authentication, entitlement, header and cache code; hashing of bodies and the 1 MB cut of recorded responses.
- OwnersAreTtlApart: and what builds on it, takes the same monotonic clock; HistoryExplains, ReplayWasCommitted and LandsOnAnotherIff hold on any clock.
- EncodeCrockford: is stated for the 16 bytes its only caller passes.

Tooling

- Roles that a binding names but the catalog lacks when they are asked for their ancestors: `ancestors` raises there, and its only caller passes catalog roles.
- Everything else in the three scripts and all other generators: text plumbing.
