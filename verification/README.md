# Lending liquidator and heartbeat bookkeeping, modelled in Dafny

This project models two pieces of the interBTC automation bots.

**The lending liquidator's decision engine** (`bots/lending-liquidator/src/liquidate.ts`, module `Liquidate`):
- `ReferenceValue` converts an amount into the reference currency with an optional oracle rate. A missing rate gives zero.
- `FindHighestValueCollateral` folds over a borrower's collateral positions. It keeps the position of highest reference value.
- `LiquidationStrategy` scans every undercollateralized borrower and each of its loans. Each loan is scored as `min(reference value of the repayable amount, value of the borrower's best collateral)`. The repayable amount is `min(total debt × close factor, free balance)`. The method keeps the first triple (repay amount, collateral currency, borrower) with the highest positive score.

The strategy is a method with nested loops, like the source's nested `forEach`. It is proved against a specification:
- `CandidateAt(s, i, j)` is what borrower `i`'s loan `j` would yield.
- `IsFirstBest` holds of the candidate with the highest positive score that comes first in scan order.
- The method returns nothing exactly when no candidate scores above zero. Otherwise it returns the first-best candidate's triple.

**The bridge tester's heartbeat bookkeeping** (`bots/bridge-tester/src/redeem.ts`, module `Heartbeat`): the class `Redeem`. Its fields are:
- the cached dust value;
- the heartbeat map from vault to the time it last answered;
- the list of expired redeem requests still to cancel.

Its methods update these fields in place. Each method's `ensures` ties the new state to a function of the old state and of what the chain answered. Examples are `HeartbeatsAfter`, `Retained` and `AliveEntries`, and lemmas state what those functions promise. A JavaScript `Map` keeps insertion order. It is modelled as `HeartbeatMap`, which holds a key list plus a Dafny `map`. Setting an existing key keeps its place in the list.

Amounts are exact non-negative rationals (`Monetary.Magnitude`). Currencies are compared by id. Exchange rates are positive multipliers into the reference currency. Close factors are permill values divided by 1 000 000.

Where the code differs from what its names, comments or market configuration suggest, the model follows the code:
- **Incentive.** The code never reads the liquidation incentive. No incentive check excludes a liquidation whose repayment is worth more than the collateral. The score is only capped by the collateral's value. `ScenarioCollateralBelowRepayment` shows such a liquidation being chosen: collateral worth 10 against a repayment worth 20. `IncentiveIsNotRead` shows that changing incentives changes no candidate.
- **Collateral ties.** The fold keeps the previous position only when it is strictly more valuable. So among positions of equal maximal value the LAST one wins.
- **Zero value.** Without a rate, the zero value is tagged with the balance's own currency, not the reference currency.
- **Buffer size.** The comments in `redeem.ts` speak of a 10% buffer and of a one-hour liveness window. The code uses 13/10 (30%) and twelve hours. The model uses the code's values.

## Model

| member | source | states |
|---|---|---|
| `Liquidate.ReferenceValue` | bots/lending-liquidator/src/liquidate.ts:12-18 | without a rate the value is zero in the balance's own currency; with a rate it is in the rate's base currency |
| `Liquidate.ReferenceValueIsLinear` | bots/lending-liquidator/src/liquidate.ts:16-17 | with a rate, valuation is additive, homogeneous and monotone in the balance, and zero only for a zero balance |
| `Liquidate.FindHighestValueCollateral` | bots/lending-liquidator/src/liquidate.ts:20-27 | no result exactly when the borrower has no collateral position |
| `Liquidate.Keep` | bots/lending-liquidator/src/liquidate.ts:35-46 | one step of the `reduce`: the result is the previous best or the current position's valuation, and is worth at least both |
| `Liquidate.Fold` | bots/lending-liquidator/src/liquidate.ts:35-47 | the `reduce` over the positions: the result is worth at least the seed and at least every position (which one wins is `FoldWinner`) |
| `Liquidate.FoldWinner` | bots/lending-liquidator/src/liquidate.ts:35-47 | the fold returns its seed only if every position is worth strictly less; otherwise it returns the last position of maximal value, worth at least the seed |
| `Liquidate.HighestValueCollateralIsLastMaximum` | bots/lending-liquidator/src/liquidate.ts:28-47 | for a non-empty list the result is a listed position with its own value; that value is at least every position's; every later position is worth strictly less (last maximum wins) |
| `Liquidate.TotalDebt` | bots/lending-liquidator/src/liquidate.ts:65 | total debt is in the loan's currency and is at least the principal and at least the accrued debt |
| `Liquidate.LoanCandidate` | bots/lending-liquidator/src/liquidate.ts:60-76 | a candidate exists exactly when the borrower has collateral and the liquidator holds the loan's currency; its repay amount is in that currency and is the smaller of free balance and debt × close factor; the score is the smaller of the repayment's reference value and the best collateral's value; the triple names that collateral's currency and the borrower |
| `Liquidate.LiquidationStrategy` | bots/lending-liquidator/src/liquidate.ts:50-82 | returns nothing exactly when no candidate scores above zero; otherwise returns the candidate with the highest positive score, the first such in borrower-then-loan order; its repay amount is within the liquidator's free balance in that currency |
| `Liquidate.FirstBestIsUnique` | bots/lending-liquidator/src/liquidate.ts:74-77 | at most one candidate is first-best, so the strategy's result is fully determined |
| `Liquidate.PositiveScoreNeedsPricedDebt` | bots/lending-liquidator/src/liquidate.ts:70-73 | a candidate scoring above zero has an oracle price for its debt, collateral of positive value and a positive repay amount |
| `Liquidate.UnpricedDebtsScoreNothing` | bots/lending-liquidator/src/liquidate.ts:70-74 | if no debt currency has an oracle price, no candidate scores above zero, so the strategy returns nothing |
| `Liquidate.IncentiveIsNotRead` | bots/lending-liquidator/src/liquidate.ts:67-68 | markets that agree on close factors yield the same candidates, whatever their incentives |
| `Liquidate.ScenarioHalfOfDebt` | bots/lending-liquidator/test/integration/liquidate.test.ts:63-70 | with the test's 50% close factor, and illustrative values not taken from the source (a debt of 40, a balance of 1000, collateral worth 100), the strategy repays 20 and seizes the collateral currency |
| `Liquidate.ScenarioNoBalance` | bots/lending-liquidator/src/liquidate.ts:72-74 | with a zero free balance the repayment is zero and nothing is chosen |
| `Liquidate.ScenarioCollateralBelowRepayment` | bots/lending-liquidator/src/liquidate.ts:73-76 | collateral worth 10 against a repayment worth 20 is still liquidated, repaying 20 |
| `Monetary.DecodePermill` | bots/lending-liquidator/src/liquidate.ts:68 | a permill of at most 1 000 000 decodes to a fraction of at most 1, and to zero only for zero |
| `Heartbeat.Redeem.constructor` | bots/bridge-tester/src/redeem.ts:21-35 | a new bot has no heartbeats, no cached dust value and no expired requests |
| `Heartbeat.Redeem.GetCachedRedeemDustValue` | bots/bridge-tester/src/redeem.ts:37-44 | the chain's dust value is taken only while none is cached; afterwards every call returns the cached value |
| `Heartbeat.IncreaseByThirtyPercent` | bots/bridge-tester/src/redeem.ts:46-50 | x × 13/10: never below x, and equal to x only for zero (further properties in `BuffersExceedDust`) |
| `Heartbeat.BuffersExceedDust` | bots/bridge-tester/src/redeem.ts:46-82 | the buffer is 30%, more than 10%; the minimum balance covers one dust redeem per vault; the redeem amount exceeds the dust value |
| `Heartbeat.Redeem.GetMinimumBalanceForHeartbeat` | bots/bridge-tester/src/redeem.ts:52-69 | zero and no fetch when the parachain is not connected; otherwise the buffered dust × vault count, where the count defaults to the number of registered vaults |
| `Heartbeat.Redeem.GetMinRedeemableAmount` | bots/bridge-tester/src/redeem.ts:71-82 | the buffered dust value plus the inclusion fee plus the bridge fee |
| `Heartbeat.Redeem.IssueIfNeeded` | bots/bridge-tester/src/redeem.ts:133-159 | issues the top-up amount exactly when the free balance is at most the minimum heartbeat balance |
| `Heartbeat.Redeem.PerformHeartbeatRedeems` | bots/bridge-tester/src/redeem.ts:173-264 | does nothing when not connected; otherwise decides the top-up, then handles every vault in order; the new heartbeat map and the vaults it decides to redeem from are the functions `HeartbeatsAfter` and `Requested` of the old map and the chain's answers |
| `Heartbeat.HeartbeatMap.Set` | bots/bridge-tester/src/redeem.ts:258 | setting a key updates its value, keeps the map valid and keeps the order of existing keys |
| `Heartbeat.HeartbeatsAfterKeepsOrder` | bots/bridge-tester/src/redeem.ts:214-263 | after the loop the map is still valid and its earlier keys keep their order |
| `Heartbeat.HeartbeatUntouched` | bots/bridge-tester/src/redeem.ts:214-263 | a vault whose request never went through keeps the entry it had, or still has none |
| `Heartbeat.HeartbeatRecorded` | bots/bridge-tester/src/redeem.ts:236-258 | a vault whose request went through has its heartbeat set to that moment, whatever later vaults with other ids did |
| `Heartbeat.Banned` | bots/bridge-tester/src/redeem.ts:217-220 | a vault with no ban is never banned; a ban holds up to and including its block and has expired after it |
| `Heartbeat.RequestedOnlyEligible` | bots/bridge-tester/src/redeem.ts:216-237 | the loop decides to redeem from a vault exactly when the block was read, the vault is not banned up to that block and it has issued at least the amount |
| `Heartbeat.Redeem.CancelExpiredRedeems` | bots/bridge-tester/src/redeem.ts:266-281 | afterwards the list is exactly the ids whose cancellation failed, in their original order |
| `Heartbeat.RetainedAreFailures` | bots/bridge-tester/src/redeem.ts:268-280 | an id remains exactly when a cancellation of it failed |
| `Heartbeat.RetainedIsSubMultiset` | bots/bridge-tester/src/redeem.ts:266-281 | the remaining ids are drawn from the old list; nothing is added and the list never grows |
| `Heartbeat.RetainedNoneWhenAllCancelled` | bots/bridge-tester/src/redeem.ts:266-281 | if every cancellation succeeds the list empties |
| `Heartbeat.RetainedAllWhenNoneCancelled` | bots/bridge-tester/src/redeem.ts:266-281 | if every cancellation fails the list is unchanged |
| `Heartbeat.Redeem.GetAliveVaults` | bots/bridge-tester/src/redeem.ts:289-298 | returns exactly the map entries no older than twelve hours before now, in map order, and changes nothing |
| `Heartbeat.AliveEntriesAreRecent` | bots/bridge-tester/src/redeem.ts:292-296 | an entry is reported exactly when it is in the map and at or after the threshold |
| `Heartbeat.EntriesAreTheMap` | bots/bridge-tester/src/redeem.ts:292 | the entries iterated are exactly the key/value pairs of the map |

## Left out

- `startLiquidator` (`liquidate.ts:84-149`) is not modelled. It is orchestration: a block subscription, concurrent fetches, submitting the transaction, and process exit.
- `bots/lending-liquidator/src/utils.ts`, the `issue.ts` files, `src/redeem.ts`, the `index.ts` entry points, `faucet.ts`, `logger.ts` and the bridge tester's `utils.ts` are not part of this model. They are SDK wrappers, event waits, timers, CLI wiring and logging.
- `Redeem.request` (`redeem.ts:84-107`) is not modelled. It sends one redeem request from an environment address, logs the outcome and changes no state.
- The commented-out `executePendingRedeems` and the redeem-expiry subscription are not modelled, because they never run. Nothing in this revision fills `expiredRedeemRequests`.
- Calls into the chain client become inputs: the dust value, both fees, the vault list, the free balance, and per vault the block number, the request outcome and the clock. Cancel outcomes and the current time are inputs too. The model assumes the calls outside the per-vault loop return.
- The top-up issue is fire-and-forget in the source. The model only returns the amount that would be issued.
- The vault list's random shuffle is not modelled. The vaults come in a given order.
- `MS_IN_AN_HOUR` is defined in `consts.ts`, which is not part of this model. It is taken as 3 600 000.
- The currency checks of the monetary library are not modelled. Amounts of different currencies are compared by magnitude, as in `liquidate.ts:38` and `liquidate.ts:73`, and `toBase` does not check the amount's currency.
- Currency identity: the source keys `rates`, `liquidatorBalance`, `oracleRates` and `markets` by `Currency` object reference (`liquidate.ts:22`, `liquidate.ts:52-55`), so the lookups at `liquidate.ts:32`, `:37`, `:66`, `:67`, `:69` and `:70` miss for an equal but distinct `Currency` object. The source then values the collateral at zero or skips the loan, or, for a miss in `markets`, throws (see the `Liquidate.LiquidationStrategy` line below). The model compares currencies by id, that is it assumes one `Currency` object per currency.
- Rounding to a currency's decimals is not modelled. Arithmetic is exact.
- `Liquidate.LiquidationStrategy`: requires a market entry for every loan currency the liquidator holds. Without one, `markets.get` at `liquidate.ts:67` gives `undefined` (the `as` cast checks nothing), reading `closeFactor` at `liquidate.ts:68` throws a TypeError, and the whole evaluation for that block is abandoned; the `catch` at `liquidate.ts:132-137` only logs it. The model does not capture that abort.
- `Liquidate.ChainBalance`: keeps only the `free` part of a balance, the only part the strategy reads.
