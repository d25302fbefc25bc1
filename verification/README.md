# GHOST GRID trading core: a verified model

The trading core watches a MetaTrader price feed, scores each symbol with three engines, filters the fused
score through a hysteresis gate, sizes and checks orders, follows open positions with a trailing stop and
closes everything when a portfolio trigger fires.  This project models the parts of it that are complete,
deterministic and stateful, and proves what holds of them over whole runs and over inputs of any length.

| file | what it models |
|---|---|
| Market | bars, directions, Python's list slices, reflection of bars |
| Swing, Structure, FairValueGap, OrderBlock, HmpEngine | the HMP scoring engine and its five detectors |
| Levels, LevelReflection | greedy clustering of equal highs and lows, the liquidity target, and clustering under reflection |
| Gate, Weights, Fusion | the confluence gate, the learnt strategy weights, score fusion |
| Bars, Nesting, Aggregator | ticks into M1, M3 and M5 bars, streamed and in batch |
| Algebra, Correlation, CorrelationEngine, CorrelationReference | laws of real products, Pearson correlation, the portfolio average and what it is without the loops |
| TokenBucket, RateLimiter, AlertLimiter | the command limiter and the alert limiter |
| Writer | the outbound queue with its circuit breaker |
| Instruments, Trail, Position | the trailing stop and the life of a position |
| Sizing, Basket | lot size, pre-trade checks, the position registry and its basket risk |
| Nuclear | the portfolio triggers and the cooldown protocol |

Code that changes objects in place is modelled by classes and by methods with loops; each such method is
proved against a function of the old state, and the theorems are about that function over all runs.  Prices
and times are exact reals; timestamps that the source keeps as integers are integers.  A coroutine is a
state machine whose steps are the stretches between its awaits.  The clock, the outcome of a pipe write, the
verdicts of the CVD and weakness detectors and the square root are parameters.

## Where the code differs from its comments

The model follows the code.

- A new bar starts with volume 0 and its opening tick is never added (data/aggregator.py:60, 136, 141); the
  nesting theorem counts exactly what that loses.
- The time of the last bucket cleanup is never advanced (security/rate_limiter.py:95-96), so after five
  minutes every call cleans up.  That cannot be observed.
- A bucket that has to be created is stamped with a second clock reading (security/rate_limiter.py:48, 92,
  99-102), so a recreated bucket starts a little short of full.  Any difference between the two readings can be
  seen in the answer to that call or to some later one, and no difference cannot: `RecreationUnobservableIff`.
  The admission bounds hold all the same.
- Fusion averages the engine scores (scoring/fusion.py:62-71), while the gate's thresholds fit their sum: on
  anything fusion produces the gate can only discard.
- All three strategies learn the same outcome of every close (positions/state_machine.py:153-165), so the
  weights stay at one third for ever.
- A stop at the default 1.5 ATR (risk/sizer.py:76) can never pass the reward:risk check, which needs at most
  two thirds of an ATR.  The sizing theorems are therefore about arbitrary stops.
- The portfolio state's basket risk omits the division by the pip size (portfolio/state.py:55-57), so the
  basket check of the validator measures the risk times the pip size: a small fraction of it, except for
  US30, NAS100 and BTCUSD, whose pip size is 1.  The registry's measure is the one bounded here.
- A closed position is not protected from further ticks (positions/state_machine.py:91-101): it may close
  again, and a recorded profit may turn into a loss.
- A stop at no distance gets the minimal lot (risk/sizer.py:51-52), which can be less than a wider stop gets.
- A pause lasts only until the next quiet poll outside a cooldown (nuclear/cooldown.py:66-70), which is half a
  second; a resume during a cooldown is undone in the same way.
- A poll that fires is forgotten when its close raises (nuclear/controller.py:66-80, 97-104; the call at
  nuclear/executor.py:52 stands outside the `try`), and until some poll completes the breaker stays as it was:
  while a trigger holds and the closes fail, a cooldown of 15 minutes does not end.
- A trigger is not held back by the cooldown of the last one (nuclear/controller.py:88-116), so one condition
  that outlasts two polls locks the day.
- A buffer of capacity 0 would keep every bar, as Python's `s[-0:]` is the whole list (data/schema.py:125-129).

## Model

| member | source | states |
|---|---|---|
| Swing.DetectSwingHighs | scoring/hmp/swing.py:20-62 | the loop over the lookback slice, with its two neighbour slices and final reversal, reports exactly the specified list |
| Swing.DetectSwingLows | scoring/hmp/swing.py:65-101 | the same for lows |
| Swing.SwingHighsExact | scoring/hmp/swing.py:20-62 | a point is reported if and only if its bar, found through its negative index in the full list, lies in the lookback slice and is strictly above all `window` neighbours on both sides; points come newest first and more than `window` bars apart |
| Swing.SwingLowsExact | scoring/hmp/swing.py:65-101 | the same for lows, obtained from the highs of the mirrored bars |
| Swing.MirrorSwingHighs | scoring/hmp/swing.py:20-101 | the swing lows of the mirrored bars are the swing highs with their prices negated, in the same order |
| Structure.FirstIsNewest | scoring/hmp/swing.py:104-113 | the first reported swing is the newest one; nothing is reported exactly when no bar of the slice is a swing |
| Structure.BosExact | scoring/hmp/bos.py:25-70 | a break is confirmed if and only if there are 10 bars, an ATR, and the current bar closes beyond the newest swing among the bars before it |
| Structure.BosReport | scoring/hmp/bos.py:35-70 | the report carries the price of that swing whether confirmed or not, and is empty when there is no swing, too few bars or no ATR; momentum and M3 agreement only come with a confirmed break, and are then the distance past the price in ATRs and the same break on the last 15 M3 bars |
| Structure.M3BosExact | scoring/hmp/bos.py:73-90 | the M3 check holds if and only if there are 8 bars and the last of the latest 15 closes beyond the newest swing among the others |
| Structure.ChochExact | scoring/hmp/choch.py:26-118 | confirmed if and only if there are 10 bars and the current wick passes the newest swing of the 20 bars before |
| Structure.ChochReport | scoring/hmp/choch.py:26-118 | a confirmed report carries the price of that swing; high quality exactly when the close passes, the last M5 close agrees and the bar trades more than 1.2 times the mean of the 20 before it, low exactly when the close does not pass; an unconfirmed one is empty |
| Structure.MirrorBos | scoring/hmp/bos.py:25-90 | the SHORT half on mirrored bars gives the report of the LONG half on the original with the level negated, and vice versa, the M3 check included |
| Structure.MirrorChoch | scoring/hmp/choch.py:26-118 | the same for the change of character |
| FairValueGap.FindNearestFvg | scoring/hmp/fvg.py:30-64 | the loop that collects unfilled gaps, and the minimum over them, compute the specified result |
| FairValueGap.NearestFvgIsNearest | scoring/hmp/fvg.py:30-64 | the gap returned is an unfilled gap of the window at least as near as every other, and the oldest among equally near ones; none is returned exactly when there is none, or too few bars, or no ATR |
| FairValueGap.NearestFvgExact | scoring/hmp/fvg.py:30-113 | over the bars alone: a gap is found if and only if two bars, one apart, of the last 20 do not overlap and the price has not come back to the first; the report is that of the nearest such pair, the oldest on ties, with its edges, size, kind and distance in ATRs |
| FairValueGap.MirrorNearest | scoring/hmp/fvg.py:30-113 | reflection of the whole search, ties included |
| OrderBlock.CountObTests | scoring/hmp/order_block.py:140-155 | the counter equals the number of touches, for both spellings of the test |
| OrderBlock.FindBullishOb | scoring/hmp/order_block.py:53-96 | the backward scan with its `continue`s and early return computes the specified scan |
| OrderBlock.FindBearishOb | scoring/hmp/order_block.py:99-137 | the same for the bearish scan |
| OrderBlock.FindActiveOb | scoring/hmp/order_block.py:33-50 | dispatch on direction, average volume and 30-bar window |
| OrderBlock.ActiveObExact | scoring/hmp/order_block.py:33-155 | over open, high, low, close and volume alone: a block is found exactly when there are 15 bars and some bar of the last 30 goes one way, the next three the other, and the price is within two bodies of it; it is the body of the newest such bar, with the number of later bars that overlap it, stale from three on, and its volume over the mean of the last 20 |
| OrderBlock.MirrorActiveOb | scoring/hmp/order_block.py:33-155 | reflection of both scans, their early exits and their test counts |
| HmpEngine.ReflectionSymmetry | scoring/hmp/engine.py:38-116 | on the mirrored snapshot the engine gives the opposite direction the same total, the same four component points and the mirrored report of every detector, for bar lists of any length |
| HmpEngine.ReportsFromBars | scoring/hmp/engine.py:38-94 | each report is about the bars it should be: structure on M5, character and gaps on M3, order blocks on M5, gaps and blocks around the middle of bid and ask, in the direction asked for |
| TokenBucketLaw.LevelIsLowestCeiling | security/rate_limiter.py:42-70 | the token level before a call equals the least, over all earlier calls of the key, of capacity + rate * elapsed - admitted since; time counts from the second clock reading of a call that created its bucket, and a call to the bucket in use attains the least |
| TokenBucketLaw.AdmissionExact | security/rate_limiter.py:42-70 | a call is admitted if and only if admitting it keeps every interval from the start of an earlier call to now within capacity + rate * length; if and only if it keeps those that start in the bucket in use |
| TokenBucketLaw.IntervalBound | security/rate_limiter.py:42-70 | in every run with a non-decreasing clock, every interval between two calls obeys that bound, across any number of recreated buckets |
| TokenBucketLaw.AnyIntervalBound | security/rate_limiter.py:50-70 | so does any stretch of real time |
| TokenBucketLaw.TokensInRange | security/rate_limiter.py:50-70 | tokens never exceed the capacity, and are negative only in a bucket just created with a long gap between its two readings |
| TokenBucketLaw.SameFrom | security/rate_limiter.py:94-103 | from a creation on, as long as no bucket is recreated with a gap, the tokens are those of a bucket never taken away |
| TokenBucketLaw.GapShows | security/rate_limiter.py:94-103 | whenever one is recreated with a gap, some continuation of closely spaced calls gets another answer |
| RateLimiting.AnswerIsOwnHistory | security/rate_limiter.py:81-126 | an answer depends on the clock readings of the same user and action alone, whatever other keys do and whatever was evicted, for any second readings |
| RateLimiting.EvictionUnobservable | security/rate_limiter.py:94-126 | a limiter that deletes idle buckets answers every call as one that never deletes, if the calls that recreated a bucket of that key read the clock twice alike; first creations may differ |
| RateLimiting.RecreationUnobservableIff | security/rate_limiter.py:94-126 | after any history, deleting the bucket that a call recreates can be seen in no answer to its key, now or on any continuation whose later recreations of that key read the clock twice alike, if and only if the two readings of that call are equal |
| RateLimiting.LimiterExact | security/rate_limiter.py:81-126 | the whole limiter, evictions and second readings included, admits a call exactly when the interval bounds of that key allow it |
| RateLimiting.LimiterBound | security/rate_limiter.py:30-126 | no stretch of time admits a key more than limit + limit / 60 * length times, with limits 3, 10, 10, 30 and 30, whatever the gaps between first and second readings |
| RateLimiting.RecreationExact | security/rate_limiter.py:99-110 | the call that creates its bucket is itself allowed exactly when the gap between its readings costs at most limit - 1 tokens; this says nothing about later calls |
| RateLimiting.TwoReadingsRevealEviction | security/rate_limiter.py:94-126 | a run with readings in order and no gap above one second in which eviction changes an answer |
| RateLimiting.TokenBucket.RefillTo | security/rate_limiter.py:50-59 | updates the fields in place as the specified refill |
| RateLimiting.TokenBucket.TryConsume | security/rate_limiter.py:61-70 | updates the fields and answers as specified |
| RateLimiting.RateLimiter.CheckLimit | security/rate_limiter.py:81-113 | the bucket dictionary stays the one the whole history of calls demands, and so does the answer |
| RateLimiting.RateLimiter.CleanupOldBuckets | security/rate_limiter.py:115-126 | deletes exactly the buckets idle for over an hour |
| AlertLimiter.TelegramRateLimiter.Allow | telegram/alerts.py:48-59 | the deque is exactly the normal-priority sends of the window; a message is refused exactly when the window is full; high priority passes and changes nothing |
| AlertLimiter.TelegramRateLimiter.Prune | telegram/alerts.py:54-55 | popping from the left removes exactly what has left the window |
| AlertLimiter.WindowBound | telegram/alerts.py:40-59 | no closed interval as long as the window holds more than the maximum |
| AlertLimiter.SharedLimiter | telegram/alerts.py:62 | the limiter in use allows 4 messages a minute |
| Gate.JudgeIsDecide | scoring/gate.py:63-124 | the counters decide exactly what the symbol's history demands: execute after two successive scores at their own thresholds, strong when the latest clears 20 more, alert on crossings 1, 12, 23 and so on, discard every 16th visit to the watch band |
| Gate.DecisionExact | scoring/gate.py:63-124 | each decision over scores and lines: strong or plain execution exactly for the second score in a row at its own line, alert exactly on crossings 1, 12, 23, watchlist exactly within 20 below and not on every sixteenth visit |
| Gate.CountersInClosedForm | scoring/gate.py:78-124 | each counter in closed form over the history |
| Gate.ConfluenceGate.Evaluate | scoring/gate.py:63-124 | the decision is a function of that symbol's own events, in any interleaving of symbols and resets |
| Gate.ConfluenceGate.UpdateCounters | scoring/gate.py:78-124 | updates one symbol's entries of the three dictionaries and no other's |
| Gate.ConfluenceGate.ResetSymbol | scoring/gate.py:126-138 | clears that symbol and no other |
| Bars.OneMoreTick | data/aggregator.py:119-146 | adding one tick to the batch grouping either completes the open bar and opens another, or updates the open bar |
| Bars.StartsExact | data/aggregator.py:70-74 | a tick opens a bar exactly when it raises the running maximum of the buckets |
| Bars.SameGroupIff | data/aggregator.py:70-74 | two ticks fall in one bar exactly when they share the running maximum, late timestamps included |
| Bars.OpenTimesIncrease | data/aggregator.py:49-74 | bars carry the running bucket of their group, and open times strictly increase |
| Bars.HighLowExact | data/aggregator.py:62-68 | high and low are the greatest and the least mid of the group |
| Bars.CompletedBarExact | data/aggregator.py:37-87 | a completed bar starts at a whole multiple of its minutes and opens, closes, peaks and bottoms at the middles of bid and ask of the ticks between two starts; its volume is theirs less that of the first |
| Aggregator.StreamIsBatch | data/aggregator.py:113-146 | streaming one tick into what the batch grouping holds gives what it holds of the longer history, and exactly the bars that tick completes |
| Aggregator.BuffersHold | data/aggregator.py:93-107 | the buffers hold the last 300, 200 and 100 completed bars |
| Aggregator.LastNSnoc | data/schema.py:125-129 | trimming at every append keeps the last `max_size` of all bars ever appended |
| Aggregator.OpenBar.Update | data/aggregator.py:62-68 | in-place update of the open bar |
| Aggregator.BarBuffer.Append | data/schema.py:125-129 | append and trim |
| Aggregator.OhlcvAggregator.OnTick | data/aggregator.py:113-146 | after any ticks the open bars and the buffers of all three timeframes are those of the batch grouping, and the bars returned are those this tick completes |
| Aggregator.OhlcvAggregator.Advance | data/aggregator.py:119-146 | one round of the loop; the other timeframes are untouched |
| Nesting.StartsNest | data/aggregator.py:37-41 | every M3 or M5 bar starts at a tick that starts an M1 bar |
| Nesting.StretchIsTiled | data/aggregator.py:49-74 | the bar of any stretch between two M1 starts is tiled by the M1 bars between them |
| Nesting.CoarseBarsAreTiled | data/aggregator.py:113-146 | every completed M3 or M5 bar has the open, close, high and low of consecutive completed M1 bars, and exceeds their volume by exactly the opening-tick volumes of all of them but the first |
| Levels.FindEqualLevels | scoring/hlcp/liquidity_mapper.py:89-115 | the nested loops end and compute the greedy clustering |
| Levels.EqualLevelsSound | scoring/hlcp/liquidity_mapper.py:89-115 | levels strictly increase and each averages at least two inputs, all within the tolerance of it |
| Levels.EqualLevelsComplete | scoring/hlcp/liquidity_mapper.py:89-115 | any two inputs within the tolerance of each other yield a level within the tolerance of the lower one |
| Levels.LevelsOverBars | scoring/hlcp/liquidity_mapper.py:35-60 | two of the last 50 bars whose highs (lows for SHORT) differ by at most 0.0003 make a level within 0.0003 of the lower one |
| Levels.LevelsNearBars | scoring/hlcp/liquidity_mapper.py:35-60 | and every level is within 0.0003 of some bar of those |
| LevelReflection.ReflectionExact | scoring/hlcp/liquidity_mapper.py:89-115 | clustering the negated prices gives the negated levels in reverse if and only if, in the clusters of the sorted prices, the top of each is out of reach of the top of the one before |
| LevelReflection.ReflectionWithoutChains | scoring/hlcp/liquidity_mapper.py:89-115 | in particular whenever no price is within the tolerance of two others, one on each side, that are not within the tolerance of each other |
| LevelReflection.LowerPairWins | scoring/hlcp/liquidity_mapper.py:95-113 | of three equidistant prices the lower two form the level, of their negatives the other two, so there the two sides differ |
| Levels.TargetExact | scoring/hlcp/liquidity_mapper.py:35-73 | the target is the nearest level beyond the price, and is missing exactly when no level lies beyond it, or there are fewer than 10 bars, or no ATR |
| Levels.EqualExtremesPull | scoring/hlcp/liquidity_mapper.py:35-115 | two equal extremes form a level within the tolerance of the lower one; if it lies beyond the price there is a target no farther than it; it surely does when the lower extreme lies beyond the price by more than the tolerance |
| Levels.EqualExtremesScore | scoring/hlcp/liquidity_mapper.py:35-115 | that level earns at least 6, 12 or 20 points when it lies beyond the price and less than 3, 2 or 1 ATR away |
| Levels.ScoreExact | scoring/hlcp/liquidity_mapper.py:35-86 | the score is 20 if and only if some level lies ahead of the price within less than one ATR, at least 12 within less than two, at least 6 within less than three, otherwise 0, and 0 with fewer than 10 bars or no ATR |
| Levels.NearExtremesMayNotPull | scoring/hlcp/liquidity_mapper.py:35-115 | a list of bars with two equal highs within the tolerance above the price and yet no target |
| Correlation.CauchySchwarz | portfolio/correlation.py:39-54 | the squared numerator is at most the product of the variance sums, for lists of any length |
| Correlation.CoefficientBound | portfolio/correlation.py:20-54 | the coefficient lies between -1 and 1 |
| Correlation.CoefficientSymmetric | portfolio/correlation.py:20-54 | swapping the two series changes nothing |
| Correlation.DefinedIff | portfolio/correlation.py:34-52 | there is a coefficient exactly for two series of one length in each of which two values differ |
| Correlation.PerfectCorrelation | portfolio/correlation.py:20-54 | a rising straight line gives 1, a falling one -1 |
| Correlation.CoefficientExact | portfolio/correlation.py:39-54 | the coefficient without means: sum of products less product of sums over n, against the root of the same for each list with itself |
| PortfolioCorrelation.OrderIndependent | portfolio/correlation.py:108-143 | the average is the same in whatever order the set of symbols is enumerated |
| PortfolioCorrelation.ClampNeverBinds | portfolio/correlation.py:138-143 | the average lies between 0 and 1, so the clamp changes nothing |
| CorrelationReference.ResultExact | portfolio/correlation.py:108-143 | the result is the mean absolute coefficient over exactly the pairs of symbols whose latest prices, as many as the shorter window holds, have one |
| CorrelationReference.TwoSymbols | portfolio/correlation.py:118-143 | for two symbols it is the absolute coefficient of those latest prices, or 0 |
| CorrelationReference.OldPricesDoNotMatter | portfolio/correlation.py:130-132 | prices of one symbol older than every other window is long change no result |
| PortfolioCorrelation.CorrelationEngine.RecordPrice | portfolio/correlation.py:74-89 | every window stays the last `window_size` of its own symbol's prices |
| PortfolioCorrelation.CorrelationEngine.ComputePortfolioCorrelation | portfolio/correlation.py:91-143 | the nested loops over pairs compute the specified average |
| Writer.StepKeepsInv | bridge/writer.py:65-150 | every step keeps the queue a suffix of the accepted messages, each message with exactly one fate, and the counters equal to the counts of fates |
| Writer.Conservation | bridge/writer.py:65-150 | in every run accepted = written + failed + dropped + queued + in flight |
| Writer.Order | bridge/writer.py:65-150 | the queue is a suffix of what was accepted, and what reached the pipe is a subsequence in acceptance order |
| Writer.BreakerExact | bridge/writer.py:124-143 | the breaker is open if and only if the current run of failures has reached 5 |
| Writer.EnqueueAnswers | bridge/writer.py:65-98 | enqueue answers true exactly when it accepts the message, last in the queue, and refuses exactly while the breaker is open |
| Writer.DepthExact | bridge/writer.py:82-95 | in every run the recorded depth is the greatest length the queue has had |
| Writer.OpenBreakerFreezes | bridge/writer.py:72-77 | while it is open nothing is accepted, taken or written, and only the end of its sleep closes it |
| Writer.PipeWriter.PutMessage | bridge/writer.py:65-98 | enqueue refines its step and keeps the invariant |
| Writer.PipeWriter.TakeMessage | bridge/writer.py:109-123 | taking the head refines its step; an empty queue changes nothing |
| Writer.PipeWriter.FinishWrite | bridge/writer.py:124-150 | both outcomes of a write refine their step |
| Writer.PipeWriter.ResetBreaker | bridge/writer.py:109-116 | the end of the sleep refines its step |
| Trail.StopIsExtremum | positions/trail_manager.py:78-116 | a LONG stop is the maximum of price - distance over all ticks since arming, a SHORT stop the minimum of price + distance, however ATR and mode vary |
| Trail.StopNeverLoosens | positions/trail_manager.py:93-116 | no tick moves the stop against the position |
| Trail.HitExact | positions/trail_manager.py:93-124 | a tick that moves the stop never hits it; a tick hits exactly when it crosses the stop the earlier ticks left |
| Trail.DistancePositive | positions/trail_manager.py:23-50 | the distance is positive and at least half the ATR |
| Trail.DistanceExact | positions/trail_manager.py:23-50 | the distance is the greater of half the ATR and the price difference worth 1.50 USD a lot in a scalp burst, 0.75 otherwise |
| Trail.TrailManager.Arm | positions/trail_manager.py:78-91 | sets the stop that one tick calls for |
| Trail.TrailManager.Update | positions/trail_manager.py:93-116 | keeps the stop equal to the extremum and reports a move exactly when it moved |
| Position.OpenHistory | positions/state_machine.py:84-132 | a position still open is a function of its ticks: trailing from the first tick at the trigger on, with all ticks since then in its stop and the greatest profit so far |
| Position.ExitExact | positions/state_machine.py:91-132 | which of the four exits the next tick asks for, in terms of the tick history alone |
| Position.TrailsIff | positions/state_machine.py:103-112 | an open position trails exactly when some tick so far showed a profit of 3 USD in a scalp burst or 1.50 otherwise |
| Position.ExitLogged | positions/state_machine.py:153-170 | a tick that closes an open position adds to its log exactly that exit, the price and the profit there, and the state says whether there was one |
| Position.CloseExact | positions/state_machine.py:134-170 | any close logs reason, price and profit; the state is profit, nuclear or loss by that profit and reason |
| Position.LockedProfitGrows | positions/trail_manager.py:93-116 | once a position trails, no tick that leaves it open lowers the profit locked in at its stop, even as ATR and mode vary |
| Position.LockedProfitFloor | positions/state_machine.py:103-125 | an open position has a locked-in profit exactly from the tick it armed at on, and it is at least the trigger it armed at less the distance it armed with, in USD |
| Position.ForwardOnly | positions/state_machine.py:84-132 | states never move backward, and every exit ends in a closed state |
| Position.ClosedClosesAgainIff | positions/state_machine.py:91-101 | a closed position closes again, and logs it, exactly when a tick diverges or crosses the hard stop |
| Position.ClosedProfitKeptIff | positions/state_machine.py:91-101 | a recorded profit survives the next tick exactly when that tick neither diverges nor crosses the hard stop, or closes in profit again |
| Position.ClosedProfitCanBecomeLoss | positions/state_machine.py:91-101 | a run of three prices that arms the trail, hits it in profit and then crosses the hard stop, turning the recorded profit into a loss |
| Position.PositionStateMachine.ProcessTick | positions/state_machine.py:84-132 | refines the step, and teaches the weights exactly when it closes |
| Position.PositionStateMachine.CloseAt | positions/state_machine.py:134-170 | state, log entry and the outcome taught to all three strategies |
| Weights.ClosesTeachNothing | positions/state_machine.py:153-165 | after any run of closes every normalised weight is one third |
| Weights.RowExact | scoring/bayesian_weights.py:32-79 | in every run of updates a row counts its strategy's wins and losses, and its weight before normalising is (1 + wins) / (2 + wins + losses) |
| Weights.NormalizedProportion | scoring/bayesian_weights.py:63-79 | normalising keeps the proportions between the strategies |
| Weights.NormalizedShares | scoring/bayesian_weights.py:63-79 | the weights are positive and sum to 1, whatever was learnt |
| Weights.BayesianWeightUpdater.Update | scoring/bayesian_weights.py:32-61 | rewrites one row of the table and keeps every row a count of its own wins and losses |
| Weights.BayesianWeightUpdater.GetNormalizedWeights | scoring/bayesian_weights.py:63-79 | the accumulating loop computes every normalised weight |
| Fusion.RoundNearest | scoring/fusion.py:61-99 | rounding gives a nearest integer, the even one on a tie |
| Fusion.CompositeBetween | scoring/fusion.py:61-80 | for any learnt weights the composite lies between the least and the greatest engine score |
| Fusion.ConfluenceBounded | scoring/fusion.py:61-99 | the winning base lies between its own engines' scores and the final composite between 0 and 63 |
| Fusion.WinnerExact | scoring/fusion.py:86-99 | LONG wins when no engine scores it lower, ties included, SHORT when each of its scores is above all of LONG's; scores, base and regime reported are the winner's |
| Fusion.ExchangedSides | scoring/fusion.py:86-99 | exchanging the sides turns the direction unless both composites are equal, when LONG wins either way |
| Fusion.WeightsAssigned | scoring/fusion.py:61-84 | each weight goes with its own engine's score |
| Fusion.ConfluenceAfterCloses | scoring/fusion.py:34-99 | after any run of closes: base, direction and composite in terms of the rounded means of the two sides and the factor of the regime |
| Fusion.GateOnlyDiscards | scoring/gate.py:80-124 | after any history of the gate, a score that fusion produced is discarded |
| Instruments.ListedAreSound | config/instruments.py:33-173 | every listed instrument has a positive pip size and pip value and the common lot step |
| Instruments.ListedIff | config/instruments.py:33-173 | which twelve symbols are listed, with which pip sizes and pip values |
| Sizing.LotExact | risk/sizer.py:28-69 | the lot is a multiple of 0.01 between 0.01 and 10; it risks at most 1% of equity exactly when the minimal lot does, and no larger multiple up to 10 would; only a stop at the entry price, which risks nothing at any size, gets the minimal lot all the same |
| Sizing.LotGrowsWithEquity | risk/sizer.py:28-69 | more equity never means a smaller lot |
| Sizing.LotShrinks | risk/sizer.py:28-69 | for any equity and any stop at a distance, a wider stop never means a larger lot |
| Sizing.LotShrinksWithDistance | risk/sizer.py:46-59 | for any two stops, the wider one gets no larger lot unless the nearer one is at no distance and two minimal lots fit behind the wider one, and then it does |
| Sizing.ValidateExact | risk/validator.py:32-113 | approved exactly when all eight checks pass and the symbol is listed; otherwise the reason is that of the first failing check |
| Sizing.ApprovedIff | risk/validator.py:32-113 | approved if and only if, over the fields of order and portfolio, all the limits hold and the symbol is listed |
| Sizing.VerdictExact | risk/validator.py:32-113 | otherwise the reason is the first in order whose limit is broken |
| Sizing.RrPassesIff | risk/validator.py:77-80 | a stop placed `multiplier` ATRs away passes the reward:risk check exactly when the multiplier is at most two thirds |
| Sizing.StopOnLosingSide | risk/sizer.py:72-90 | the computed stop lies the given number of ATRs on the losing side of the entry |
| Sizing.DefaultStopNeverApproved | risk/sizer.py:72-90 | no order with the default stop is ever approved |
| Basket.StateRiskIsScaled | portfolio/state.py:48-60 | the state's measure is the registry's times the pip size |
| Basket.RunIsModerate | positions/registry.py:32-117 | every run of validated opens and closes keeps at most 5 positions, each within 1% of the largest equity at which an order was approved, if no approved order had its minimal lot forced above 1% |
| Basket.BasketHeat | positions/registry.py:123-132 | under the same condition the basket risks at most 5% |
| Basket.MinimalLotBreaksHeat | risk/sizer.py:46-59 | without it one approved order breaks the 5% alone |
| Basket.PositionRegistry.AddPosition | positions/registry.py:32-56 | registry and portfolio state stay in step, and basket risk grows by exactly the new position's |
| Basket.PositionRegistry.RemovePosition | positions/registry.py:99-117 | profit is booked only for a position really there; basket risk falls by exactly its risk |
| Basket.PositionRegistry.GetTotalRisk | positions/registry.py:123-132 | the loop computes the sum, in any order of the positions |
| NuclearTriggers.EvaluateExact | nuclear/triggers.py:14-120 | over the fields of the portfolio: nothing fires exactly when there is no position or no limit is crossed; otherwise the first in order that is |
| NuclearCooldown.CountExact | nuclear/controller.py:115-116 | in any interleaving the count is the number of fires since the last reset, and the day is locked exactly when there were two |
| NuclearCooldown.LockedUntilReset | telegram/commands.py:234-242 | a locked day stays locked until a reset, and no resume before that changes anything |
| NuclearCooldown.BreakerAfterPoll | nuclear/cooldown.py:53-70 | right after every completed poll, one that fires nothing or whose close returns, the breaker is set exactly when some fire is under 15 minutes old, whatever commands, resets and failed closes came between |
| NuclearCooldown.LostPollLeavesNoTrace | nuclear/controller.py:97-104 | a firing poll whose close raises changes nothing, whatever else happens while it waits |
| NuclearCooldown.LostPollRightIff | nuclear/controller.py:66-80 | after such a poll at `now`, with any number of them before: if the last event to set the breaker was a completed poll at `earlier`, the breaker is right if and only if the cooldown was not on then and over now; if a pause, only during a cooldown; if a resume, only outside of one |
| NuclearCooldown.LostPollRightAtFirst | nuclear/controller.py:66-80 | if nothing has ever set it, it is off and right |
| NuclearCooldown.LostPollKeepsPause | nuclear/controller.py:97-104 | a run in which a pause keeps the breaker on after such a poll although nothing ever fired |
| NuclearCooldown.LostPollKeepsOldCooldown | nuclear/controller.py:97-104 | a run in which a 15-minute cooldown is still on an hour after the fire |
| NuclearCooldown.ResetKeepsCooldown | portfolio/ledger.py:59-66 | a reset at midnight never cuts a cooldown short |
| NuclearCooldown.ResetQuietsTheDay | portfolio/ledger.py:59-66 | right after a reset at a positive equity none of the four profit and loss reasons calls |
| NuclearCooldown.QuietPollForgetsCommands | nuclear/cooldown.py:66-70 | after a quiet poll the state is as if no pause or resume had been given |
| NuclearCooldown.PauseSurvivesIff | telegram/commands.py:207-208 | a pause outlives the whole next poll, whether a close returns or raises, exactly when a fire is recent or a trigger holds |
| NuclearCooldown.ResumeSurvivesIff | telegram/commands.py:234-242 | a resume of an unlocked day outlives the whole next poll exactly when no trigger holds and no fire is recent, or one holds and its close raises |
| NuclearCooldown.PauseIsUndone | telegram/commands.py:207-208 | a concrete run in which a pause is gone after one poll |
| NuclearCooldown.OneEpisodeLocksTheDay | nuclear/controller.py:82-119 | a condition that outlasts two polls locks the day, however short the time between them |
| NuclearCooldown.PortfolioState.ApplyCooldown | nuclear/cooldown.py:35-77 | refines its step; time remains exactly while the cooldown is active |
| NuclearCooldown.PortfolioState.PauseTrading | telegram/commands.py:207-208 | refines its step |
| NuclearCooldown.PortfolioState.ResumeTrading | telegram/commands.py:234-242 | refines its step; refused exactly when the day is locked |
| NuclearCooldown.PortfolioState.ResetDay | portfolio/ledger.py:59-66 | refines its step; breaker and time of the last fire stay |
| NuclearCooldown.NuclearController.StartPoll | nuclear/controller.py:82-95 | a poll up to its await: quiet, it applies the cooldown; otherwise it leaves the state alone |
| NuclearCooldown.NuclearController.FinishPoll | nuclear/controller.py:97-119 | a fire recorded after its await always leaves the breaker set; a failed close records nothing |
| HmpEngine.ScoreIsSum | scoring/hmp/engine.py:96-116 | remark, read off the point table: the score is the sum of its four parts and lies between 0 and 60, so the cap never cuts anything off |
| HmpEngine.FullScoreIff | scoring/hmp/engine.py:52-98 | remark, read off the point table: 60 points exactly when all four signals are at their best |
| HmpEngine.PointsNeedSignals | scoring/hmp/engine.py:52-98 | remark: the point table, by what the four reports say |

## Left out

- RateLimiting.LimiterExact: assumes a clock that does not go back between or within calls.
- RateLimiting.LimiterBound: assumes the same.
- RateLimiting.EvictionUnobservable: assumes the same, and equal readings where a bucket is recreated, which `RecreationUnobservableIff` shows to be needed.
- Correlation.CoefficientBound: about exact reals and any function that is a square root; floating-point error is not modelled.
- PortfolioCorrelation.ClampNeverBinds: the same; with rounding the clamp may matter by an ulp.
- NuclearCooldown.BreakerAfterPoll: about polls that complete; the breaker may be wrong after one whose close raises, and `LostPollRightIff` says exactly when. It assumes clock readings at least 15 minutes after the epoch, because the source's initial 0 reads as a fire at the epoch.
- Basket.BasketHeat: approved orders whose minimal lot alone risks more than 1% are excluded, which `MinimalLotBreaksHeat` shows to be needed; fills are at the proposed entry price.
- Position.OpenHistory: the CVD and weakness detectors are boolean inputs of each tick.
- AlertLimiter.TelegramRateLimiter.Allow: the window length is a natural number of seconds.
- Floating-point rounding, everywhere; Python's `round` in fusion is modelled as half-to-even on exact reals.
- Direction strings other than LONG and SHORT, which the source silently treats as SHORT.
- The lookback and window of the swing detector are natural numbers; Python would accept negative ones.
- Symbol and timeframe fields of bars, and the bar sequence numbers: constant within one aggregator.
- The aggregator's and the limiter's metrics, and the writer's write latency.
- Exceptions and cancellation inside the writer's loop; its one-second wait on an empty queue changes nothing.
- The SQLite table of strategy weights is a map, and strategy names an enumeration, so the upper-casing of names is not modelled.
- Exceptions inside a trigger, a registry entry or the governor, except where a missing symbol or a zero pip size reaches them.
- The close commands of the nuclear executor: only whether the close returned or raised.
- `registry.process_tick` and `ledger.update_unrealized`: they call members that do not exist on the snapshot.
- The HLCP and MPP engines: their scores are inputs of fusion; they are not symmetric under reflection.
- `bridge/protocol.py`: outbound commands are only printed and inbound messages only parsed, so there is no round trip.
- ATR, VWAP, the CVD ring, the pipe reader, reconnection, the connection pool, drift detection and daily reports: simpler repeats of the invariants here, or mostly I/O.
- `main.py`, Telegram sending, logging and the asyncio scheduler.
