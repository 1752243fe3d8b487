# Chronos: verification models

Chronos is a C++ trading system. This project models the parts of it whose
correctness is hardest to see by reading: the lock-free queue that carries
ticks, orders and fills between threads, the publication of risk parameters to
lock-free readers, the grid strategy's bookkeeping of live orders, and, more
briefly, the depth book, position accounting, replay and the log buffer.

## How it is built

Concurrent code is modelled twice. A step machine (`QueueMachine`,
`RiskMachine`) has one step for each access to shared memory, any number of
threads and any interleaving; safety is an invariant that every step keeps and
theorems over every run. A class (`MpmcQueue.Queue`,
`RiskEngine.ParameterStore`) has the source's fields and loops in place; each of
its methods is proved to take exactly the machine's steps, with other threads'
steps in the gaps between its own.

Sequential code that changes fields (`GridStrategy`, `DepthBookArrays`,
`PositionBook.PositionManager`, `TimeReplayers`, `LogBuffers`) is a class whose
methods are tied to a function on the state, and the promises are lemmas about
that function over every run.

| file | models |
|---|---|
| `QueueMachine`, `QueueInvariant`, `QueueSteps`, `QueueTheorems` | the queue protocol on unbounded tickets: steps, invariant, safety and the meaning of `false` |
| `QueueLinearizable` | every run of the queue against an atomic bounded FIFO |
| `QueueProgress` | what retries cost, what `size()` reads, why one slot is not enough, a stalled producer |
| `QueueWord64`, `Bits`, `ModArith` | the same machine on 64-bit words that wrap, with the mask and the signed difference |
| `MpmcQueue` | the queue object with its loops |
| `RiskMachine`, `RiskProofs`, `RiskTheorems`, `RiskLimits` | publication of parameters: steps, invariant, guarantees and where they end |
| `RiskEngine` | the writer's calls and the optimistic reader in place |
| `Decimal` | the 32-bit-fraction fixed point and price rounding |
| `GridModel`, `GridProofs`, `GridTheorems`, `GridStrategy` | the grid strategy: functions, conservation, behaviour, and the callbacks in place |
| `DepthBook`, `DepthBookArrays` | one side of the depth book against the trimmed ordered map |
| `PositionBook` | fills, average price and profit |
| `TimeReplay`, `TimeReplayer` | merging recorded streams by time |
| `LogBuffer` | the in-memory append and reading records back |

For the depth book, position accounting and replay the repository holds the
declarations and their comments but not the bodies. Those three models are
written from the declarations; their theorems are about that reading of them.

## Where the code and its comments differ

- The queue's header comment describes `fetch_add` followed by spinning. The
  code does a compare-and-swap on the ticket and returns `false`; the model
  follows the code.
- The queue's `static_assert` admits `N == 1`. With one slot "published" and
  "handed back" are the same sequence number, and a second push overwrites the
  first element. The capacity is respected on every run exactly when there are
  at least two slots (`QueueProgress.CapacityHoldsIffTwoSlots`).
- `try_pop` can return `false` while finished pushes wait behind a stalled
  producer (`QueueProgress.EmptyBehindFinishedPush`), so a `false` is not
  linearizable; `QueueTheorems.FullExactly` and `EmptyExactly` say what it means.
- The signed difference is computed after casting each word, which is exact for
  the first 2^63 tickets and afterwards whenever both numbers lie in the same
  stretch of 2^64 (`Bits.CastThenSubtract`). The word machine uses the two's
  complement difference, which is what the subtraction gives on hardware that
  wraps.
- The risk reader's fallback comment says a reader "won't see corruption, just
  possibly stale" data. Every field it returns was in `hot_params_` during the
  call, but the fields can be of different sets: every fallback of every run is
  of one set if and only if no update changes the converted parameters
  (`RiskLimits.FallbackWholeIff`); for a function that reads no field twice, if
  and only if no two of the sets installed differ in more than one field
  (`RiskLimits.FallbackWholeOnceIff`).
- The version stamped into a cold buffer's hot copy is the odd number of the
  write that was in progress (`RiskTheorems.AtRestAllCopiesAgree`).
- The grid strategy's `onFill` does not ask whether the strategy is initialized,
  and it can overwrite a live order's id (`GridTheorems.AllLiveTrackedIff`).

## Model

| member | source | states |
|---|---|---|
| `QueueSteps.StepKeepsInv` | include/chronos/utils/mpmc_queue.hpp:57-103 | every step of every thread, from stale tickets and stale sequence numbers, keeps the protocol's invariant |
| `QueueTheorems.SlotNumbersStayInLap` | include/chronos/utils/mpmc_queue.hpp:18-21 | in every reachable state a slot's number is t or t+1 for exactly one ticket t of that slot, and tail <= head <= tail + N |
| `QueueTheorems.ElementIsInItsPlace` | include/chronos/utils/mpmc_queue.hpp:57-103 | at any moment the element pushed under ticket k is being written, in its slot, being read or delivered, whole: none is lost, doubled or invented |
| `QueueTheorems.FifoAtRest` | include/chronos/utils/mpmc_queue.hpp:57-103 | with no copy in progress the delivered elements are the first `tail` pushed, in order, and the rest are in the slots |
| `QueueTheorems.CopiesNeverOverlap` | include/chronos/utils/mpmc_queue.hpp:64-66 | two threads between a winning CAS and their store never use the same slot |
| `QueueTheorems.OwnsSlotUntilPopped` | include/chronos/utils/mpmc_queue.hpp:90-92 | a claimed ticket owns its slot exactly until its pop has stored pos + N |
| `QueueTheorems.FullExactly` | include/chronos/utils/mpmc_queue.hpp:71-72 | try_push returns false if and only if its ticket is head and the ticket one lap back is not yet handed back |
| `QueueTheorems.EmptyExactly` | include/chronos/utils/mpmc_queue.hpp:97-98 | try_pop returns false if and only if its ticket is tail and that ticket is unclaimed or unpublished |
| `QueueTheorems.FalseAtRest` | include/chronos/utils/mpmc_queue.hpp:53-83 | with nobody copying, false means exactly N elements, respectively exactly none |
| `QueueLinearizable.StepIsAtomic` | include/chronos/utils/mpmc_queue.hpp:57-103 | one step of the real queue is at most one event of an atomic FIFO of capacity N, which refuses a push only when full or while some pop has taken effect and not returned, and a pop only when empty or while some push has |
| `QueueLinearizable.QueueIsLinearizable` | include/chronos/utils/mpmc_queue.hpp:12-25 | every run of any number of threads is a run of that FIFO: each successful call takes effect at one instant between its invocation and its return, and each return of false meets the FIFO's condition for refusing |
| `QueueProgress.PushRetriesPaidByOthers` | include/chronos/utils/mpmc_queue.hpp:58-76 | each retry of a push raises its ticket, so retries are at most the distance to head plus other threads' pushes |
| `QueueProgress.PopRetriesPaidByOthers` | include/chronos/utils/mpmc_queue.hpp:84-102 | the same for pops and tail |
| `QueueProgress.CallRetriesBounded` | include/chronos/utils/mpmc_queue.hpp:57-103 | a whole call retries at most as often as other threads won a ticket of its kind meanwhile |
| `QueueProgress.SizeReadingMeaning` | include/chronos/utils/mpmc_queue.hpp:105-110 | size() never over-reports unless pops overtook the head it had loaded, and then it wraps above the capacity |
| `QueueProgress.OneSlotOverwrites` | include/chronos/utils/mpmc_queue.hpp:28-28 | with N = 1 a second push overwrites the unread first element |
| `QueueProgress.CapacityHoldsIffTwoSlots` | include/chronos/utils/mpmc_queue.hpp:28-28 | over all runs the queue holds at most N elements if and only if N >= 2 |
| `QueueProgress.EmptyBehindFinishedPush` | include/chronos/utils/mpmc_queue.hpp:97-98 | a stalled producer makes try_pop return false behind a finished push |
| `QueueWord64.MaskFindsSlot` | include/chronos/utils/mpmc_queue.hpp:60-60 | for N a power of two the masked, wrapped ticket finds the slot of the unbounded one |
| `QueueWord64.BranchesAgree` | include/chronos/utils/mpmc_queue.hpp:61-75 | the signed difference of words takes the branch of the unbounded numbers for a lag below 2^63 - N |
| `QueueWord64.BranchAgreesIff` | include/chronos/utils/mpmc_queue.hpp:61-75 | for a slot number ahead of the ticket it does so if and only if the distance is below 2^63 |
| `QueueWord64.RunAgrees` | include/chronos/utils/mpmc_queue.hpp:57-103 | every run on 64-bit words is the image of the run on unbounded tickets, across any number of wraps, unless a thread sleeps through 2^63 - N tickets |
| `QueueWord64.EarlyTicketsAreSafe` | include/chronos/utils/mpmc_queue.hpp:62-62 | until head nears 2^63 nobody can lag and cast-then-subtract is exact |
| `QueueWord64.EarlyRunsAgree` | include/chronos/utils/mpmc_queue.hpp:57-103 | on every run that stays within the first 2^63 - N tickets the machine on words takes the very steps of the unbounded one, with no assumption on any thread |
| `Bits.PowerOfTwoTest` | include/chronos/utils/mpmc_queue.hpp:28-28 | for N > 0 the assertion N & (N-1) == 0 holds exactly of the powers of two |
| `Bits.MaskIsRemainder` | include/chronos/utils/mpmc_queue.hpp:60-60 | masking with N - 1 is the remainder by N |
| `Bits.CastThenSubtract` | include/chronos/utils/mpmc_queue.hpp:62-62 | the int64_t subtraction stays in range exactly when both numbers lie in one stretch of 2^64, and is then the true difference |
| `MpmcQueue.Queue.constructor` | include/chronos/utils/mpmc_queue.hpp:44-48 | slot i starts with sequence number i, which from two slots on establishes the invariant |
| `MpmcQueue.Queue.Advance` | include/chronos/utils/mpmc_queue.hpp:57-103 | any thread's next shared access, done in place, is the machine's step |
| `MpmcQueue.Queue.TryPush` | include/chronos/utils/mpmc_queue.hpp:57-77 | with other threads acting in every gap the loop ends; true: one ticket claimed in the call carries val; false: the ticket a lap back was held; undisturbed: a bounded FIFO's push |
| `MpmcQueue.Queue.TryPop` | include/chronos/utils/mpmc_queue.hpp:83-103 | likewise; true: val is what was pushed under the one ticket claimed in the call; undisturbed: a FIFO's pop |
| `MpmcQueue.Queue.FinishPush` | include/chronos/utils/mpmc_queue.hpp:65-66 | the copy and the publishing store leave val under the ticket, whatever others do meanwhile |
| `MpmcQueue.Queue.FinishPop` | include/chronos/utils/mpmc_queue.hpp:91-92 | the copy read out is the whole element pushed under the ticket |
| `MpmcQueue.Queue.Size` | include/chronos/utils/mpmc_queue.hpp:106-110 | exact when undisturbed, never above what was queued at the first load unless pops overtook it |
| `RiskProofs.StepKeepsInv` | include/chronos/risk/risk_engine.hpp:173-226 | every scalar access of the writer or of any reader keeps the publication invariant |
| `RiskTheorems.MatchedReadIsOneCurrentSet` | include/chronos/risk/risk_engine.hpp:215-223 | a version-matched read returns fields of one whole set, which hot_params_ holds at the second version load, each field the Decimal of its own parameter of the update of that version |
| `RiskTheorems.MatchedVersionsNeverDecrease` | include/chronos/risk/risk_engine.hpp:215-223 | successive matched reads of one reader see versions that never go back |
| `RiskTheorems.FallbackFieldsAreRecent` | include/chronos/risk/risk_engine.hpp:224-225 | after 100 attempts each field read, taken alone, is of a set from the one current when the call began to the one current, or being copied in, when it ended |
| `RiskLimits.FallbackFieldsWereHeld` | include/chronos/risk/risk_engine.hpp:224-225 | each field of a fallback read is a value which that field of hot_params_ held during the call |
| `RiskLimits.FallbackWholeIff` | include/chronos/risk/risk_engine.hpp:224-225 | whatever func reads, every fallback read of every run is of one set if and only if no update admitted changes the converted parameters |
| `RiskLimits.FallbackWholeOnceIff` | include/chronos/risk/risk_engine.hpp:224-225 | for a func that reads no field twice, if and only if no two of the sets that the admitted updates and the start can install differ in more than one field |
| `RiskLimits.FallbackWithoutWriteIsWhole` | include/chronos/risk/risk_engine.hpp:224-225 | over every run, a fallback whose reads all happen while version is even and unchanged is of the one set that hot_params_ holds |
| `RiskTheorems.ReaderAlwaysEnds` | include/chronos/risk/risk_engine.hpp:213-225 | in any schedule one read makes at most 201 version loads and ends of func, whatever the writer does |
| `RiskTheorems.FallbackAfterHundredFailures` | include/chronos/risk/risk_engine.hpp:213-225 | in any schedule a call falls back if and only if a hundred of its attempts failed, each by an odd version or one changed under func; no more than a hundred ever fail |
| `RiskTheorems.AtRestAllCopiesAgree` | include/chronos/risk/risk_engine.hpp:127-198 | between updates version is twice their number, the active buffer is not the write buffer, all three hot copies agree and, from the first update on, are the conversion of the active params |
| `RiskTheorems.AtRestHotIsConverted` | include/chronos/risk/risk_engine.hpp:127-133 | from the first update on, between updates, each of the five hot fields is its own parameter of the latest update: the four prices within 2^-32 of the double, cut toward zero, and the rate limit itself |
| `RiskTheorems.ColdReadHasOneUpdateOfGrace` | include/chronos/risk/risk_engine.hpp:165-179 | a cold reader that ends before the second following update begins has read one unmixed set of params |
| `RiskLimits.ColdGraceIsOneUpdate` | include/chronos/risk/risk_engine.hpp:165-179 | all cold reads, over every run, that end with at most k updates begun past their pointer load's swap are whole if and only if k <= 1 |
| `RiskLimits.ColdReadCanMixAfterGrace` | include/chronos/risk/risk_engine.hpp:165-179 | for any two updates p and q there is a run whose cold read returns a scalar of q and one of the parameters active before both |
| `RiskTheorems.UpdateRuns` | include/chronos/risk/risk_engine.hpp:173-198 | the scalar-by-scalar writer, left alone, performs exactly the whole update |
| `RiskEngine.ParameterStore.BuildHotIn` | include/chronos/risk/risk_engine.hpp:127-133 | each of the buffer's five hot fields becomes the Decimal of its own parameter, or the rate limit; the rest stays |
| `RiskEngine.ParameterStore.SwapColdBuffers` | include/chronos/risk/risk_engine.hpp:173-179 | the dark buffer becomes active, the other becomes dark and receives the hot copy |
| `RiskEngine.ParameterStore.PublishParams` | include/chronos/risk/risk_engine.hpp:181-198 | the memory after it is that of one whole update, and hot_params_ holds the Decimal of each parameter of the dark buffer |
| `RiskEngine.ParameterStore.UpdateParameters` | include/chronos/risk/risk_engine.hpp:59-60 | installs p as one whole update, each hot field from its own parameter, and keeps the writer's invariant |
| `RiskEngine.ParameterStore.StepWriter` | include/chronos/risk/risk_engine.hpp:173-198 | one scalar access of the writer in place is the machine's step |
| `RiskEngine.ParameterStore.ReadHotParamsOptimistic` | include/chronos/risk/risk_engine.hpp:209-226 | with the writer acting before every load the bounded loop returns either the fields of the current whole set, or fields each of a set between the one current at the call and the one current or being copied at the return; it matches if the writer acts in fewer than a hundred gaps and is not left in mid-write, and at the first attempt if undisturbed |
| `Decimal.DecimalRoundTrip` | include/chronos/core/types.hpp:65-79 | a Decimal survives the trip through double |
| `Decimal.DoubleRoundTrip` | include/chronos/core/types.hpp:65-79 | a double loses less than 2^-32, toward zero, on the trip through Decimal |
| `Decimal.RoundPriceIdempotent` | include/chronos/strategies/grid_strategy.hpp:195-199 | rounding a rounded price changes nothing although 0.1 has no exact Decimal |
| `Decimal.RoundPriceMonotone` | include/chronos/strategies/grid_strategy.hpp:195-199 | rounding keeps the order of prices |
| `Decimal.RoundPriceMovesLittle` | include/chronos/strategies/grid_strategy.hpp:195-199 | rounding moves a price by at most 0.05 + 2^-32 |
| `Decimal.RoundPriceHalfAway` | include/chronos/strategies/grid_strategy.hpp:195-199 | a price midway between two ticks goes to the one further from zero |
| `GridProofs.StepKeepsInv` | include/chronos/strategies/grid_strategy.hpp:46-132 | every callback, with any refusals, keeps the conservation invariant |
| `GridProofs.OrdersAreConserved` | include/chronos/strategies/grid_strategy.hpp:54-186 | over every run the issued ids are split among live, filled, cancelled and overwritten; a live one is in one slot, where it was placed; each fill is countered and each cancel requested at most once; all prices are on the tick |
| `GridProofs.FurtherPartialFillsIgnored` | include/chronos/strategies/grid_strategy.hpp:86-105 | after the first fill of an id, further fills of it do nothing |
| `GridTheorems.FillCountersOneLevelOn` | include/chronos/strategies/grid_strategy.hpp:81-107 | a fill of a tracked id frees its slot and, unless refused or off the grid, sends one fresh order of the other side one level further, at the neighbour's price bounded by the mid |
| `GridTheorems.StepOrphans` | include/chronos/strategies/grid_strategy.hpp:92-102 | a callback loses sight of a live order if and only if it is a fill whose accepted counter-order lands on an occupied slot |
| `GridTheorems.AllLiveTrackedIff` | include/chronos/strategies/grid_strategy.hpp:92-102 | all live orders are tracked after a run if and only if no fill of it did so |
| `GridTheorems.OrdinaryFillOrphans` | include/chronos/strategies/grid_strategy.hpp:92-92 | on every one-interval grid a tick and one buy fill lose the sell above |
| `GridTheorems.TimerThenTick` | include/chronos/strategies/grid_strategy.hpp:54-132 | onTimer then onTick at one mid leave nothing stale; a level is without its order if and only if it had none and its own submission was refused; a further onTimer does nothing |
| `GridTheorems.TickOrdersCross` | include/chronos/strategies/grid_strategy.hpp:66-75 | every order of a tick crosses the mid by half a unit, and at most a tenth more for each level below its own |
| `GridTheorems.TickPricesAreSpaced` | include/chronos/strategies/grid_strategy.hpp:60-78 | the orders of a tick, exactly: in level order, one for each level whose slot changes, on the side it lacks, at mid plus or minus 0.5 and 0.1 more for every level before it that lacked that side, refused ones included; each counts as a processed tick |
| `GridTheorems.TimerCancelsTheStale` | include/chronos/strategies/grid_strategy.hpp:117-131 | onTimer requests a cancel for each buy above mid and each sell below it and for no other, in level order, and books them as cancelled |
| `GridTheorems.EachEventBooksItsOwn` | include/chronos/strategies/grid_strategy.hpp:46-132 | only a fill of a tracked id adds to the filled and counts as a fill, only a timer cancels, only a tick counts as one, only onLoad and onUnload change whether the strategy is initialized |
| `GridTheorems.UnloadedDoesNothing` | include/chronos/strategies/grid_strategy.hpp:54-58 | before onLoad and after onUnload any run of ticks and timers changes nothing |
| `GridTheorems.LevelsAscend` | include/chronos/strategies/grid_strategy.hpp:34-40 | the levels run from low to high without going back |
| `GridTheorems.LevelsAreEven` | include/chronos/strategies/grid_strategy.hpp:35-39 | level i stands i parts in grid_levels of the way from low to high |
| `GridStrategy.OrderIDGenerator.Generate` | include/chronos/trading/order_id_generator.hpp:24-26 | returns the current id and moves past it, so no id is given twice |
| `GridStrategy.StrategyContext.SubmitOrder` | include/chronos/trading/strategy.hpp:46-48 | 0 and nothing recorded when refused, otherwise a fresh id and one order recorded |
| `GridStrategy.Strategy.constructor` | include/chronos/strategies/grid_strategy.hpp:34-40 | grid_levels + 1 empty levels, evenly spaced from low, for every count the source gets through |
| `GridStrategy.Strategy.PlaceAt` | include/chronos/strategies/grid_strategy.hpp:152-186 | one submission at the rounded price; on success the id overwrites the level's slot of that side only |
| `GridStrategy.Strategy.OnTick` | include/chronos/strategies/grid_strategy.hpp:54-79 | the loop in place takes the state exactly to `GridModel.OnTick` of it, whose orders, prices, slots and counts `GridTheorems.TickPricesAreSpaced` and `GridTheorems.TimerThenTick` state |
| `GridStrategy.Strategy.OnFill` | include/chronos/strategies/grid_strategy.hpp:81-107 | the search and the counter-order in place take the state exactly to `GridModel.OnFill` of it, initialized or not |
| `GridStrategy.Strategy.OnTimer` | include/chronos/strategies/grid_strategy.hpp:109-132 | the loop in place takes the state exactly to `GridModel.OnTimer` of it, whose cancel requests `GridTheorems.TimerCancelsTheStale` states |
| `DepthBook.ApplyKeepsBookOk` | include/chronos/market_data/orderbook_v2.hpp:138-142 | after any level update: at most 20 levels, strictly ordered, positive quantities |
| `DepthBook.BestIsTrimming` | include/chronos/market_data/orderbook.hpp:200-207 | keeping the first 20 of a sorted book keeps the best 20 prices of its map |
| `DepthBook.TrimIsUnique` | include/chronos/market_data/orderbook.hpp:200-207 | trimming a map to its best 20 has one result |
| `DepthBook.ArraysAreTheTrimmedMap` | include/chronos/market_data/orderbook_v2.hpp:183-191 | over every list of updates the sorted array holds exactly what the ordered, trimmed map holds |
| `DepthBook.HotStaysTopFive` | include/chronos/market_data/orderbook_v2.hpp:193-194 | an update at position 5 or beyond, or at none, leaves the five best as they were |
| `DepthBook.InsertedAt` | include/chronos/market_data/orderbook_v2.hpp:183-186 | after a level is set it is at the returned position, and -1 means exactly that it fell beyond the depth |
| `DepthBook.RemovedAt` | include/chronos/market_data/orderbook_v2.hpp:188-191 | a removal returns where the level was, and -1 exactly when there was none |
| `DepthBookArrays.BookSide.InsertLevel` | include/chronos/market_data/orderbook_v2.hpp:183-186 | in place, shifting: the array becomes the updated and trimmed book; returns the affected position or -1 |
| `DepthBookArrays.BookSide.RemoveLevel` | include/chronos/market_data/orderbook_v2.hpp:188-191 | in place: the level is gone and the others close up; returns its position or -1 |
| `DepthBookArrays.BookSide.UpdateLevel` | include/chronos/market_data/orderbook_v2.hpp:169-170 | with the dirty test the hot copy is the five best after every update |
| `PositionBook.ProfitIsConserved` | include/chronos/core/types.hpp:350-357 | for every list of fills and any price, realized plus unrealized profit is the net cash flow plus what the quantity is worth |
| `PositionBook.PartsMakeTheWhole` | include/chronos/trading/position_manager.hpp:18-19 | two partial fills at one price leave the very position of the whole, average and realized profit included |
| `PositionBook.UpdateFollowsRule` | include/chronos/trading/position_manager.hpp:86-92 | in plain numbers: adding realizes nothing and averages the cost in; reducing by a units keeps the average and realizes a times the price difference; closing or flipping realizes the whole position, and what is left opens at the price |
| `PositionBook.AverageWithinFillPrices` | include/chronos/trading/position_manager.hpp:86-88 | an open position's average stays within the prices it was filled at |
| `PositionBook.SymbolsAreIndependent` | include/chronos/trading/position_manager.hpp:80-80 | a symbol's position depends on its own fills alone |
| `PositionBook.BookProfitIsConserved` | include/chronos/trading/position_manager.hpp:18-34 | so in a book of many symbols each conserves its own profit |
| `PositionBook.PositionManager.UpdatePosition` | include/chronos/trading/position_manager.hpp:32-34 | the fill's symbol moves by that rule, every other symbol's position stays; a zero fill changes nothing and returns no position |
| `TimeReplay.EachValidRecordOnce` | include/chronos/backtest/time_replayer.hpp:107-109 | a complete replay delivers each valid record once and no other |
| `TimeReplay.ReplayIsDetermined` | include/chronos/backtest/time_replayer.hpp:97-105 | without timestamps in common, two ordered replays of the same streams are equal: only ties may fall either way |
| `TimeReplayers.DeliverKeepsOnTime` | include/chronos/backtest/time_replayer.hpp:98-105 | delivering an earliest heap entry keeps delivery in timestamp order when each stream is sorted |
| `TimeReplayers.EveryReplayMerges` | include/chronos/backtest/time_replayer.hpp:17-19 | every replay of sorted readers that runs out of events has delivered all valid records, in time order and in each stream's order |
| `TimeReplayers.ReplaysAgree` | include/chronos/backtest/time_replayer.hpp:98-105 | two replays of readers without common timestamps deliver the same sequence |
| `TimeReplayers.TimeReplayer.AddStream` | include/chronos/backtest/time_replayer.hpp:47-49 | the new stream's first valid record enters the heap |
| `TimeReplayers.TimeReplayer.AdvanceToNextEvent` | include/chronos/backtest/time_replayer.hpp:71-72 | delivers an earliest event and moves its stream on; false and no change when paused or when none remain |
| `TimeReplayers.TimeReplayer.AdvanceTo` | include/chronos/backtest/time_replayer.hpp:74-76 | delivers until the time reaches the target or none remain, nothing at or past the target except the last, and nothing at all when paused or when the time is there already; returns the number delivered |
| `TimeReplayers.TimeReplayer.AdvanceToEnd` | include/chronos/backtest/time_replayer.hpp:78-79 | ends; unless paused the replay is then complete, and in time order if the streams are sorted |
| `LogBuffers.RecordReadsBack` | include/chronos/logging/log_reader.hpp:70-71 | records laid one behind the other are read back, each at its index, whole, and an index past the last gives nothing |
| `LogBuffers.KeepsWhatFits` | include/chronos/logging/log_writer.hpp:123-133 | of records of one size a buffer keeps the longest run from the front that fits, and refuses all later ones |
| `LogBuffers.LogBuffer.Append` | include/chronos/logging/log_writer.hpp:123-133 | false exactly when the record does not fit, and then nothing changes; otherwise the record follows the earlier ones and no other byte changes |

## Left out

- Weak memory: interleavings are sequentially consistent. The acquire, release and relaxed orderings at the sequence numbers, versions and pointers are not verified.
- memcpy is modelled as a copy of one byte, or one field, after the other in ascending order.
- MpmcQueue.Queue.constructor: promises the invariant from two slots on, because it is false of one, as `QueueProgress.CapacityHoldsIffTwoSlots` shows; a capacity that is no power of two is admitted, which the source refuses at compile time.
- MpmcQueue.Queue.TryPush and TryPop: other threads act in a finite list of bursts, of any length; under endless interference a call may retry for ever, as in the source.
- QueueWord64.RunAgrees: takes the two's complement difference where the source subtracts two int64_t; past the first 2^63 tickets that subtraction can overflow, exactly when `Bits.CastThenSubtract` says, and is then undefined. Before that `QueueWord64.EarlyRunsAgree` needs no such reading. Capacities go up to 2^62.
- MpmcQueue.Queue.Size: takes capacities below 2^63.
- QueueLinearizable.StepIsAtomic: a return of false is accepted, beside a full or empty FIFO, while another call has taken effect and not returned, because the code answers false then.
- QueueLinearizable.QueueIsLinearizable: likewise; the exact meaning of false is in `QueueTheorems.FullExactly` and `QueueTheorems.EmptyExactly`.
- The element type is its bytes; alignment, padding and cache lines are not modelled.
- RiskEngine.ParameterStore.UpdateParameters: the source's body is not in the repository; the model fills the dark buffer's params scalar by scalar and then publishes. A lock against a second writer is taken for granted, and update_time_us is left out.
- checkOrder, the rate limiter, available capital and the statistics of the risk engine: bodies absent.
- OrderBookV2's own optimistic reader: the same protocol as the risk reader without the bound on retries, so without its guarantee of ending.
- DepthBookArrays.BookSide.UpdateLevel: one side of the book with its hot copy; the version counter, the double buffer and the snapshot calls of OrderBookV2 are not modelled.
- GridStrategy.Strategy.constructor: takes the level counts that the source gets through, 1 and above and -1; at 0 it divides by zero and below -1 the reserved size is refused.
- The answers of submitOrder and getMidPrice are parameters of the model; cancelOrder's answer, which the strategy ignores, and the exchange's later reports are not modelled.
- Decimal.DecimalRoundTrip: doubles are reals. With the source's double it holds of raw values of up to 53 significant bits, which covers every price below 2^21 and, of the larger ones, those whose fraction is short enough.
- Decimal.DoubleRoundTrip: doubles are reals and the raw value is unbounded; in the source the product must lie in the 64-bit range.
- Decimal.RoundPriceIdempotent: doubles are reals; IEEE rounding of the quotient and the product is not modelled.
- Decimal.RoundPriceMonotone: doubles are reals, as above.
- Decimal.RoundPriceHalfAway: doubles are reals, as above.
- Decimal.RoundPriceMovesLittle: doubles are reals, as above; an IEEE double adds its own rounding to the bound.
- GridTheorems.TickOrdersCross: doubles are reals, as above.
- GridTheorems.TickPricesAreSpaced: doubles are reals, as above.
- GridTheorems.LevelsAreEven: doubles are reals, as above.
- GridTheorems.LevelsAscend: doubles are reals, so the top level is exactly the conversion of grid_high.
- PositionBook.ProfitIsConserved: exact arithmetic instead of the fixed-point multiply and divide, which the repository does not hold.
- PositionBook.PartsMakeTheWhole: exact arithmetic, as above.
- PositionBook.AverageWithinFillPrices: exact arithmetic, as above.
- PositionBook.BookProfitIsConserved: exact arithmetic, as above.
- PositionBook.PositionManager.UpdatePosition: exact arithmetic, as above; the average of a flat position is taken as 0, which the declarations leave open; the mutex, the update time, the JSON form, the files and the cached total value are left out.
- TimeReplayers.TimeReplayer.AddStream: the counter of total events and isExhausted are left out, because what the counter includes is decided in a body the repository does not hold; callbacks and the acceleration factor are left out.
- LogBuffers.RecordReadsBack: is about the records' own bytes; the 24-byte file header before them and the typed accessors are left out.
- The log's files, mmap, seeking, rotation and flush thread, and the ZMQ bridge: I/O.
- Exchange adapters, JSON protocols, WebSocket and HTTP, user streams, gateways, execution handler, strategy engine loop, backtest fill modes and metrics, configuration, command line, security and health monitoring: network, plumbing, or bodies absent.
