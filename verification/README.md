# A verified model of a limit-order matching engine

This project models, in Dafny, a limit-order matching engine with event-sourced recovery, and proves
what its design promises. The engine accepts market and limit orders, matches them by price and then
by arrival, journals every command before applying it, and rebuilds its state after a crash by
replaying the journal. Around it are a lock-free single-producer single-consumer ring, a group-commit
journal writer and a four-lane VWAP.

`dafny verify dfyconfig.toml` checks everything.

## How the model is built

**The reference matcher** (`PriceTime.dfy`). The book is one flat sequence of resting orders in
arrival order. Matching scans the whole sequence for the best price and, at that price, the earliest
arrival, again and again. Nothing in it is clever; the laws are proved about it.

- `MatchingLaws.dfy`: the scan, price-time priority, limits, price monotonicity, the bound on trades.
- `Conservation.dfy`: quantity accounting for one command and over runs.
- `BookLaws.dfy`: invariants over runs, a market that is never crossed, fair trades.
- `ArrivalOrder.dfy`: time priority over runs, in terms of when the stream submitted each order.
- `GreedyOptimality.dfy`: greedy matching is optimal, by linear-programming duality.
- `Mirror.dfy`: the two sides are mirror images.

**The indexed book** (`Orders.dfy`, `BookIndex.dfy`, `OrderBooks.dfy`). The class `OrderBook` has the
source's four structures. Price-sorted maps are Dafny maps whose first entry is their best key; lists
are sequences of nodes; a list iterator is the identity of a node, so it survives changes elsewhere
and using it requires the node to be still there. Orders are mutable objects. Each method is proved
to do to the ghost flat book exactly what the reference matcher does, so every law above holds of it.

**Engine and recovery** (`Journal.dfy`, `StaleSubmissions.dfy`, `Recovery.dfy`, `Engines.dfy`).
`Recovery` is a step machine (stamp, append, apply, publish one trade, crash, restart) in which a
crash may fall between any two steps and lose any selection of the events that are not durable.
`Engines` has the loops over order objects, with other threads pushing and stopping meanwhile, proved
against the same `Run` and `Recover`.

**Persistence** (`EventTable.dfy`, `GroupCommit.dfy`, `Flushing.dfy`, `StoredLog.dfy`,
`FlushProgress.dfy`, `DurableRecovery.dfy`, `TradesTable.dfy`, `LostBatches.dfy`). `GroupCommit` is
the writer thread and its callers, on tables that may already hold rows; `Flushing` and
`FlushProgress` say what a flush settles and that it always gets to return, `StoredLog` says what
part of everything journaled the table then holds. `DurableRecovery` joins it with the engine into
one machine over any number of processes, each opening the tables the last one left, and proves that
this machine implements `Recovery` step for step: what is certain to survive, and what a crash
leaves, is computed from the fates of the batches and not assumed. `TradesTable` relates the trades
table to the events; `LostBatches` holds runs of that machine in which recovery or the tables fall
short.

**Concurrency** (`SpscRing.dfy`, `CommandStream.dfy`, `Service.dfy`, `ServiceProgress.dfy`).
Protocols are interleavings of atomic steps; the theorems are about every state of every behavior.
`Service` puts the command queue, the matching thread, the journal and the database into one
machine, for what `stop()` is worth. Safety is about every state of every behavior; progress says
that from every reachable state the next thing can be done: items enter and leave the ring, a
started engine serves its queue, a stopped one has journaled, applied and committed it, and a
crashed one comes back.

**VWAP** (`Vwap.dfy`), over exact reals.

## Where the code falls short of its documentation

Five promises do not hold as documented. Each has a concrete counterexample and the condition under
which it does hold.

- *Recovery always rebuilds the state.* The engine journals a submission before the book refuses a
  duplicate active id with an exception that ends the process (`src/Engine.cpp:100`,
  `src/OrderBook.cpp:12-14`), and replay then throws at the same event. `DuplicateSpoilsTheLog` is a
  run on the database and `SpoiledForGood` says no engine ever comes up again after it; `RecoveryIsTheRun` says
  recovery succeeds if and only if no journaled submission reuses an active id.
- *The journaled order is the submitted one.* The event records the original quantity
  (`include/JournalEvent.h:61`), while `reduceQuantity` is public and takes any integer, so that less
  or more than the original quantity may remain. `PartlyFilledLimitDiverges` is an input;
  `ReplayIsExactIff` gives the exact condition, for every order state.
- *`done_` counts committed records, so `flush()` means durable*
  (`persistence/PostgresJournal.h:79-80`). The writer advances it for failed batches too
  (`persistence/PostgresJournal.cpp:176-180`). `FlushCanReturnUncommitted` is a run; `FlushSettles`
  gives the exact condition, and `FlushedEventsSurvive` what a flush is worth when it holds.
- *A crash loses at most the end of the log* (`persistence/PostgresJournal.h:31-32`). A dropped batch
  leaves a hole with later events behind it. `DroppedBatchSpoilsTheMiddle` is a run in which a live
  engine's own log replays while the stored one fails in the middle. `PrefixIffNoGap` is the exact
  condition; under it the log is densely numbered and only its last event can spoil it
  (`GaplessRefinesTail`, `SequenceNumbersAreDense`, `OnlyTheLastEventSpoils`). Without it,
  `ReloadAtAnyMoment` still says what is loaded and exactly when it replays.
- *The trades table holds every fill, and replaying the events regenerates it*
  (`persistence/PostgresJournal.cpp:74-76`). `CrashLosesTradeRows` is a run without any failed batch
  after which a row is missing for good, since recovery does not write recovered trades;
  `DroppedEventLeavesItsTrade` is one in which a row is regenerated by nothing.
  `TradesTableIsCompleteIff` says which crashes lose rows: those between an event and the last of its
  trades. `TradesTableIsRegenerated` says that every row is regenerated as long as no lost event
  precedes a kept record, and `RegeneratedIffTidy` that this is needed.

## Model

| member | source | states |
|---|---|---|
| MatchingLaws.ScanFindsFirstInLine | src/OrderBook.cpp:55-66 | The order matched next is the one that outranks every other order of its side: strictly better price, or same price and earlier; none is found only on an empty side. |
| MatchingLaws.PriorityRespected | src/OrderBook.cpp:55-97 | If a pass takes anything from a resting order, every order of that side with better price, or same price and earlier arrival, is taken completely. |
| Conservation.NoTradePastABetterOrder | src/OrderBook.cpp:101-138 | No resting order trades while one that outranks it still rests. |
| ArrivalOrder.BookIsInArrivalOrder | src/OrderBook.cpp:144-161 | After every run the resting orders stand in the order in which the stream's submissions of them were accepted, whatever was filled or cancelled meanwhile. |
| ArrivalOrder.RunRespectsPriority | src/OrderBook.cpp:50-142 | At every step of every run: if a submission takes any of a resting order, every order of that side with a better price, or the same price and accepted earlier in the stream, is taken completely and is out of the book. |
| MatchingLaws.TradesRespectLimits | src/OrderBook.cpp:59-80 | Every trade is at the resting order's limit price, at most a buyer's limit and at least a seller's, for a positive quantity the resting order has. |
| MatchingLaws.TradesWalkTheBook | src/OrderBook.cpp:85-96 | One pass hits each resting order at most once; its prices never fall for a buyer and never rise for a seller. |
| MatchingLaws.HitsFollowPriority | src/OrderBook.cpp:65-66 | The trades of a pass follow priority: an order hit earlier outranks every order hit later. |
| MatchingLaws.OnlyLastHitIsPartial | src/OrderBook.cpp:126-137 | Every resting order hit before the last trade of a pass is consumed completely. |
| MatchingLaws.TradesAreBounded | src/OrderBook.cpp:55-97 | A pass makes no more trades than there are orders on the other side. |
| MatchingLaws.MatchExhausts | src/OrderBook.cpp:55-63 | A pass that leaves quantity is that of a limit order, and every order left on the other side is priced beyond its limit. |
| MatchingLaws.MatchOnlyFills | src/OrderBook.cpp:82-96 | What rests after a pass rested before, unchanged or partly filled but not empty. |
| MatchingLaws.MatchKeepsWellFormed | src/OrderBook.cpp:82-96 | Matching keeps ids distinct, the market uncrossed and every resting order a limit order with something left and the matching status. |
| BookLaws.AddKeepsWellFormed | src/OrderBook.cpp:26-45 | Adding any valid order keeps the book well-formed; in particular resting the remainder never crosses it. |
| BookLaws.RemoveKeepsWellFormed | src/OrderBook.cpp:163-189 | Cancelling keeps the book well-formed and leaves the id inactive. |
| BookLaws.RemoveCancels | src/OrderBook.cpp:163-189 | A cancel succeeds exactly if an order rests under the id, takes out that one alone, ends it cancelled and releases what was left of it. |
| BookLaws.RunKeepsWellFormed | src/OrderBook.cpp:6-189 | Every book reached by valid commands from an empty one is well-formed. |
| BookLaws.RunKeepsSizes | src/OrderBook.cpp:31-37 | If every submitted order has at most its size left, then in every reachable book every resting order has 1 to its size left, open exactly if whole. |
| BookLaws.NeverCrossed | src/OrderBook.cpp:191-201 | After every run, if both sides have orders, the best bid is strictly below the best ask. |
| BookLaws.BestPriceIsBest | src/OrderBook.cpp:191-201 | The quoted price is that of an order of the side, none has a better one, and there is none exactly when the side is empty. |
| BookLaws.RunTradesAreFair | src/OrderBook.cpp:59-80 | Every trade of every run joins a submitted buy and a submitted sell that both accept its price, which is the limit of one of them. |
| Conservation.MatchConserves | src/OrderBook.cpp:82-83 | For every id, a pass moves quantity only from resting or remaining to traded. |
| Conservation.MatchLowersOppositeDepth | src/OrderBook.cpp:82-96 | A pass lowers the depth of the other side by exactly what it fills and leaves its own side alone. |
| Conservation.RunConserves | src/OrderBook.cpp:6-189 | Over every run and for every id: accepted quantity equals traded plus resting plus cancelled or dropped. |
| BookLaws.OrderIsConserved | src/OrderBook.cpp:6-189 | For an order whose id is submitted once in a run, what was left of it at submission is what it traded plus what rests plus what was cancelled or dropped. |
| GreedyOptimality.FillsAllItCan | src/OrderBook.cpp:50-142 | The quantity traded is the smaller of the incoming size and the depth within reach: the whole other side for a market order, asks up to the limit for a buy, bids down to it for a sell. |
| GreedyOptimality.DepthDecidesTheEnding | src/OrderBook.cpp:26-45 | Filled, open, partially filled or cancelled: the depth met before the call decides which, what is left and what is released. |
| GreedyOptimality.DualBound | src/OrderBook.cpp:50-142 | Any reference price bounds the cost of every allocation over the resting orders from below. |
| GreedyOptimality.GreedyIsTight | src/OrderBook.cpp:50-142 | The pass meets that bound with equality at its last trade price. |
| GreedyOptimality.GreedyIsOptimal | src/OrderBook.cpp:50-142 | No other way of taking the traded quantity from the other side costs a buyer less or pays a seller more. |
| Mirror.MirrorMatch | src/OrderBook.cpp:54-139 | Swapping sides and reversing prices by any order-reversing map turns a pass into the mirrored pass. |
| Mirror.MirrorRun | src/OrderBook.cpp:148-179 | The mirrored command stream produces the mirrored book and trades, with buyer and seller exchanged. |
| Orders.Order.ReduceQuantity | src/Order.cpp:33-38 | Remaining quantity drops by the fill, clamped at zero. |
| Orders.CreateOrder | src/OrderFactory.cpp:5-23 | Builds a fresh valid order, or nothing exactly where a constructor throws. |
| BookIndex.IndexIsRight | src/OrderBook.cpp:169-178 | Every cancel-index entry leads to an existing level and to the one node in it that holds the order, so the unchecked lookups succeed. |
| BookIndex.ListedOnce | include/OrderBook.h:51-76 | No order is listed twice, on any side, level or position. |
| BookIndex.BestLevelIsScan | src/OrderBook.cpp:56-66 | The front of the best level is the order a scan of the flat book finds. |
| BookIndex.ErasedAgrees | src/OrderBook.cpp:85-96 | Erasing a node and its index and owner entries, and an emptied level, is removing the order from the flat book. |
| BookIndex.FilledAgrees | src/OrderBook.cpp:94-96 | A partial fill changes nobody's place in any structure. |
| BookIndex.PushedAgrees | src/OrderBook.cpp:144-161 | Resting at the back of a level with a new index entry is appending to the flat book. |
| OrderBooks.OrderBook.HitBestAsk | src/OrderBook.cpp:65-96 | One iteration of an incoming buy is one step of the naive matcher, and all structures still agree. |
| OrderBooks.OrderBook.HitBestBid | src/OrderBook.cpp:109-137 | One iteration of an incoming sell is one step of the naive matcher, and all structures still agree. |
| OrderBooks.OrderBook.MatchBuy | src/OrderBook.cpp:54-98 | The loop over asks ends and yields the naive matcher's trades, book and incoming order. |
| OrderBooks.OrderBook.MatchSell | src/OrderBook.cpp:100-139 | The loop over bids ends and yields the naive matcher's trades, book and incoming order. |
| OrderBooks.OrderBook.RestInBook | src/OrderBook.cpp:144-161 | The order goes to the end of the flat book and all structures agree. |
| OrderBooks.OrderBook.AddOrder | src/OrderBook.cpp:6-48 | Trades, book and final order are those of the naive matcher, and every order consumed ends filled; null and duplicate ids are refused without any change. |
| OrderBooks.OrderBook.CancelOrder | src/OrderBook.cpp:163-189 | Succeeds exactly for active ids, removes that order alone and leaves it as it was but cancelled; otherwise changes nothing. |
| OrderBooks.OrderBook.GetBestBid | src/OrderBook.cpp:191-195 | The naive best bid, or none. |
| OrderBooks.OrderBook.GetBestAsk | src/OrderBook.cpp:197-201 | The naive best ask, or none. |
| Journal.RebuildsWhatWasJournaled | include/JournalEvent.h:53-75 | Every valid command is rebuilt from its event; of an order everything is kept but its fills and status. |
| Journal.AddIgnoresStatus | src/OrderBook.cpp:6-48 | The status an order arrives with influences neither book nor trades nor its final state. |
| Recovery.RecoveryIsTheRun | src/Engine.cpp:66-83 | Recovery succeeds if and only if no logged submission reuses an active id, and then yields the uninterrupted run of the logged commands and, for rising numbers, the last number. |
| Recovery.BehaviorKeepsInv | src/Engine.cpp:93-125 | The recovery invariant holds at every step of every behavior, across any number of crashes and restarts. |
| Recovery.RecoveryEqualsLiveRun | src/Engine.cpp:54-133 | Between commands, whatever earlier crashes lost, replaying the log gives the live book, trade log and next number, namely those of one uninterrupted run. |
| Recovery.RecoveryStaysExactIff | src/Engine.cpp:96-109 | Journaling one more command keeps replay equal to the live engine if and only if the order is whole, or is a market order that outlasts the depth it meets at both sizes. |
| Recovery.DurableEventsSurvive | src/Engine.cpp:66-83 | What is durable at some moment is at the front of the log at every later one, through all crashes. |
| Recovery.SequenceNumbersRise | src/Engine.cpp:80-100 | Numbers rise strictly along every reachable log, whatever was lost, and a live engine uses a higher one next. |
| Recovery.LifetimesDoNotMatter | src/Engine.cpp:66-83 | Two engines that logged the same commands hold the same book and trades, however often either crashed. |
| Recovery.CrashAtAnyStep | src/Engine.cpp:93-125 | At any step the log replays to the live book or to it plus the one journaled command, and the live trade log is a prefix of the replayed one. |
| Recovery.SequenceNumbersAreDense | src/Engine.cpp:80-100 | While crashes lose only the end of the log, it is numbered 1, 2, 3, ... and a live engine uses the next number. |
| Recovery.OnlyTheLastEventSpoils | src/Engine.cpp:93-109 | While crashes lose only the end of the log, a log that cannot be recovered is spoiled by its last event alone: a submission under an active id. |
| Recovery.LiveBookIsWellFormed | src/Engine.cpp:102-109 | A live engine's book is well-formed and uncrossed at every step. |
| Recovery.SpoiledForGood | src/Engine.cpp:66-83 | From a dead engine with a durable log that cannot be recovered, every later state of every behavior is the same: no engine ever comes up. |
| StaleSubmissions.ReplayIsExactIff | include/JournalEvent.h:53-66 | For every valid command and book: replaying its event has its effect if and only if the order is refused anyway, or has exactly its size left, or is a market order and the depth exceeds neither its size nor what is left. |
| StaleSubmissions.PartlyFilledLimitDiverges | include/JournalEvent.h:61 | A partly filled limit order whose event does not replay as the order did. |
| Engines.Engine.Process | src/Engine.cpp:96-125 | One command is journaled under the next number, applied and published; it kills the thread exactly when it reuses an active id, after being journaled. |
| Engines.Engine.RunMatchingLoop | src/Engine.cpp:85-133 | With other threads pushing and stopping at any moments, commands are served in stream order: journal, book, trade log and next number are those of the commands served; it ends with the queue stopped and drained, or early exactly at a reused active id. |
| Engines.Engine.ApplyEvent | src/Engine.cpp:54-64 | Replays one event as the naive matcher would, failing exactly where the factory or the book throws. |
| Engines.Engine.Recover | src/Engine.cpp:66-83 | Rebuilds book, trade log and next number as the replay of the log does, from any starting book, and fails exactly when it does. |
| Engines.JournalRecoversTheEngine | src/Engine.cpp:66-83 | Whatever a fresh engine has served, its state is that of the run of the served commands, and recovery of its journal gives its book, trades and next number. |
| Engines.ServeThenRecover | src/Engine.cpp:54-133 | A second engine on the first one's journal recovers the first one's book, trade log, journal and next number, which are those of `Run` and `Recover`. |
| Engines.StepsHandleACommand | src/Engine.cpp:93-125 | The recovery machine's small steps compose to the effect of one processed command. |
| EventTable.RowFormat | persistence/PostgresJournal.cpp:15-20 | The codes and columns on disk: 0 submit and 1 cancel, 0 market and 1 limit, 0 buy and 1 sell, ids by bit pattern, the rest as it is. |
| EventTable.DecodedFormat | persistence/PostgresJournal.cpp:15-20 | What any codes read back as, unknown ones included. |
| EventTable.CommandRow | include/JournalEvent.h:53-75 | The row of every journaled submission and cancel, column by column. |
| EventTable.RowRoundTrip | persistence/PostgresJournal.cpp:15-20 | Encoding an event as a row and decoding it returns it, for all 64-bit ids. |
| EventTable.LoadAll | persistence/PostgresJournal.cpp:185-214 | Returns every row once, decoded, in ascending key order. |
| EventTable.LogRoundTrip | persistence/PostgresJournal.cpp:143-154 | Events inserted with increasing keys are loaded back as they were, whatever the gaps. |
| EventTable.LoadedInOrderIff | persistence/PostgresJournal.cpp:194-196 | A log with rising 64-bit numbers is loaded back as written if and only if its numbers do not cross 2^63. |
| GroupCommit.BehaviorKeepsInv | persistence/PostgresJournal.cpp:57-183 | From any tables found at the start: counters, queues, batch in flight and tables match the history of appended records in every state of every behavior. |
| GroupCommit.EnqueuedAddsUp | persistence/PostgresJournal.cpp:92-117 | In every state, enqueued equals done plus in flight plus queued. |
| Flushing.FlushSettles | persistence/PostgresJournal.cpp:110-117 | From call to return outside teardown: every record appended before the call is settled, an event among them is durable if and only if its batch was committed, and the trades table holds exactly the committed trades. |
| StoredLog.DurableIsPrefix | persistence/PostgresJournal.cpp:134-167 | While no batch of this process has failed, the table holds exactly the rows found at the start and then the settled events, a prefix of everything journaled. |
| StoredLog.PrefixIffNoGap | persistence/PostgresJournal.cpp:168-180 | The durable events, those of earlier processes included, are a prefix of everything journaled if and only if no lost event precedes a kept one. |
| StoredLog.DurableIsSelected | persistence/PostgresJournal.cpp:134-180 | The durable events are everything ever journaled less the events of failed and unsettled batches, in order. |
| Flushing.FlushCanReturnUncommitted | persistence/PostgresJournal.cpp:168-180 | A behavior in which flush returns although its only record was dropped. |
| FlushProgress.FlushCannotBeWedged | persistence/PostgresJournal.cpp:168-182 | A waiting flush may return once the writer has taken five steps, whichever commits fail and whatever is enqueued meanwhile, and until then the writer always has a step to take. |
| FlushProgress.RankFalls | persistence/PostgresJournal.cpp:119-183 | In every behavior each step of the writer brings a pending flush closer to its release and no other step moves it away. |
| FlushProgress.TeardownEnds | persistence/PostgresJournal.cpp:47-55 | From every reachable state the stop flag can be raised, and the writer then settles everything enqueued and exits. |
| GroupCommit.ExitDrains | persistence/PostgresJournal.cpp:128-130 | The writer exits only when everything enqueued has been settled. |
| DurableRecovery.PlantRefinesRecovery | src/Engine.cpp:66-125 | Engine and database together, over any number of processes and whatever batches fail, implement the recovery machine step for step. |
| DurableRecovery.CrashRefines | persistence/PostgresJournal.cpp:57-87 | A death at any moment and the opening of the tables by the next process is a crash of the recovery machine that keeps exactly the committed events. |
| DurableRecovery.BatchIsInsertable | persistence/PostgresJournal.cpp:60-72 | In every reachable state the numbers of the batch in flight are distinct and new to the table, so the primary key never makes a commit fail. |
| DurableRecovery.ReloadAtAnyMoment | persistence/PostgresJournal.cpp:185-214 | At any moment the table loads as the log less dropped and unsettled events, a prefix if and only if no lost event precedes a kept one; it replays if and only if no loaded submission reuses an active id, and then to the run of the loaded commands. |
| DurableRecovery.GaplessRefinesTail | persistence/PostgresJournal.cpp:119-183 | If no failed batch ever leaves a gap, crashes lose only the end of the log. |
| DurableRecovery.ReloadIsAPrefixOfTheLog | src/Engine.cpp:66-83 | Over any number of processes none of which left a gap, the table loads at any moment as a densely numbered prefix of everything journaled, with everything settled if no batch of this process failed; dying there cuts the log at that length; only the whole log can fail to replay. |
| DurableRecovery.FlushedEventsSurvive | persistence/PostgresJournal.cpp:110-117 | If no batch of its records was dropped, everything journaled before a flush that returned is at the front of every later reload, through any crashes, restarts and later failures. |
| DurableRecovery.FlushedTradesSurvive | persistence/PostgresJournal.cpp:110-117 | Likewise the trade rows recorded before it are, in order, at the front of the trades table at every later moment, behind nothing but the rows found at the start. |
| DurableRecovery.SpoiledForGood | src/Engine.cpp:66-83 | Once the stored log cannot be recovered and the engine is dead, log and process are the same at every later moment on the database. |
| TradesTable.TradesTableIsRegenerated | persistence/PostgresJournal.cpp:73-84 | As long as no lost event precedes a kept record in any process, the rows of the trades table are, in order, a selection of the trades that replaying the loaded events regenerates. |
| TradesTable.RegeneratedIffTidy | persistence/PostgresJournal.cpp:134-180 | For a table complete at the start, with nothing dropped before the first lost event and no event kept after it: every row is regenerated if and only if no trade is kept after a lost event. |
| TradesTable.TradesTableIsCompleteIff | persistence/PostgresJournal.cpp:73-84 | As long as no lost event precedes a kept record, the trades table is exactly what replay regenerates if and only if no trade row was dropped and neither the records stored now nor those of any earlier process break off between an event and the last of its trades. |
| TradesTable.CleanStopKeepsTradesComplete | src/Engine.cpp:31-41 | When an engine stops between commands with everything settled and no batch dropped, the trades table is exactly what replay regenerates if and only if it was when the process started. |
| LostBatches.DuplicateSpoilsTheLog | src/Engine.cpp:96-109 | A behavior on the database, without failed batches, in which one order submitted twice ends the process and leaves a stored log that the next process cannot recover. |
| LostBatches.DroppedBatchSpoilsTheMiddle | persistence/PostgresJournal.cpp:168-180 | A behavior with one dropped batch in which the live log replays, the stored one does not, and the event it fails at is not the last. |
| LostBatches.CrashLosesTradeRows | src/Engine.cpp:66-83 | A behavior without failed batches after which a trade of the recovered engine is not in the trades table. |
| LostBatches.DroppedEventLeavesItsTrade | persistence/PostgresJournal.cpp:168-180 | A behavior with one dropped batch after which the trades table holds a trade that no replay regenerates. |
| SpscRing.MaskIsWrap | include/LockFreeSPSCQueue.h:29-38 | Masking with a power of two less one is the wrapped slot index. |
| SpscRing.BehaviorKeepsInv | include/LockFreeSPSCQueue.h:36-71 | The ring invariant holds under every interleaving with stale views. |
| SpscRing.PoppedIsPrefixOfPushed | include/LockFreeSPSCQueue.h:36-71 | Items popped are always a prefix of items pushed, in order, and at most capacity less one are held. |
| SpscRing.SlotsAreNeverContended | include/LockFreeSPSCQueue.h:43-69 | The producer writes only an empty slot whose emptying it has seen, the consumer reads only the next item whose writing it has seen, and they never hold the same slot. |
| SpscRing.PushDecides | include/LockFreeSPSCQueue.h:36-56 | The outcome of push: the item is taken up if and only if fewer than capacity less one items are in the ring as the producer sees it, and refused otherwise. |
| SpscRing.PopDecides | include/LockFreeSPSCQueue.h:58-71 | The outcome of pop: an item is taken if and only if the consumer sees one. |
| SpscRing.PushSucceeds | include/LockFreeSPSCQueue.h:36-56 | From every reachable state, an idle producer can push into a ring that is not full, in at most three steps. |
| SpscRing.PopSucceeds | include/LockFreeSPSCQueue.h:58-71 | From every reachable state, an idle consumer can pop the oldest item of a ring that is not empty, in at most three steps. |
| SpscRing.RingDrains | include/LockFreeSPSCQueue.h:58-71 | From every reachable state, an idle consumer can pop every item pushed so far, in order. |
| CommandStream.StreamIsIntact | include/ThreadSafeQueue.h:22-57 | For every interleaving, pushed equals processed followed by queued. |
| CommandStream.ProducerOrderIsKept | include/ThreadSafeQueue.h:22-57 | Each producer's commands are processed in its own order, none skipped or repeated. |
| CommandStream.PushesWhileStoppedAreKept | src/Engine.cpp:21-49 | Between stop and start nothing is processed and no pushed command is lost. |
| CommandStream.StopDrains | src/Engine.cpp:31-41 | stop(), from call to return: every command pushed before the call has been processed, in order, whatever was pushed meanwhile. |
| CommandStream.StartStarts | src/Engine.cpp:21-29 | Whenever start() is called, a live thread that is not told to stop results, with the queue as it was. |
| CommandStream.ThreadServes | src/Engine.cpp:85-92 | From every reachable state, a live thread serves any number of the queued commands in as many steps, in order. |
| CommandStream.StartServeStop | src/Engine.cpp:21-41 | From every reachable stopped state the engine can be started, serves everything queued and can be stopped, with everything ever pushed processed. |
| CommandStream.PushedIsServed | src/Engine.cpp:43-49 | A command pushed while the engine is stopped is processed, after everything pushed before it, once it runs again. |
| Service.ServiceRefinesPlant | src/Engine.cpp:21-133 | Queue, threads, journal and database together behave, as far as engine and database go, as the machine that recovery is proved about. |
| Service.BehaviorKeepsInv | src/Engine.cpp:85-133 | In every state of every behavior the events journaled by the process are those of the commands it took from the queue, one for one and in order, but for one that is only stamped. |
| Service.StopIsDurable | src/Engine.cpp:31-41 | When stop() returns with no batch of the process dropped, every later reload holds, right behind what the process found at its start, the events of all commands pushed before the call, in order, through any later crashes and failures. |
| ServiceProgress.ServesTheQueue | src/Engine.cpp:85-133 | From every reachable state, a live thread journals, applies and publishes every queued command in turn and ends with the book, trades and next number of the run of those commands, provided each replays exactly and none reuses an active id. |
| ServiceProgress.WriterCatchesUp | persistence/PostgresJournal.cpp:119-183 | From every reachable state, the writer can commit everything enqueued without dropping a batch. |
| ServiceProgress.StopReturns | src/Engine.cpp:31-41 | stop() on an engine with an empty queue can return, with everything settled and no batch dropped on the way. |
| ServiceProgress.StartServeStop | src/Engine.cpp:21-133 | From every reachable stopped state with servable commands queued: start, serve all, stop; the engine then holds the run of those commands and, if no batch was dropped before, the table holds everything ever journaled. |
| ServiceProgress.ComesBack | src/Engine.cpp:66-83 | At any moment the process can die, and the next one comes up as the recovery of the stored events, or not at all exactly when that fails. |
| Vwap.VwapScalar | demos/simd_demo.cpp:31-39 | Numerator and denominator of the definition, and an average that times the volume is the weighted total, absent exactly without volume. |
| Vwap.VwapSimd | demos/simd_demo.cpp:42-79 | The four-lane loop with horizontal sum and scalar tail has the same numerator, denominator and average for every length. |
| Vwap.AverageIsBetween | demos/simd_demo.cpp:31-39 | With no negative quantity the average lies between the lowest and the highest price. |
| Vwap.AverageIsUnique | demos/simd_demo.cpp:42-79 | There is one such average only, so both loops return the same. |

## Left out

- Timestamps: order, trade and event times are arbitrary values; they influence nothing that is modelled, and recovered state is the same up to them.
- Floating point: prices are exact reals. Matching only compares prices, which constructors check to be finite and positive; VWAP is stated over reals, so rounding is not captured.
- Counter overflow: sequence numbers and the enqueued and done counters are unbounded; the machine in DurableRecovery journals numbers below 2^63 only, and LoadedInOrderIff says what happens beyond. Order quantities are unbounded integers: matching only compares them and subtracts a fill from a larger quantity, which stays within 32 bits, but `reduceQuantity` called from outside with a large negative argument overflows in C++ and is not modelled beyond 32 bits.
- Engines.Engine.Process: assumes a non-null order, because the code dereferences it before any check; the market-data sink and the user callback are not part of it. Its journal is the in-memory one, whose recordTrade does nothing; recording trades is a step of DurableRecovery.
- Recovery.RecoveryEqualsLiveRun: the machine journals only commands that replay exactly; RecoveryStaysExactIff shows that this is precisely what the equality needs. The same holds for the other results about that machine and for DurableRecovery.
- Recovery.SequenceNumbersAreDense: holds only while crashes lose just the end of the log; a dropped batch with a later committed one leaves a gap in the stored numbers (GaplessRefinesTail, PrefixIffNoGap).
- Recovery.OnlyTheLastEventSpoils: the same condition; DroppedBatchSpoilsTheMiddle shows that it is needed.
- TradesTable.RegeneratedIffTidy: the condition is exact when the table was complete at the start and nothing before the first lost event was dropped; otherwise a row that nothing regenerates can equal, by its ids, price and quantity, one that is missing, and only one direction holds.
- Service.StopIsDurable: assumes that no batch of the process was dropped, because flush() returns all the same when one was (FlushCanReturnUncommitted).
- Mutexes, condition variables, spurious wake-ups and thread creation: each critical section is one atomic step with a guard.
- The memory model: acquire and release are modelled by stale but monotone index views and by the proof that no slot is ever contended, not by an axiomatic model of C++ memory orders.
- SQL, connections and libpqxx: the events table is a map with an atomic insert that may fail for any reason and must fail on a repeated key. One process uses the tables at a time, and a connection error while opening or loading them, which throws before any event is replayed, is not modelled.
- The Redis adapter, printBook, ObjectPool, Stock, Trader, main functions, benchmarks and the test framework: input and output, measurement, or members with nothing hard to prove.
