# Verified models of the matching engines

A Dafny 4.11 model of the limit order book engines of this repository, with proofs of what they
promise. `dafny verify dfyconfig.toml` checks all of it.

## What is modelled

**The C engines.** The data layer is modelled as it is written: classes of rows whose pointer fields are
relinked in place.

- `Types`, `Rows`, `Lists`: requests, orders, trades, result codes; the order and level rows; sequences.
- `Tpool`, `Thash`, `Llist`, `Atree`: free-list pools, bucket chains, doubly linked queues, and the
  unbalanced search tree with parent pointers. A row lies in several of these at once.
- `Store`, `EngineDb`: the contents of the store as a value (`Db`), and the adapter whose operations
  each state the whole new value.
- `PriceTime`: the specification. Each side of the book is one flat list, best price first and oldest
  first; matching is a short recursion over it.
- `StoreBook`, `StoreSteps`, `StoreRest`, `StoreCount`, `StoreClient`, `StoreGroups`: how the store's
  contents read as a book, and what each change of the store does to that book.
- `MatchSteps`, `StoreCalls`, `TradeSink`, `Matcher`: the generated matcher, with its counted loops,
  traps and bounded trade buffer, refining `PriceTime` for every request.
- `PriceTimeLaws`, `BookRuns`: what the specification guarantees (priority, conservation, suffix, round
  trip) and what every run of calls keeps.
- `RequestLaws`: what an accepted request gets, over its own fields and the book before it, with every price
  comparison written out; both engines ensure it.
- `MatchingEngine`, `Differential`: the handwritten engine for every request, and both engines side by side
  over runs.
- `Checker`, `Invariants`, `CheckedRuns`, `Totals`: the run-time checker on arbitrary pointer structures,
  sound and complete, and passed between calls exactly when the stored totals are right modulo 2^64.

**The full-feature engine.**

- `FullTypes`, `FullMatch`, `FullLaws`, `FullParties`: matching with icebergs and self-trade policies as
  steps on a value.
- `LevelList`: the linked queue of one price level, whose fills and removals are those of matching by values.
- `Shadow`: the flat-list matching of the conformance test, agreeing with matching by levels.
- `PreChecks`: fill-or-kill and minimum quantity.
- `FullBook`, `FullArrival`, `ArrivalLaws`: the parts of the invariant; what one order does on arrival;
  what its conditions guarantee.
- `FullQueues`, `FullAccount`: the queue at each price, which inserting, removing and rewriting change at one
  place only; what matching takes from strangers and from the taker's own group.
- `FullTerms`, `FullStops`, `FullCalls`: an arrival, the stops that fire, and a whole call, told over the terms
  submitted (side, price, quantity, conditions) rather than over the order the engine makes of them.
- `FullCascade`: which stops a trade sets off, and in what order they and those of their own trades arrive.
- `FullEngine`: the engine as a class: submit, cancel, amend, expire, and the cascade of stops. A call is
  shown to be one arrival followed by a flat run of arrivals of the stops its trades set loose.

## How the model reads the source

- `u64` and `u32` are the integers below 2^64 and 2^32; every addition, subtraction and product of the C
  code is shown to stay in range or is written modulo 2^64. The numbers of order
  rows, level rows and buckets are parameters, with rows + 1 below 2^32; the nesting depth of stop cascades is the constant 10 of the source.
- The two pools have capacities of their own. The handwritten engine is shown for any two (the source gives it
  5,000,000 order rows and 500,000 level rows); the generated matcher for at least as many level rows as order
  rows, as its adapter reserves equally many.
- A trap of the generated matcher is an `assert false` or a precondition, so a verified call never traps.
- The generated code for buyers and sellers is one model over a side parameter.
- In the full-feature engine an order is a value kept where it rests, and the index is the set of live
  ids; the ordered maps are sequences of levels, best price first.

## Where a promise needs a condition

- *Fill-or-kill is all or nothing*: false when the taker meets an order of its own group first, as in
  `PreChecks.FokNotFilled`. `PreChecks.FillOrKill` and `ArrivalLaws.FokArrival` give the exact condition.
- *The filled quantity is at least the minimum quantity*: false when an order of the taker's own group takes
  part of it, as in `PreChecks.MinQtyNotFilled`. `PreChecks.MinQtyFilled` and `ArrivalLaws.MinQtyArrival` give
  the exact condition for each policy: met for cancel-oldest; what can be traded before the first own order, for
  cancel-newest and cancel-both; and for decrement what the minimum costs (`PreChecks.Cost`), which the book decides.
- *The quantity of a request is traded, decremented or left*: false for cancel-new and cancel-both, which
  drop the rest, as in `PriceTimeLaws.CutShortHappens`. `PriceTimeLaws.CutShort` tells from the side and the
  quantity when they do.
- *Both C engines behave alike*: false above the quantity cap, at a full store and when the level rows give
  out, as in `Differential.AboveCap`, `Differential.FullStore` and `Differential.FullLevels`.
  `Differential.StepsAgree`, `Differential.Compare` and `Differential.RunsAgree` say exactly for which commands
  and runs it holds, whatever the sizes of the two stores.
- *A level that passes the checker has its true total*: false above 2^64, as `Totals.WrappedTotal` shows by
  calls of the handwritten engine. `MatchingEngine.ProcessOrder` keeps exact totals exact, call by call, exactly
  if what rests fits the true total of its price; `BookRuns.PriceFits` shows that the quantity cap of the
  generated matcher always leaves that room.

## Model

| member | source | states |
|---|---|---|
| `Tpool.OrderPool.Reserve` | c/src/matching_engine_gen.c:35-47 | a reserved order row becomes the first free row; the rows in use do not change |
| `Tpool.OrderPool.Alloc` | c/src/matching_engine_gen.c:106-119 | returns null exactly when no row is free; otherwise the first free row leaves the free list, unlinked from every queue and chain, and the use count goes up by one |
| `Tpool.OrderPool.Free` | c/src/matching_engine_gen.c:121-129 | a row in use becomes the first free row; the guarded decrement never meets a zero count |
| `Tpool.LevelPool.Alloc` | c/src/matching_engine_gen.c:138-154 | the same for level rows: null exactly when none is free, and the row returned has an empty queue and no tree links |
| `Tpool.LevelPool.Free` | c/src/matching_engine_gen.c:156-164 | a level row in use becomes the first free row |
| `Thash.HashIndex.Find` | c/src/matching_engine_gen.c:173-183 | null exactly when no hashed row has the id, for any number of buckets; otherwise a hashed row with that id |
| `Thash.HashIndex.InsertMaybe` | c/src/matching_engine_gen.c:185-198 | succeeds exactly when no hashed row has the id, and then adds just this row; otherwise nothing changes |
| `Thash.HashIndex.Remove` | c/src/matching_engine_gen.c:200-222 | takes just this row out, wherever it is in its chain; a row that is not hashed changes nothing |
| `Llist.InsertTail` | c/src/matching_engine_gen.c:240-255 | a row already in a list changes nothing; any other becomes the end of the queue read over its links, forwards and backwards, and the total grows modulo 2^64 |
| `Llist.Remove` | c/src/matching_engine_gen.c:257-282 | a row in no list changes nothing; otherwise the queue loses just the k-th row, for every k, and the total falls by its remaining quantity or is clamped to 0 |
| `Atree.PriceTree.Find` | c/src/matching_engine_gen.c:295-303 | null exactly when no level in the tree has the price; otherwise the level with that price |
| `Atree.PriceTree.Insert` | c/src/matching_engine_gen.c:305-334 | the in-order sequence gains the level at one place, and the result is a valid tree with parent links in strictly ascending price order |
| `Atree.PriceTree.Unhook` | c/src/matching_engine_gen.c:339-356 | a level with at most one child is replaced by that child; the new tree is the old shape without it |
| `Atree.PriceTree.Promote` | c/src/matching_engine_gen.c:357-380 | a level with two children is replaced by its successor, whether the successor is its child or far below |
| `Atree.PriceTree.Remove` | c/src/matching_engine_gen.c:336-386 | a level in no tree changes nothing; otherwise the in-order sequence loses just this level and the result is a valid tree with parent links, in all three cases of the code |
| `Atree.PriceTree.Last` | c/src/matching_engine_gen.c:403-410 | the best bid is the last level in price order, null exactly for the empty tree |
| `Atree.PriceTree.First` | c/src/matching_engine_gen.c:427-434 | the best ask is the first level in price order, null exactly for the empty tree |
| `Atree.InsertAscending` | c/src/matching_engine_gen.c:317-333 | a level put into the gap its price belongs to keeps the prices strictly ascending |
| `Atree.RemoveAscending` | c/src/matching_engine_gen.c:336-386 | taking any level out, with either kind of successor, keeps the prices strictly ascending |
| `EngineDb.EngineDb.OrderAlloc` | c/gen/engine_db_adapter.c:69-72 | null exactly when the live orders have reached the capacity; otherwise one fresh live order and no other change to the store |
| `EngineDb.EngineDb.OrderFree` | c/gen/engine_db_adapter.c:73 | an order that is in no queue and not hashed stops being live; nothing else changes |
| `EngineDb.EngineDb.LevelAlloc` | c/gen/engine_db_adapter.c:74-77 | null exactly when the live levels have reached the level capacity, which is a limit of its own; otherwise one fresh level with an empty queue |
| `EngineDb.EngineDb.LevelFree` | c/gen/engine_db_adapter.c:78 | an empty level outside both trees stops being live; nothing else changes |
| `EngineDb.EngineDb.WriteOrder` | c/gen/engine_db_adapter.c:87-100 | the payload of an order without a place becomes the given one, and no other order, level, tree or index entry changes |
| `EngineDb.EngineDb.SetRemaining` | c/gen/engine_db_adapter.c:93-100 | the remaining quantity changes and, if the order is queued, its level's total with it, modulo 2^64: totals right modulo 2^64 stay so, and exact totals stay exact exactly if the true total of that level fits in 64 bits |
| `EngineDb.EngineDb.Decrement` | c/src/matching_engine.c:66-69 | lowering the order and the level total field by field keeps totals exact, and right modulo 2^64 |
| `EngineDb.EngineDb.OrderCount` | c/gen/engine_db_adapter.c:59 | the pool counter is the number of live orders |
| `EngineDb.EngineDb.HashFind` | c/gen/engine_db_adapter.c:106 | null exactly when no hashed live order has the id |
| `EngineDb.EngineDb.HashInsert` | c/gen/engine_db_adapter.c:107 | true exactly when the id is new; then only the index changes |
| `EngineDb.EngineDb.HashRemove` | c/gen/engine_db_adapter.c:108 | only this order leaves the index |
| `EngineDb.EngineDb.QueueInsertTail` | c/gen/engine_db_adapter.c:110 | only this level's queue changes, by the order at its end; the stored total wraps modulo 2^64, and exact totals stay exact exactly if the true new total fits |
| `EngineDb.EngineDb.QueueRemove` | c/gen/engine_db_adapter.c:111 | only this level's queue changes, by the loss of the order; the stored total falls by its remaining quantity or is clamped to 0; the clamp is never taken while totals are exact, which they then stay |
| `EngineDb.EngineDb.Owner` | c/gen/engine_db_adapter.c:114-116 | null exactly when no queue holds the order; otherwise the level whose queue does |
| `EngineDb.EngineDb.TreeFind` | c/gen/engine_db_adapter.c:118-122 | null exactly when no level of that tree has the price |
| `EngineDb.EngineDb.TreeBest` | c/gen/engine_db_adapter.c:121-125 | the highest bid or the lowest ask, null exactly for an empty tree |
| `EngineDb.EngineDb.TreeInsert` | c/gen/engine_db_adapter.c:119-123 | only this tree changes, by one level at one place of its price order |
| `EngineDb.EngineDb.TreeRemove` | c/gen/engine_db_adapter.c:120-124 | only this tree changes, by the loss of this level |
| `EngineDb.EngineDb.TreeAscending` | c/src/matching_engine_gen.c:295-386 | in every valid store both trees list distinct levels in strictly ascending price order |
| `TradeSink.TradeSink.Emit` | c/gen/engine_db_adapter.c:62-67 | the bounded buffer gains the trade at its end |
| `Store.SumChange` | c/gen/engine_db_adapter.c:93-100 | rewriting one order of a queue changes the queue's unbounded total by exactly the difference |
| `StoreClient.ValidSound` | c/src/matching_engine_gen.c:106-434 | the linked structures of a valid store hold distinct levels by price, queues that share no order, and one hashed order per id |
| `StoreCount.SidesCount` | c/gen/matcher.c:405-408 | the two sides of the book together list every live order exactly once, so the order count is their length |
| `StoreCount.LevelsBelowOrders` | c/gen/matcher.c:178-184 | as no level is empty there are never more levels than orders, so with as many level rows as order rows a level is always left for an order that fits |
| `StoreCount.LevelsCount` | c/src/matching_engine.c:128-137 | between calls the live levels are as many as there are prices on the two sides of the book |
| `StoreCalls.FoundPrice` | c/src/matching_engine.c:128-129 | the lookup in the price tree finds a level exactly if an order of that side rests at the price |
| `StoreCount.IdsListed` | c/gen/matcher.c:400-404 | an id is on the book exactly when the index has it; if the index does not, no live order carries it |
| `StoreCount.LevelTotal` | c/gen/matcher.c:396-399 | the true total of a level is what is open at its price on its side of the book |
| `StoreCount.BestHead` | c/gen/matcher.c:100-107 | the best level of a tree has the price of the first order of that side, and the tree is empty exactly when the side is |
| `StoreCount.KeptOwner` | c/gen/matcher.c:433-438 | a live order rests on its own side in the one level that owns it, and is hashed |
| `StoreCount.RemovedBook` | c/gen/matcher.c:439-441 | taking an order out of its queue drops its id from the book and nothing else |
| `StoreRest.AppendedBook` | c/gen/matcher.c:190-191 | putting the order at the tail of the level at its price is inserting it behind all orders of equal or better price |
| `StoreRest.DroppedBook` | c/gen/matcher.c:156-158 | dropping an emptied level changes no side of the book |
| `StoreGroups.LevelsDetermined` | tests/differential/runner.c:30-46 | two stores between calls with the same book have the same levels, at the same prices, with the same queues |
| `StoreGroups.OneLayering` | tests/differential/runner.c:30-46 | a flat list of orders has one division into non-empty levels of strictly worsening price at most |
| `StoreCalls.Post` | c/gen/matcher.c:164-203 | succeeds exactly if an order row is free and, unless an order of that side rests at the price, a level row, and then the remainder rests behind every order of equal or better price; otherwise nothing changes, the order row having gone back; the index entry is always available; totals stay exact exactly if the price has room |
| `StoreCalls.Revoke` | c/gen/matcher.c:439-449 | taking an order off drops its id from both sides, with its level if it was the last there; the stored total of its level falls by its quantity or is clamped to 0 |
| `StoreCalls.Known` | c/gen/matcher.c:400-404 | the index lookup answers whether the id is on the book |
| `StoreCalls.Crossing` | c/gen/matcher.c:376-392 | the best contra level suits the request exactly if the best contra order does |
| `Matcher.Matcher.Emit` | c/gen/matcher.c:39-43 | one more trade is recorded; with room in the buffer the trap is not reached |
| `Matcher.Matcher.CancelHead` | c/gen/matcher.c:116-124 | the head of the best level is taken out of queue, index and pool; matching from the state reached still ends where it would have |
| `Matcher.Matcher.FillHead` | c/gen/matcher.c:126-153 | a fill, with or without a trade, takes the same from taker, order and level total, and removes the order if nothing is left; matching still ends where it would have |
| `Matcher.Matcher.Drain` | c/gen/matcher.c:107-155 | the inner loop ends within capacity + 1 rounds, with the level empty or the taker done |
| `Matcher.Matcher.Sweep` | c/gen/matcher.c:97-163 | the outer loop ends within capacity + 1 rounds with the remainder, trades and contra side of price-time matching |
| `MatchSteps.GoingFilled` | c/gen/matcher.c:140-154 | one fill is one step of price-time matching on the flat lists, and leaves strictly less to do |
| `MatchSteps.GoingDropped` | c/gen/matcher.c:156-160 | dropping an emptied level is no step of matching but leaves fewer levels |
| `Matcher.Matcher.Check` | c/gen/matcher.c:376-408 | the code returned before matching is the first reason to refuse, in the order of the source, and accepted requests meet what matching needs |
| `Matcher.Matcher.ProcessOrder` | c/gen/matcher.c:362-416 | from any state between calls and for any request: code, trade list and book are those of price-time matching, no trap is reached, a refused request changes nothing at all in the store. An accepted one is told over its own fields: unless it is a market order a buyer never pays more than its price and a seller never gets less; if anything is left of it there is no contra order within that price; what is left is its quantity less its trades and what its own orders lose by its mode; and a limit or post-only remainder rests with its own id, account, mode and price behind all orders of equal or better price, while any other request leaves its own side alone |
| `Matcher.Matcher.CancelOrder` | c/gen/matcher.c:418-453 | the code is CANCELLED exactly when the id is on the book, which then loses just that order; otherwise the store is unchanged |
| `Matcher.Matcher.constructor` | c/gen/engine_db_adapter.c:38-49 | on an empty store of any capacity, with a level row for every order row as the adapter reserves them, the state is ready and the book is empty |
| `PriceTimeLaws.SuffixLaw` | c/gen/matcher.c:97-163 | whatever the self-trade mode, the contra side after matching is a suffix of it before, with at most its first order reduced |
| `PriceTimeLaws.TradesInPriority` | c/gen/matcher.c:108-155 | trades are with distinct makers in price-time order, at the maker's price, which is at most a buyer's own price and at least a seller's unless the request is a market order; positive, all but the last for all the maker has left, and never of the taker's own account when a mode is set |
| `PriceTimeLaws.Conservation` | c/gen/matcher.c:108-155 | what other accounts lose is exactly what is traded; under no mode, cancel-old and decrement the request's quantity is exactly trades plus own decrements plus remainder |
| `PriceTimeLaws.CutShort` | c/gen/matcher.c:112-124 | under cancel-new and cancel-both part of the request is dropped exactly if one of its own orders rests at a price it accepts and less than the request asks for is open ahead of it |
| `PriceTimeLaws.CutShortOwn` | c/gen/matcher.c:112-124 | what the request's own orders lose under the two modes that cancel it: nothing under cancel-new, and just the first of them under cancel-both, exactly if it is met before the request is filled |
| `PriceTimeLaws.CutShortHappens` | c/gen/matcher.c:112-124 | in either mode a buyer of 5 that meets a stranger with 2 and then its own order trades 2 and has none left: 3 are dropped |
| `PriceTimeLaws.Exhausted` | c/gen/matcher.c:97-106 | a remainder means that no contra order is left at an accepted price |
| `BookRuns.RemainderFrees` | docs/c-vs-spec-divergences.md:139-153 | if anything is left of the request, matching has changed nothing at all, or an order and a whole price have left the contra side: an order row and a level row are free |
| `PriceTimeLaws.MatchInParts` | c/gen/matcher.c:97-163 | unless a mode cancels the taker, matching a quantity at once or in two parts leaves the same contra side and remainder and trades the same total |
| `BookRuns.ProcessKeeps` | c/gen/matcher.c:362-416 | every request, accepted or refused, keeps the book sorted, uncrossed, positive, within capacity and without a repeated id |
| `RequestLaws.ExecuteIs` | c/gen/matcher.c:95-203 | what an accepted request does, over its own fields and the book before: trades within its price with strangers in price-time order, the contra side used up from its front, others losing just what is traded, matching ending only when nothing is left or nothing is within its price, and the remainder resting or its own side untouched |
| `RequestLaws.RefusalIs` | c/gen/matcher.c:376-416 | each result code of the generated matcher is given exactly under its own condition: the first check to fail among type, fields and quantity, id in use, room, and a post-only price that would trade |
| `RequestLaws.AdmitsIs` | c/src/matching_engine.c:19-39 | the handwritten engine goes past its first checks exactly for a request with good fields, an id not in use, and not a post-only price that would trade |
| `BookRuns.PriceFits` | c/gen/matcher.c:396-399 | under the quantity cap the true total at every price has room for one more order of any admitted quantity, however full the book is |
| `BookRuns.HandwrittenIs` | docs/c-vs-spec-divergences.md:139-153 | the handwritten engine lacks an order row or a level row for a remainder when matching is over exactly if the pools were used up before and no contra order suits the request, and then matching has changed nothing: its refusal is always clean |
| `BookRuns.HandwrittenKeeps` | c/src/matching_engine.c:19-277 | every request keeps the book of the handwritten engine sorted, uncrossed, within the order rows, with no more prices than level rows and without a repeated id, whatever its quantity |
| `BookRuns.CancelKeeps` | c/gen/matcher.c:418-453 | every cancel keeps the same |
| `BookRuns.EveryRunFits` | c/gen/matcher.c:362-453 | so does every run of requests and cancels from the empty book, after every one of its calls |
| `BookRuns.AcceptedSuffix` | c/gen/matcher.c:97-163 | an accepted request leaves a suffix of the contra side, and other accounts lose there exactly what was traded |
| `BookRuns.RoundTrip` | c/gen/matcher.c:164-203 | an accepted order that rests without crossing is undone by the cancel of its id: the book is as it was |
| `BookRuns.NoReuse` | c/gen/matcher.c:400-404 | the id of an order that rests is refused for every later request while it rests |
| `BookRuns.CancelsCommute` | c/gen/matcher.c:418-453 | cancels of two ids commute, and neither changes what the other reports |
| `MatchingEngine.MatchingEngine.ProcessOrder` | c/src/matching_engine.c:19-277 | for every request from any state between calls, above the quantity cap or with either pool used up as well: the verdict, trades and book of price-time matching by its own checks; false leaves book and trades untouched; an accepted request gets what its own fields say, with the price limit, the end of matching and what rests written out as for the generated matcher; exact totals stay exact exactly if nothing rests or its price has room, and stay right modulo 2^64 in any case |
| `MatchingEngine.MatchingEngine.CancelOrder` | c/src/matching_engine.c:279-299 | true exactly when the id is on the book, which loses just that order; the stored total of its level falls by its quantity or is clamped to 0 |
| `Differential.StepsAgree` | tests/differential/runner.c:77-110 | one command on one book, the engines with capacities of their own: equal verdicts exactly if the command is a cancel, a request the handwritten engine refuses by its checks, or one that is within the limits of the generated matcher exactly when the other has the rows for it; then equal trades and books |
| `Differential.AboveCap` | c/gen/matcher.c:396-399 | a market order one above the quantity cap is accepted by the handwritten engine and refused by the generated one |
| `Differential.FullStore` | docs/c-vs-spec-divergences.md:139-153 | at a full store a buyer that uses up a resting order rests in the handwritten engine and is refused by the generated one |
| `Differential.FullLevels` | c/src/matching_engine.c:131-135 | with order rows left and the one level row taken the handwritten engine refuses a bid exactly at a new price, and the generated one, with a level row for every order row, takes it at any |
| `Differential.Compare` | tests/differential/runner.c:77-110 | both engines, each on a store of its own size with equal books: equal verdicts exactly for those commands, and then equal trades and equal books, each being those of price-time matching |
| `Differential.RunsAgree` | tests/differential/runner.c:77-110 | two runs of the same commands, the engines with capacities of their own, give the same verdicts exactly if every command is answered alike where the generated matcher stands; then every trade and every book along the way is the same |
| `Differential.Replay` | tests/differential/runner.c:77-110 | over any run of commands the generated matcher's replies and final book are those of price-time matching, and the run-time checker passes after every command |
| `Differential.ReplayHandwritten` | c/src/matching_engine.c:19-299 | over any run of commands, whatever the quantities and however full either pool, the handwritten engine gives the verdicts, trades and final book of price-time matching by its own checks; its totals stay exact if the true ones always fit |
| `Checker.Find` | c/src/matching_engine_gen.c:173-183 | on arbitrary acyclic chains: the first row of the bucket with the id, or null |
| `Checker.ValidatePriceLevel` | c/src/matching_engine.c:305-338 | terminates even on cyclic links; accepts exactly when the links are a proper doubly linked list of orders of this level, price and side with the stored count and total, each found in the index |
| `Checker.ValidateBst` | c/src/matching_engine.c:340-363 | terminates on any finite pointer graph, as the open price interval shrinks; accepts exactly when the links are a tree with prices nested in their intervals and sound queues, and counts levels and orders modulo 2^32 |
| `Checker.NestedIff` | c/src/matching_engine.c:349-361 | prices nested interval by interval are prices in strictly ascending order throughout |
| `Checker.CountEntries` | c/src/matching_engine.c:399-411 | accepts exactly when every chained row is flagged hashed, listed and owned, and counts them modulo 2^32 |
| `Checker.RightSpineEnds` | c/src/matching_engine.c:369-371 | on a sound tree the right spine ends at the level of highest price, so comparing the two best levels compares all bids with all asks |
| `Invariants.CountedOnce` | c/src/matching_engine.c:393-411 | a list as long as a repetition-free list it covers is a permutation of it: the counting argument behind the hash check |
| `Invariants.FoundIndexed` | c/src/matching_engine.c:322-323 | if every queued order is found and there are as many chained rows as queued orders, the chains hold exactly the queued orders, each in its own bucket, with distinct ids |
| `Invariants.IndexedFound` | c/src/matching_engine.c:322-323 | conversely, in an index of exactly those orders with distinct ids every one is found |
| `Invariants.ChecksIff` | c/src/matching_engine.c:365-415 | all comparisons of the checker succeed together exactly on a consistent layout |
| `Invariants.CheckInvariants` | c/src/matching_engine.c:365-415 | true only on a consistent state (bids below asks, proper queues and totals modulo 2^64, nothing shared, chains exactly the resting orders, counters right), and true on every consistent state |
| `CheckedRuns.SteadyConsistent` | c/src/matching_engine.c:365-415 | every state the engines reach between calls, with totals right modulo 2^64, is consistent in the checker's sense |
| `CheckedRuns.ConsistentTotals` | c/src/matching_engine.c:365-415 | conversely, in every such state that is consistent in the checker's sense the totals are right modulo 2^64 |
| `CheckedRuns.CheckSteady` | c/src/matching_engine.c:365-415 | between calls the checker returns true exactly if every stored total is the true one modulo 2^64 |
| `Totals.WrappedTotal` | tests/differential/total_overflow.c:2-9 | two calls with bids of 2^63 at one price are both accepted by the handwritten engine; it then stores total 0 for a true total of 2^64 and the checker passes; cancelling the first leaves total 0 for a true 2^63 and the checker fails |
| `LevelList.PriceLevel.PushBack` | cpp_reference/src/types.h:54-58 | the queue read over its links in both directions gains the order at its end, which is what inserting by values does to a level of that price |
| `LevelList.PriceLevel.Remove` | cpp_reference/src/types.h:60-64 | it loses just the k-th order, for every k, and the order's own links are cleared |
| `LevelList.PriceLevel.Reload` | cpp_reference/src/engine.h:469-474 | an iceberg reload moves the first order to the end and keeps all others |
| `LevelList.PriceLevel.Lower` | cpp_reference/src/engine.h:467-480 | a fill of the first node, which removes it, moves it to the end with its display reloaded, or leaves it with its new status, makes of the orders carried what matching by values makes of the queue |
| `LevelList.RemoveDrops` | cpp_reference/src/types.h:60-64 | unlinking a node is dropping its id from the orders carried |
| `LevelList.HoldsOne` | cpp_reference/src/types.h:46-65 | the links of a level decide its queue |
| `FullMatch.StepKeeps` | cpp_reference/src/engine.h:439-486 | a step of matching keeps prices strictly ordered, levels non-empty and 0 < visible <= remaining for every order, and makes (taker remaining, orders) smaller |
| `FullEngine.FullEngine.HandleStp` | cpp_reference/src/engine.h:384-435 | the policy does to taker, head order, index and clock what the step of matching says |
| `FullEngine.FullEngine.MatchAgainst` | cpp_reference/src/engine.h:439-486 | the nested loops end with the taker, levels, trades and clock of stepwise matching, and what left the levels is exactly what left the index and was freed |
| `FullLaws.MatchedFollows` | cpp_reference/src/engine.h:439-486 | no order is lost or gained, the taker keeps its terms, new trades carry consecutive ids and prices it accepts, no contra price gets better, and resting orders stay plain limit orders without conditions |
| `FullParties.NoSelfTrades` | cpp_reference/src/engine.h:451-467 | every trade is with an order that was resting at its price and is not of the taker's self-trade group |
| `FullAccount.MatchedAccount` | cpp_reference/src/engine.h:439-486 | what strangers have open falls by just what is traded; the taker loses what it trades and, under decrement, exactly what the orders of its own group lose; under cancel-newest these lose nothing |
| `FullAccount.MatchedThrough` | cpp_reference/src/engine.h:441-485 | matching never trades through a better price: its trade prices never improve, and no price left on the contra side is better than one traded at |
| `Shadow.BestIndex` | cpp_reference/tools/conformance/shadow_test.cpp:418-446 | the flat scan returns the first order at the best price the taker accepts, or none exactly when there is none |
| `Shadow.StepAgrees` | cpp_reference/tools/conformance/shadow_test.cpp:418-499 | one step of the flat list and one of the levels keep the flat list, filtered by price, equal to each level's queue, for every policy and reload |
| `Shadow.ShadowEngine.HandleStp` | cpp_reference/tools/conformance/shadow_test.cpp:356-413 | the list version of the policies is one flat step |
| `Shadow.ShadowEngine.MatchAgainst` | cpp_reference/tools/conformance/shadow_test.cpp:418-499 | from agreeing books the flat-list matching gives the same trades, clock and taker as matching by levels, and agreeing books, with a cancelled taker shown as remainder 0 |
| `PreChecks.AvailQty` | cpp_reference/src/engine.h:359-371 | the early exit does not matter: the answer to "at least this much shown" is that of the full sum |
| `PreChecks.EnoughShown` | cpp_reference/src/engine.h:372-376 | after the fill-or-kill check matching ends with nothing left or the taker cancelled, so the assertion in disposal is unreachable |
| `PreChecks.MinQtyMet` | cpp_reference/src/engine.h:377-381 | after the minimum-quantity check an order that could rest has traded, so none rests with its minimum |
| `PreChecks.MinQtyFilled` | cpp_reference/src/engine.h:603-607 | after its check an order trades at least its minimum if it cancels own orders, meets none, or gets that much before the first; for cancel-newest and cancel-both only then, and for decrement exactly if it brings what the minimum costs |
| `PreChecks.MinQtyNotFilled` | cpp_reference/src/engine.h:409-431 | under decrement a buyer of 6 with a minimum of 3 passes its check and trades 1 |
| `PreChecks.DecrementFilled` | cpp_reference/src/engine.h:409-431 | a decremented taker trades n exactly if it brings what n costs on this book, counting what own orders ahead take of it |
| `PreChecks.FirstOwn` | cpp_reference/src/engine.h:451-458 | unless own orders are simply cancelled, the taker loses something other than by trading exactly if an own order is met before it is filled |
| `PreChecks.OwnStops` | cpp_reference/src/engine.h:451-458 | if an own order is met before the taker is filled, what is open before it has been traded, and under cancel-newest and cancel-both exactly that |
| `PreChecks.FillOrKill` | cpp_reference/src/engine.h:494-503 | after its check a fill-or-kill order is traded in full exactly if it cancels own orders, meets none, or is filled before the first |
| `PreChecks.FokNotFilled` | cpp_reference/src/engine.h:597-603 | a fill-or-kill buyer of 5 passes its check with 5 shown, meets its own order first, is cancelled, and trades nothing |
| `FullBook.BookInserted` | cpp_reference/src/engine.h:289-302 | an order that cannot match joins its price, and both sides stay sorted and uncrossed |
| `FullQueues.InsertJoins` | cpp_reference/src/engine.h:289-302 | the queue of the order's price gains it at the end, and the queue of every other price stays as it was |
| `FullQueues.QueuesDecide` | cpp_reference/src/engine.h:87-88 | two sides with the same queue at every price are the same side |
| `FullQueues.PlaceOf` | cpp_reference/src/engine.h:173-207 | an order found by its id stands at one place of the queue of its price; removing it closes the gap there, rewriting it replaces it there, and every other order and queue stays as it was |
| `FullBook.ByTimeIs` | cpp_reference/src/engine.h:545-546 | sorting the triggered stops by timestamp keeps exactly the same orders |
| `FullEngine.FullEngine.InsertOrder` | cpp_reference/src/engine.h:296-302 | the queue of its price gains the order at the end, shown up to its display, and no other queue of either side changes; it moves from in flight to the book in the index |
| `FullEngine.FullEngine.Dispose` | cpp_reference/src/engine.h:494-522 | rests exactly if something is left of a limit order that may rest; final status by case; the fill-or-kill assertion is dead |
| `FullEngine.FullEngine.Execute` | cpp_reference/src/engine.h:597-633 | matching, the market-to-limit second pass and disposal leave the snapshot that an arrival past its checks makes |
| `FullEngine.FullEngine.TakeFired` | cpp_reference/src/engine.h:535-546 | exactly the stops that fire at the price leave the pending ones, and come out earliest first; the swap-out scan is followed step by step |
| `FullEngine.FullEngine.EmitAndTrigger` | cpp_reference/src/engine.h:525-533 | every trade from the start index on, and every trade made meanwhile, is delivered once; which stops fire, and in what order stops fire and trades are delivered, is the cascade of those trades, and each was hit by a trade made before it fired; the book is what their arrivals make of it |
| `FullEngine.FullEngine.EvalStops` | cpp_reference/src/engine.h:535-555 | the stops that fire at the price have their turn: they go in time order, each with the cascade of its own trades before the next; each that went arrived once and was served on the terms it waited with, its side, price, quantity and group; none is left that fires at the price |
| `FullEngine.FullEngine.ProcessActive` | cpp_reference/src/engine.h:575-643 | terminates by depth; the order is served on its own terms, and then the stops set loose are, each by a trade made before, on the terms they waited with, in the order of the cascade of the order's own trades |
| `FullEngine.FullEngine.SubmitOrder` | cpp_reference/src/engine.h:142-170 | taken exactly if the id is new and the order well-formed, with a refused call changing nothing; then it waits as a stop just as submitted, exactly if its price has not been reached, or it is served on the terms submitted: side, price limit, post-only, fill-or-kill, minimum quantity, group and policy, quantity, display and expiry. The stops that the cascade of its own trades sets off are served on theirs, in its order, each hit by a trade made before; every trade of the call is the order's or one of a pending stop's, none of which trades more than it was for; no stop is left that fires at a price of the order's own trades, nor of any trade of the call if at most 10 stops were pending; the listener is told of exactly the trades of the call, each once and in the order of that cascade; index, counters and uncrossed book stay right |
| `FullCalls.RefusalFirst` | cpp_reference/src/engine.h:329-351 | an order is admitted exactly if it is well-formed by kind and condition; any other is refused by the first of the 20 rules it breaks |
| `FullCalls.CallTrades` | cpp_reference/src/engine.h:525-555 | beyond the order's own trades every trade of a call is one of a stop that was pending, on that stop's side and within its price, and no stop trades more than it was for |
| `FullEngine.FullEngine.TradeCount` | cpp_reference/src/engine.h:525-533 | between calls every trade made has been delivered exactly once and the last price is that of the last one delivered |
| `FullEngine.FullEngine.Indexed` | cpp_reference/src/engine.h:174-177 | every indexed order is on the book or pending, and its status is new or partially filled, so the status checks of cancel and amend never refuse an indexed order |
| `FullEngine.FullEngine.CancelOrder` | cpp_reference/src/engine.h:173-190 | true exactly for a known id; the order leaves the one place of the queue of its price, or the pending stops lose just it; every other order keeps its place, nothing is left under the id and nothing is traded |
| `FullEngine.FullEngine.AmendOrder` | cpp_reference/src/engine.h:193-225 | less quantity at the same price leaves the order in its place with just the new quantity, showing no more than that and than before, and every other order at its place; a new price or more quantity takes it out and it arrives anew with the new price and quantity where given and its old terms otherwise, served on them like a submission and setting off stops; anything else changes nothing |
| `FullEngine.FullEngine.ExpireOrders` | cpp_reference/src/engine.h:228-264 | exactly the expired orders and stops leave; every other order keeps its place and every other stop stays |
| `FullArrival.LoosingOne` | cpp_reference/src/engine.h:549-555 | releasing one triggered stop with its own cascade, and then the others, is one flat run of arrivals in which each stop was hit by an earlier trade |
| `FullCascade.CascadeTold` | cpp_reference/src/engine.h:525-533 | the trades told of are those given, in their order, each followed by what its own fallout tells before the next |
| `FullCascade.TurnInOrder` | cpp_reference/src/engine.h:535-555 | in the cascade of a trade the stops that fire at its price, all of them and no others, come earliest first, each followed by all that its own trades set off before the next |
| `ArrivalLaws.FokArrival` | cpp_reference/src/engine.h:597-603 | an arriving fill-or-kill order leaves all as it was if too little is shown, never rests, and is traded in full exactly if enough is shown and no own order stops it first |
| `ArrivalLaws.NeverRests` | cpp_reference/src/engine.h:494-518 | an arriving market or immediate-or-cancel order leaves its own side as it was |
| `ArrivalLaws.PostOnlyArrival` | cpp_reference/src/engine.h:577-594 | an arriving post-only order never trades, and joins its side exactly if it does not cross |
| `ArrivalLaws.MinQtyArrival` | cpp_reference/src/engine.h:603-607 | an arriving order with a minimum quantity leaves all as it was if too little is shown; otherwise it is known for each policy exactly when what it trades reaches the minimum; it never rests without a trade |
| `FullTerms.ArrivalServed` | cpp_reference/src/engine.h:575-643 | every arrival over the terms it came with: its trades are on its side, within its limit price and with strangers; post-only trades nothing and rests exactly if it does not cross; a failed fill-or-kill or minimum check changes nothing; matching stops only for an own order or when nothing is within reach; what is left is its quantity less its trades and what its own orders take off it, and rests, with its own price or that of its first trade, display, expiry, group and policy, exactly if its kind and time in force let it; fill-or-kill and minimum quantity are met under the exact conditions |
| `FullTerms.ArriveKeeps` | cpp_reference/src/engine.h:575-643 | the book an arrival leaves is again sorted, uncrossed and without an empty level, whatever the order |
| `FullStops.FiredServed` | cpp_reference/src/engine.h:547-554 | stops that fire one after the other are each served on the terms they waited with: side, quantity, group and policy of the pending stop, and for a stop-limit order its price |
| `FullStops.AllTrades` | cpp_reference/src/engine.h:547-554 | every trade they add is one of a stop that fired, on its side and within the price of a stop-limit order, and no stop trades more than it was for |

## Left out

- Chunk allocation, `EngineDb_Init` and `EngineDb_Destroy`: the pools are filled row by row up to the capacity when a store is made.
- `c/gen/matcher_glue.c`, trade callbacks, the counters `total_trades` and `total_volume`: the reported trades are kept as a sequence.
- EngineDb.EngineDb.WriteOrder: stands for the seven setters on an order without a place, which the engines always call together; payloads of queued or hashed orders change by `SetRemaining` and `Decrement` only.
- Atree.PriceTree.Insert: is stated for a price that is not in the tree, as the law of the operation demands (tests/contract/contract_test.c:431-433); a second level at one price is not modelled.
- Atree.PriceTree.Remove: a level in no tree changes nothing, where the source still lowers the tree's count `bids_n` or `asks_n` if that is not zero (c/src/matching_engine_gen.c:398-401); no engine removes such a level.
- The roll-back branch after matching for a refused index entry: it is dead, and appears as such rather than as code.
- Checker.ValidatePriceLevel: takes the index chains to be acyclic, as the search in them would not end otherwise; the queue links are arbitrary.
- Invariants.CheckInvariants: takes the tree spines to end, as the search for the best level would not otherwise, and fewer than 2^32 rows and chained entries, as the counters are 32 bits wide.
- Thash.HashIndex.Find: the bucket of an id is its remainder by the number of buckets, which for the power of two of the source is the mask it uses.
- The one global `g_EngineDb` is a set of component objects, so that each operation can name what it changes; the handwritten engine and the generated one work on stores of their own.
- FullEngine.FullEngine.SubmitOrder: of the listener's events only trades are modelled; the post-only policy is REJECT, as repricing can reach the price 0 that stands for any price.
- FullEngine.FullEngine.MatchAgainst: works on sequences of order values; `LevelList` shows for one queue that its pointer writes do the same, but the engine is not rebuilt on it.
- PreChecks.AvailQty: sums are unbounded integers, where the source adds 64-bit quantities.
- FullEngine.FullEngine.ExpireOrders: does not fix the order in which the remaining stops are kept, which the source changes as it removes others.
- FullBook.ByTimeIs: the sort is an insertion sort; stops with equal timestamps, whose order the source leaves to its sort, come out in the order of this one.
- Growth of the order index, id recycling and peak counters of the full-feature engine: they would only add easy members.
- Time priority by timestamp within a level of the full-feature engine: triggered stops keep old timestamps, so priority is the place in the queue only.
- Equality of the whole full-feature engine with the conformance shadow: they differ on expiry and on market remainders; matching alone is compared.
- `scripts/gen`, the Python tools, the TLA+ and Lean developments, benchmarks and drivers.
