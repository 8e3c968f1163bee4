# Exchange core: a verified model

This project models the trading core of the exchange in Dafny and proves what holds of it in every run. It has five layers.

1. **Radix tree** (`ArtNode`, `ArtMap`): the adaptive tree that indexes prices, as heap nodes with arrays, index bytes and a slot mask. It is a
   sorted map through every growth, shrink, branch and collapse, and its neighbour queries are right exactly when a stated condition holds.
2. **Order books** (`DirectBook`, `NaiveBook`): the fast book with its doubly linked lists, buckets, id index and best pointers over the radix
   tree, and the reference book with sorted levels. Both are proved to do what `BookSpec` says, so they agree over whole runs (`Lockstep`).
   `BookFacts`, `BookTheorems` and `BookWeights` prove what the specification promises: priority, maximality, accounting, conservation.
   `BookOutcomes` says of the orders alone what each command does and proves that only the specification's outcome is of this kind.
3. **Risk and ledger** (`RiskEngine`, `Exchange`): accounts, holds, settlement and futures positions. `RiskEngine` proves the heap code against
   `RiskSpec`; `Accounts` and `UserOutcomes` give, per user, side and order type, when an order passes and what each account receives; `Worth`, `Ledger` and `ShardSteps` prove how each operation moves money; `Exchange` proves conservation over every run of any
   number of shards; `Buyers` proves that a buyer is never debited after placement.
4. **Pipeline** (`Grouping`, `Pipeline`, `GroupStarts`, `Deployment`, `Epochs`, `Debits`): the staged threads as a step system. Order and progress hold in every run.
   `Deployment` shows that every schedule, with symbols and accounts added on the way, reaches what a run of the exchange reaches; `Epochs` that
   a reset and a snapshot each cut every schedule into consistent, conserving states, however many there are; `Debits` that on the pipeline, too,
   a buyer is never debited after placement; `GroupStarts` why a reset has to start a group; `CallOutcomes` what each single call does.
5. **Event chain and encodings** (`EventChain`, `LockFree`, `Journal`, `BookSnapshot`): reports merged without locks, result codes, byte
   packing, the journal and the book snapshot, each with its round trip.

Objects that the source updates in place are classes whose methods are proved against functions of the old state; concurrent parts are state
machines over their steps. `dafny verify dfyconfig.toml` checks everything.

Assumptions throughout: sizes of new orders are positive and prices are between 0 and 2^63 - 1 (`RequestOk`); amounts are unbounded integers, and
a fill-or-kill cost is never the sentinel INT64_MAX (`Representable`); a command enters a book without events; margin rates are not negative; risk checking is on. In `Exchange` every
known symbol has a book; `Deployment` derives this from the commands that list symbols.

## Findings

- **Refund of IOC_BUDGET bids.** The hold of such a bid counts its price once, the refund of its reject counts it once for each unit
  (`RiskEngine.cpp:437-447` against `:492-510`; the source marks the case as open at `:599`). `Exchange.IocBudgetRefund` gives the difference for
  every bid, `Exchange.IocBudgetOverpays` an input, `Exchange.ConservedExactly` the exact condition under which the ledger balances.
- **Neighbour queries for absent keys.** Nodes of kinds 48 and 256 pass the query on unchanged when nothing is stored at its own byte
  (`ArtNode48.h:267-278`, `ArtNode256.h:206-217`), where kinds 4 and 16 reset it. `ArtNode.Fits` is the exact condition for a right answer;
  `LongAdaptiveRadixTreeMap.WideGap` puts 17 keys and misses one. The book asks only beside keys that are present, which always fits (`PresentFits`).
- **Refused move.** The reference book has written the order's side into the command before it refuses (`OrderBookNaiveImpl.cpp:370`), the fast
  book has not; the contracts state both, and `Lockstep` compares codes, events, market data and contents.
- **Persist records.** The journal writer stores persist commands and the reader refuses them; `JournalFormat.ReplayIsComplete` says exactly
  which files replay completely.
- **Merged result codes.** A code that equals the failure code before any shard reports stays it although no shard failed
  (`LockFree.MergedCode`).
- **Reset with grouping off.** A reset starts a group only while grouping is on (`GroupingProcessor.cpp:148-170`). A shard has settled everything
  before the command it is called for exactly when that command starts a group (`GroupStarts.GroupStartWaits`); then a reset is a clean cut
  (`Epochs.ResetIsCut`). Otherwise a shard can drop its symbols before it settles: `Epochs.UngroupedResetFails` is a run of the pipeline in which
  the next settlement raises an exception. Settling a matched command looks its symbol up whenever there are events or market data; since any
  matched command may carry market data, the model counts every missing symbol as a failure.
- **Batches of accounts.** Every shard adds every account of a batch, without the test of ownership all other user commands make
  (`RiskEngine.cpp:364-376` against `:177-209`), so with several shards each balance exists several times, each covered by its shard's
  adjustments. And a balance listed behind a greater currency is dropped without an error, because the transaction id is made from the currency;
  `RiskSpec.FundedAsListed` is the exact condition.

## Model

| member | source | states |
|---|---|---|
| ArtNodes.ArtNode.Put | include/exchange/core/collections/art/ArtNode48.h:167-220 | After putting a key, the node that stands in its place (itself, a branch, or the next bigger kind) is valid and holds exactly the old map with the key set, whichever of the four kinds it was; only fresh or own objects are used |
| ArtNodes.ArtNode.Remove | include/exchange/core/collections/art/ArtNode4.h:236-268 | After removing a key the replacing node (itself, a smaller kind, the last child, or none) is valid and holds exactly the old map without the key; none is left exactly when the map became empty |
| ArtNodes.ArtNode.GetValue | include/exchange/core/collections/art/ArtNode16.h:60-75 | Lookup through compressed paths gives the map's value or nothing |
| ArtNodes.ArtNode.BranchIfRequired | include/exchange/core/collections/art/LongAdaptiveRadixTreeMap.h:143-164 | A key that leaves a compressed path gets a new node at the highest differing byte, with both subtrees under it; otherwise nothing changes |
| ArtNodes.ArtNode.GrowFromNode16 | include/exchange/core/collections/art/ArtNode48.h:133-147 | Growing 16 to 48 with one more child keeps every child and leaves mask bits, index entries and used slots in bijection |
| ArtNodes.ArtNode.ShrinkFromNode256 | include/exchange/core/collections/art/ArtNode48.h:149-164 | Shrinking 256 to 48 keeps every child under its byte |
| ArtNodes.ArtNode.GetFloorValue | include/exchange/core/collections/art/ArtNode48.h:283-304 | For every query: the answer is the nearest entry at or below it when the query fits the tree, and, where values are distinct, only then |
| ArtNodes.ArtNode.GetCeilingValue | include/exchange/core/collections/art/ArtNode256.h:198-218 | The same for the nearest entry at or above, with the scan to the next used byte in every kind of node |
| ArtNodes.ArtNode.PresentFits | include/exchange/core/collections/art/LongAdaptiveRadixTreeMap.h:274-281 | The query beside a present key fits, also when its decrement or increment borrows or carries across levels |
| ArtNodes.ArtNode.NarrowFits | include/exchange/core/collections/art/ArtNode4.h:271-320 | In a subtree of kinds 4 and 16 every query in range fits |
| ArtNodes.ArtNode.WideGapDoesNotFit | include/exchange/core/collections/art/ArtNode48.h:283-304 | The failing family: a wide node with nothing at the query's byte passes the query on unreset, so it misses the next child's entries beyond the query's low byte |
| ArtNodes.ArtNode.WideGapExample | include/exchange/core/collections/art/ArtNode48.h:267-278 | Concrete input: keys 5, 261, ..., 4101 under one wide node, asked at or below 5123: the right answer is the entry of 4101 and the query does not fit |
| ArtNodes.ArtNode.SpacedShape | include/exchange/core/collections/art/LongAdaptiveRadixTreeMap.h:143-164 | Whatever valid tree holds the keys 5, 261, ..., 4101, its root is a node of kind 48 at the second byte with a leaf for each key |
| ArtMap.LongAdaptiveRadixTreeMap.Put | include/exchange/core/collections/art/LongAdaptiveRadixTreeMap.h:225-238 | The tree is the old map with the key set, root created and replaced as needed |
| ArtMap.LongAdaptiveRadixTreeMap.Remove | include/exchange/core/collections/art/LongAdaptiveRadixTreeMap.h:251-258 | The tree is the old map without the key |
| ArtMap.LongAdaptiveRadixTreeMap.Get | include/exchange/core/collections/art/LongAdaptiveRadixTreeMap.h:220-222 | Agrees with the map on every key |
| ArtMap.LongAdaptiveRadixTreeMap.GetHigherValue | include/exchange/core/collections/art/LongAdaptiveRadixTreeMap.h:274-276 | The strict successor's value, or none, for every present key and for every key of a narrow tree; for all other keys right exactly when the query fits |
| ArtMap.LongAdaptiveRadixTreeMap.GetLowerValue | include/exchange/core/collections/art/LongAdaptiveRadixTreeMap.h:279-281 | The same for the strict predecessor |
| ArtMap.LongAdaptiveRadixTreeMap.WideGap | include/exchange/core/collections/art/ArtNode48.h:267-278 | The failing input from the public operations: after putting 5, 261, ..., 4101 into an empty tree, the lookup below 5124 does not give the entry of 4101, which is the right answer |
| ArtMap.LongAdaptiveRadixTreeMap.ForEach | include/exchange/core/collections/art/LongAdaptiveRadixTreeMap.h:284-286 | Lists the first `limit` entries in ascending key order, all of them if there are fewer |
| ArtMap.LongAdaptiveRadixTreeMap.ForEachDesc | include/exchange/core/collections/art/LongAdaptiveRadixTreeMap.h:289-291 | The same in descending order |
| ArtMap.LongAdaptiveRadixTreeMap.Size | include/exchange/core/collections/art/LongAdaptiveRadixTreeMap.h:294-296 | The smaller of the limit and the number of entries |
| ArtOrder.FirstUnique | include/exchange/core/collections/art/ArtNode48.h:307-320 | A listing of the first entries is determined by the map, the limit and the direction |
| ArtMaps.SplitsPut | include/exchange/core/collections/art/ArtNode48.h:167-220 | A map split by one byte stays split when a key is put under its byte |
| BookFacts.MatchConsumesPrefix | src/exchange/core/orderbook/OrderBookDirectImpl.cpp:299-388 | Price-time priority: the trades of a taker consume a prefix of the opposite side's priority sequence, all but the last maker fully, each at the maker's price and hold price |
| BookFacts.MatchIsMaximal | src/exchange/core/orderbook/OrderBookDirectImpl.cpp:299-388 | If size is left over, no maker left on the other side crosses the limit |
| BookFacts.MatchWithinLimit | src/exchange/core/orderbook/OrdersBucket.cpp:87-142 | No trade is beyond the taker's limit |
| BookFacts.MatchAccounts | src/exchange/core/orderbook/OrderBookDirectImpl.cpp:299-388 | What is left of the taker is its size less the sum of its trades |
| BookFacts.MatchConserves | src/exchange/core/orderbook/OrderBookDirectImpl.cpp:299-388 | The makers' total volume falls by exactly the sum of the trades; which makers, at what prices and in what order is stated by MatchConsumesPrefix and MatchWithinLimit |
| BookFacts.StepKeeps | src/exchange/core/orderbook/OrderBookDirectImpl.cpp:96-297 | Every command keeps the book's invariant: both sides sorted by price, 0 <= filled < size, ids unique across sides, best bid below best ask |
| BookFacts.RunKeeps | src/exchange/core/orderbook/OrderBookDirectImpl.cpp:96-297 | The invariant holds after every run of commands |
| BookTheorems.BudgetIsCost | src/exchange/core/orderbook/OrderBookDirectImpl.cpp:702-725 | The cost computed before filling is the cost of the trades that fill, and it exists exactly when the other side has enough volume |
| BookTheorems.FokIsAllOrNothing | src/exchange/core/orderbook/OrderBookDirectImpl.cpp:161-182 | A budget order is filled completely at its precomputed cost, on the right side of its budget, or leaves the book unchanged with one reject of the full size; the other side alone decides which |
| DirectBook.FokLimit | src/exchange/core/orderbook/OrderBookDirectImpl.cpp:161-182 | Matching with the budget as price limit is matching without a limit: a total cost within a bid's budget forces every used price to be within it |
| BookTheorems.NewOrderAccounts | src/exchange/core/orderbook/OrderBookDirectImpl.cpp:113-182 | Order size = traded + rejected + newly resting, for all order types |
| BookTheorems.StepKeepsReserve | src/exchange/core/orderbook/OrderBookDirectImpl.cpp:227-232 | On an exchange pair every command, moves included, keeps each resting bid at or below its reserved price |
| BookTheorems.TradesWithinReserve | src/exchange/core/orderbook/OrderBookDirectImpl.cpp:299-388 | Every trade is at or below the price its buyer has reserved |
| BookWeights.MatchWeighs | src/exchange/core/orderbook/OrderBookDirectImpl.cpp:322-370 | For every weight per unit by side, owner and reserved price: what the trades take out is what maker side and taker lose |
| BookWeights.StepBalances | src/exchange/core/orderbook/OrderBookDirectImpl.cpp:96-297 | Every command conserves every such weight: book before + brought in = book after + taken out by the events |
| BookOutcomes.MatchFills | src/exchange/core/orderbook/OrderBookDirectImpl.cpp:299-388 | Matching fills from the front: each maker within the limit, at its own price, all but the last completely, the rest untouched, and what is left of the taker meets nobody within its limit |
| BookOutcomes.FillsUnique | src/exchange/core/orderbook/OrderBookDirectImpl.cpp:299-388 | There is only one way to fill: makers, limit, size and reserve determine trades and remaining side |
| BookOutcomes.PlaceOutcome | src/exchange/core/orderbook/OrderBookDirectImpl.cpp:113-182 | A new order: what it trades; that the rest of a good-till-cancelled one stands at its price behind exactly those not worse, unless its id is taken; that nothing else on its side changes; the rejects of the other types; a fill-or-kill is filled if and only if the fill is complete and affordable |
| BookOutcomes.StepIs | src/exchange/core/orderbook/OrderBookDirectImpl.cpp:96-297 | For every command on every valid book: an outcome (book, code, events, action) is the specification's if and only if it is what the command says of makers, the order named and all other orders; the relation is stated without the specification's functions |
| BookOutcomes.RestsAfterPlace | src/exchange/core/orderbook/OrderBookDirectImpl.cpp:113-142 | An order that is not traded out is found under its id at its price, with its size, reserve, owner and timestamp, filled by what it traded |
| BookOutcomes.LeftAfterReduce | src/exchange/core/orderbook/OrderBookDirectImpl.cpp:254-297 | A reduce takes the size asked, and the order is gone if and only if that is all that was left |
| BookOutcomes.RestsAfterMove | src/exchange/core/orderbook/OrderBookDirectImpl.cpp:220-252 | A move is refused if and only if a bid of an exchange pair goes above its reserve; otherwise the order is found at the new price less what it traded, or gone if and only if it traded all of it |
| DirectSides.DirectSide.Trade | src/exchange/core/orderbook/OrderBookDirectImpl.cpp:322-377 | One trade with the best order: list, bucket volume and count, tail and index agree with the orders after a partial fill or a removal with or without its bucket |
| DirectSides.DirectSide.RemoveOrder | src/exchange/core/orderbook/OrderBookDirectImpl.cpp:390-417 | Taking an order out anywhere in the list relinks its neighbours, repairs its bucket's tail or drops the bucket, and leaves exactly the other orders in order |
| DirectSides.DirectSide.InsertOrder | src/exchange/core/orderbook/OrderBookDirectImpl.cpp:419-478 | A new order stands behind every order that is not worse, found through its bucket's tail or the radix tree's neighbour query |
| DirectSides.DirectSide.ReduceInPlace | src/exchange/core/orderbook/OrderBookDirectImpl.cpp:290-296 | Reducing an order changes its size and its bucket's volume and nothing else |
| DirectSides.DirectSide.CheckBudgetToFill | src/exchange/core/orderbook/OrderBookDirectImpl.cpp:702-725 | Walking bucket by bucket computes the specification's budget, or the sentinel when there is not enough |
| DirectSides.DirectSide.FillLevels | src/exchange/core/orderbook/OrderBookDirectImpl.cpp:494-520 | The first levels are the list aggregated by price, best first |
| DirectSides.DirectSide.CollectOrders | src/exchange/core/orderbook/OrderBookDirectImpl.cpp:765-785 | Following prev from the best order visits exactly the list |
| DirectBook.OrderBookDirectImpl.TryMatchInstantly | src/exchange/core/orderbook/OrderBookDirectImpl.cpp:299-388 | The matching loop over the linked list yields the specification's events, filled size and remaining side, and drops exactly the consumed ids from the index |
| DirectBook.OrderBookDirectImpl.NewOrder | src/exchange/core/orderbook/OrderBookDirectImpl.cpp:96-111 | New orders of every type leave the linked-list book and the events as PlaceOutcome says: trades, the price, place and size at which a rest stands, rejects |
| DirectBook.OrderBookDirectImpl.CancelOrder | src/exchange/core/orderbook/OrderBookDirectImpl.cpp:188-218 | Cancel takes exactly the named order of its owner off the book, with its event; otherwise it is refused and nothing changes |
| DirectBook.OrderBookDirectImpl.ReduceOrder | src/exchange/core/orderbook/OrderBookDirectImpl.cpp:254-297 | Reduce takes the size asked, or all that is left, off the named order, in place or by removal, with its event; otherwise one of its two error codes and nothing changes |
| DirectBook.OrderBookDirectImpl.MoveOrder | src/exchange/core/orderbook/OrderBookDirectImpl.cpp:220-252 | Move is refused exactly above the reserve of a pair's bid; otherwise the order trades at its new price and what is left stands there behind all that are not worse |
| DirectBook.OrderBookDirectImpl.ProcessCommand | src/exchange/core/orderbook/IOrderBook.cpp:29-53 | Every command takes the linked-list book from a valid state to a valid one and does what StepIs says: code, events, taker action, book and, for a request, market data |
| DirectBook.OrderBookDirectImpl.GetL2MarketDataSnapshot | src/exchange/core/orderbook/OrderBookDirectImpl.cpp:530-546 | Market data are the first levels of both sides aggregated by price |
| NaiveBucket.OrdersBucket.Match | src/exchange/core/orderbook/OrdersBucket.cpp:87-142 | Matching inside one price level is the specification's matching on its orders, with volume and id map kept |
| NaiveBucket.OrdersBucket.Put | src/exchange/core/orderbook/OrdersBucket.cpp:59-67 | A new order goes to the end of its level |
| NaiveSides.NaiveSide.MatchSide | src/exchange/core/orderbook/OrderBookNaiveImpl.cpp:191-239 | Visiting crossing levels from the best price on and erasing emptied ones is the specification's matching on the whole side |
| NaiveSides.NaiveSide.CheckBudgetToFill | src/exchange/core/orderbook/OrderBookNaiveImpl.cpp:161-189 | The level-wise budget is the specification's |
| NaiveBook.OrderBookNaiveImpl.ProcessCommand | src/exchange/core/orderbook/IOrderBook.cpp:29-53 | The reference book does what StepIs says, except that a refused move has already written the order's side into the command |
| NaiveBook.OrderBookNaiveImpl.MoveOrder | src/exchange/core/orderbook/OrderBookNaiveImpl.cpp:359-433 | Move as on the fast book, with that exception stated |
| Lockstep.Run | include/exchange/core/orderbook/OrderBookNaiveImpl.h:33-35 | For every run of commands the fast book and the reference book give the same codes, events and market data, those of the specification, and hold the same orders in the same priority order |
| Lockstep.AnswerUnique | src/exchange/core/orderbook/IOrderBook.cpp:29-53 | The specification determines the answer, market data included |
| BookSnapshot.WriteMarshallable | src/exchange/core/orderbook/OrderBookDirectImpl.cpp:584-612 | The snapshot lists implementation, symbol type, count, then asks and bids from the best order along the list |
| BookSnapshot.Restore | src/exchange/core/orderbook/OrderBookDirectImpl.cpp:50-90 | Rebuilding a written book by repeated insertion gives a book with the whole invariant and identical ask and bid sequences |
| Positions.EquityLaw | src/exchange/core/common/SymbolPositionRecord.cpp:142-193 | For every mark price, a trade moves a position's worth by size times (mark - price) for a buy and the opposite for a sell, through reduce, exact close, flip and open |
| Positions.SymbolPositionRecord.UpdatePositionForMarginTrade | src/exchange/core/common/SymbolPositionRecord.cpp:142-157 | The record updated in place follows that law, releases its pending size and keeps direction and volume consistent |
| Positions.TradeIsZeroSum | src/exchange/core/common/SymbolPositionRecord.cpp:142-193 | A trade creates no worth between buyer and seller |
| Positions.MarginForOrderIs | src/exchange/core/common/SymbolPositionRecord.cpp:114-140 | Required margin is never negative, so -1 says exactly that an order does not raise it |
| Accounts.HoldIff | src/exchange/core/processors/RiskEngine.cpp:429-469 | An order of an exchange pair passes if and only if its price fits and the account covers its need, both written out for an ask, a budget bid and another bid; each refusal has its own condition; what is needed, and nothing else, leaves the account |
| Accounts.MarginHoldIff | src/exchange/core/processors/RiskEngine.cpp:392-422 | An order of a futures contract passes if and only if it does not raise the margin or account and free margin cover it; then its size is pending, otherwise the record is as it was or gone if empty |
| Accounts.HoldChecked | src/exchange/core/processors/RiskEngine.cpp:327-422 | The whole check: unknown user, unknown symbol, margin trading off, and either of the two conditions; no profile but the sender's is touched |
| RiskEngines.RiskEngine.PlaceOrderRiskCheck | src/exchange/core/processors/RiskEngine.cpp:327-351 | The hold on the heap is the specified one: result code, account, position record, removal of an emptied record |
| RiskEngines.RiskEngine.PlaceExchangeOrder | src/exchange/core/processors/RiskEngine.cpp:429-469 | The hold on the heap passes exactly if the price fits and the account covers the need, takes exactly that, and refuses with the code of its condition |
| RiskEngines.RiskEngine.PlaceMarginOrder | src/exchange/core/processors/RiskEngine.cpp:392-422 | A futures order creates or finds the record, adds its pending size or cleans up an empty record |
| RiskEngines.RiskEngine.HandleMatcherEventsExchangeSell | src/exchange/core/processors/RiskEngine.cpp:512-559 | The aggregating loop over a selling taker's trades gives taker and makers of the shard what each trade gives them, and takes exactly their fees |
| RiskEngines.RiskEngine.HandleMatcherEventsExchangeBuy | src/exchange/core/processors/RiskEngine.cpp:561-613 | The same for a buying taker, with the budget of a fill-or-kill bid given back once |
| RiskEngines.RiskEngine.HandleMatcherEventMargin | src/exchange/core/processors/RiskEngine.cpp:615-651 | One futures event: taker then maker, fees, removal of emptied records |
| RiskEngines.RiskEngine.PostProcessCommand | src/exchange/core/processors/RiskEngine.cpp:244-311 | Settlement on the heap gives each user what the events give it, books each event of a futures chain, keeps all profiles, and market data renew the last prices of the symbol exactly when there are any and margin trading is on |
| RiskEngines.RiskEngine.AddSymbols | src/exchange/core/processors/RiskEngine.cpp:354-363 | A batch adds each symbol that is new and may be traded, in order, and never changes one that is known |
| RiskEngines.RiskEngine.AddAccounts | src/exchange/core/processors/RiskEngine.cpp:364-376 | A batch of accounts on the heap does what is specified of the shard's value: every new user, owned or not, with its balances in the order listed |
| RiskEngines.RiskEngine.Reset | src/exchange/core/processors/RiskEngine.cpp:317-325 | Nothing is left: no user, fee, adjustment, symbol or last price |
| RiskSpec.FundedAsListed | src/exchange/core/processors/RiskEngine.cpp:369-373 | A new account gets exactly the balances listed if and only if none is negative and every currency with an amount is listed behind smaller ones only: the transaction id is made from the currency, and a smaller one counts as applied already |
| RiskSpec.BatchAccount | src/exchange/core/processors/RiskEngine.cpp:364-376 | So does a new user of a batch, in every shard, whichever shard owns it |
| ShardSteps.AddAccountsMoves | src/exchange/core/processors/RiskEngine.cpp:364-376 | A batch of accounts creates and loses nothing in any shard, at any mark prices, and changes no pending size |
| RiskEngines.RiskEngine.AdjustBalance | src/exchange/core/processors/RiskEngine.cpp:472-490 | Deposits and withdrawals with their transaction and funds checks, booked against adjustments or suspends |
| RiskEngines.RiskEngine.SuspendUser | src/exchange/core/processors/UserProfileService.cpp:99-129 | A user is deleted only without open positions and with all accounts zero; every refusal code |
| RiskEngines.RiskEngine.PreProcessCommand | src/exchange/core/processors/RiskEngine.cpp:163-177 | On the heap a new order of the shard's user is checked so, and its code written into the command; every other command on an order changes nothing |
| Accounts.ExchangeSettled | src/exchange/core/processors/RiskEngine.cpp:492-613 | For every user and currency: the balance moves by the sum over the events of what the user receives as taker or maker, given by price, size, scale, held price and fee rate; the fees by the taker's rate for its size and the makers' rate for theirs; refunds, the budget of a fill-or-kill bid and everything that stays are included |
| Accounts.SellerGets | src/exchange/core/processors/RiskEngine.cpp:550-553 | A selling taker gets the price of all its trades less its fee, in the quote currency, and nothing else |
| Accounts.BuyerGets | src/exchange/core/processors/RiskEngine.cpp:592-605 | A buying taker gets what was held beyond the price, or its budget less the price, and what it bought |
| Accounts.FeesInAll | src/exchange/core/processors/RiskEngine.cpp:555-558 | The fees are the taker's rate for its whole size and the makers' rate for the size of the shard's makers |
| Accounts.FuturesSettled | src/exchange/core/processors/RiskEngine.cpp:615-651 | Each event of a futures chain nets the records of taker and maker, charges what was opened at the rate of each side to account and fees, and pays out a record that is empty; it fails if and only if a record is missing |
| UserOutcomes.AdjustIff | src/exchange/core/processors/RiskEngine.cpp:472-490 | An adjustment is applied if and only if the user is there, the transaction id is new and no more is taken than there is; every refusal has its own condition; one balance and its counterpart move |
| UserOutcomes.SuspendIff | src/exchange/core/processors/UserProfileService.cpp:99-129 | A user is deleted if and only if it is active, without open or pending position and with nothing on any account |
| UserOutcomes.SymbolsListed | src/exchange/core/processors/RiskEngine.cpp:354-363 | A known symbol never changes; a new one becomes what the batch lists first in a form that may be traded |
| UserOutcomes.BatchUsers | src/exchange/core/processors/RiskEngine.cpp:364-376 | After a batch exactly its users are added, and those who were there keep all they had |
| Worth.SettleExchangeWorth | src/exchange/core/processors/RiskEngine.cpp:492-613 | Settling a chain of an exchange pair moves into a shard exactly the shares of its users and their fees, per event |
| Worth.PlaceExchangeWorth | src/exchange/core/processors/RiskEngine.cpp:429-469 | A hold takes exactly its amount and leaves the account non-negative; a refused order takes nothing |
| MarginWorth.SettleMarginMoves | src/exchange/core/processors/RiskEngine.cpp:286-302 | As long as pending sizes cover what a chain takes out, every record is found also when the chain empties some, worth moves by exactly the shares at every mark price, and exactly the pending sizes are released |
| Ledger.AllShards | src/exchange/core/processors/RiskEngine.cpp:313-315 | However many shards there are, together they move each event's whole amount once |
| Ledger.TradeTotal | src/exchange/core/utils/CoreArithmeticUtils.cpp:22-52 | Taker, maker and fees of a trade together receive exactly the hold released for the bid and the ask |
| Ledger.FokTotals | src/exchange/core/processors/RiskEngine.cpp:592-605 | The settlement of a fill-or-kill bid, filled or killed, gives back exactly what its hold was short of per-unit reserves |
| Ledger.StepTotals | src/exchange/core/processors/RiskEngine.cpp:492-613 | For every command on every book, what all shards settle is what its events took out of the book's claims |
| ShardSteps.PlaceMoves | src/exchange/core/processors/RiskEngine.cpp:327-427 | A passed order takes its hold or adds its pending size, a refused one neither, for both kinds of symbols |
| ShardSteps.SettleMoves | src/exchange/core/processors/RiskEngine.cpp:244-302 | A settlement in a shard never fails to find a record, moves exactly its share, releases exactly its pending sizes |
| ShardSteps.SuspendUserMoves | src/exchange/core/processors/UserProfileService.cpp:99-129 | Deleting a user loses nothing: no record is ever empty, so no profit is lost |
| Exchange.EveryRun | src/exchange/core/processors/RiskEngine.cpp:429-651 | For every run, any number of shards and any interleaving of holding, matching and settling: no settlement fails, and in every currency at every mark prices accounts + equity + fees + adjustments + suspends + claims of resting orders + holds in flight + unsettled shares is zero, but for refunds of immediate-or-cancel budget bids; and pending sizes mirror resting, in-flight and unsettled orders |
| Exchange.SettleOneMoves | src/exchange/core/processors/RiskEngine.cpp:615-651 | In every such state settlement finds every position record, and a taker's record outlives its chain |
| Exchange.OverpaidIs | src/exchange/core/processors/RiskEngine.cpp:599-600 | The exception is never negative, and zero unless an immediate-or-cancel budget bid has more than one unit at a price that is not zero |
| Exchange.ConservedExactly | src/exchange/core/processors/RiskEngine.cpp:492-510 | A reachable state conserves a currency exactly if and only if no such bid was refunded |
| Exchange.IocBudgetRefund | src/exchange/core/processors/RiskEngine.cpp:437-447 | The refund of every immediate-or-cancel budget bid exceeds its hold by (size - 1) times its price |
| Exchange.IocBudgetOverpays | src/exchange/core/processors/RiskEngine.cpp:492-510 | Two units at a price of one: held 1, refunded 2 |
| Buyers.StepCovered | src/exchange/core/orderbook/OrderBookDirectImpl.cpp:227-232 | On every book with reserved bids every checked command yields a chain whose trades are covered by what buyers reserved |
| Buyers.SettleNoDebit | src/exchange/core/processors/RiskEngine.cpp:492-613 | Settling a covered chain lowers no balance of anyone but its sellers, in any currency, given takerFee >= makerFee >= 0 |
| Buyers.EveryReachableIsSafe | src/exchange/core/processors/RiskEngine.cpp:437-451 | Every state reachable from an exchange without users has that property |
| Buyers.SettlementDebitsOnlySellers | src/exchange/core/processors/RiskEngine.cpp:492-613 | In every safe state, settling any command in any shard debits only its sellers: a buyer is never debited after placement (a user who sells anything in the chain, also to itself, counts as a seller) |
| Grouping.GroupingProcessor.ProcessEvents | src/exchange/core/processors/GroupingProcessor.cpp:131-240 | A batch of slots gets exactly the specified group numbers and loses events and market data of earlier laps |
| Grouping.StartIsNew | src/exchange/core/processors/GroupingProcessor.cpp:154-188 | With grouping on, a reset, snapshot or last report command gets a number above all earlier ones |
| Grouping.SnapshotPairShares | src/exchange/core/processors/GroupingProcessor.cpp:231-283 | The two snapshot commands share a group if and only if a group may hold two commands and the time limit of a group does not pass between them; otherwise the second starts the next group (the snapshot is consistent either way) |
| Grouping.SharesGroup | src/exchange/core/processors/GroupingProcessor.cpp:154-240 | A command shares the group of the one before it if and only if it starts none and that group has fewer commands than the limit, or the one before is the second command of a snapshot |
| Pipeline.EveryRunIsSafe | src/exchange/core/processors/TwoStepMasterProcessor.cpp:103-170 | In every run every stage is called in order and once per sequence, settling waits for all matching and holding, a new group's first hold waits for the settlement of all before it in its shard, and no published counter passes handled work |
| Pipeline.CountersGrow | src/exchange/core/processors/TwoStepMasterProcessor.cpp:202-212 | No counter goes back and no call is undone, over every run |
| Pipeline.NotStuck | src/exchange/core/processors/TwoStepSlaveProcessor.cpp:86-111 | No reachable state with unfinished commands is stuck |
| Pipeline.LowestCanSettle | src/exchange/core/processors/TwoStepSlaveProcessor.cpp:86-111 | The shard with the lowest boundary is never blocked once matching has caught up with it |
| Pipeline.WorkDecreases | src/exchange/core/processors/TwoStepMasterProcessor.cpp:115-170 | Without new commands every step leaves less work |
| Pipeline.EveryRunEnds | src/exchange/core/processors/TwoStepMasterProcessor.cpp:115-170 | Without new commands every run is at most as long as the work there is, and can stop only when every stage, settlement included, has reached the last command |
| Pipeline.CanDrain | src/exchange/core/ExchangeCore.cpp:337-368 | From every reachable state there is a run to a finished state |
| Pipeline.CalledOnce | src/exchange/core/processors/TwoStepSlaveProcessor.cpp:86-111 | No stage is called twice for a sequence, and calls of a stage ascend |
| Pipeline.FinishedCalls | src/exchange/core/ExchangeCore.cpp:485-492 | In a finished state every stage of every shard was called for every command |
| Pipeline.MatchingCut | src/exchange/core/processors/MatchingEngineRouter.cpp:209-226 | Called for the snapshot command at s, a matching shard has matched exactly the commands before s, and every risk shard has held s |
| Pipeline.RiskCut | src/exchange/core/processors/RiskEngine.cpp:219-237 | Called for the risk snapshot at s + 1, a risk shard has held exactly the commands up to s and settled exactly those before s, or also s itself |
| Deployment.OneCall | src/exchange/core/ExchangeCore.cpp:337-368 | Each handler call of the pipeline is a run of the exchange of no step, of one, or, for a cancel, move, reduce or request, which is submitted when it is matched, of two; and a settlement finds its symbol and every record |
| CallOutcomes.HoldCallChecks | src/exchange/core/processors/RiskEngine.cpp:163-177 | Called for a new order of its user, and only then, a shard checks it against the account and leaves the code in the command |
| CallOutcomes.HoldCallAdmits | src/exchange/core/processors/RiskEngine.cpp:177-202 | Only the user's shard adjusts, adds, suspends or resumes, each under its own condition |
| CallOutcomes.MatchCallDoes | src/exchange/core/processors/MatchingEngineRouter.cpp:158-172 | The matching shard of the symbol does to its book what the command says, with the code its hold left; no other does anything |
| CallOutcomes.SettleCallSettles | src/exchange/core/processors/RiskEngine.cpp:244-302 | Called for a matched command, a shard gives its users what the events give them, or fails because symbol or record is missing |
| Deployment.EverySchedule | src/exchange/core/ExchangeCore.cpp:337-492 | Whatever the schedule of threads, the shards and books after any commands but resets are those that a run of the exchange, of at most two steps a call, reaches from its start, with the symbols that are ever listed known from the start |
| Deployment.DrainedConserves | src/exchange/core/ExchangeCore.cpp:485-492 | Once all these commands are through all stages, shards and resting orders hold all the money there is, but for refunds of immediate-or-cancel budget bids |
| Epochs.EveryHistory | src/exchange/core/processors/RiskEngine.cpp:212-217 | In every schedule the commands between two resets run as on an exchange of their own: a shard or book in that stretch is the same in both, one that has not come to it is unused there, and one leaves it in the state it keeps there |
| Epochs.EpochIsARun | src/exchange/core/ExchangeCore.cpp:337-492 | The world of such a stretch is one that a run of the exchange reaches from its start, so whatever holds of every reachable state holds of every schedule with any number of resets |
| Epochs.NoSettlementFails | src/exchange/core/processors/RiskEngine.cpp:255-258 | In every schedule in which each reset starts a group, no settlement fails: its symbol is known to the shard and every position record is there |
| Epochs.GroupStartIsCut | src/exchange/core/processors/TwoStepMasterProcessor.cpp:130-150 | What each shard has when called for a command that starts a group, and each book when its matching shard is called for it, are together the world after every stage of exactly the commands before it, and conserve every currency |
| Epochs.ResetIsCut | src/exchange/core/processors/MatchingEngineRouter.cpp:186-196 | A reset is a clean cut: what shards and books drop, each at its own time, is one conserving state after exactly the commands before it, and from then on all are those of an exchange that starts empty and runs only the commands behind it |
| Epochs.FinishedConserves | src/exchange/core/ExchangeCore.cpp:485-492 | When the pipeline has drained, shards, symbols and books are those of an exchange that ran only the commands behind the last reset, and hold all the money there is |
| Epochs.SnapshotIsConsistent | src/exchange/core/processors/RiskEngine.cpp:219-237 | The states the risk shards store and the books the matching shards store, each at its own time, are together the world after every stage of exactly the commands since the last reset and before the snapshot, and conserve every currency |
| GroupStarts.GroupStartWaits | src/exchange/core/processors/GroupingProcessor.cpp:154-170 | For the groups of any run of the pipeline and any command: in all runs with these groups every shard is called for the command with everything before it settled, if and only if the command starts a group |
| Debits.HistoryDebits | src/exchange/core/processors/RiskEngine.cpp:492-613 | In every schedule in which each reset starts a group, given takerFee >= makerFee >= 0 for every listed symbol, no settlement call lowers a balance of anyone who sells nothing in its chain |
| Debits.PipelineDebitsOnlySellers | src/exchange/core/processors/RiskEngine.cpp:437-451 | So it is of every settlement call a pipeline has made: a buyer is never debited after placement |
| Epochs.UngroupedResetFails | src/exchange/core/processors/GroupingProcessor.cpp:148-152 | Concrete run: with grouping off a symbol is listed, its book requested and the exchange reset in one batch; the pipeline comes to the settlement of the request, which fails because the symbol is gone |
| EventChain.CreateBinaryEventsChain | src/exchange/core/orderbook/OrderBookEventsHelper.cpp:126-160 | A report becomes a linked chain of five words an event, in order |
| EventChain.DeserializeEvents | src/exchange/core/orderbook/OrderBookEventsHelper.cpp:168-209 | Following a chain yields for each section that occurs exactly the bytes of its events in order |
| EventChain.ReportComesBack | src/exchange/core/utils/SerializationUtils.cpp:234-269 | A report comes back as its bytes, padded with zeros to a multiple of forty |
| Bytes.RequiredSizeIs | src/exchange/core/utils/SerializationUtils.cpp:85-97 | The array is the least multiple of the padding that holds the bytes, and empty for none |
| Bytes.PackedIsPadded | src/exchange/core/utils/SerializationUtils.cpp:234-269 | Packing bytes into words and unpacking them gives the bytes followed by zeros |
| LockFree.EveryInterleaving | src/exchange/core/utils/UnsafeUtils.cpp:41-57 | Every interleaving of the compare-and-swap steps of any number of shards, spurious failures included, keeps the shared chain a list of whole chains |
| LockFree.SomeoneSucceeds | src/exchange/core/utils/UnsafeUtils.cpp:52-56 | A swap fails only if another shard has succeeded in between or the machine failed it |
| LockFree.MergedReports | src/exchange/core/orderbook/OrderBookEventsHelper.cpp:168-209 | When all shards are done the command's chain is one finite list without repetition, and reading each section gives exactly that shard's padded bytes |
| LockFree.MergedCode | src/exchange/core/utils/UnsafeUtils.cpp:23-39 | The merged code is the failure code if and only if some shard failed or the code was it before; otherwise it is the success code |
| JournalFormat.RecordRead | src/exchange/core/processors/journaling/DiskSerializationProcessor.cpp:594-750 | Reading a written record gives the command's replay call and leaves what follows it; a persist record is refused |
| JournalFormat.OneReplays | src/exchange/core/processors/journaling/DiskSerializationProcessor.cpp:594-750 | A call replays a command if and only if every argument is the command's field of that name; only persist commands have none |
| JournalFormat.FileRead | src/exchange/core/processors/journaling/DiskSerializationProcessor.cpp:551-592 | Reading a file replays the written commands' calls in order, under every split into raw runs and compressed blocks |
| JournalFormat.ReplayIsComplete | src/exchange/core/processors/journaling/DiskSerializationProcessor.cpp:752-756 | Replay of a file is complete if and only if no replayable command follows a persist command in it, and ends without exception if and only if there is none |
| Journal.JournalWriter.WriteToJournal | src/exchange/core/processors/journaling/DiskSerializationProcessor.cpp:334-481 | A command is in the files or the buffer behind everything written before; in the files at the end of a batch; reset and risk snapshots start a new file |
| Journal.JournalWriter.FlushBufferSync | src/exchange/core/processors/journaling/DiskSerializationProcessor.cpp:778-812 | Flushing moves the buffered records, raw or compressed, behind those in the files and loses none |
| Journal.ReplayJournalFull | src/exchange/core/processors/journaling/DiskSerializationProcessor.cpp:517-548 | The loop over files and records replays what the format says, exceptions ending a file |
| Journal.JournalRoundTrip | src/exchange/core/processors/journaling/DiskSerializationProcessor.cpp:377-463 | Whatever sequence of place, move, cancel, reduce, balance, user and reset commands was written, reading the files back makes the same calls in the same order |

## Left out

- Integer width: prices, sizes and amounts are unbounded; only the sentinel of the budget check and the 32-bit depth of a market data request are modelled as in the source.
- Object pools and deletion: nodes, orders, buckets and records are freshly allocated; pooling only changes which memory is reused.
- The four node kinds are one class with a kind tag; the two sides of each book are one helper class used twice, and the bounded iteration over a sorted map of levels is a scan for the best price.
- Event chains inside the book and the risk engine are sequences; the linked form is modelled for report chains.
- The shard of a user or a symbol is the remainder of its id; for a power of two this is the source's bit mask.
- CanPlaceMarginOrder: the sum of free margin over other positions is an arbitrary parameter, because its branch for the same symbol overwrites the running sum and the result depends on the iteration order of a hash map.
- BookSnapshot.WriteMarshallable: fields are unbounded integers and the symbol specification is reduced to its type code, where the source writes bytes and the whole specification.
- Serialization of the reference book, whose order within a level depends on the iteration order of a hash map.
- Journal: BINARY_DATA_COMMAND records, the switch that enables journaling, file names, descriptors and the LZ4 algorithm, which is an abstract inverse pair with a size bound; blocks are within the reader's limit of 1,000,000 bytes.
- GetOrdersNum, GetTotalOrdersVolume, FindUserOrders, state hashes and diagrams: easy members over the same invariant.
- Binary commands: frames, their decoding and transfers that a reset breaks off; what the last frame says is a parameter, and a batch has the order of its message.
- Epochs.ResetIsCut: the specifications a matching shard keeps beside its books, which the reset command does not clear and nothing reads, and the books each matching shard makes for the symbols of others, which stay empty, are not modelled.
- Pipeline: the ring buffer has no capacity; a bound only delays publishing, so every run with one is a run here. The size of a batch is bounded by what is published.
- Estimated profit of positions, which only feeds the free margin; the last prices it is made from are kept by the heap model but not part of a shard's value.
- The master and slave loops are steps of one thread rather than loops: a loop that spins on another thread's counter has no meaning alone. Wait strategies, signals, alerts, exceptions, shutdown, thread affinity and clocks are not modelled, and the time limit of a group is a step that may happen whenever a group has commands.
- The results stage and the journaling stage of the pipeline, which nothing waits for here.
- Memory orders of the atomic operations: each access is one step.
- Negative prices and balances of sellers: moved asks and fill-or-kill asks are not checked against fees, so no bound is promised.
