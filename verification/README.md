# Verification of the trading core

A Dafny model of the parts of the trading application in which state, order and
arithmetic interact, with proofs about all inputs and all runs.
`dafny verify dfyconfig.toml` checks everything.

**Position ledger** (`Ledger`, `PositionTable`, `Matching`, `CloseOutcome`, `ClosedRecords`,
`PriceOrder`, `LedgerRuns`, `Repackaging`). Each account keeps a price-ordered list of lots. An open
fill inserts a lot; a close fill runs two matching passes that may split a lot;
repackaging rebuilds the list on a price grid. The class `PositionRecordTable` edits the
list in place, loop by loop, and is proved to do what the functions of `Ledger` say;
the theorems are about those functions. Read in the order in which a close scans it
(long: from the back, short: from the front), a table of either kind is matched by one
and the same function, so nearly all results hold for both kinds.

Neither pass of a short close, nor the second pass of a long close, tests whether a
record is already complete. `Matching.CloseExact` is the condition under which a close is
right nevertheless, and `CloseConservesExactly` shows that the lots are conserved if and
only if it holds. For tables in price order without completed records it is always true
of a long close, and true of a short close exactly when the size stays within what
`sizeofOrderWithPnl` returns or nothing is profitable. `ShortMixedCloseFails` and
`RepeatedCloseFails` are inputs for which the open size is 0 while a lot is still open:
the short close that mixes profitable and losing lots, and two fills of one close with no
deletion of completed records between them.

**Accounts** (`TradeAccounts`, `FillTraces`). The position, average and spread of the long
and the short account stay in step with the tables they feed; their other fields are told
from the fills alone.

**Orders** (`OrderAccounts`, `OrderEvents`, `TerminalOnce`, `LiveOrders`, `OrderTerms`,
`OrderMap`, `FilledShares`, `LiveCounters`, `CounterLeaks`). The order hash with its
callbacks, and the trade account with its order map and live counters, as classes over an
exchange that may report anything at any time. Orders are shared between the two through
pointers in the program; here an order is known by its request id.

What the counters count (`LiveCounters`) is not quite what is live (`CounterLeaks`): an
order that the exchange ends on its own (a cancel nobody asked for, a late rejection)
stays counted for ever, and so does the filled part of an order cancelled on request.
`CountersAreLiveExactly` says that a counter is the size of the orders that work if and
only if its side has no such order with shares. Since too many live orders start a panic
close, leaked shares can keep starting one (`LeakPanic`).

**Redis client** (`Resp`, `RespReader`, `Cluster`, `Pipeline`). The printer and the
parsers of the Redis serialization protocol (RESP), sections "Arrays", "Bulk strings",
"Simple strings", "Simple errors" and "Integers"; reading from a socket whose bytes arrive
in any chunks; commands over many keys and many commands over many servers.

**Trading loop** (`PanicClose`, `CloseOrders`, `CaseChoice`, `LoopRequests`, `SoftClose`,
`PanicRefusal`). Trigger and case selection, panic and soft close as a state machine over
requests and rounds, and the exact conditions on which the loop ends. Together with the
order account, which refuses orders of more than 30 units, a panic close over a larger
difference is refused and never ends.

**Stored records** (`StoredRecords`, `StoredForm`), **requote ladder** (`Requote`,
`RequotePlacing`) and **price bar** (`PriceBar`). `Options` holds the type of values that may be missing.

Most operations are functions that a class is proved to follow. What they must come to is
stated once more without them, in literal fields and values, over whole runs:
`ClosedRecords`, `FillTraces`, `OrderEvents`, `OrderTerms`, `OrderMap`, `FilledShares`,
`CloseOrders`, `CaseChoice`, `LoopRequests` and `StoredForm`.

Prices are `real`. Sizes and ids are 32-bit and wrap as in the program.

Where code and documentation differ, the code is modelled:

- `read_line` is documented to return a blank line once `max_size` bytes are read; the
  counter it compares is never increased, so the limit never applies
  (src/libs/redis/redisclient.h:2517-2542).
- `sunion` returns the size of the caller's set when the keys live on several servers, but
  the size of the server's answer when they live on one (1450-1479); the two are the same
  exactly when the answer covers the caller's set.
- An error reply loses its first five bytes, although only "-ERR " is to be dropped, as
  for single-line replies (2234-2237); an integer reply of a pipelined command is kept in
  32 bits (2487-2514). `Readable` is the exact condition on a reply.
- `updatePrice` documents minimum and maximum of the interval; an interval without a trade
  has no bar of its own, so the bar is that of the latest interval that saw one
  (src/config/SymbolConfig.h:195-218).
- Repackaging leaves the table out of price order as soon as it builds two lots
  (src/trade/PositionRecordTable.h:403-409 against the ordering described at 217-219).
- A panic close whose order is refused fails and is then never ended, even when the
  positions become equal (src/trade/TradeCase.cpp:404-412, src/trade/TradeInstance.cpp:410-423).
- The soft close overwrites the failure of a refused order, and does not stop at equal
  positions before it looks at its price (src/trade/TradeCase.cpp:483-529).
- A soft close is meant to avoid a loss, but takes the buying back of a short position
  below its average for one, and that above it for none (src/trade/TradeCase.cpp:510-514,
  547-551); `CloseOrders.Losing` spells it out.
- A first estimate that comes again unchanged takes the place of the second
  (src/config/SymbolConfig.h:303-322).

## Model

| member | source | states |
|---|---|---|
| PositionTable.PositionRecordTable.RecordOpenPosition | src/trade/PositionRecordTable.h:229-249 | the in-place insertion gives the table with the lot before the first lot strictly beyond its price, and the new size and average |
| PositionTable.PositionRecordTable.RecordClosePosition | src/trade/PositionRecordTable.h:266-348 | both in-place passes together give the two-pass match of the table's scan order, with size, average and profit |
| PositionTable.PassFromFront | src/trade/PositionRecordTable.h:295-312 | the short loop, splitting in place, computes the matching function front to back |
| PositionTable.PassFromBack | src/trade/PositionRecordTable.h:276-293 | the long loop over reverse iterators computes the same matching function on the reversed list |
| PositionTable.PositionRecordTable.DeleteCompletePosition | src/trade/PositionRecordTable.h:353-361 | erasing in place leaves exactly the open records in their order |
| PositionTable.PositionRecordTable.SizeofOrderWithPnl | src/trade/PositionRecordTable.h:196-215 | size (mod 2^32) and gain are the sums over the open lots profitable at the price |
| PositionTable.PositionRecordTable.StartingPrice | src/trade/PositionRecordTable.h:416-422 | of a non-empty table in price order the minimum of all lots' prices for long, the maximum for short; 0 for an empty table |
| PositionTable.PositionRecordTable.EndingPrice | src/trade/PositionRecordTable.h:424-430 | of a non-empty table in price order the maximum of all lots' prices for long, the minimum for short; 0 for an empty table |
| PositionTable.PositionRecordTable.Repackaging | src/trade/PositionRecordTable.h:379-413 | the table becomes the grid around the adjusted average with profit 0 and the same size |
| Matching.MatchConserves | src/trade/PositionRecordTable.h:276-312 | a pass never frees more open shares than it closes, and frees exactly as many if and only if it meets no completed record it would match again |
| Matching.CloseConservesExactly | src/trade/PositionRecordTable.h:266-348 | a close leaves open lots summing to the new open size, and completes exactly its size, if and only if CloseExact holds; otherwise too much stays open |
| CloseOutcome.CloseLeavesLots | src/trade/PositionRecordTable.h:266-348 | an exact close leaves the lots of the simple reference: profitable lots first, then the others, in scan order |
| CloseOutcome.CloseValues | src/trade/PositionRecordTable.h:266-348 | the cost leaving the open lots is the close's value less the signed profit booked |
| CloseOutcome.SplitAverage | src/trade/PositionRecordTable.h:271-274 | the average after closing a then b is that after closing a + b |
| CloseOutcome.SplitClose | src/trade/PositionRecordTable.h:266-361 | closing a, deleting, closing b, deleting gives the very table that closing a + b and deleting gives, whenever the one close is exact |
| CloseOutcome.PredictionIsRealised | src/trade/PositionRecordTable.h:196-215 | a close within the predicted size is exact and touches no losing lot; a close of the predicted size raises profit by the predicted gain and leaves nothing profitable open |
| ClosedRecords.RecordsAreEntered | src/trade/PositionRecordTable.h:88-115 | in every run a completed record is closed in full with the profit of its two prices, and an open one has no closing entries |
| ClosedRecords.CloseBooks | src/trade/PositionRecordTable.h:266-348 | an exact close books exactly its size, and exactly the profit it adds to the table, under its own order id, price and new average, and nothing under any other |
| ClosedRecords.RunBooks | src/trade/PositionRecordTable.h:266-361 | in every allowed run the completed shares of each order and price are those of its closing fills since the last deletion |
| ClosedRecords.RecordsHaveOrigins | src/trade/PositionRecordTable.h:52-107 | in every run each record, whole or split off, has the order, price and sign of an opening fill and the average after that fill |
| ClosedRecords.OpenParts | src/trade/PositionRecordTable.h:229-249 | an opening fill adds one record of its id, size and price with the average after it, and changes no other |
| ClosedRecords.DeletesExactly | src/trade/PositionRecordTable.h:353-361 | deleting keeps every open record as often as it was there, and no completed one |
| PriceOrder.LongCloseIsExact | src/trade/PositionRecordTable.h:276-330 | in a long table in price order without completed records every close is exact, although the second pass does not test for completion |
| PriceOrder.ShortCloseIsExact | src/trade/PositionRecordTable.h:295-345 | in such a short table a close is exact if and only if its size is at most the predicted size or nothing is profitable |
| PriceOrder.OpenKeepsOrder | src/trade/PositionRecordTable.h:229-249 | opening keeps the price order |
| PriceOrder.CloseKeepsOrder | src/trade/PositionRecordTable.h:266-348 | closing, with its splits, keeps the price order |
| PriceOrder.DeleteKeepsOrder | src/trade/PositionRecordTable.h:353-361 | deleting completed records keeps the price order |
| PriceOrder.EndsAreExtreme | src/trade/PositionRecordTable.h:416-430 | in price order the first and last prices bound every lot: minimum and maximum for long, maximum and minimum for short |
| PriceOrder.OpenArrivesLast | src/trade/PositionRecordTable.h:239-247 | a new lot goes behind all open lots of its own price and disturbs no other price |
| PriceOrder.CloseKeepsArrivals | src/trade/PositionRecordTable.h:266-348 | an exact close only removes lots from the arrival order at each price |
| LedgerRuns.RunInvariant | src/trade/PositionRecordTable.h:229-361 | in every run size equals the sum of the open lots, prices are in order, the lots cost opened minus closed value plus signed profit, and the average is worth opened minus closed value since last flat |
| LedgerRuns.AccountingMethodsAgree | src/trade/PositionRecordTable.h:229-361 | up to the first return to flat, cost of the open lots minus average times size equals the signed profit |
| LedgerRuns.FlatProfit | src/trade/PositionRecordTable.h:229-361 | whenever a run is flat its profit is the signed difference of all close values and all open values |
| LedgerRuns.LotsKeepArrivalOrder | src/trade/PositionRecordTable.h:229-361 | in every run the open lots at a price are a subsequence of the arrivals at that price |
| LedgerRuns.TidyRunsAreAllowed | src/trade/PositionRecordTable.h:266-361 | runs that delete between closes, and keep short closes within the predicted size unless nothing is profitable, have only exact closes |
| LedgerRuns.ShortMixedCloseFails | src/trade/PositionRecordTable.h:295-345 | a run from the empty table whose short close over a profitable and a losing lot leaves size 0 with a lot still open |
| LedgerRuns.RepeatedCloseFails | src/trade/PositionRecordTable.h:314-345 | a run from the empty table, long or short, whose second close fill before a deletion books a completed record again and leaves size 0 with a lot still open |
| Repackaging.LayOutGrid | src/trade/PositionRecordTable.h:382-409 | the two loops build the closed-form grid of lots, ids, sizes and prices |
| Repackaging.RepackagedLots | src/trade/PositionRecordTable.h:379-413 | ceil(open size / base quantity) lots, none empty, all but the last of the base quantity, summing to the open size |
| Repackaging.RepackagedPrices | src/trade/PositionRecordTable.h:379-413 | the k-th rebuilt lot has id k + 1, the adjusted average, no profit, and a price the stated number of grid steps from that average, counted down to it over the first half and up again over the second |
| Repackaging.StepSumClosedForm | src/trade/PositionRecordTable.h:389-409 | size-weighted grid steps add up to low * (open size - base quantity * low) |
| Repackaging.RepackagedCost | src/trade/PositionRecordTable.h:379-413 | average times size minus cost of the lots is exactly mpv * low * (open size - base quantity * low), signed |
| Repackaging.RepackagingKeepsAgreement | src/trade/PositionRecordTable.h:379-413 | lot-by-lot and average accounting still agree if and only if at most one lot is built or the grid step is 0 |
| Repackaging.RepackagedOrder | src/trade/PositionRecordTable.h:403-409 | for a positive grid step the rebuilt table is in price order if and only if at most one lot is built |
| TradeAccounts.TradeAccount.CalculateSpread | src/trade/AbstractTradeAccount.h:495-512 | both spreads change only on a fill that crosses the other position, upwards when opening and downwards when closing |
| TradeAccounts.TradeAccount.OnOpenFill | src/trade/LongTradeAccount.cpp:64-98 | spread, total, last price and table of the filled account, and the other's spread, after an opening fill (short: ShortTradeAccount.cpp:63-104 with its price in force) |
| TradeAccounts.TradeAccount.OnCloseFill | src/trade/ShortTradeAccount.cpp:24-61 | total, average, tranch counter, last price and table after a closing fill (long: LongTradeAccount.cpp:23-62) |
| TradeAccounts.OpenFillKeepsStep | src/trade/LongTradeAccount.cpp:64-98 | an opening fill keeps account and table in step if and only if the 32-bit size does not overflow |
| TradeAccounts.CloseFillKeepsStep | src/trade/LongTradeAccount.cpp:23-62 | a closing fill keeps them in step if and only if it closes no more than is held |
| TradeAccounts.SpreadIsAtEquality | src/trade/AbstractTradeAccount.h:495-504 | a crossing fill sets both spreads to the distance between the other average and this one's after only the crossing shares; no other fill does |
| TradeAccounts.CloseSpreadIsAtEquality | src/trade/AbstractTradeAccount.h:505-511 | the closing branch of calculateSpread, which no closing fill calls (both calls are commented out), would set the spread to the distance between the other average and this one's after only the crossing shares |
| TradeAccounts.RunFills | src/trade/AbstractTradeAccount.cpp:402-406 | after every run of fills on both accounts totals and averages equal those of the tables |
| TradeAccounts.TablesFollowTheirFills | src/trade/AbstractTradeAccount.cpp:550-554 | each account's table goes through exactly the ledger run of that account's fills |
| FillTraces.AccountsFollowTheirFills | src/trade/ShortTradeAccount.cpp:24-104 | after every run of fills each account holds what was opened less what was closed, the prices of its own last opening and closing fills, on the short side the price at which it last caught up with the long position, and a tranch counter lowered once for each close below a multiple of the largest position (long: LongTradeAccount.cpp:23-98) |
| OrderAccounts.OrderAccount.SendLimit | src/akela/OrderAccount.cpp:296-411 | side, size limit, price test, fresh id, hash entry and posting of opening and closing limit orders |
| OrderAccounts.OrderAccount.SendChange | src/akela/OrderAccount.cpp:433-479 | the changed copy is entered under a fresh id and taken out again if sending fails |
| OrderAccounts.OrderAccount.HandleOrder | src/akela/OrderAccount.cpp:103-205 | the event switch: stage, callback and removal from the hash for every condition |
| OrderAccounts.OrderAccount.HandleFill | src/akela/OrderAccount.cpp:272-292 | a fill of a known order sets its stage when nothing stays open and calls back |
| OrderEvents.SubmittedOrder | src/akela/OrderAccount.cpp:296-411 | after any run an order of at most 30 units whose price can be set enters under the next id as it is, bought, sold or sold short by its account and purpose; any other changes nothing |
| OrderEvents.AmendedOrder | src/akela/OrderAccount.cpp:433-479 | after any run a change of at most 30 units of an order not done, cancelled or filled enters under the next id as it is, listened for only if it was sent; any other changes nothing |
| OrderEvents.EventOutcome | src/akela/OrderAccount.cpp:103-205 | after any run an event changes only its own order, its stage and marks as stated per condition, calls whom it should, and ends the listening on just the ending conditions |
| OrderEvents.FillOutcome | src/akela/OrderAccount.cpp:272-292 | after any run a fill calls back with its size, and one that leaves nothing open marks the order filled, of which then neither cancel nor change goes out |
| OrderEvents.NoticeOutcome | src/akela/OrderAccount.cpp:207-270 | after any run a notice of a cancel or of an unknown change changes just the order's stage and calls nobody |
| TerminalOnce.TerminalOnce | src/akela/OrderAccount.cpp:103-205 | in every run that hands out fewer than 2^32 ids, with any number of events, an id gets at most one terminal callback, no callback after it, and never enters the hash again |
| TerminalOnce.DeafAfterTerminal | src/akela/OrderAccount.cpp:103-292 | after it every order event and fill for the id changes nothing and calls nobody |
| TerminalOnce.IdsAreFresh | src/akela/OrderAccount.cpp:323-329 | the id handed out next is one more than the number handed out so far, and no order has had it |
| TerminalOnce.GeneratorCounts | src/akela/OrderAccount.cpp:465-476 | in every run of any length the generator is the number of ids handed out, modulo 2^32 |
| TerminalOnce.ZeroIdExactly | src/akela/OrderAccount.cpp:465-476 | the next id of a run is zero, which callers take for failure, exactly when it is a multiple of 2^32 in the count of ids handed out |
| TerminalOnce.IdsComeAgain | src/akela/OrderAccount.cpp:323-329 | a run that hands out 2^32 + 1 ids and makes two terminal callbacks for id 1 |
| TerminalOnce.NoRequestAfterEnd | src/akela/OrderAccount.cpp:413-463 | once an order has been reported done or cancelled, no cancel and no change of it is ever sent, whatever follows, as long as the client leaves the reported condition alone |
| LiveOrders.AbstractTradeAccount.PlaceOrder | src/trade/AbstractTradeAccount.cpp:354-400 | open (and close, 455-501) with the wait for the answer: id, order map and counter, or 0 with both unchanged |
| LiveOrders.AbstractTradeAccount.ReplaceOrder | src/trade/AbstractTradeAccount.cpp:588-657 | change with the wait: new id and counters moved by side and size, the old id on failure, 0 for an unknown order |
| LiveOrders.AbstractTradeAccount.Cancel | src/trade/AbstractTradeAccount.cpp:703-734 | cancel: removal of orders that cannot be cancelled, request and wait otherwise |
| LiveOrders.AbstractTradeAccount.WaitCancelAcknowledgement | src/trade/AbstractTradeAccount.cpp:669-701 | a confirmed cancel takes the open size off the counter of the order's side |
| LiveOrders.AbstractTradeAccount.OnOrderDone | src/trade/AbstractTradeAccount.cpp:228-279 | a done order leaves the map, its size leaves its counter and joins the executed total |
| LiveOrders.AbstractTradeAccount.EraseCancelled | src/trade/AbstractTradeAccount.cpp:749-754 | exactly the cancelled orders leave the map |
| OrderTerms.PlacedOrderStands | src/trade/AbstractTradeAccount.cpp:354-501 | in every run a placed order works under its id at the price asked for, of the size divided by the divisor, on the right side, with nothing filled and its callbacks set, and no other order changes |
| OrderTerms.ChangedExactly | src/trade/AbstractTradeAccount.cpp:588-657 | a change of a held order succeeds if and only if it is of at most 30 units, its price can be set, the original is not done, cancelled or filled, and sending and exchange accept it |
| OrderTerms.ChangedOrderStands | src/akela/OrderAccount.h:131-142 | in every run an accepted change brings a fresh working order on its original's side, at the new price, of the new size or else the original's, with nothing filled and the original's callbacks; the original keeps side, size and price |
| OrderTerms.SidesAlwaysFit | src/akela/OrderAccount.cpp:401-411 | in every run no order of a long account is a short sale and none of a short account a sale, and a changed order keeps the side of its original |
| OrderMap.MoveMap | src/trade/AbstractTradeAccount.cpp:228-760 | which orders each request and event puts into the order map and takes out, and what the executed total grows by |
| OrderMap.CancelOutcome | src/trade/AbstractTradeAccount.cpp:659-734 | all that a cancel of a held order, with its answer, does: the marks of the order, the listening, the open size taken off the counter of its side, and whether it succeeds |
| OrderMap.ExecutedIsExact | src/trade/AbstractTradeAccount.cpp:251 | in every run the executed total is the size of the orders reported done, each counted once |
| FilledShares.FillsAddUp | src/trade/ShortTradeAccount.cpp:63-72 | in every run the filled part of every order is the sum of the fills it was listened to for, at most its size and none for a new order (long: LongTradeAccount.cpp:64-67; closing fills 23-27 of both) |
| OrderMap.SweepSparesWhatWorks | src/trade/AbstractTradeAccount.cpp:736-760 | in every run the clean-up of cancelAll leaves every working order in the map and none marked as cancelled |
| OrderMap.ChangeCountedExactly | src/trade/AbstractTradeAccount.cpp:624-651 | for orders of any two sides the counters move the original's shares out of its own and the changed order's into theirs if and only if the stated pairs with a short sale do not occur or have sizes that make no difference |
| LiveCounters.EveryMoveKeeps | src/trade/AbstractTradeAccount.cpp:228-701 | every request with its answer, and every event, keeps the counters equal to what the orders' standing asks for |
| LiveCounters.CountersAreExact | src/trade/AbstractTradeAccount.cpp:228-701 | in every run each counter is the size of acknowledged orders of its side not done, cancelled on request or replaced, plus the filled part of those cancelled on request; never negative |
| CounterLeaks.CountersAreLiveExactly | src/trade/AbstractTradeAccount.cpp:669-701 | in every run a counter is the total size of the orders still working plus the shares it has leaked; it is exactly what works if and only if no order of its side with shares was ended by the exchange alone and none was cancelled on request when partly filled |
| CounterLeaks.RejectedOrderLeaks | src/akela/OrderAccount.cpp:189-199 | a run of one acknowledged and then rejected order after which one share is counted and none is live |
| CounterLeaks.CancelledOrderLeaks | src/trade/AbstractTradeAccount.cpp:681-696 | a run of one order, half filled and then cancelled on request, after which one share is counted and none is live |
| CounterLeaks.LeakedStays | src/trade/AbstractTradeAccount.cpp:228-701 | whatever requests and events follow, the shares a counter has leaked never become fewer |
| LeakPanic.LeakedSharesForcePanic | src/trade/TradeInstance.cpp:522-531 | once an account has leaked more shares than the limit on live orders, every round of the loop from then on ends it at equal positions and otherwise orders the difference closed once more, although no order may be working |
| LiveCounters.ReplacingKeeps | src/trade/AbstractTradeAccount.cpp:608-651 | a change keeps the order's side, so the counter moves from the old size to the new |
| Resp.ArrayRoundTrip | src/libs/redis/redisclient.h:250-264 | reading back a printed command gives exactly its arguments, of any content, and consumes exactly its bytes, if and only if count and lengths fit; otherwise it fails |
| Resp.BulkRoundTrip | src/libs/redis/redisclient.h:2254-2297 | the same for one bulk string |
| Resp.ReplyRoundTrip | src/libs/redis/redisclient.h:2487-2514 | a server's reply, with arrays of any replies, is read as what its command should be handed, leaving what follows it, if and only if it is readable; otherwise reading fails or gives something else |
| Resp.ReplyArrayRoundTrip | src/libs/redis/redisclient.h:2299-2312 | an array is read, missing values by their stand-in, if and only if it holds nothing but byte strings and missing values that fit; an array with any other element fails |
| Resp.FailureRoundTrip | src/libs/redis/redisclient.h:2496-2498 | an error is read right if and only if it is one line and begins with the word ERR; of any one-line text of four or more bytes the first four are dropped |
| Resp.IntegerWraps | src/libs/redis/redisclient.h:2499-2501 | any 64-bit integer reply is handed on modulo 2^32, as a signed number |
| Resp.NegativeLengths | src/libs/redis/redisclient.h:2254-2312 | how every negative length of a byte string and of an array is read |
| Resp.ArrayCut | src/libs/redis/redisclient.h:2444-2463 | a stream that ends anywhere inside a printed command fails because the connection is closed |
| Resp.SomeRepliesAreMisread | src/libs/redis/redisclient.h:2487-2514 | 2^31 arrives as -2^31, and of the error "-MOVED 1" there arrives "D 1" |
| Resp.ReadArrayAdvances | src/libs/redis/redisclient.h:2299-2312 | reading an array always consumes part of the stream |
| Resp.CommandBytes | src/libs/redis/redisclient.h:250-264 | the bytes of printed commands, one by one |
| Resp.ReplyBytes | src/libs/redis/redisclient.h:2487-2514 | the bytes of replies of each kind, one by one |
| Resp.FixedTexts | src/libs/redis/redisclient.h:452-455 | the stand-in for a missing value and the word an error begins with, letter by letter |
| RespReader.PrintCommand | src/libs/redis/redisclient.h:250-264 | the printing loop produces the array of bulk strings |
| RespReader.ReadNBytes | src/libs/redis/redisclient.h:2444-2463 | reads exactly n bytes of the stream however they arrive, or fails where the stream ends |
| RespReader.ReadOneLine | src/libs/redis/redisclient.h:2525-2575 | reads through the first line feed by 64-byte peeks, across any chunks, and trims the line end |
| RespReader.RecvBulkReply | src/libs/redis/redisclient.h:2254-2297 | agrees with the bulk parser of the whole stream for every chunking |
| RespReader.RecvMultiBulkReply | src/libs/redis/redisclient.h:2299-2312 | agrees with the array parser of the whole stream for every chunking |
| RespReader.RecvGenericReply | src/libs/redis/redisclient.h:2465-2514 | agrees with the parser of replies of any kind for every chunking |
| Cluster.FileKeys | src/libs/redis/redisclient.h:725-741 | every key is filed once, under its own server with its position, in the order of the keys, and nothing else is |
| Cluster.Mget | src/libs/redis/redisclient.h:725-756 | out has one entry per key, in order, each the value of its key, for any key-to-server assignment |
| Cluster.Sinter | src/libs/redis/redisclient.h:1384-1419 | exactly the members common to the sets of all keys; the caller's set for no keys |
| Cluster.SocketOfAll | src/libs/redis/redisclient.h:2377-2396 | the common socket, or -1 if and only if two keys differ |
| Cluster.Sunion | src/libs/redis/redisclient.h:1450-1479 | the caller's set with exactly the members of the sets of all keys; the size returned is that of the set if and only if there are several servers or the answer covers the caller's set |
| Cluster.SunionSizeDiffers | src/libs/redis/redisclient.h:1477-1478 | an input for which the size returned is 0 and the set has a member |
| Pipeline.Collect | src/libs/redis/redisclient.h:667-675 | each server is sent its own commands' bytes in order |
| Pipeline.ServeAll | src/libs/redis/redisclient.h:677-681 | a server parsing those bytes sees exactly those requests and answers each in turn |
| Pipeline.SendAll | src/libs/redis/redisclient.h:677-681 | each server is sent its own requests and answers on its own connection |
| Pipeline.Exec | src/libs/redis/redisclient.h:667-688 | read from sockets in whatever chunks, all commands get their own replies, however they interleave across servers, if and only if all replies are readable; else, unless it throws, each command up to the first unreadable reply of its server still has its own, and that one has another |
| StoredRecords.PositionRoundTrip | src/redis/RedisWriter.cpp:26-146 | parsing a written position returns every field if and only if no field holds a comma |
| StoredRecords.OrderRoundTrip | src/redis/RedisWriter.cpp:148-288 | the same for order records |
| StoredRecords.RedisWriter.WriteUpdate | src/redis/RedisWriter.cpp:179-267 | the three read-modify-write operations on a position, with the missing-key cases |
| StoredRecords.RedisWriter.WriteOrderTime | src/redis/RedisWriter.cpp:290-361 | the three read-modify-write operations on an order's times |
| StoredRecords.UpdateChangesItsPart | src/redis/RedisWriter.cpp:179-267 | an update replaces its own part of the record, keeps all other fields and touches no other key |
| StoredRecords.UpdatesCompose | src/redis/RedisWriter.cpp:179-267 | after any sequence of updates the record read back is the original with exactly those parts replaced |
| StoredRecords.StartedRecordIsFound | src/redis/RedisWriter.cpp:237-267 | live shares written under a missing key are found under it again if and only if the key has exactly one colon |
| StoredRecords.OrderUpdateChangesItsPart | src/redis/RedisWriter.cpp:290-361 | one time is replaced, all other fields are kept, no other key is touched |
| StoredRecords.OrderUpdatesCompose | src/redis/RedisWriter.cpp:290-361 | the same over any sequence of time updates |
| StoredForm.PositionText | src/redis/RedisWriter.cpp:26-45 | the text stored for a position, to the letter |
| StoredForm.OrderText | src/redis/RedisWriter.cpp:148-178 | the text stored for an order, to the letter |
| StoredForm.OlderRecords | src/redis/RedisWriter.cpp:81-146 | records of 10 and 12 fields are read with the missing fields empty and nothing live |
| StoredForm.StartedText | src/redis/RedisWriter.cpp:237-267 | live shares under a missing key of two parts store just the stated text under it; the other updates store nothing |
| StoredForm.FieldsAfterUpdates | src/redis/RedisWriter.cpp:179-267 | after any sequence of updates the record read back has the rif, the pif and the live shares written last, and all other fields of the original |
| StoredForm.TimesAfterUpdates | src/redis/RedisWriter.cpp:290-361 | after any sequence of time updates the order read back has each time as written last, and all other fields of the original |
| Requote.SplitOrders | src/trade/TradeCase.cpp:250-270 | the splitting loop (and that of case 6C, 1160-1171) emits the closed-form ladder, nothing for residual <= 0 |
| Requote.LadderCoversResidual | src/trade/TradeCase.cpp:250-270 | ceil(residual / base quantity) orders of 1 to base quantity, all but the last full, summing to the residual, on prices one grid step apart from the start price on |
| Requote.UnitsAddUpExactly | src/trade/AbstractTradeAccount.cpp:354-355 | after open's division the units add up to residual / divisor if and only if the remainders of the full orders and of the last make less than one unit |
| Requote.MultiplesAddUp | src/trade/AbstractTradeAccount.cpp:354-355 | with base quantity and residual multiples of the divisor nothing is lost |
| RequotePlacing.LadderPlacedExactly | src/trade/AbstractTradeAccount.cpp:354-400 | the whole ladder is placed if and only if its first and last prices are positive, its first order is of at most 30 units and every order is received well; the counter of opening orders then grows by exactly the units after the division |
| PanicClose.TradeInstance.TriggerProcessing | src/trade/TradeInstance.cpp:377-477 | the loop, with requests arriving between rounds, follows the step function of runs |
| PanicClose.TradeInstance.SpecialCases | src/trade/TradeInstance.cpp:484-531 | self destruct, start of panic and soft close, selection of a missing case, and whether a special case is in force |
| PanicClose.TradeInstance.TriggerSelection | src/trade/TradeInstance.cpp:535-589 | triggers, trade price, and on a turn of the trigger the exchange of accounts and a new case |
| PanicClose.TradeInstance.CaseSelection | src/trade/TradeInstance.cpp:591-672 | the case chosen from the positions, with the effect of destroying the previous one |
| PanicClose.TradeInstance.RunCase | src/trade/TradeInstance.cpp:407-423 | the case's run, the end of the loop, and the dropping of finished or failed cases |
| PanicClose.LoopEndsHedged | src/trade/TradeCase.cpp:377-460 | in every run the round that ends the loop runs a panic or soft close and sees equal long and short positions |
| PanicClose.PanicHolds | src/trade/TradeInstance.cpp:484-520 | once a panic close has begun and until it is disabled the case is a panic close and what trigger and case selection decide from does not change |
| PanicClose.PanicSelectsNothing | src/trade/TradeInstance.cpp:377-520 | every round in that time is the run of the panic close, begun again if asked for, and nothing else: neither trigger nor case is selected |
| PanicClose.PanicEndsExactly | src/trade/TradeCase.cpp:377-460 | with a panic close in force a round ends the loop if and only if positions are equal and the close has not failed, unless it begins anew |
| PanicClose.PanicOrdersTheDifference | src/trade/TradeCase.cpp:377-412 | a beginning panic close orders the difference of the positions (modulo 2^32) closed, in the larger account, at the market; with too many live orders again in every round |
| PanicClose.PanicCompletes | src/trade/TradeCase.cpp:415-460 | if just that order is filled the next round ends the loop, exactly when the difference had fitted 32 bits |
| PanicClose.RefusedPanicNeverEnds | src/trade/TradeCase.cpp:404-412 | after a refused close order the loop stays in the failed panic close, whatever the positions become, until panic close is enabled or disabled or live orders exceed the limit |
| PanicClose.RefusalIsReached | src/trade/TradeCase.cpp:404-412 | that state is reached by one refusal |
| CloseOrders.PanicFollowsTheMarket | src/trade/TradeCase.cpp:415-449 | in every run a panic close with its order out does nothing at an unmoved price of the side it trades on, changes the order to a moved one under the new id, and waits with the old order if the change fails |
| CloseOrders.PanicWaits | src/trade/TradeCase.cpp:451-460 | a waiting panic close leaves its order alone until positions are equal |
| CloseOrders.SoftOrdersTheDifference | src/trade/TradeCase.cpp:483-529 | a soft close that begins with different positions faces the larger one, sends nothing at a loss, and otherwise orders the difference closed at its price |
| CloseOrders.SoftFollowsItsPrice | src/trade/TradeCase.cpp:532-566 | a soft close with its order out changes it to its new price unless that is the old one or at a loss, and waits if the change fails |
| CaseChoice.TurnChooses | src/trade/TradeInstance.cpp:535-672 | in every run a turn of the trigger arranges the accounts, notes the price of the side it leaves, and starts the case the two positions call for |
| CaseChoice.FinishedCaseIsDropped | src/trade/TradeInstance.cpp:407-423 | in every run a finished or failed ordinary case is dropped and remembered, and one that leaves equal positions starts the wait for another estimate |
| CaseChoice.MissingCaseIsSelected | src/trade/TradeInstance.cpp:514-520 | in every run a missing case is selected by the positions of the accounts as arranged |
| CaseChoice.AvicennaTurns | src/trade/TradeInstance.cpp:537-549 | in every run the second trigger turns positive above the estimate, negative below, and at a quote equal to it only towards that quote |
| LoopRequests.RequestsInForce | src/trade/TradeInstance.h:280-325 | after any run those of pause, panic and soft close are in force that were asked for last, where too many live shares ask for a panic close |
| LoopRequests.IdleRounds | src/trade/TradeInstance.cpp:385-400 | a round of an ended or paused loop changes nothing, one without an estimate only the estimate |
| PanicRefusal.PlacedExactly | src/trade/AbstractTradeAccount.cpp:408-454 | an order gets an id if and only if its price is positive, it is of at most 30 traded units, and price, posting and exchange accept it |
| PanicRefusal.PanicFailsExactly | src/trade/TradeCase.cpp:404-412 | a beginning panic close fails if and only if the account refuses its order on one of those grounds |
| PanicRefusal.LargePanicNeverEnds | src/akela/OrderAccount.cpp:296-362 | a panic close over a difference of more than 30 traded units is always refused, and the undisturbed loop then never ends, whatever the positions become |
| SoftClose.SoftEndsExactly | src/trade/TradeCase.cpp:483-576 | with a soft close in force and no panic a round ends the loop if and only if positions are equal and, while the soft close has sent no order, there are no accounts or the price is at a loss; a panic close left over ends it unless it has failed |
| SoftClose.RefusedSoftGoesOn | src/trade/TradeCase.cpp:518-529 | a soft close whose order is refused does not fail, and the next round with equal positions ends the loop |
| SoftClose.SoftRefusalIsReached | src/trade/TradeCase.cpp:518-529 | that is reached from the start by one request and one round |
| SoftClose.SoftPassesEquality | src/trade/TradeCase.cpp:483-529 | a soft close that starts with equal positions, selected accounts and no loss does not end the loop but orders a close of nothing |
| SoftClose.EqualityIsPassed | src/trade/TradeCase.cpp:483-529 | an input for it |
| PriceBar.Symbol.UpdatePrice | src/config/SymbolConfig.h:203-218 | the bar and the previous bar after a price |
| PriceBar.Symbol.ResetInterval | src/config/SymbolConfig.h:303-322 | the estimates after the end of an interval, and the start of the next |
| PriceBar.BarIsOfLatestInterval | src/config/SymbolConfig.h:203-218 | for every interleaving of prices and resets the bar is first, minimum, maximum and last of the latest interval that saw a trade, and the previous bar that of the one before |
| PriceBar.EstimatesAreTheLatest | src/config/SymbolConfig.h:303-322 | after any events the first estimate is the last delivered for it, and the second the last delivered for it or the last first one that came again unchanged |
| PriceBar.RepeatedEstimateMoves | src/config/SymbolConfig.h:303-322 | an input on which a repeated first estimate replaces the second |

## Left out

- Rounding, infinities and NaN of `double`: prices and averages are `real`.
- Threads and locks: each callback is one step, and so is each request with the wait for its answer. An order filled or done before its acknowledgement is heard is not modelled: `open` then returns 0, and the done event takes a size off the counter that was never added.
- The `std::list` edited in place is a `seq` field; a pass keeps the list as the part visited and the rest. Iterator invalidation is not modelled.
- Shared pointers to orders are request ids into a store of orders; an order submitted under an id still in the hash after 2^32 requests is not stored.
- TerminalOnce.TerminalOnce: speaks of runs that hand out fewer than 2^32 ids, because ids repeat after that and the promise then fails (TerminalOnce.IdsComeAgain).
- LiveCounters.CountersAreExact: speaks of exchanges that report a fill no larger than the order, end an order once, accept a change only of an order still working, and confirm a cancel with size minus filled, and of fewer than 2^32 requests; so do the run theorems of `OrderTerms`, `OrderMap` and `FilledShares`; what the exchange does when a partly filled order is changed is not visible in the program.
- RespReader.RecvGenericReply: like all readers works on the bytes the peer will send before it closes; socket errors other than a closed connection and interrupted calls are not part of this model.
- Cluster.Sunion: needs at least one key, as the program's assertion does.
- StoredRecords.RedisWriter.WriteUpdate: for stored values of 10, 12 or at least 15 fields; for other numbers the program reads past the end of its list.
- PanicClose.TradeInstance.TriggerProcessing: the sizes in the quotes, the price computed for the soft close and the stage in which an ordinary case leaves a round are inputs; the writes to Redis, the pause of 60 seconds and the cancelling of orders when a case is destroyed are not modelled.
- A soft close started with equal positions before any account was selected dereferences a null pointer in the program; here it ends.
- TradeAccounts.TradeAccount.CalculateSpread: a crossing at a position of 0, where the program divides by zero in floating point.
- TradeAccounts.TradeAccount.OnCloseFill: needs a maximum position above 0, by which the program divides; fill sizes kept in the orders belong to the order modules.
- Repackaging.RepackagedLots: needs a base quantity above 0, by which the program divides; so do Requote.SplitOrders and the divisor of an account.
- The pending-order queue, trade-done callbacks and the MMF, FCO and SCO hooks; cancelAll is its cancels followed by EraseCancelled.
- The other trade cases, quantityToOpen, roundInForce, tranch counters beyond their decrement on a close, quotes, skew and symbol stack.
- Configuration, logging, command line, message queues, market data, the Akela and Avicenna libraries and the remaining one-command Redis wrappers: they would add no property of this kind.
