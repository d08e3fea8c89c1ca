# Orders, stock and streams: a Dafny model

This project models the concurrent core of a small order-processing system: an HTTP order service that
fans each order out to a gRPC inventory service and collects the results under a deadline, the
inventory service's lock-free stock reservation, an analytics service with a feedback cycle and event
counters, and the parallel start-up of each service's functions.

`dafny verify dfyconfig.toml` checks everything.

| file | what it models |
|---|---|
| `Types.dfy` | message types and integer widths |
| `Reservation.dfy` | any number of concurrent reservations as a step system over relaxed atomics |
| `Linearisation.dfy` | each such run explained by a one-at-a-time run |
| `StockSafety.dfy` | conservation, bounds, finality of rejections, progress, and what is not promised |
| `StaleReports.dfy` | when a rejection reports a quantity that is not current |
| `StockOverflow.dfy` | when stock can rise, and when the 32-bit subtraction of the loop can overflow |
| `StockCell.dfy` | the reservation loop in imperative form, with interference between its accesses |
| `ItemPath.dfy` | one item through the inventory call and back |
| `Submission.dfy` | accepting a request, fan-out, deadline arithmetic |
| `Aggregation.dfy` | the result callback, the timeout race and the HTTP outcome |
| `OrderRun.dfy` | one order from submission to response |
| `Shop.dfy`, `ShopSafety.dfy` | many orders, timers and other clients sharing one stock, and what customers may rely on |
| `ShopHistory.dfy` | what each step collects and publishes, and what whole runs are counted as |
| `ShopTime.dfy` | deadlines, timers and the clock of the composed system |
| `Confirmable.dfy` | what can become of an order, and when it can be confirmed |
| `Counting.dfy` | published events and the two counters |
| `Cycle.dfy` | the feedback cycle over a bag of in-flight events |
| `Makers.dfy` | parallel construction in the C++ and in the Go services |

## How concurrency is modelled

A stock cell is its modification order, the sequence of all values it has held. All its operations are
relaxed, so a load or a failed compare-exchange may return any entry that is not older than what its
thread has already seen of that cell (section 6.9.2.1 [intro.races] of C++20), and a successful
compare-exchange reads the last entry (section 31.4 [atomics.order] of C++20). Spurious failures are steps
of their own. A main result about "every run" quantifies over every valid sequence of steps. The
sequential order is per SKU: relaxed atomics promise no order between different cells. It respects each thread's
own order, and an acceptance also stands after every call that had completed before it was invoked
(`AcceptancesFollowRealTime`); a rejection may stand earlier than an acceptance that had already returned,
because it may rest on a value that is no longer current.

Other clients of the inventory service may send any quantities, negative ones included. Submission and the arming
of an order's timer are separate steps, each with its own reading of the clock.

The state of the composed system carries two history variables, `owner` and `reported`, that no step's
guard reads.

Assumed of the stream library, whose code is not part of this model:

- each item call ends in exactly one collect, by response or by error, at any moment, also after the
  inventory service has reserved stock for it or before its request has arrived there;
- split delivers to every branch and merge forwards every input;
- a state reaches the callback of its own order, and callbacks and `endRequest` of one request do not overlap;
- a request may end with an error at any moment; states that arrive later still reach its callback;
- a thread runs one reservation at a time.

## Where the code and its descriptions differ

The model follows the code.

- A rejection is described as reporting the current available quantity. A relaxed load may be stale: the
  report is an upper bound (`RejectionIsFinal`). With positive quantities it can be out of date exactly when the call
  that starts asks for at least two units while at least one is left, so that another call may take some between
  its last read and its rejection, or when its thread has not seen the newest entry and the one before it is
  already too small (`StaleReportPossibleIff`, with a run in `StaleReadOverstatesStock`). While no other call takes
  a step only the second case remains (`UndisturbedStaleReportIff`).
- The inventory error mapping is described as returning no available quantity. The code returns the
  quantity of the failure, and so does `FailureResult` (`EveryPathKeepsIdentity`).
- Item failures are described as reported with their message. The inventory service's own message is not in
  the response type, so only a failed call keeps a text (`OnlyCallFailuresKeepTheirText`).
- The `OrderProcessed` event is described as made from the final order state. Every state that passes the merge
  is published (`AnOrderIsPublishedPerState`).
- The soft deadline is described as never waiting past an existing deadline. That holds exactly when the margin
  is not negative and the deadline has not passed yet (`SoftDeadlineFiresInTimeIff`).
- Reservation is described as never overdrawing stock. It never does, but a negative quantity, which only the
  order service refuses, raises stock (`NegativeQuantityRaisesStock`, `StockRisesIff`), and
  enough of them overflow the subtraction (`SubtractionOverflowsIff`).
- An answer is overwritten, 500 by 200, exactly when a deciding state is delivered after the request has ended
  with an error (`StatusIsWrittenOnceIff`, with the run in `LateTimeoutOverwrites`).
- The C++ maker group rethrows the first error recorded, which need not be the root cause
  (`FirstRecordedIsThrown`, `RootCauseMayBeLostIff`).
- The Go maker group skips a maker that is not configured and accepts one that returns nothing, so a normal return
  does not mean that every function is built (`NormalReturnIsCompleteIff`).

## Model

| member | source | states |
|---|---|---|
| Reservation.StepKeepsInv | inventoryservice/internal/functions/inventory_item/get_inventory_item_data.hpp:45-56 | every load, success, genuine or spurious failure and rejection, by any thread, keeps: one writer per entry, conservation, sound local variables, per-thread coherence and program order |
| Reservation.RunKeepsInv | inventoryservice/internal/functions/inventory_item/get_inventory_item_data.hpp:45-56 | the same over whole runs of any number of calls |
| Linearisation.EveryRunHasSequentialOrder | inventoryservice/internal/functions/inventory_item/get_inventory_item_data.hpp:47-56 | for any quantities, each completed call for a SKU stands once in an order that respects every thread's program order and the modification order, and reserving one at a time in that order gives every call its actual outcome and the actual stock |
| Linearisation.AcceptancesFollowRealTime | inventoryservice/internal/functions/inventory_item/get_inventory_item_data.hpp:47-53 | an accepted call writes a newer entry than all that any call for the SKU, accepted or rejected, by whatever thread, had read or written when it completed before that call was even invoked |
| Linearisation.UnknownSkuIsRefused | inventoryservice/internal/functions/inventory_item/get_inventory_item_data.hpp:43-46 | a SKU without a cell is refused at once with nothing available |
| StockSafety.StockIsConserved | inventoryservice/internal/functions/inventory_item/get_inventory_item_data.hpp:47-54 | in every reachable state, for any quantities, initial stock = stock + accepted quantities, and stock is not negative |
| StockSafety.NothingIsOversold | inventoryservice/internal/functions/inventory_item/get_inventory_item_data.hpp:47-54 | with non-negative quantities accepted quantities stay within the initial stock, every entry of a cell lies between 0 and the initial stock, and no subtraction overflows in any pass of the loop, including attempts that fail on a stale value |
| StockSafety.StockFallsIffAcceptedAreNonNegative | inventoryservice/internal/functions/inventory_item/get_inventory_item_data.hpp:48-53 | a cell never rises if and only if no accepted quantity is negative |
| StockOverflow.StockRisesIff | inventoryservice/internal/functions/inventory_item/get_inventory_item_data.hpp:48-53 | for any requests, some schedule of them raises the stock of the SKU if and only if one of them asks for a negative quantity of it |
| StockSafety.NegativeQuantityRaisesStock | inventoryservice/internal/functions/inventory_item/get_inventory_item_data.hpp:48-51 | a run in which a negative quantity raises the initial stock and the next subtraction leaves 32 bits |
| StockOverflow.SubtractionsFit | inventoryservice/internal/functions/inventory_item/get_inventory_item_data.hpp:48-51 | while initial stock and everything the negative quantities among the requests give back fit in 32 bits together, so does every entry and every subtraction of every run |
| StockOverflow.SubtractionOverflowsIff | inventoryservice/internal/functions/inventory_item/get_inventory_item_data.hpp:48-51 | for any requests, some schedule of them makes the subtraction overflow if and only if the initial stock plus the units that their negative quantities give back exceed the 32-bit maximum |
| StockSafety.RejectionIsFinal | inventoryservice/internal/functions/inventory_item/get_inventory_item_data.hpp:48-74 | a quantity rejected on a possibly stale read exceeds the stock in every later state, and the reported quantity bounds the stock from above, as long as no negative quantity has been accepted |
| StockSafety.FailuresAreChargedToRivals | inventoryservice/internal/functions/inventory_item/get_inventory_item_data.hpp:48-55 | each genuine compare-exchange failure of a call is charged to a different successful call of another execution |
| StockSafety.AttemptsAreBounded | inventoryservice/internal/functions/inventory_item/get_inventory_item_data.hpp:47-55 | with positive quantities a call - accepted, still running or rejected after lost races - makes at most max(0, first observed value - quantity + 1) attempts, spurious failures apart |
| StockSafety.AttemptsOfRunAreBounded | inventoryservice/internal/functions/inventory_item/get_inventory_item_data.hpp:47-55 | the same bound on the success and the genuine compare-exchange failures that occur in a whole run, measured from the entry that its first load returned |
| StockSafety.NoCallIsStuck | inventoryservice/internal/functions/inventory_item/get_inventory_item_data.hpp:47-56 | no call waits for another: it can always load, is rejected once what it read is too small, and in its loop succeeds while it holds the current value, fails on a newer one and may fail spuriously |
| StaleReports.StaleReportPossibleIff | inventoryservice/internal/functions/inventory_item/get_inventory_item_data.hpp:47-74 | with positive quantities and whatever other calls do, a call that starts now can be rejected with a quantity that is not current at that moment if and only if it asks for at least two units while at least one is left, or its thread has not seen the newest entry and the entry before it is already too small |
| StaleReports.UndisturbedStaleReportIff | inventoryservice/internal/functions/inventory_item/get_inventory_item_data.hpp:47-74 | the same while no other call takes a step: then only the second case remains |
| StaleReports.InformedThreadReportsCurrent | inventoryservice/internal/functions/inventory_item/get_inventory_item_data.hpp:47-74 | while no other call takes a step, a thread that has read or written the newest entry is told the current quantity |
| StockSafety.StaleReadOverstatesStock | inventoryservice/internal/functions/inventory_item/get_inventory_item_data.hpp:47-74 | a run that reports 25 available when 5 are left |
| StockCell.AtomicStock.Load | inventoryservice/internal/functions/inventory_item/get_inventory_item_data.hpp:47-47 | a relaxed load returns some entry not older than the one already seen |
| StockCell.AtomicStock.CompareExchangeWeak | inventoryservice/internal/functions/inventory_item/get_inventory_item_data.hpp:49-51 | success appends the desired value right after an entry equal to the expected one; failure writes nothing and returns an entry; a failure with an equal value is spurious |
| StockCell.Reserve | inventoryservice/internal/functions/inventory_item/get_inventory_item_data.hpp:43-56 | the loop, under interference with any quantities, ends, and writes exactly one entry, the last, smaller by the quantity, or writes none and returns an entry too small for it; while the cell has never risen its attempts are at most max(0, first observed value - quantity + 1) |
| StockCell.GetInventoryItemData.constructor | inventoryservice/internal/functions/inventory_item/get_inventory_item_data.hpp:28-34 | three distinct cells with 100, 50 and 25 units |
| StockCell.GetInventoryItemData.Handle | inventoryservice/internal/functions/inventory_item/get_inventory_item_data.hpp:41-75 | a request is confirmed with its quantity taken from its own cell, or fails with what was read, or with 0 for an unknown SKU; other cells are untouched |
| ItemPath.ItemCall.ConsumeMessage | orderservice/internal/functions/endpoint/process_order_item_sink.hpp:39-58 | the state keeps identity, quantity and price; the request carries order id, item id, SKU and quantity of the item, and no price |
| ItemPath.ItemCall.HandleResponse | orderservice/internal/functions/endpoint/process_order_item_sink.hpp:60-76 | the result is about the item the state holds, with quantity, reserved flag and status of the response, whatever they are, and no error text |
| ItemPath.ItemCall.EndRequest | orderservice/internal/functions/endpoint/process_order_item_sink.hpp:78-105 | no result without an error; otherwise a result about the held item, not reserved, quantity 0, PROCESSING_ERROR, with the exception's own text or "unknown processing error" |
| ItemPath.BothBranchesKeepItem | inventoryservice/internal/functions/inventory_item/get_inventory_item_error.hpp:30-45 | both branches keep the item, whatever its price, and a failure becomes an OUT_OF_STOCK result with its quantity and text |
| ItemPath.EveryPathKeepsIdentity | inventoryservice/internal/functions/endpoint/process_order_item_source.hpp:38-63 | reserved, refused or failed, the collected result carries order id, item id, SKU, quantity and price, and says reserved exactly when stock was taken; a refusal passes on the quantity that was read, zero only if that was zero |
| ItemPath.OnlyCallFailuresKeepTheirText | orderservice/internal/functions/endpoint/process_order_item_sink.hpp:65-101 | the inventory service's error text is lost; a failed call's text is kept as it is, and any other failure reads "unknown processing error" |
| Submission.ItemParsesIffWellFormed | orderservice/internal/functions/endpoint/process_order_source.hpp:86-100 | an item is accepted exactly when quantity is a positive 32-bit integer, a price, if any, is a number, and item id and SKU are texts; it then holds what the fields say, a missing price being zero; and for each reason, exactly when it is the one reported |
| Submission.Int32Range | orderservice/internal/functions/endpoint/process_order_source.hpp:209-216 | a number counts as a 32-bit integer exactly when it is whole and within -2^31 and 2^31 - 1 |
| Submission.ReadOrder | orderservice/internal/functions/endpoint/process_order_source.hpp:61-108 | a request is accepted exactly when it is well formed; the order then has the right ids, times and customer, one stamped item per element, holding what the element says, and the total of its items; otherwise the first fault is reported |
| Submission.BeginRequest | orderservice/internal/functions/endpoint/process_order_source.hpp:58-123 | acceptance gives the order as read, sets the deadline to the earlier of the caller's and start + timeout and leaves the answer unset; refusal answers 400 with the text of its reason |
| Submission.ProcessOrderItems | orderservice/internal/functions/order/process_order_items.hpp:26-36 | one item out per item in, stamped with the order id, which changes nothing for an accepted order |
| Submission.SoftDeadlineFiresInTimeIff | orderservice/internal/functions/order/soft_deadline.hpp:38-44 | the timer fires by the deadline exactly when margin >= 0 and the deadline has not passed, exactly the margin before it whenever that much time remains, and at once when less remains; without a deadline it waits the margin |
| Aggregation.OrderRequest.OnState | orderservice/internal/functions/endpoint/process_order_source.hpp:131-169 | the callback: nothing once answered; otherwise it keeps the state's items, answers on a timeout or the last item, once, with 200, id, status, total and the list of results, and returns whether it has answered |
| Aggregation.MakeResponse | orderservice/internal/functions/endpoint/process_order_source.hpp:244-275 | the response lists every result in order with its own item id, SKU, quantity, reserved flag and status, and its error text if it has one |
| Aggregation.OrderRequest.OnEnd | orderservice/internal/functions/endpoint/process_order_source.hpp:180-192 | an error end writes 500 and its text into an empty answer only, and changes nothing else |
| Aggregation.FirstDecisionAnswersOnce | orderservice/internal/functions/endpoint/process_order_source.hpp:135-168 | for any sequence of states, the first timeout or completion answers once from the results up to it, and nothing later changes anything |
| Aggregation.NoAnswerWhileUndecided | orderservice/internal/functions/endpoint/process_order_source.hpp:138-143 | until then all results are kept and nothing is answered |
| Aggregation.AnsweredIffDecided | orderservice/internal/functions/endpoint/process_order_source.hpp:136-168 | done is called once and 200 written exactly when some state has decided, else neither happens |
| Aggregation.DeadlineRace | orderservice/internal/functions/endpoint/process_order_source.hpp:136-168 | TIMED_OUT exactly when the timer precedes the last result; the response then lists the earlier results in order, field by field, with their total, or the submitted total if there are none |
| Aggregation.ArrivalOrderIsIrrelevant | orderservice/internal/functions/endpoint/process_order_source.hpp:138-160 | any permutation of the results gives the same status, total and multiset of reported items; CONFIRMED exactly when all are reserved |
| Aggregation.StatusIsWrittenOnceIff | orderservice/internal/functions/endpoint/process_order_source.hpp:162-191 | over all runs of callbacks and ends, a written status changes if and only if a deciding state arrives after an error end of an undecided request |
| Aggregation.LateTimeoutOverwrites | orderservice/internal/functions/endpoint/process_order_source.hpp:162-191 | for every order, a timeout delivered after an error end overwrites 500 by 200 |
| Aggregation.StatusIsWrittenOnce | orderservice/internal/functions/endpoint/process_order_source.hpp:162-191 | with endRequest last, a written status never changes |
| Aggregation.StatusIsOutcome | orderservice/internal/functions/endpoint/process_order_source.hpp:162-191 | the status is 200 once decided, else 500 once ended with an error, else unset |
| Aggregation.RefusalIsFinal | orderservice/internal/functions/endpoint/process_order_source.hpp:117-121 | no end of the request replaces an answer with status 400, whatever its text |
| OrderRun.BeginEstablishesInv | orderservice/internal/functions/endpoint/process_order_source.hpp:104-116 | an accepted order starts with every item missing and the whole total outstanding |
| OrderRun.ItemDoneKeepsInv | orderservice/internal/functions/order/map_order_item_result_to_order_state.hpp:36-44 | each item result keeps: results + missing items = items, total of results + total of missing items = submitted total, no answer before the last item |
| OrderRun.TimerKeepsInv | orderservice/internal/functions/order/map_to_order_state.hpp:32-40 | the timeout state keeps the invariant and forces an answer from what has arrived |
| OrderRun.EndKeepsRunInv | orderservice/internal/functions/endpoint/process_order_source.hpp:180-191 | an end of the request with an error, at any moment, keeps the invariant, writes 500 if there is no response yet, and never replaces the response |
| OrderRun.AnsweredWhenOver | orderservice/internal/functions/endpoint/process_order_source.hpp:138-168 | once the timer has fired or all items have results, the one response has been sent |
| OrderRun.CompletedResponse | orderservice/internal/functions/endpoint/process_order_source.hpp:145-168 | a response not forced by the timer carries the submitted total, lists the outcome of every item once and is CONFIRMED exactly when all are reserved |
| OrderRun.TimedOutResponse | orderservice/internal/functions/endpoint/process_order_source.hpp:138-168 | a timed-out response lists fewer results than items, each the outcome of an item of its own, with their total or the submitted one |
| ShopSafety.StepKeepsInv | orderservice/internal/app/streams.generated.cpp:41-79 | every step of the composed system, for any number of orders, other clients and requests that end with an error, keeps the global invariant |
| ShopSafety.InventoryFollowsReservation | orderservice/internal/app/streams.generated.cpp:47-48 | every composed run, seen from the inventory service, is a run of the reservation system |
| ShopSafety.ReservationIsComposed | orderservice/internal/app/streams.generated.cpp:47-48 | and every run of the reservation system, with any quantities, is part of a composed run |
| ShopSafety.NoOverselling | inventoryservice/internal/functions/inventory_item/get_inventory_item_data.hpp:45-74 | per SKU, what responses list as reserved is at most what orders hold, which is at most what left the stock plus what other clients' negative quantities gave back; without those it is at most the initial stock; also with timeouts and calls that fail after reserving |
| ShopSafety.ItemResultsAreTrue | orderservice/internal/functions/endpoint/process_order_item_sink.hpp:46-105 | every item result carries what was submitted, says reserved exactly with CONFIRMED, only for an accepted reservation of that SKU and quantity, and OUT_OF_STOCK only with a number below the quantity, which the stock does not exceed unless a negative quantity was accepted |
| ShopSafety.ListedItemsAreTrue | orderservice/internal/functions/endpoint/process_order_source.hpp:147-160 | every item listed in any response, also after a timeout, shows field by field the result of an item of that order; reserved means CONFIRMED with the ordered quantity, OUT_OF_STOCK shows a number below it that the stock does not exceed unless a negative quantity was accepted, and only a failed call shows its text |
| ShopSafety.ConfirmedMeansReserved | orderservice/internal/functions/endpoint/process_order_source.hpp:145-164 | a CONFIRMED response means an accepted reservation of its SKU and quantity for each item, which stands behind no other item of this or any other order, and the submitted total |
| ShopSafety.AnswerIsRight | orderservice/internal/functions/endpoint/process_order_source.hpp:138-168 | every sent response has the right id; without a timeout the submitted total, each item's outcome once and the right status; with one, fewer items, each with an outcome of its own, and their total or the submitted one if there are none |
| ShopSafety.ExactlyOneResponse | orderservice/internal/functions/endpoint/process_order_source.hpp:131-169 | done is called at most once, results stay below the number of items until the response, and it has been sent exactly when the timer has fired or every item has its result |
| ShopTime.SubmittedOrder | orderservice/internal/functions/endpoint/process_order_source.hpp:104-116 | a submitted order has the earlier of its caller's deadline and start + timeout, no timer, no results and no answer |
| ShopTime.RunKeepsDeadline | orderservice/internal/functions/endpoint/process_order_source.hpp:110-116 | no run changes the order, its start or its deadline |
| ShopTime.ArmedTimer | orderservice/internal/functions/order/soft_deadline.hpp:38-44 | a timer armed at some time will fire the margin ahead of the deadline, or at once if that has passed |
| ShopTime.ClockIsElapsedTime | orderservice/internal/functions/order/soft_deadline.hpp:42-43 | the clock moves by the time that passes, and by nothing else |
| ShopTime.AnsweredByDeadline | orderservice/internal/functions/order/soft_deadline.hpp:38-44 | with margin >= 0, an order whose timer is armed at any moment up to the deadline and then fired promptly has its response once the clock has passed the earlier of its caller's deadline and start + timeout, or the start if that was over then, also when its request has ended with an error before |
| ShopSafety.SuccessesAreReservations | analyticsservice/internal/functions/analytics/count_order_processed.hpp:36-39 | successful events never outnumber accepted reservations |
| ShopHistory.EveryStateIsCountedOnce | orderservice/internal/app/streams.generated.cpp:64-79 | over all orders, successes + failures = item results and timeouts that have passed the merge, and each success is a different accepted reservation |
| ShopTime.NeverTimedOutEarly | orderservice/internal/functions/order/soft_deadline.hpp:38-44 | no response says TIMED_OUT before the margin ahead of the earlier of its caller's deadline and start + timeout |
| ShopHistory.ReplyIsCollectedAndPublished | orderservice/internal/functions/endpoint/process_order_item_sink.hpp:60-76 | a reply adds exactly one result to its order, with the quantity that was reserved or read, and one event under the order's id |
| ShopHistory.FailureIsCollectedAndPublished | orderservice/internal/functions/endpoint/process_order_item_sink.hpp:78-105 | a failed call adds exactly one result to its order, with its error's text, and one event under the order's id |
| ShopHistory.OtherStepsPublish | orderservice/internal/app/streams.generated.cpp:64-79 | a timeout is published once, under the order's id, and no other step publishes or changes a result |
| Confirmable.OrderIsConfirmableIff | orderservice/internal/app/streams.generated.cpp:41-79 | without other clients, and with any number of other orders, some run takes an accepted order to CONFIRMED if and only if the stock covers what it asks for, SKU by SKU |
| Confirmable.OrderMayTimeOut | orderservice/internal/app/streams.generated.cpp:49-56 | every accepted order has a run that ends TIMED_OUT with no items and the submitted total |
| Confirmable.OrderCanBeAnswered | orderservice/internal/functions/endpoint/process_order_item_sink.hpp:78-105 | from every reachable state every order can still be answered, even if no reservation makes progress and no time passes |
| Counting.Counters.Count | analyticsservice/internal/functions/analytics/count_order_processed.hpp:29-40 | exactly one counter goes up by one, or from 2^64 - 1 to 0; while fewer than 2^64 were counted the counters are the numbers of successes and failures; the event is passed on |
| Counting.EventOfState | orderservice/internal/functions/order/map_to_order_processed.hpp:34-46 | id, status and time are the state's, the item counts are those of its items and of its reserved ones, and a reason stands exactly with a status other than CONFIRMED |
| Counting.EventsOfMappedStates | orderservice/internal/functions/order/map_order_item_result_to_order_state.hpp:36-44 | the event of one mapped item result and of a mapped timeout, and the totals of both states |
| Counting.CountsRefineStates | orderservice/internal/functions/order/map_to_order_processed.hpp:34-46 | successes + failures = number of states, and successes = number of reserved item results, for any sequence of pipeline states |
| Counting.AnOrderIsPublishedPerState | orderservice/internal/app/streams.generated.cpp:58-79 | an order of n items with its timer is published n + 1 times, as successful once per reserved item; every event names the order and that of the timer counts no items |
| Cycle.Graph.Build | analyticsservice/internal/app/streams.generated.cpp:133-142 | the sequence of connections builds exactly the edges along which events move |
| Cycle.AdvanceUntilSettled | analyticsservice/internal/functions/cycleanalytics/advance_cycle_analytics.hpp:30-33 | an event is advanced max(1, 3 - value) times, keeping key and kind; after each time but the last it takes the continue branch alone, after the last the complete branch alone, as its settled form |
| Cycle.RunKeepsOwed | analyticsservice/internal/app/streams.generated.cpp:133-142 | over every run, outputs so far plus outputs owed equal the settled inputs, event by event, and each delivery uses up one unit of weight |
| Cycle.EveryScheduleTerminates | analyticsservice/internal/functions/cycleanalytics/continue_cycle_analytics.hpp:25-31 | the number of deliveries is bounded by the arrivals alone, and the bound is reached exactly when nothing is in flight |
| Cycle.OutputIsScheduleIndependent | analyticsservice/internal/functions/cycleanalytics/complete_cycle_analytics.hpp:25-31 | at rest, the bag of outputs is the bag of inputs with each counter at max(3, value + 1) and key and kind kept |
| Cycle.EveryInputHasCompletedRun | analyticsservice/internal/app/streams.generated.cpp:133-142 | every sequence of inputs has a run in which all arrive and nothing is left in flight |
| Cycle.Confluence | analyticsservice/internal/app/streams.generated.cpp:133-142 | two completed runs over the same bag of inputs have the same bag of outputs and the same length |
| Cycle.CountersNeverOverflowIff | analyticsservice/internal/functions/cycleanalytics/advance_cycle_analytics.hpp:31-32 | some schedule increments the largest 64-bit counter if and only if some input carries it |
| CppMakers.StepKeepsInv | orderservice/internal/app/functions.generated.cpp:58-69 | every step of every task keeps the invariant and a recorded error |
| CppMakers.CallOutcome | orderservice/internal/app/functions.generated.cpp:222-226 | the call ends only after all tasks, returns exactly when every function was built, and otherwise rethrows a failed task's error |
| CppMakers.FirstErrorStays | orderservice/internal/app/functions.generated.cpp:63-68 | the recorded error is never overwritten and is set exactly when some task has failed |
| CppMakers.FirstRecordedIsThrown | orderservice/internal/app/functions.generated.cpp:65-67 | the call rethrows the error of the task that takes the mutex first |
| CppMakers.RootCauseExists | orderservice/internal/app/functions.generated.cpp:63-68 | behind a rethrown error some task failed on its own account |
| CppMakers.AnyOwnFailureMayBeThrown | orderservice/internal/app/functions.generated.cpp:58-67 | any task's own failure, a null result included, may be the one that is rethrown |
| CppMakers.RootCauseMayBeLost | orderservice/internal/app/functions.generated.cpp:64-66 | a run that rethrows a reaction to cancellation instead of its cause |
| CppMakers.RootCauseMayBeLostIff | orderservice/internal/app/functions.generated.cpp:63-68 | for any number of tasks and any set of makers that fail when they see the cancellation, some run rethrows such a reaction if and only if there is such a maker and a second task |
| CppMakers.WithoutReactionsCauseIsThrown | orderservice/internal/app/functions.generated.cpp:63-68 | while no maker fails because of the cancellation, the rethrown error is a task's own |
| GoMakers.WorkflowMakerGroup.OnReturn | automationservice/internal/app/functions.generated.go:377-384 | the first error is recorded together with the cancellation, later ones change nothing |
| GoMakers.WorkflowMakerGroup.OnDrained | automationservice/internal/app/functions.generated.go:386-390 | Wait cancels and returns the recorded error |
| GoMakers.FirstErrorIsRootCause | automationservice/internal/app/functions.generated.go:377-390 | before Wait ends cancellation implies a recorded error; that error is never overwritten, never a reaction to cancellation and never from a maker that saw it; Wait ends after all makers and reports none exactly when none failed |
| GoMakers.MakerMayReactIff | automationservice/internal/app/functions.generated.go:359-364 | a maker can see the cancellation and fail with it if and only if two makers are configured |
| GoMakers.MissingFunctionIsUnnoticedIff | automationservice/internal/app/functions.generated.go:75-81 | after any run: no error is returned and some function is missing if and only if every configured maker returned a nil error and some maker was not configured or returned no function |
| GoMakers.NormalReturnIsCompleteIff | automationservice/internal/app/functions.generated.go:75-81 | a return without error means that every function is built, in all runs, if and only if every maker is configured and none may return neither function nor error |
| GoMakers.MissingFunctionGoesUnnoticed | automationservice/internal/app/functions.generated.go:75-81 | one maker that is not configured, or returns nothing: a run without an error in which its function is missing |

## Left out

- StockCell.Reserve: asks that spurious failures, and rivals that raise the cell while the call runs, are finitely many (by numbers given as a parameter), because otherwise the loop need not end; `Reservation` has neither restriction
- StockCell.GetInventoryItemData.Handle: the same two assumptions about the other threads
- StockSafety.AttemptsAreBounded: for positive quantities only, since with zero quantities entries need not fall
- StaleReports.StaleReportPossibleIff: for positive quantities only, which is what the order service sends
- Submission.BeginRequest: the text of a JSON library exception, the clock and new ids are parameters
- HTTP, gRPC, Kafka and Temporal transport, endpoints and connectors: thin wrappers around libraries that are not part of this model
- the connect calls of the order and inventory graphs: their wiring is the set of steps of `Shop`, not a mutated graph
- two concurrent requests with the same X-Request-ID: how the library tells their states apart is not part of this model
- the cancellation token that endRequest triggers, and states that the library itself might put on the item sink's error stream
- the missing-configuration error paths of SoftDeadline, and overflow of time points
- the check, before any task starts, that every C++ maker is configured: a plain list of conditions
- joins, substreams, automation stream functions, serdes, configuration, start and stop of services, scripts
- the processed_at time of a response and its content type
- rounding: prices and totals are exact reals, so that totals do not depend on the order of addition
